# UName*It: verified models of its indexes, integrity machinery and wire protocol

UName*It keeps a name space in an object database. On top of the database it maintains indexes and
integrity checks by hand, and it talks to its clients over a framed, checked byte stream. This
project models those parts in Dafny, in the form the program has them: objects and structures are
classes whose fields are updated in place, database attributes are map fields, loops are loops, and
each method is proved against a specification that does not mention its body.

| part | files | main results |
|---|---|---|
| address-block radix tree (libudb/inet.c) | InetBits, InetTree, LongestMatch, InetItems, InetRegions, InetCache, InetIndex | InetIndex.Inet.RunAll |
| search for a vacant subnet (libudb/inet.c) | InetBuffer, InetAuto, InetSearch, InetSubnets | InetSearch.AutoSubnet, InetSubnets.FreeSubnet |
| back references and deletion (libudb/relation.c) | RelationLists, References, Transactions | Transactions.Delete, Transactions.Transaction, Transactions.History |
| loop search (libudb/relation.c) | LoopCheck, Transactions | LoopCheck.LoopSearch.CheckObjects, Transactions.Commit |
| used-integer lists (libudb/range.c) | Intervals, UsedRange | UsedRange.RangeStore.RunAll, AutoInteger |
| message framing and integrity check (libconn/conn.c, conn_stream.c, desmd5.c) | Framing, Integrity, Conn | Conn.Exchange, Conn.Session, Conn.Conversation |
| message digest (libconn/md5.c, desmd5.c) | Md5, MicDigest | Md5.Digest, MicDigest.Feed |
| buffers and mapped files (libconn/conn.c, upulld/rpc.c) | MappedFiles | MappedFiles.Server.RunAll, MappedFiles.Receive |
| uniqueness buckets (libudb/name_cache.c) | NameCache | NameCache.ExactIff, NameCache.Cache.DoUniqueChecks |
| query translation (libudb/qbe.c) | Glob, Sql, Query | Glob.PushGlob, Query.Translate |
| sort comparator (libconn/qbe_tcl.c) | Compare | Compare.Comparator.CompareAll |

How the models read the program:

- A prefix is a bit string; one block covers another if its bit string is a prefix of the other's.
  The ghost field `place` gives the bit string of every block in the tree. An off-nibble block fills
  an aligned run of repeated entries of its parent.
- Database objects are handles, and an attribute of a class of objects is a map from handles to
  values. Schema metadata held in Tcl variables is a fixed parameter.
- The free lists of database objects are sequences, last freed first.
- A pointer attribute is scalar or a collection for all classes that have it.
- In the reference store a delete that fails forces a rollback of the transaction, so nothing is
  promised about the store after it.
- The I/O calls are parameters: how many bytes each one moves, that it would block, or that it fails.
- MD5's transformation and the DES block cipher are parameters; the cipher is a bijection for every key.
- A query is kept as phrases of words, paths, placeholders and sub-queries; module Sql gives them their
  meaning, word by word. Attributes of null are null, nothing compares with null, a class without `all`
  means its direct instances, and `path[x]` binds x to what the path leads to. The text of a query is
  spelled from its phrases.
- Hash table iteration order is the order of a sequence, or an arbitrary choice from a set.

Where a property does not hold of the program:

- Integrity: both directions of a session count from the same key and session id, so a message and one of
  the other direction can have the same digest input: exactly if their numbers, headers and data agree
  (Integrity.InputsDiffer; Integrity.InputRepeats is such a session). Two messages of one direction never
  do, up to 2^32 of them.
- NameCache: leaving all old sets before entering new ones does not always leave an object in
  exactly the sets its new tables name. An entry that is unchanged is skipped, so if a dropped entry
  names the same set (two rules of one collision class, one key) the object is lost from a set it
  still belongs to. NameCache.Lost is such a change, NameCache.ExactIff gives the condition under
  which the property holds, both ways. NameCache.Aborts shows the companion case in which the second
  of two dropped entries does not find its bucket; NameCache.Cache.Update says exactly when that happens.
- Query: in the tree of a nested sub-query the counts do not agree with the select list. The root
  counts one expression too few if the class is restricted and one too many if it is not, and every
  other column is off by as much: Query.Context.Nested says so for every accepted specification, and
  Query.NestedCounts shows a sub-query of either kind. These counts are never read; the outer tree is exact.
- Transactions: the loop check is asked for by class and attribute. A loop with an object whose class
  does not ask for it can be committed: Transactions.MixedLoop builds one for every schema with such a
  class, if its objects can be written and have the attribute. Where every class that can be given the
  attribute asks for the check, no history leaves a loop (Transactions.History); in general, only loops
  of objects whose classes all ask for it are kept out.
- MappedFiles: reading a connection hands out what it holds and drops its release. If that is a mapped
  file, as after the file has been sent, its count stays one too high and it stays mapped when no connection holds it any more.
  MappedFiles.ReadLeaks is such a sequence; MappedFiles.Server.Read gives the condition, both ways.

## Model

| member | source | states |
|---|---|---|
| InetBits.SubIndexIsValue | libudb/inet.c:100-106 | masking and shifting an octet of a prefix reads off the value of the next nibble, or the rest of one, at any bit position |
| InetBits.RestOfOctet | libudb/inet.c:1193-1213 | the tail test of an octet after a prefix holds exactly if its remaining bits are off |
| InetIndex.TailIsZero | libudb/inet.c:1193-1213 | the loop accepts exactly the prefixes with no bit set behind them |
| InetTree.Cover | libudb/inet.c:1069-1115 | in a well-formed tree no block hides another: the entry on the way to any deeper block leads to a block that covers it |
| InetTree.SamePlace | libudb/inet.c:1339-1489 | no two blocks of a well-formed tree stand for the same prefix |
| InetTree.InRun | libudb/inet.c:1339-1489 | the entries under a prefix are exactly those of its aligned run, both ways |
| InetTree.GrownKeepsTree | libudb/inet.c:1339-1489 | putting a block over its run and taking the covered sub-blocks below it keeps the tree well formed |
| InetTree.TakenIsGrown | libudb/inet.c:1419-1481 | copying the run of entries, overwriting it and re-pointing the super links is that step |
| InetTree.HeldIsSubsumed | libudb/inet.c:1421-1451 | every block found in the copied run lies below the new block |
| InetTree.SubsumedIsHeld | libudb/inet.c:1421-1481 | every block below the new one whose parent was the old one is in the copied run, so none is lost |
| InetTree.PrunedKeepsTree | libudb/inet.c:1026-1040 | emptying the run of a childless block keeps the tree well formed |
| LongestMatch.BestIsLongest | libudb/inet.c:1069-1115 | the reference match is the first listed network among those with the longest prefix that covers the query |
| LongestMatch.BestUnique | libudb/inet.c:1069-1115 | there is only one such network |
| LongestMatch.BestStep | libudb/inet.c:1069-1115 | going from a block to one below it changes the match exactly when the lower block has a network, to its first one |
| LongestMatch.BestAppend | libudb/inet.c:1498-1554 | a network entered later takes over exactly the queries it covers and no network at least as long did |
| InetItems.ParentedChange | libudb/inet.c:870-939 | moving one item between networks changes the two counters by one each and no other |
| InetIndex.Inet.Find | libudb/inet.c:1069-1115 | the descent returns the deepest block covering the prefix and the longest-match network |
| InetIndex.Inet.Deepest | libudb/inet.c:1069-1115 | where the descent stops there is no deeper block that covers the query |
| InetIndex.Inet.PlanRun | libudb/inet.c:1358-1375 | index, count and bits of the new block name the aligned run of its prefix |
| InetIndex.Inet.CopyRun | libudb/inet.c:1421-1451 | the copied sequence holds the entries of the run, cut after the last one that is used |
| InetIndex.Inet.TakeRun | libudb/inet.c:1468-1481 | the run names the new block, the copied sub-blocks name it as super, nothing else changes |
| InetIndex.Inet.EditFreeObject | libudb/lookup.c:923-957 | the object comes from the head of the free list of its class or is new, and is in no other use |
| InetIndex.Inet.AppendFreeList | libudb/lookup.c:960-988 | a freed block becomes the head of its free list |
| InetIndex.Inet.NewBlock | libudb/inet.c:1339-1489 | one new block at the next nibble or at the prefix itself; the tree, the item lists and the network found for every prefix are kept |
| InetIndex.Inet.UpdateBlockCount | libudb/inet.c:870-893 | the old block loses one, the new one gains one, equal blocks nothing |
| InetIndex.Inet.SetNetof | libudb/inet.c:897-939 | the item gets its network and every counter stays the number of items so parented |
| InetIndex.Inet.ReparentItems | libudb/inet.c:943-961 | exactly the listed items get the network |
| InetIndex.Inet.EmptyRun | libudb/inet.c:1036-1039 | exactly the entries of the run are cleared |
| InetIndex.Inet.FreeSub | libudb/inet.c:1026-1040 | an unused sub-block leaves the tree and joins the free list of its own class, blocks and node slots apart; nothing else moves |
| InetIndex.Inet.Reparent | libudb/inet.c:968-1061 | exactly the items below the region with no network in between are given the network, unused blocks are freed, and the result says whether the region is in use |
| InetRegions.SameReach | libudb/inet.c:968-1061 | below a block without networks the items to re-parent from a sub-block are those to re-parent from the block |
| InetRegions.RunIsRegion | libudb/inet.c:1008-1021 | what sits in the run of a sub-block is what lies below it, both ways |
| InetIndex.Inet.ReparentTable | libudb/inet.c:1006-1059 | the same for the sub-blocks, visiting each run once |
| InetIndex.Inet.Descend | libudb/inet.c:1505-1511 | after the loop there is a block at the prefix itself; new blocks lie on nibble boundaries or at the prefix |
| InetIndex.Inet.InsertRoot | libudb/inet.c:1293-1335 | the first network is the universe and owns the root block |
| InetIndex.Inet.InsertNode | libudb/inet.c:1498-1554 | the node is entered with its longest match, and every other cached network stays right |
| InetIndex.Inet.InsertNet | libudb/inet.c:1498-1554 | the network is entered, and the cached network of every item in the index is the longest match of the new list |
| InetIndex.Inet.PlaceNet | libudb/inet.c:1518-1553 | the first network at a prefix takes over its region, a further one leaves it to the first |
| InetIndex.Inet.DeleteNode | libudb/inet.c:1654-1751 | the node leaves its slot and its network loses one |
| InetIndex.Inet.RunAll | libudb/inet.c:1498-1554 | over every run of network inserts, node inserts and node deletes the index equals the plain list of networks, every cached network is the longest (for networks: strictly enclosing) match, the counters are exact, and blocks off the nibble boundary carry a network |
| InetCache.CachedFirst | libudb/inet.c:968-1061 | re-parenting the region of a new prefix makes every cached network right for the longer list |
| InetCache.CachedAgain | libudb/inet.c:1538-1544 | a further network at a known prefix changes no cached network |
| InetBuffer.SubPrefix | libudb/inet.c:1759-1775 | the index bits are stored at their place of the octet buffer and no other bit is touched |
| InetBuffer.SpliceBits | libudb/inet.c:1759-1775 | clearing a field of an octet and or-ing in a value changes exactly the bits of the field |
| InetAuto.LeftOfIndex | libudb/inet.c:2432-2448 | the trailing-zero table gives the bits up to the last one bit of a prefix extended by an entry index |
| InetAuto.CostMeans | libudb/inet.c:2432-2448 | the count of a piece is its bits up to its last one bit behind the network, or all of them if there is none, and no other number is |
| InetAuto.EmptyIsCandidate | libudb/inet.c:2450-2464 | an aligned group of empty entries is a vacant piece, and the only one in that group |
| InetAuto.FullGroup | libudb/inet.c:2392-2430 | a group with an occupied entry holds no vacant piece of the wanted size |
| InetAuto.EntryCandidate | libudb/inet.c:2465-2493 | vacant pieces below an occupied entry are below its block, which has no network or range and ends on the next boundary |
| InetSearch.FirstOccupied | libudb/inet.c:2421-2430 | the scan returns the first occupied entry of the group or says there is none |
| InetSearch.Repeated | libudb/inet.c:2474-2483 | a block seen again in the next entry is off the boundary, so skipping it is right |
| InetSearch.AutoEntry | libudb/inet.c:2416-2502 | one turn: the best of what was found before and of the vacant pieces in the group, with its bits in the buffer |
| InetSearch.AutoNet | libudb/inet.c:2360-2506 | the best vacant piece below a block, if it beats the best found before; buffer bits above the block are kept |
| InetSearch.FoundBoth | libudb/inet.c:2456-2499 | comparing group by group finds the best over both ranges |
| InetSearch.CandidateIsVacant | libudb/inet.c:2360-2506 | whatever follows a vacant piece in the buffer, the wanted prefix is a vacant region |
| InetSearch.VacantHasCandidate | libudb/inet.c:2360-2506 | every vacant region of the wanted size lies in a piece the search can find |
| InetSearch.LeastOfRegions | libudb/inet.c:2452-2463 | no vacant region of the wanted size counts less than the best piece |
| InetSearch.AutoSubnet | libudb/inet.c:2360-2506 | the search succeeds exactly if the network has an aligned vacant region of the wanted size not under a subnet or range; the first wanted bits name one and begin with a vacant piece, whose bits up to its last one bit behind the network (all of them if there is none) are counted; no other piece counts less, a piece without a one bit wins no tie, and no vacant region of the wanted size counts less |
| InetSubnets.FreeSubnet | libudb/inet.c:2510-2660 | the command on any index a run has built: size errors, or a vacant region exactly if the network has one, with no listed node or network inside it; the count returned is more than the bits of the network, at most those wanted, and no more than that of any vacant region |
| InetSubnets.RoomIsVacant | libudb/inet.c:2474-2483 | skipping blocks that hold a network is skipping the regions of listed networks |
| InetSubnets.RoomIsEmpty | libudb/inet.c:2620-2625 | no node and no network lies in a vacant region |
| RelationLists.Unlinked | libudb/relation.c:182-207 | rewiring the neighbours of a record leaves a proper doubly linked list without it |
| RelationLists.Pushed | libudb/relation.c:95-140 | rewiring the head puts a record in front of a proper doubly linked list |
| References.UnlinkedAll | libudb/relation.c:182-207 | the other lists of all items stay as they are |
| References.RefStore.Unlink | libudb/relation.c:182-207 | the record is in no list, all lists are proper |
| References.RefStore.Build | libudb/relation.c:95-140 | the record heads the list of its rhs and action, all lists are proper |
| References.RefStore.EditFreeRecord | libudb/lookup.c:923-957 | the record comes from the free list of its class or is new, and is not in use |
| References.RefStore.NewRelation | libudb/relation.c:144-162 | exactly one reference more is on record; lists, records and free lists agree |
| References.RefStore.UpdateRelation | libudb/relation.c:166-224 | the reference is replaced or freed, no other changes; lists, records and free lists agree |
| References.RefStore.MaybeAddLoopCheck | libudb/relation.c:66-90 | the object is registered for the attribute exactly if its class asks for it |
| References.RefStore.DropLoopCheck | libudb/relation.c:860-882 | the object is registered for no attribute, all others as before |
| References.RefStore.FindRelations | libudb/relation.c:343-354 | the query returns the records of the attribute and no others |
| References.RefStore.UpdateScalar | libudb/relation.c:231-282 | the references of the attribute are exactly the new value; the object pointed at is registered for the loop check when due |
| References.RefStore.KeepRelations | libudb/relation.c:358-392 | records still wanted are kept, the others freed, and what has none is returned |
| References.RefStore.UpdateVector | libudb/relation.c:289-425 | the references of the attribute are exactly the new values, once each; the object is registered for the loop check exactly if something new is pointed at |
| References.RefStore.HeadRef | libudb/relation.c:614-631 | the head of a back-reference list is null exactly if no reference of that kind is left |
| References.RefStore.DropLhs | libudb/relation.c:563-593 | no reference from the object is left, all others are |
| References.RefStore.NullifyAttribute | libudb/relation.c:487-559 | the attribute loses every occurrence of the object and keeps the order of the rest |
| References.RefStore.NullifyAll | libudb/relation.c:643-664 | exactly the Nullify references to the object are gone, from the attributes as well |
| References.RefStore.CascadeAll | libudb/relation.c:610-641 | the loop ends with no Cascade reference to the object; what it deleted is part of the closure |
| References.RefStore.ProcessRhs | libudb/relation.c:600-674 | Cascade and Nullify references are gone, and an object with Block references is in the check table |
| References.RefStore.DeleteObject | libudb/relation.c:678-715 | terminates on every graph; deletes only objects of the closure and leaves everything else as it was |
| References.NulledTwice | libudb/relation.c:487-559 | removing two sets of objects one after the other removes their union |
| References.ClosureWithin | libudb/relation.c:610-641 | a set closed under Cascade references contains the whole backward closure |
| Transactions.UpdateRelations | libudb/relation.c:433-478 | the references of every updated attribute are replaced, all others kept, and the loop table grows as the attributes demand |
| Transactions.Update | libudb/update.c:110-228 | values, references and checks after an update, and when it is refused |
| Transactions.Create | libudb/create.c:41-215 | values and references after a create, and when it is refused |
| Transactions.Delete | libudb/delete.c:40-86 | succeeds exactly if nothing in the backward Cascade closure is read-only, and then deletes exactly that closure, nullifies exactly what it must and keeps all else |
| Transactions.DeletedClosure | libudb/relation.c:600-715 | what a successful deletion has deleted is the closure, no more and no less |
| Transactions.GuardedUpdate | libudb/relation.c:274-281 | a loop of objects whose classes all forbid it, closed by an update, goes through an object the update registers |
| Transactions.GuardedCreate | libudb/create.c:195-205 | a create closes no loop |
| Transactions.GuardedDelete | libudb/relation.c:697-700 | dropping the checks of deleted objects leaves every loop with a registered object |
| Transactions.DoReferenceChecks | libudb/relation.c:775-819 | fails exactly if an object in the table has a Block reference; those reported are real, at most ten, and all of them if there are fewer |
| Transactions.DoLoopChecks | libudb/relation.c:1098-1177 | passes exactly if no loop can be reached from a registered object; a failure reports a real loop |
| Transactions.CycleIsFound | libudb/relation.c:900-1018 | from every object of a loop the search finds a loop |
| Transactions.Commit | libudb/transaction.c:684-805 | passes exactly if there is no reference to a deleted object and no loop within reach of a registered object, along references of live objects; then no reference to a deleted object is left and no loop of objects whose classes all forbid it |
| Transactions.Empty | libudb/transaction.c:684-805 | the empty store is consistent |
| Transactions.RunOps | libudb/transaction.c:684-805 | every run of creates, updates and deletes takes the store through the views the operations promise one by one, keeps lists, references, check tables and the loop guard sound, and stops only at a delete that meets a read-only object |
| Transactions.RunOp | libudb/transaction.c:684-805 | one operation, in terms of what a client sees; a delete is refused exactly if something in its closure is read-only |
| Transactions.NoDangling | libudb/relation.c:774-819 | with no Block reference to an object in the table there is no reference to a deleted object at all |
| Transactions.NoCycle | libudb/relation.c:1098-1177 | with no loop reachable from a registered object there is no loop of objects whose classes all forbid it |
| Transactions.Transaction | libudb/transaction.c:684-805 | commits exactly if all operations went through and left no reference to a deleted object and no loop within reach of a registered one; what it commits is the outcome of all operations, and consistent |
| Transactions.SearchFollows | libudb/relation.c:900-1018 | from a live object, without references to deleted ones, the search finds a loop exactly if one can be reached along recorded references |
| Transactions.UniformNoLoop | libudb/relation.c:66-90 | where every class that can be given the attribute forbids loops in it, a consistent store has no loop in it at all |
| Transactions.History | libudb/transaction.c:684-805 | over every history of transactions each commit takes the store from one view to the next, and no loop is left in an attribute that every class forbids loops in |
| Transactions.MixedLoop | libudb/relation.c:274-281 | where some writable class with the attribute does not forbid loops, a transaction of two creates and an update commits a loop through it, whatever the class of the other object says |
| LoopCheck.ReportTwice | libudb/relation.c:969-1006 | the reported list read backwards from its head is the cycle |
| LoopCheck.NoLoopFrom | libudb/relation.c:900-1018 | from a verified object no loop can be reached, so the verified set is closed and cycle-free |
| LoopCheck.Unwind | libudb/relation.c:986-1006 | unwinding one level adds the object exactly while the first object of the loop is on the path |
| LoopCheck.LoopSearch.CollectionLoopLeaf | libudb/relation.c:900-1018 | terminates; either the object is verified or a loop through the path is reported |
| LoopCheck.LoopSearch.ScalarLoopLeaf | libudb/relation.c:1022-1094 | the same for attributes that hold one object |
| LoopCheck.LoopSearch.CheckObjects | libudb/relation.c:1121-1174 | reports a loop exactly if one can be reached from a start object, as one simple cycle in reverse order |
| Intervals.Join | libudb/range.c:244-293 | filling the gap between two intervals merges them |
| Intervals.DropInner | libudb/range.c:400-448 | taking out an inner integer splits an interval |
| Intervals.Canonical | libudb/range.c:103-330 | a sorted, disjoint, non-touching list is determined by the integers it stands for |
| UsedRange.RangeStore.NewBlock | libudb/range.c:41-70 | the interval is inserted, lists of other owners are not touched |
| UsedRange.RangeStore.GetBounds | libudb/range.c:73-100 | block and bounds at an index |
| UsedRange.RangeStore.AddBelow | libudb/range.c:244-268 | extend or merge below the last block of the search, although the start of the first one may be stale |
| UsedRange.RangeStore.AddAbove | libudb/range.c:269-293 | extend or merge above the first block of the search |
| UsedRange.RangeStore.AddBetween | libudb/range.c:232-329 | the half-interval search ends, never meets the panic, and adds exactly the integer |
| UsedRange.RangeStore.AddUsed | libudb/range.c:103-330 | exactly the integer is added and the list stays sorted, disjoint and non-touching |
| UsedRange.RangeStore.DelFromRange | libudb/range.c:400-448 | exactly the integer is taken out; an empty list goes with its range |
| UsedRange.RangeStore.DelUsed | libudb/range.c:452-542 | the search ends at the block that holds the integer and exactly the integer is taken out |
| UsedRange.RangeStore.AddEntry | libudb/range.c:334-396 | the object joins the slot of its integer; the list holds exactly the integers with a slot |
| UsedRange.RangeStore.DeleteEntry | libudb/range.c:546-592 | the object leaves the slot, an empty slot leaves the list |
| UsedRange.RangeStore.AutoInteger | libudb/range.c:675-716 | the least unused integer from the minimum on |
| UsedRange.RangeStore.RunAll | libudb/range.c:334-592 | over every run of adds and deletes the lists hold exactly the integers with a non-empty slot, slots as in the plain map |
| Framing.Spans | libconn/conn.c:27-87 | the elements of the window follow one another in the message from where the transfer stands, never exceed MAX_COPY_SIZE together, and are none exactly at the end |
| Conn.HeaderOf | libconn/conn.c:894-906 | magic, authentication type, result and length read back from the header bytes |
| Conn.Connection.InitTrailer | libconn/conn.c:28-46 | the trailer joins the window behind what is left of header and data, if a check is in use |
| Conn.Connection.InitData | libconn/conn.c:50-72 | the first packet ends on a packet boundary and takes the trailer along if all data fits |
| Conn.Connection.AllocData | libconn/conn.c:103-140 | a wrong magic number or an over-long message is refused, otherwise the buffer has the length of the header |
| Conn.Connection.SlideWriting | libconn/conn.c:144-236 | sliding by any number of bytes the window holds moves the position by as much and gives the next window |
| Conn.Connection.SlideReading | libconn/conn.c:144-236 | the same while reading; a complete header is accepted or refused |
| Conn.Connection.Writev | libconn/conn_stream.c:128-155 | the gathered buffer is the whole window, the next bytes of the message |
| Conn.Connection.Readv | libconn/conn_stream.c:83-111 | the bytes received extend what has arrived, in order |
| Conn.Connection.MicEnable | libconn/desmd5.c:283-324 | the direction gets a fresh context, the other is kept |
| Conn.Connection.UpdateMicWriting | libconn/desmd5.c:64-279 | each byte is digested once and in order, and the trailer is sealed before a trailer byte is offered |
| Conn.Connection.SealMessage | libconn/desmd5.c:169-279 | the sealed digest, the sequence number moved on once, and after the first message the session id and the reverse context |
| Conn.Connection.UpdateMicReading | libconn/desmd5.c:64-279 | the digest follows the data that has come in; at the end the message is judged |
| Conn.Connection.Judge | libconn/desmd5.c:192-279 | the message is good exactly if its trailer is the seal of its digest; only then do the links move on |
| Conn.Connection.NewState | libconn/conn.c:240-285 | leaving a state in the middle of I/O is an error |
| Conn.Connection.StartWriting | libconn/conn.c:857-917 | the message is set up, or the connection is in error, and which |
| Conn.Connection.StartReading | libconn/conn.c:921-940 | ready for a message, or in error, and which |
| Conn.Connection.WriteStep | libconn/conn.c:631-722 | what has gone out is the message so far; every accepted byte moves on |
| Conn.Connection.Finished | libconn/conn.c:724-750 | a finished message went out as header, data and seal, once each and in order |
| Conn.Connection.ReadStep | libconn/conn.c:631-722 | what has come in is the message so far; a whole one is complete and judged, a bad header refused |
| Conn.ProgressWriting | libconn/conn.c:598-751 | under every sequence of partial counts the wire holds the message so far, and the connection is done exactly when all is out |
| Conn.ProgressReading | libconn/conn.c:598-751 | under every chunking the message that comes in is the one on the stream |
| Conn.EndOfFile | libconn/conn.c:648-680 | normal between messages, an error inside one, an all-zero trailer where only the trailer is missing |
| Conn.Understood | libconn/conn.c:598-751 | a prefix of a message that is itself a whole message is that message |
| Conn.SendAll | libconn/conn.c:598-751 | a message is sent whole over any calls, and is sent if the calls go on moving bytes; the connection is then idle again |
| Conn.ReceiveAll | libconn/conn.c:598-751 | a message is received whole over any calls, and the connection is then idle again |
| Conn.Exchange | libconn/conn.c:598-751 | a message that arrives is the one sent, its check succeeds, the links of both ends move on as the message demands and both ends are idle again; it arrives, if the stream goes on moving bytes, exactly if it is not longer than allowed |
| Conn.TakeTurn | libconn/desmd5.c:64-324 | one message or one authentication moves the links of both ends as its event does |
| Conn.Session | libconn/desmd5.c:64-324 | over every session of messages in both directions and authentications in any order, each message up to the first that does not arrive is the one sent with its check good, sealed with the link its side has by then; the links of both connections are those the events lead to, hence in step; a message fails to arrive only if the stream stops or its length is not allowed |
| Conn.Conversation | libconn/desmd5.c:64-324 | in numbers: after an authentication each message is sealed under the key with the count of messages before it, replies counted from one, and with the md5 of key, four zero bytes, first header and first data from the second message on; afterwards both sides hold the counts of messages each way |
| Integrity.AcceptsSeal | libconn/desmd5.c:211-248 | decrypting and comparing half by half accepts exactly the sealed digest |
| Integrity.FedMore | libconn/desmd5.c:157-164 | feeding the next bytes keeps the digest input key, sequence number, header, session id and data so far |
| Integrity.StaysInStep | libconn/desmd5.c:250-278 | each event, applied to the links of both ends, leaves each side expecting what the other sends |
| Integrity.Numbered | libconn/desmd5.c:250-278 | after an authentication and any messages, fewer than 2^32 each way, the number of the direction is the count of its messages, that of the other one more than its count, on both sides, and the session id is the digest of the first message |
| Integrity.NextMessage | libconn/desmd5.c:278-278 | in an open session a message moves the number of its own direction by one and nothing else |
| Integrity.InputIs | libconn/desmd5.c:105-132 | each message of a session is digested as key, number, header, session id unless it is the first, and data |
| Integrity.InputsDiffer | libconn/desmd5.c:105-132 | two messages of a session have the same digest input exactly if they go opposite ways with the same number, header and data |
| Integrity.InputRepeats | libconn/desmd5.c:105-132 | a session in which the first reply has the digest input of the second message |
| Md5.Carry | libconn/md5.c:109-119 | the carry and the high bits keep the two-word counter at eight times the length modulo 2^64 |
| Md5.Fill | libconn/md5.c:106-107 | the buffer fill is the length modulo 64 |
| Md5.PaddedMeans | libconn/md5.c:140-165 | the padded message is the message, a one bit, the fewest zero bits that fit, and the count of its bits modulo 2^64, least byte first |
| Md5.Context.constructor | libconn/md5.c:81-92 | the empty message |
| Md5.Context.Absorb | libconn/md5.c:121-135 | one more byte: in the buffer, or completing a block that is transformed |
| Md5.Context.Count | libconn/md5.c:109-119 | the counter of the longer message |
| Md5.Context.Update | libconn/md5.c:97-136 | counter, buffer and state are those of the longer message |
| Md5.Context.Final | libconn/md5.c:140-177 | the digest of the message padded and counted as in sections 3.1 and 3.2 of RFC 1321 |
| Md5.Digest | libconn/md5.c:97-177 | for every splitting into updates the digest is that of the whole message |
| MicDigest.Feed | libconn/desmd5.c:105-180 | key, sequence number, header, session id after the first message and the data in any pieces give the digest the integrity check is stated with |
| MicDigest.SuiteIsSane | libconn/desmd5.c:169-180 | MD5 gives digests of the length the check expects |
| MappedFiles.Server.MfpDone | upulld/rpc.c:76-103 | one holder fewer; the last one unmaps the file and clears both tables |
| MappedFiles.Server.Release | libconn/conn.c:249-262 | what the connection held is released once, by its own kind of release |
| MappedFiles.Server.NewState | libconn/conn.c:240-285 | the buffer is released even where the change of state is an error |
| MappedFiles.Server.Read | libconn/conn.c:822-850 | what the connection holds is handed to the application, once, with its release dropped, and an idle connection stays idle; ownership and counts stay right exactly if it is not a mapped file, whose count is then one too high |
| MappedFiles.ReadLeaks | libconn/conn.c:835-847 | a file that has been sent and is then read stays mapped with no holder |
| MappedFiles.Server.Write | libconn/conn.c:857-917 | the new buffer is installed whatever the state, a volatile one as a copy, and the old one is released |
| MappedFiles.Server.Poll | libconn/conn.c:921-940 | an idle connection, or one that has begun to read nothing, is ready to read with nothing transferred; one in the middle of I/O is broken; the old buffer is released |
| MappedFiles.Server.Progress | libconn/conn.c:102-140 | a buffer is allocated exactly when a header completes on a sound reading connection, which then held nothing; the state moves as the outcome of the call says |
| MappedFiles.Server.Reap | libconn/conn.c:758-814 | the connection goes and what it held is released |
| MappedFiles.Server.Pin | upulld/rpc.c:136-196 | a known file is counted once more, a new one mapped and entered, a failed one leaves no trace |
| MappedFiles.Server.ReadFile | upulld/rpc.c:106-201 | refused for a broken connection, a name that leads out of the directory or a file that cannot be mapped; otherwise the connection holds the file, also if it held the same one before |
| MappedFiles.Server.RunAll | upulld/rpc.c:76-201 | over every run each operation does what it should to connections, held, handed-over and freed buffers; each heap buffer has one owner or is freed, once, and every count is the number of connections holding the file; a run that ends without connections leaves no file mapped and no buffer behind |
| MappedFiles.Receive | libconn/conn.c:598-940 | on an idle connection polling, a completed header, the rest of the message and reading, with any operations on other connections in between, hand the application one heap buffer nobody had before and nobody else has |
| MappedFiles.OthersLeave | libconn/conn.c:598-940 | a run of operations on other connections leaves a connection and what it holds alone |
| MappedFiles.Server.MappedWhileHeld | upulld/rpc.c:76-103 | a file is mapped exactly while a connection holds it |
| MappedFiles.Server.NothingLeft | upulld/rpc.c:76-103 | when all connections are gone no file is mapped and every buffer is freed or the application's |
| NameCache.Cache.DropIfEmpty | libudb/name_cache.c:423-456 | an empty bucket goes, with its check |
| NameCache.Cache.Grow | libudb/name_cache.c:460-521 | the member is added, the bucket is put into the check table exactly if another member of the strength may break the rules, and every bucket that breaks them is there |
| NameCache.Cache.DropEntry | libudb/name_cache.c:597-609 | exactly this membership is gone; a missing bucket is the abort |
| NameCache.Cache.AddEntry | libudb/name_cache.c:644-667 | exactly this membership is new |
| NameCache.Cache.Update | libudb/name_cache.c:539-671 | memberships after all departures and all arrivals, and exactly when a bucket is missing |
| NameCache.ExactIff | libudb/name_cache.c:524-671 | the object is in exactly the sets its new tables name if and only if every set named by a kept and by a dropped entry is named by a new one too |
| NameCache.Lost | libudb/name_cache.c:582-608 | two rules of one collision class with one key: dropping one loses the object from the set the other still names |
| NameCache.Aborts | libudb/name_cache.c:597-608 | the same two rules, both dropped: the second finds no bucket |
| NameCache.Survives | libudb/name_cache.c:597-600 | entries that name different sets all find their buckets |
| NameCache.Cache.RunAll | libudb/name_cache.c:806-840 | over every run of changes, up to one that does not find its bucket, every violation is scheduled; and if the changes follow one another, the objects are in exactly the sets their tables name all the way if and only if every change is clean |
| NameCache.Cache.DoUniqueChecks | libudb/name_cache.c:899-984 | passes exactly if no bucket anywhere breaks the rules |
| Glob.GlobCuts | libudb/qbe.c:646-705 | the recursive meaning of a glob is being cut into pieces for its specifiers |
| Glob.PushGlob | libudb/qbe.c:646-705 | the pattern is the spelling of what the glob specifies, is legally escaped, and a string matches it under LIKE exactly if the glob matches it |
| Glob.PatternMeans | libudb/qbe.c:646-705 | for every glob and string, LIKE with the pattern is the glob match |
| Glob.SpelledBack | libudb/qbe.c:659-697 | every sequence of specifiers is read back from its spelling, so escapes are right |
| Query.Context.constructor | libudb/qbe.c:328-363 | a context with its root laid out, up to the shift between the count it is given and its expressions |
| Query.Context.PushValue | libudb/qbe.c:622-642 | the value is appended, the array grown when full |
| Query.Context.AddConstraint | libudb/qbe.c:216-238 | one more constraint behind its own word, the first behind another |
| Query.Context.Constrain | libudb/qbe.c:1243-1498 | accepted exactly if the operator is legal for the domain; then the constraint written holds of a row exactly if its field stands in the asked relation to the operand (null or not, equal or not, the order, matched by the glob or not, containing all elements), and the values are pushed, one for each placeholder, in order |
| Query.Context.FindChild | libudb/qbe.c:1212-1226 | the child with that attribute, or none |
| Query.Context.OpenChild | libudb/qbe.c:1228-1240 | the new node starts where its parent has ended, with its own expressions written |
| Query.Context.CloseChild | libudb/qbe.c:1186-1189 | adding the child to the count of its parent completes the layout of the parent |
| Query.Context.AddPlain | libudb/qbe.c:1088-1189 | accepted exactly if the attribute exists, the operator is legal and no object tree was asked for; then the part written is satisfied exactly by the items that meet the specification, the attribute has its one child, and tree, select list and push list grow in step |
| Query.Context.AddQbe | libudb/qbe.c:862-1087 | a nested specification: when it is refused, and the subtree or sub-query it becomes, satisfied exactly if the object referred to, or some element, meets it |
| Query.Context.Nested | libudb/qbe.c:392-502 | accepted exactly as specified; the sub-query has a row exactly if some element of the collection, of the class if one is named, meets the nested specification; its placeholders stand for exactly its values; the count of its root is one less than the number of expressions if a class is named and one more if not, and every other node has its column shifted by as much |
| Query.Context.ConstructQuery | libudb/qbe.c:711-770 | accepted exactly if each attribute is, after those before it; then the part written is satisfied exactly by the items that meet the whole specification, the tree below the node is what it asks for and its values are pushed in order |
| Query.Owners | libudb/qbe.c:1186-1189 | every expression in the columns of a node was written for the node or one below it |
| Query.ColumnsAre | libudb/qbe.c:1186-1189 | an expression is in the columns of a node exactly if it was written for the node or one below it |
| Query.UnderInside | libudb/qbe.c:1186-1189 | the columns of whatever lies below a node are within its own |
| Query.PlaceOff | libudb/qbe.c:433-464 | in the tree of a sub-query each expression is found that shift before the column |
| Query.NestedCounts | libudb/qbe.c:433-464 | a concrete sub-query, with and without a restricted class: the count of its root and the column of its attribute, each one off |
| Query.NamesDiffer | libudb/qbe.c:991-995 | two nodes with variables have variables of different names |
| Query.MirrorsKept | libudb/qbe.c:1212-1240 | adding to a node leaves the trees below its earlier children what was asked for |
| Query.LookupAt | libudb/qbe.c:1218-1226 | an attribute is known exactly if one of the labels names it |
| Query.Translate | libudb/qbe.c:294-388 | accepted exactly as the specification says; then the query finds exactly the items of the class, not deleted unless asked for, that meet the specification; the tree has one node for every attribute asked for, each column is the place of its own expressions in the select list, each count that of its subtree, variables all have different names, and the k-th placeholder stands for the k-th value of the specification |
| Query.Found | libudb/qbe.c:351-388 | an item is found exactly if it is wanted and meets the specification |
| Query.SaysLike | libudb/qbe.c:1475-1481 | the pattern constraint holds of a row exactly if the glob matches its field, or does not, as asked |
| Query.SaysEmpty | libudb/qbe.c:1329-1347 | the constraint for the empty string holds exactly of empty or null fields, or of all others |
| Query.ObjectMeans | libudb/qbe.c:989-1048 | a nested part is satisfied exactly if the attribute refers to an object, of the class if one is named, that meets the nested specification |
| Query.CollectionMeans | libudb/qbe.c:1057-1085 | the exists constraint holds exactly if some element meets the nested specification |
| Query.MeansNext | libudb/qbe.c:760-767 | the parts of two attributes are satisfied together exactly if each is |
| Sql.SelectsPlus | libudb/qbe.c:245-290 | parts of a query that do not touch the variables of each other are satisfied one by one |
| Sql.SelectsBound | libudb/qbe.c:1022-1037 | a variable bound to a path and declared over a class restricts the path to objects of the class |
| Sql.SelectsElement | libudb/qbe.c:447-469 | a variable declared over the elements of a collection ranges over exactly those |
| Sql.FitsSame | libudb/qbe.c:245-290 | whether a row satisfies a query depends on the variables it mentions and does not hide |
| Sql.PathTextInjective | libudb/qbe.c:989-1003 | a path can be read back from its text |
| Sql.VariableInjective | libudb/qbe.c:991-995 | different counter values give different variables |
| Compare.StrcmpTransitive | libconn/qbe_tcl.c:121-148 | string comparison is a total order |
| Compare.StrcmpIsLexical | libconn/qbe_tcl.c:121-148 | negative exactly if at the first difference the first string ends or has the smaller character |
| Compare.PlainMeans | libconn/qbe_tcl.c:41-207 | the sign tells which item sorts first: by the lists of name attributes or by the first attribute that tells the items apart, where the lexically smaller string, the smaller integer or the reference to the item that sorts first comes first |
| Compare.PlainOpposite | libconn/qbe_tcl.c:174-196 | comparing the other way round gives the opposite, so reversing the sign of a cached result is right |
| Compare.PlainAgree | libconn/qbe_tcl.c:41-207 | the comparison is total and transitive, and equality is kept |
| Compare.KeyInjective | libconn/qbe_tcl.c:157-172 | the sorted pair of uuids determines its cache key |
| Compare.Comparator.CompareUuids | libconn/qbe_tcl.c:41-207 | the cached comparison returns the uncached result, whose sign tells which item sorts first, and only adds finished, right entries |
| Compare.Comparator.CompareCached | libconn/qbe_tcl.c:150-197 | a hit is finished and right, a miss is compared and remembered under the sorted pair |
| Compare.Comparator.CompareAll | libconn/qbe_tcl.c:41-207 | any sequence of comparisons through one cache gives the uncached results, and each sign tells which item sorts first |

## Left out

- Ranges in the address tree: their prefix keeps bits of the start address behind the common prefix, so the aligned-run precondition is not established for them.
- Deletion of networks and the garbage collection of blocks: a network removed while its block is in use leaves an off-nibble block without one.
- The sample pointers of networks to a node and a subnet, block stamps, and the commit-time item and block checks of the address tree.
- InetIndex.Inet.UpdateBlockCount: the sample item pointers that go with the counters are not modelled.
- InetIndex.Inet.SetNetof: the commit-time check it schedules for the item is not modelled.
- InetIndex.Inet.Reparent: re-parents networks and nodes; ranges are not in the model.
- InetIndex.Inet.DeleteNode: the time stamp of an emptied slot is not modelled.
- InetSubnets.FreeSubnet: starts from a network of the index; errors about uuids, the family and a missing start address are not modelled.
- InetSearch.AutoSubnet: takes the set of blocks that hold a network or range as given; ranges themselves are not modelled.
- Decoding of addresses, hexadecimal and radix-64 text: the models start from octets.
- References.RefStore.NullifyAttribute: the uniqueness caches that nullifying an attribute also updates are a separate model.
- References.RefStore.DeleteObject: dropping the uniqueness entries of the object is part of that separate model.
- Transactions.Update: uniqueness and address caches and access checks are not part of this model.
- Transactions.GuardedUpdate: speaks of loops whose objects are all of classes that forbid loops; see the mixed loops above.
- Transactions.NoCycle: the same.
- Transactions.Commit: uniqueness and address checks are not part of this commit.
- Transactions.Create: owner rules, licence counts, restore modes and undelete are not modelled.
- Transactions.Transaction: uniqueness and address checks, version counters and the log are not part of this commit.
- Transactions.RunOps: says nothing about the store after a refused delete, since the transaction is rolled back.
- UsedRange.RangeStore.AddUsed: integers are unbounded; the free list of the range objects themselves is not modelled.
- Integrity.StaysInStep: is about the links alone; Conn.Session is about two connections.
- Conn.Conversation: stops short of the wrap-around of sequence numbers, after which a session starts again at zero; Conn.Session covers it.
- Conn.ProgressReading: after a header has been refused the program goes on to read a trailer and calls back; the model stops at the refusal.
- Conn.Connection.MicEnable: which key the authentication modules install, and when, is a parameter.
- MappedFiles.Server.ReadFile: whether the file can be opened, its size and its address are parameters.
- MappedFiles.Server.Progress: which outcome a call has is a parameter; the framing that decides it is the Conn model.
- MappedFiles.Server.RunAll: leaves out calls that read a connection holding a mapped file, after which the counts are wrong.
- NameCache.Cache.Update: how an object's tables are computed from its attributes and owners is not modelled.
- Query.Translate: says what the query finds, not in which order rows come or how often; collation and the conversion of literals are parameters.
- Query.Context.ConstructQuery: parsing of Tcl lists and conversion of literals are parameters; walking the result rows is not modelled.
- Compare.Comparator.CompareUuids: asks for acyclic name references and uuids of fixed length, and takes integers as unbounded.
- Sockets, the select loop, Tcl command wrappers, Kerberos and password modules, and the rounds of MD5 and DES.
