/**
 The address index of libudb/inet.c: block tree, item lists, cached containing networks and
 per-network counters, updated in place.

 The object store is kept as one table per attribute, so storing an attribute of an object
 is an update of that table.
 */
module InetIndex {
  import opened Basics
  import opened InetBits
  import opened InetTree
  import opened LongestMatch
  import opened InetItems
  import opened InetRegions
  import opened InetCache

  /** The check of Inet_Net_Prefix that all bits after the prefix are off. */
  method TailIsZero(octets: seq<Octet>, bits: nat) returns (ok: bool)
    requires bits <= 8 * |octets|
    ensures ok <==> ValidPrefix(8 * |octets|, Prefix(bits, octets))
  {
    hide BitsOf, Pow2;
    var at := bits;
    while at < 8 * |octets|
      invariant bits <= at <= 8 * |octets|
      invariant forall i :: bits <= i < at ==> !BitsOf(octets)[i]
    {
      var shift := at % 8;
      RestOfOctet(octets, at);
      if octets[at / 8] * Pow2(shift) % 256 != 0 {
        return false;
      }
      at := at + 8 - shift;
    }
    return true;
  }

  class Inet {
    /** Address width in bits, a multiple of 8. */
    const width: nat

    var root: Option<Id>
    var universe: Option<Item>
    var shapes: map<Id, Shape>
    var nets: map<Id, seq<Item>>
    var nodes: map<Id, seq<Item>>
    var count: map<Counter, int>
    var items: map<Item, Entity>
    var itemBlock: map<Item, Id>
    var netof: map<Item, Option<Item>>
    var freeBlocks: seq<Id>
    var freeSlots: seq<Id>
    var nextId: Id

    ghost var place: map<Id, Bits>
    ghost var listing: seq<Listed>

    ghost predicate NetofKnown()
      reads this
    {
      && (forall x :: x in items ==> x in netof)
      && (forall x :: x in netof && netof[x].Some? ==> netof[x].value in itemBlock)
      && (forall y :: y in itemBlock ==> itemBlock[y] in place && |place[itemBlock[y]]| < width)
    }

    /** Everything but the cached networks; `extra` holds a network being entered. */
    ghost predicate Sound(extra: set<Item>)
      reads this
    {
      && root.Some? && Tree(width, root.value, shapes, place)
      && ListOk(width, listing, items)
      && BlockLists(listing, items, nets, nodes, place)
      && Homes(items, place)
      && BlockPointers(items, itemBlock, place, extra)
      && FreeOk(shapes, nets, nodes, place, freeBlocks + freeSlots, nextId)
      && Shelved(shapes, freeBlocks, freeSlots, width)
      && NetofKnown()
      && Counted(items, netof, itemBlock, count, place, width)
      && universe == Some(listing[0].net)
    }

    /** The index as it stands between operations. */
    ghost predicate Valid()
      reads this
    {
      if root.None? then
        && width % 8 == 0
        && universe == None && listing == [] && place == map[] && items == map[] && netof == map[] && itemBlock == map[]
        && shapes == map[] && nets == map[] && nodes == map[] && freeBlocks == [] && freeSlots == []
      else
        && Sound({}) && netof.Keys == items.Keys
        && Cached(listing, items, netof)
    }

    /** An address family of the given number of octets, before its universe is entered. */
    constructor (octets: nat)
      ensures Valid() && width == 8 * octets && root == None
    {
      width := 8 * octets;
      root, universe := None, None;
      shapes, nets, nodes, count := map[], map[], map[], map[];
      items, itemBlock, netof := map[], map[], map[];
      freeBlocks, freeSlots, nextId := [], [], 0;
      place, listing := map[], [];
    }

    /** Inet_Find: walk down the blocks covering the prefix, remembering the last network passed. */
    method Find(p: Prefix) returns (net: Option<Item>, block: Id, bits: nat)
      requires Sound({}) && ValidPrefix(width, p)
      ensures block in place && bits == |place[block]| && place[block] <= Text(p)
      ensures forall c :: c in place && place[c] <= Text(p) ==> place[c] <= place[block]
      ensures net.Some? && net == NetId(Best(listing, Text(p)))
    {
      hide Sound, Best, Value, SubIndex;
      Basics({});
      ghost var q := BitsOf(p.octets);
      ghost var t := Text(p);
      bits := 0;
      block := root.value;
      net := universe;
      while bits < p.bits
        invariant block in place && bits == |place[block]| && place[block] <= t
        invariant net.Some? && net == NetId(Best(listing, place[block]))
        decreases p.bits - bits
      {
        var i := SubIndex(p.octets, bits);
        SubIndexIsValue(p.octets, bits);
        var o := Nth(shapes[block].subs, i);
        if o.Some? {
          assert Covers(width, place[block], q);
          assert Entry(shapes, block, q) == o;
          BestBetween(block, o.value, q);
          PrefixChain(place[o.value], t, q);
        }
        if o.None? || shapes[o.value].bits > p.bits {
          break;
        }
        block := o.value;
        bits := shapes[block].bits;
        if bits < width && nets[block] != [] {
          net := Some(nets[block][0]);
        }
      }
      forall c | c in place && place[c] <= t
        ensures place[c] <= place[block]
      {
        Deepest(block, q, t, c);
      }
      BestAtBlock(t, block);
    }

    /** Facts used at every step of a walk. */
    lemma Basics(extra: set<Item>)
      requires Sound(extra)
      ensures width % 8 == 0
      ensures root.Some? && root.value in place && place[root.value] == []
      ensures universe.Some? && universe == NetId(Best(listing, []))
      ensures forall c :: c in place ==> c in shapes && shapes[c].bits == |place[c]| <= width && c in nets && c in nodes
      ensures shapes[root.value].super == None
      ensures forall y :: y in itemBlock ==> itemBlock[y] in place
    {
      hide DownLinks, UpLinks, FreeOk, Shelved, Counted, Best, NodesAt, NetsAt;
      UniverseIsBest(width, listing, items);
    }

    lemma Deepest(b: Id, q: Bits, t: Bits, c: Id)
      requires Sound({})
      requires b in place && b in shapes && |q| == width && place[b] <= t <= q
      requires Entry(shapes, b, q).None? || shapes[b].bits == |t|
            || (Entry(shapes, b, q).value in shapes && shapes[Entry(shapes, b, q).value].bits > |t|)
      requires c in place && place[c] <= t
      ensures place[c] <= place[b]
    {
      FindStop(width, root.value, shapes, place, b, q, t, c);
    }

    /** Passing from a block to its sub-block, the match changes only if the sub-block has a network. */
    lemma BestBetween(b: Id, o: Id, q: Bits)
      requires Sound({}) && b in place && b in shapes && Covers(width, place[b], q) && Entry(shapes, b, q) == Some(o)
      ensures o in place && place[b] < place[o] <= q
      ensures nets[o] == [] ==> Best(listing, place[o]) == Best(listing, place[b])
      ensures nets[o] != [] ==> |place[o]| < width && NetId(Best(listing, place[o])) == Some(nets[o][0])
    {
      assert IsSub(shapes, place, b, q, o);
      forall j | 0 <= j < |listing| && place[b] < listing[j].prefix <= place[o]
        ensures listing[j].prefix == place[o]
      {
        var c := HomeOf(listing[j].net);
        FindStep(width, root.value, shapes, place, b, o, q, c);
      }
      BestStep(listing, place[b], place[o]);
      if nets[o] != [] {
        var i := NetsAtFirst(listing, place[o]);
        assert items[listing[i].net] == Entity(NetKind, place[o]);
      }
    }

    lemma HomeOf(x: Item) returns (c: Id)
      requires Sound({}) && x in items
      ensures c in place && place[c] == items[x].at
    {
      assert HasBlock(place, items[x].at);
      c :| c in place && place[c] == items[x].at;
    }

    /** The match of a query is the match of the deepest block covering it. */
    lemma BestAtBlock(t: Bits, b: Id)
      requires Sound({}) && b in place && place[b] <= t
      requires forall c :: c in place && place[c] <= t ==> place[c] <= place[b]
      ensures Best(listing, t) == Best(listing, place[b])
    {
      forall j | 0 <= j < |listing|
        ensures !(place[b] < listing[j].prefix <= t)
      {
        var c := HomeOf(listing[j].net);
      }
      BestStep(listing, place[b], t);
      if NetsAt(listing, t) != [] {
        var i := NetsAtFirst(listing, t);
        var c := HomeOf(listing[i].net);
      }
    }

    /** Where the search stopped, the next block towards the prefix has a free place. */
    lemma Fits(p: Prefix, block: Id, bits: nat, newBits: nat)
      requires Sound({}) && ValidPrefix(width, p)
      requires block in place && bits == |place[block]| < p.bits && place[block] <= Text(p)
      requires forall c :: c in place && place[c] <= Text(p) ==> place[c] <= place[block]
      requires newBits == if bits + SubBits(bits) > p.bits then p.bits else bits + SubBits(bits)
      ensures var v := Text(p)[..newBits];
        && block in shapes && shapes[block].bits == bits && Vacant(width, shapes, place, block, v)
        && !HasBlock(place, v) && v <= BitsOf(p.octets) && place[block] < v <= Text(p)
      ensures forall c :: c in place ==> c in shapes
    {
      hide Counted, FreeOk, Shelved, BlockLists, BlockPointers, Homes, ListOk, NetofKnown, DownLinks, Entry, BitsOf,
        SubBits;
      var v := Text(p)[..newBits];
      assert v <= Text(p);
      forall c | c in place && place[c] <= v
        ensures place[c] <= place[block]
      {
        assert place[c] <= Text(p);
      }
    }

    /** The opening computation of Inet_New_Block: index, length and bit count of the new block's run. */
    method PlanRun(p: Prefix, bits: nat) returns (index: nat, run: nat, newBits: nat)
      requires ValidPrefix(width, p) && bits < p.bits && width % 8 == 0
      ensures newBits == if bits + SubBits(bits) > p.bits then p.bits else bits + SubBits(bits)
      ensures bits < newBits <= p.bits <= width && p.bits == |Text(p)|
      ensures Run(width, bits, Text(p)[..newBits], BitsOf(p.octets), bits + SubBits(bits), index, run)
      ensures index + run <= Pow2(SubBits(bits))
    {
      hide Value;
      index := SubIndex(p.octets, bits);
      newBits := bits + SubBits(bits);
      if newBits > p.bits {
        run := Pow2(newBits - p.bits);
        newBits := p.bits;
      } else {
        run := 1;
      }
      SubIndexIsValue(p.octets, bits);
      RunFits(bits, SubBits(bits), Text(p)[..newBits], BitsOf(p.octets));
    }

    /** The copy loop of Inet_New_Block: sub-blocks in the run move into the new block's table. */
    method CopyRun(pSubs: seq<Option<Id>>, index: nat, run: nat) returns (subs: seq<Option<Id>>)
      ensures RunCopied(pSubs, subs, index, run) && |subs| <= run
    {
      subs := [];
      var i := index;
      while i < index + run
        invariant index <= i <= index + run
        invariant |subs| <= i - index
        invariant forall j: nat :: Nth(subs, j) == if j < i - index then Nth(pSubs, index + j) else None
      {
        var o := Nth(pSubs, i);
        if o.Some? {
          subs := Put(subs, i - index, o);
        }
        i := i + 1;
      }
    }

    /** The closing loop of Inet_New_Block: subsumed blocks get the new super, the run names the new block. */
    method TakeRun(block: Id, id: Id, index: nat, run: nat)
      requires block in shapes && id in shapes && block != id
      requires |shapes[id].subs| <= run
      requires !Holds(shapes[id].subs, block) && !Holds(shapes[id].subs, id)
      requires forall c :: Holds(shapes[id].subs, c) ==> c in shapes
      requires |shapes[block].subs| <= Pow2(SubBits(shapes[block].bits))
      requires index + run <= Pow2(SubBits(shapes[block].bits))
      modifies this`shapes
      ensures shapes.Keys == old(shapes.Keys)
      ensures shapes[id] == old(shapes[id])
      ensures shapes[block] == old(shapes[block]).(subs := shapes[block].subs)
      ensures RunTaken(old(shapes[block].subs), shapes[block].subs, index, run, id)
      ensures |shapes[block].subs| <= Pow2(SubBits(shapes[block].bits))
      ensures forall c :: c in shapes && c != block && c != id ==>
        shapes[c] == if Holds(shapes[id].subs, c) then old(shapes[c]).(super := Some(id)) else old(shapes[c])
    {
      var subs := shapes[id].subs;
      var i := 0;
      while i < run
        invariant 0 <= i <= run
        invariant shapes.Keys == old(shapes.Keys)
        invariant shapes[id] == old(shapes[id])
        invariant shapes[block] == old(shapes[block]).(subs := shapes[block].subs)
        invariant RunTaken(old(shapes[block].subs), shapes[block].subs, index, i, id)
        invariant |shapes[block].subs| <= Pow2(SubBits(shapes[block].bits))
        invariant forall c :: c in shapes && c != block && c != id ==>
          shapes[c] == if HeldBefore(subs, i, c) then old(shapes[c]).(super := Some(id)) else old(shapes[c])
      {
        var o := Nth(subs, i);
        if o.Some? {
          assert Holds(subs, o.value);
          shapes := shapes[o.value := shapes[o.value].(super := Some(id))];
        }
        shapes := shapes[block := shapes[block].(subs := Put(shapes[block].subs, i + index, Some(id)))];
        i := i + 1;
      }
      assert forall c :: Holds(subs, c) <==> HeldBefore(subs, run, c);
    }

    /** Udb_Edit_Free_Object: reuse the head of the class's free list, or create an object. */
    method EditFreeObject(slot: bool) returns (id: Id)
      requires FreeOk(shapes, nets, nodes, place, freeBlocks + freeSlots, nextId)
      requires forall c :: c in place ==> c in shapes
      modifies this`freeBlocks, this`freeSlots, this`nextId, this`shapes, this`nets, this`nodes
      ensures id !in place && id !in freeBlocks + freeSlots
      ensures id in shapes && shapes == old(shapes)[id := shapes[id]] && shapes[id].subs == []
      ensures nets == old(nets)[id := []] && nodes == old(nodes)[id := []]
      ensures FreeOk(shapes, nets, nodes, place, freeBlocks + freeSlots, nextId)
      ensures forall c :: c in shapes ==> c < nextId
      ensures if slot && old(freeSlots) != [] then id == old(freeSlots)[0] && freeSlots == old(freeSlots)[1..]
        else freeSlots == old(freeSlots)
      ensures if !slot && old(freeBlocks) != [] then id == old(freeBlocks)[0] && freeBlocks == old(freeBlocks)[1..]
        else freeBlocks == old(freeBlocks)
      ensures (if slot then old(freeSlots) else old(freeBlocks)) == [] ==> id == old(nextId)
      ensures old(Shelved(shapes, freeBlocks, freeSlots, width)) ==> Shelved(shapes, freeBlocks, freeSlots, width)
    {
      ghost var free := freeBlocks + freeSlots;
      if slot && freeSlots != [] {
        id := freeSlots[0];
        assert id == free[|freeBlocks|] && id in free;
        freeSlots := freeSlots[1..];
        Popped(free, |freeBlocks|, freeBlocks + freeSlots);
      } else if !slot && freeBlocks != [] {
        id := freeBlocks[0];
        assert id == free[0] && id in free;
        freeBlocks := freeBlocks[1..];
        Popped(free, 0, freeBlocks + freeSlots);
      } else {
        id := nextId;
        nextId := nextId + 1;
        shapes := shapes[id := Shape(0, None, [])];
        nets := nets[id := []];
        nodes := nodes[id := []];
      }
    }

    /**
     Inet_New_Block: one more block on the way to the prefix, under the deepest block covering it.
     The sub-blocks it subsumes stay in the tree, below it.
     */
    method NewBlock(p: Prefix, block: Id, bits: nat) returns (id: Id, newBits: nat)
      requires Sound({}) && ValidPrefix(width, p)
      requires block in place && bits == |place[block]| < p.bits && place[block] <= Text(p)
      requires forall c :: c in place && place[c] <= Text(p) ==> place[c] <= place[block]
      modifies this`shapes, this`nets, this`nodes, this`count, this`freeBlocks, this`freeSlots, this`nextId, this`place
      ensures Sound({})
      ensures id !in old(place) && bits < newBits <= p.bits && newBits <= bits + SubBits(bits)
      ensures place == old(place)[id := Text(p)[..newBits]]
      ensures forall c :: c in place && place[c] <= Text(p) ==> place[c] <= place[id]
      ensures newBits == p.bits || newBits == bits + SubBits(bits)
    {
      hide Sound, Tree, Vacant, Run, FreeOk, Shelved, BlockLists, Counted, ListOk, Homes, BlockPointers, HasBlock;
      hide SubBits, Pow2, RunCopied, BitsOf, Text, NoDup, NetsAt;
      ghost var shapes0, place0 := shapes, place;
      var index, run;
      Basics({});
      Parts({});
      index, run, newBits := PlanRun(p, bits);
      ghost var v, w, end := Text(p)[..newBits], BitsOf(p.octets), bits + SubBits(bits);
      Fits(p, block, bits, newBits);
      var subs;
      id, subs := MakeBlock(block, newBits, index, run);
      LinkBlock(block, id, newBits, subs, index, run, shapes0, v, w, end);
      PartsGrow(width, listing, items, old(nets), old(nodes), netof, itemBlock, old(count), place0, id, v);
      DeepestGrow(place0, place, id, v, Text(p), block);
      Assemble({});
    }

    /** The new object, its counters, and the sub-blocks it subsumes; a slot has neither. */
    method MakeBlock(block: Id, newBits: nat, index: nat, run: nat) returns (id: Id, subs: seq<Option<Id>>)
      requires FreeOk(shapes, nets, nodes, place, freeBlocks + freeSlots, nextId)
      requires block in place && forall c :: c in place ==> c in shapes
      modifies this`freeBlocks, this`freeSlots, this`nextId, this`shapes, this`nets, this`nodes, this`count
      ensures id !in place && id in shapes && id !in freeBlocks + freeSlots
      ensures shapes == old(shapes)[id := shapes[id]]
      ensures nets == old(nets)[id := []] && nodes == old(nodes)[id := []]
      ensures count == if newBits < width then old(count)[Counter(NodeKind, id) := 0][Counter(NetKind, id) := 0]
        else old(count)
      ensures FreeOk(shapes, nets, nodes, place, freeBlocks + freeSlots, nextId)
      ensures old(Shelved(shapes, freeBlocks, freeSlots, width)) ==> Shelved(shapes, freeBlocks, freeSlots, width)
      ensures |subs| <= run
      ensures newBits >= width ==> subs == []
      ensures newBits < width ==> RunCopied(old(shapes)[block].subs, subs, index, run)
    {
      hide FreeOk, RunCopied, Shelved;
      id := EditFreeObject(newBits == width);
      subs := [];
      if newBits < width {
        count := count[Counter(NodeKind, id) := 0][Counter(NetKind, id) := 0];
        subs := CopyRun(shapes[block].subs, index, run);
      }
    }

    /** The object is stored, and takes over its run of the parent's entries. */
    method LinkBlock(block: Id, id: Id, newBits: nat, subs: seq<Option<Id>>, index: nat, run: nat,
                     ghost shapes0: map<Id, Shape>, ghost v: Bits, ghost w: Bits, ghost end: nat)
      requires root.Some? && Tree(width, root.value, shapes0, place)
      requires forall c :: c in place ==> c in shapes && c in shapes0 && shapes[c] == shapes0[c]
      requires id in shapes && id !in place && id !in freeBlocks + freeSlots
      requires FreeOk(shapes, nets, nodes, place, freeBlocks + freeSlots, nextId)
      requires block in place && shapes[block].bits == |place[block]| && newBits == |v| &&
        Vacant(width, shapes0, place, block, v)
      requires Run(width, |place[block]|, v, w, end, index, run)
      requires index + run <= Pow2(SubBits(|place[block]|))
      requires |subs| <= run
      requires newBits <= width && (newBits == width ==> subs == [])
      requires newBits < width ==> RunCopied(shapes[block].subs, subs, index, run)
      requires Shelved(shapes, freeBlocks, freeSlots, width)
      modifies this`shapes, this`place
      ensures place == old(place)[id := v]
      ensures Tree(width, root.value, shapes, place)
      ensures FreeOk(shapes, nets, nodes, place, freeBlocks + freeSlots, nextId)
      ensures Shelved(shapes, freeBlocks, freeSlots, width)
    {
      hide Tree, Vacant, Run, FreeOk, SubBits, Pow2, RunCopied, RunTaken, Holds, Grown, Shelved;
      ghost var shapes1 := shapes;
      CopyOk(width, root.value, shapes0, place, block, v, w, end, index, run, subs);
      shapes := shapes[id := Shape(newBits, Some(block), subs)];
      TakeRun(block, id, index, run);
      assert forall c :: c in shapes1 && c != id ==> shapes[c].bits == shapes1[c].bits;
      ShelvedKept(shapes1, shapes, freeBlocks, freeSlots, width);
      FreeGrow(shapes1, shapes, nets, nodes, place, block, subs, id, v, freeBlocks + freeSlots, nextId);
      TakenIsGrown(width, root.value, shapes0, shapes, place, block, id, v, w, end, index, run);
      GrownKeepsTree(width, root.value, shapes0, shapes, place, block, id, v);
      place := place[id := v];
    }

    /** Inet_Update_Block_Count. */
    method UpdateBlockCount(old_: Option<Id>, new_: Option<Id>, kind: Kind)
      requires old_.Some? ==> Counter(kind, old_.value) in count
      requires new_.Some? ==> Counter(kind, new_.value) in count
      modifies this`count
      ensures count.Keys == old(count.Keys)
      ensures forall k: Counter :: k in count ==>
        count[k] == old(count[k]) + (if new_.Some? && k == Counter(kind, new_.value) then 1 else 0)
                                  - (if old_.Some? && k == Counter(kind, old_.value) then 1 else 0)
    {
      if old_ == new_ { return; }
      if old_.Some? {
        count := count[Counter(kind, old_.value) := count[Counter(kind, old_.value)] - 1];
      }
      if new_.Some? {
        count := count[Counter(kind, new_.value) := count[Counter(kind, new_.value)] + 1];
      }
    }

    /** Inet_Set_Netof: move the item from its old network's counter to the new one's. */
    method SetNetof(x: Item, net: Option<Item>)
      requires x in items && NetofKnown()
      requires net.Some? ==> net.value in itemBlock
      requires Counted(items, netof, itemBlock, count, place, width)
      modifies this`netof, this`count
      ensures netof == old(netof)[x := net]
      ensures NetofKnown()
      ensures Counted(items, netof, itemBlock, count, place, width)
    {
      var kind := items[x].kind;
      assert kind == NetKind || kind == NodeKind;
      var oldBlock, newBlock := None, None;
      if netof[x].Some? {
        var y := netof[x].value;
        assert itemBlock[y] in place;
        oldBlock := Some(itemBlock[y]);
      }
      if net.Some? {
        var y := net.value;
        assert itemBlock[y] in place;
        newBlock := Some(itemBlock[y]);
      }
      assert oldBlock.Some? ==> CountedAt(items, netof, itemBlock, count, kind, oldBlock.value);
      assert newBlock.Some? ==> CountedAt(items, netof, itemBlock, count, kind, newBlock.value);
      UpdateBlockCount(oldBlock, newBlock, kind);
      forall c | c in place && |place[c]| < width
        ensures CountedAt(items, netof[x := net], itemBlock, count, NetKind, c)
        ensures CountedAt(items, netof[x := net], itemBlock, count, NodeKind, c)
      {
        ParentedChange(items, netof, itemBlock, x, net, NetKind, c);
        ParentedChange(items, netof, itemBlock, x, net, NodeKind, c);
        assert CountedAt(items, netof, itemBlock, old(count), NetKind, c);
        assert CountedAt(items, netof, itemBlock, old(count), NodeKind, c);
      }
      netof := netof[x := net];
    }

    /** Inet_Reparent_Items: every item of a list gets the given network. */
    method ReparentItems(list: seq<Item>, net: Item)
      requires NetofKnown() && net in itemBlock
      requires forall x :: x in list ==> x in items
      requires Counted(items, netof, itemBlock, count, place, width)
      modifies this`netof, this`count
      ensures NetofKnown()
      ensures Counted(items, netof, itemBlock, count, place, width)
      ensures netof.Keys == old(netof.Keys)
      ensures forall x :: x in netof ==> netof[x] == if x in list then Some(net) else old(netof[x])
    {
      var i := 0;
      while i < |list|
        invariant 0 <= i <= |list|
        invariant NetofKnown()
        invariant Counted(items, netof, itemBlock, count, place, width)
        invariant netof.Keys == old(netof.Keys)
        invariant forall x :: x in netof ==> netof[x] == if x in list[..i] then Some(net) else old(netof[x])
      {
        assert list[..i + 1] == list[..i] + [list[i]];
        SetNetof(list[i], Some(net));
        i := i + 1;
      }
      assert list[..i] == list;
    }

    /** The loop of Inet_Reparent that replaces the references to a freed sub-block with NULLs. */
    method EmptyRun(b: Id, i: nat, run: nat)
      requires b in shapes && i + run <= |shapes[b].subs|
      modifies this`shapes
      ensures shapes.Keys == old(shapes.Keys) && forall c :: c in shapes && c != b ==> shapes[c] == old(shapes[c])
      ensures shapes[b] == old(shapes[b]).(subs := shapes[b].subs) && |shapes[b].subs| == |old(shapes[b].subs)|
      ensures forall j: nat :: Nth(shapes[b].subs, j) == if i <= j < i + run then None else Nth(old(shapes[b].subs), j)
    {
      var j := 0;
      while j < run
        invariant 0 <= j <= run
        invariant shapes.Keys == old(shapes.Keys) && forall c :: c in shapes && c != b ==> shapes[c] == old(shapes[c])
        invariant shapes[b] == old(shapes[b]).(subs := shapes[b].subs) && |shapes[b].subs| == |old(shapes[b].subs)|
        invariant forall k: nat :: Nth(shapes[b].subs, k) == if i <= k < i + j then None
          else Nth(old(shapes[b].subs), k)
      {
        shapes := shapes[b := shapes[b].(subs := Put(shapes[b].subs, i + j, None))];
        j := j + 1;
      }
    }

    /** Udb_Append_Free_List for a block or slot. */
    method AppendFreeList(o: Id, slot: bool)
      modifies this`freeBlocks, this`freeSlots
      ensures freeBlocks == if slot then old(freeBlocks) else [o] + old(freeBlocks)
      ensures freeSlots == if slot then [o] + old(freeSlots) else old(freeSlots)
      ensures var free, k := old(freeBlocks + freeSlots), if slot then |old(freeBlocks)| else 0;
        freeBlocks + freeSlots == free[..k] + [o] + free[k..]
    {
      if slot {
        freeSlots := [o] + freeSlots;
      } else {
        freeBlocks := [o] + freeBlocks;
      }
    }

    /** A sub-block no longer in use goes to its free list and leaves the parent's entries. */
    method FreeSub(b: Id, o: Id, i: nat, run: nat, ghost extra: set<Item>)
      requires b in shapes && o in shapes && o in nets && o in nodes && Child(shapes, place, b, o)
      requires |place[b]| + SubBits(|place[b]|) <= width && |place[o]| <= width
      requires i == Start(width, |place[b]|, place[o]) && run == RunLength(|place[b]|, |place[o]|)
      requires shapes[o].subs == [] && nets[o] == [] && nodes[o] == []
      requires forall d :: d in place ==> !(place[o] < place[d])
      requires forall y :: y in itemBlock && y in extra ==> itemBlock[y] != o
      requires Sound(extra)
      modifies this`shapes, this`freeBlocks, this`freeSlots, this`place
      ensures place == old(place) - {o} && shapes.Keys == old(shapes.Keys)
      ensures forall c :: c in shapes && c != b ==> shapes[c] == old(shapes[c])
      ensures |shapes[b].subs| == |old(shapes[b].subs)| && shapes[b] == old(shapes[b]).(subs := shapes[b].subs)
      ensures forall q: Bits {:trigger Entry(shapes, b, q)} :: Covers(width, old(place[b]), q) ==>
        Entry(shapes, b, q) == if old(place[o]) <= q then None else Entry(old(shapes), b, q)
      ensures Sound(extra)
    {
      hide Sound, SubBits, RunLength, Start, Entry, Nth, Covers, Tree, ListOk, BlockLists, Homes, BlockPointers,
        FreeOk, Counted, Shelved;
      ghost var shapes0, place0, free0 := shapes, place, freeBlocks + freeSlots;
      Basics(extra);
      Parts(extra);
      RunRoom(width, root.value, shapes, place, b, o);
      var slot := shapes[o].bits >= width;
      AppendFreeList(o, slot);
      EmptyRun(b, i, run);
      place := place - {o};
      ShelvedMore(shapes0, shapes, old(freeBlocks), old(freeSlots), freeBlocks, freeSlots, o, width);
      FreeSubTree(shapes0, place0, b, o, i, run);
      FreeSubItems(shapes0, place0, b, o, free0, if slot then |old(freeBlocks)| else 0, extra);
    }

    lemma Parts(extra: set<Item>)
      requires Sound(extra)
      ensures root.Some? && Tree(width, root.value, shapes, place)
      ensures ListOk(width, listing, items) && BlockLists(listing, items, nets, nodes, place) && Homes(items, place)
      ensures BlockPointers(items, itemBlock, place, extra)
      ensures FreeOk(shapes, nets, nodes, place, freeBlocks + freeSlots, nextId)
      ensures Shelved(shapes, freeBlocks, freeSlots, width)
      ensures NetofKnown() && Counted(items, netof, itemBlock, count, place, width)
      ensures listing != [] && universe == Some(listing[0].net)
    {
      hide Tree, BlockLists, Homes, BlockPointers, FreeOk, Shelved, Counted, NetofKnown;
    }

    lemma FreeSubItems(shapes0: map<Id, Shape>, place0: map<Id, Bits>, b: Id, o: Id, free0: seq<Id>, k: nat,
        extra: set<Item>)
      requires ListOk(width, listing, items) && BlockLists(listing, items, nets, nodes, place0) && Homes(items, place0)
      requires BlockPointers(items, itemBlock, place0, extra)
      requires FreeOk(shapes0, nets, nodes, place0, free0, nextId)
      requires forall x :: x in items ==> x in netof
      requires forall x :: x in netof && netof[x].Some? ==> netof[x].value in itemBlock
      requires forall y :: y in itemBlock ==> itemBlock[y] in place0 && |place0[itemBlock[y]]| < width
      requires Counted(items, netof, itemBlock, count, place0, width)
      requires universe == Some(listing[0].net)
      requires b in place0 && o in place0 && b != o && place == place0 - {o}
      requires shapes.Keys == shapes0.Keys && (forall c :: c in shapes && c != b ==> shapes[c] == shapes0[c])
      requires o in nets && o in nodes && o in shapes && nets[o] == [] && nodes[o] == [] && shapes0[o].subs == []
      requires k <= |free0| && freeBlocks + freeSlots == free0[..k] + [o] + free0[k..]
      requires forall y :: y in itemBlock && y in extra ==> itemBlock[y] != o
      requires root.Some? && Tree(width, root.value, shapes, place) && Shelved(shapes, freeBlocks, freeSlots, width)
      ensures Sound(extra)
    {
      hide Tree, ListOk, BlockLists, Homes, BlockPointers, FreeOk, Counted, Shelved;
      ItemsPrune(width, listing, items, nets, nodes, itemBlock, place0, place, o, extra);
      FreePush(shapes0, shapes, nets, nodes, place0, place, b, o, free0, freeBlocks + freeSlots, k, nextId);
      CountsPrune(items, netof, itemBlock, count, place0, place, width);
    }

    lemma FreeSubTree(shapes0: map<Id, Shape>, place0: map<Id, Bits>, b: Id, o: Id, i: nat, run: nat)
      requires root.Some? && b in shapes0 && o in shapes0 && Child(shapes0, place0, b, o) && o != root.value
      requires |place0[b]| + SubBits(|place0[b]|) <= width && |place0[o]| <= width
      requires i == Start(width, |place0[b]|, place0[o]) && run == RunLength(|place0[b]|, |place0[o]|)
      requires forall d :: d in place0 ==> !(place0[o] < place0[d])
      requires shapes.Keys == shapes0.Keys && (forall c :: c in shapes && c != b ==> shapes[c] == shapes0[c])
      requires shapes[b] == shapes0[b].(subs := shapes[b].subs) && |shapes[b].subs| == |shapes0[b].subs|
      requires forall j: nat :: Nth(shapes[b].subs, j) == if i <= j < i + run then None else Nth(shapes0[b].subs, j)
      requires place == place0 - {o}
      requires Tree(width, root.value, shapes0, place0)
      ensures Tree(width, root.value, shapes, place)
      ensures forall q: Bits {:trigger Entry(shapes, b, q)} :: Covers(width, place0[b], q) ==>
        Entry(shapes, b, q) == if place0[o] <= q then None else Entry(shapes0, b, q)
    {
      hide SubBits, RunLength, Start, Entry, DownLinks, UpLinks;
      EmptiedIsPruned(width, root.value, shapes0, shapes, place0, b, o, i, run);
      PrunedKeepsTree(width, root.value, shapes0, shapes, place0, b, o);
    }

    /**
     Inet_Reparent: give the network to every item in the region not under a deeper network, and
     drop the blocks found empty.  Returns whether the block is still in use.
     */
    method Reparent(b: Id, net: Item, skipNets: bool, ghost region: Bits) returns (inUse: bool)
      requires b in place && place[b] == region && b in shapes && b in nets && b in nodes && 0 < |region| <= width
      requires net in itemBlock && itemBlock[net] in place && !(region < place[itemBlock[net]])
      requires skipNets ==> nets[b] == [] && |region| < width
      requires Sound({net})
      modifies this`shapes, this`netof, this`count, this`freeBlocks, this`freeSlots, this`place
      ensures shapes.Keys == old(shapes.Keys)
      ensures b in place && shapes[b] == old(shapes[b]).(subs := shapes[b].subs)
      ensures Kept(old(shapes), shapes, old(place), place, region)
      ensures Moved(listing, items, old(netof), netof, region, net)
      ensures inUse <==> Occupied(items, region)
      ensures !inUse ==> shapes[b].subs == [] && NothingBelow(place, region)
      ensures Sound({net})
      decreases width - |region|, 2
    {
      hide Tree, BlockLists, Homes, BlockPointers, FreeOk, Shelved, Counted, NetofKnown, ListOk, Moved, NetsAt, NodesAt;
      Basics({net});
      Parts({net});
      ListsOf({net}, b);
      SlotFacts(b, {net});
      if !skipNets {
        if shapes[b].bits == width {
          ReparentItems(nodes[b], net);
          SlotMoved(width, listing, items, nodes[b], old(netof), netof, region, net);
          return nodes[b] != [];
        }
        if nets[b] != [] {
          ReparentItems(nets[b], net);
          NetMoved(width, listing, items, nets[b], old(netof), netof, region, net);
          return true;
        }
      }
      inUse := ReparentTable(b, net, region);
    }

    lemma ListsOf(extra: set<Item>, b: Id)
      requires Sound(extra) && b in place && b in nets && b in nodes
      ensures nets[b] == NetsAt(listing, place[b]) && NodesAt(items, nodes[b], place[b])
      ensures forall x :: x in nets[b] ==> x in items
      ensures forall x :: x in nodes[b] ==> x in items
    {
      hide Tree, NetsAt, Homes, BlockPointers, FreeOk, Shelved, Counted, ListOk, NetofKnown;
      ListedItems(width, listing, items, place[b]);
      assert NodesAt(items, nodes[b], place[b]);
    }

    lemma SlotFacts(b: Id, extra: set<Item>)
      requires Sound(extra) && b in place && b in shapes
      ensures |place[b]| == width ==> shapes[b].subs == [] && NothingBelow(place, place[b])
      ensures |place[b]| < width ==> |place[b]| + SubBits(|place[b]|) <= width
    {
      hide BlockLists, NetsAt, Homes, BlockPointers, FreeOk, Shelved, Counted, ListOk, NetofKnown, DownLinks, UpLinks,
        SubBits,
        Pow2;
      Basics(extra);
      if |place[b]| < width {
        FieldFits(width / 8, |place[b]|);
      }
    }

    /** The loop of Inet_Reparent over the entries of a block. */
    method ReparentTable(b: Id, net: Item, ghost region: Bits) returns (inUse: bool)
      requires b in place && place[b] == region && b in shapes && b in nets && |region| < width
      requires net in itemBlock && itemBlock[net] in place && !(region < place[itemBlock[net]])
      requires nets[b] == []
      requires Sound({net})
      modifies this`shapes, this`netof, this`count, this`freeBlocks, this`freeSlots, this`place
      ensures shapes.Keys == old(shapes.Keys)
      ensures b in place && shapes[b] == old(shapes[b]).(subs := shapes[b].subs)
      ensures Kept(old(shapes), shapes, old(place), place, region)
      ensures Moved(listing, items, old(netof), netof, region, net)
      ensures inUse <==> Occupied(items, region)
      ensures !inUse ==> shapes[b].subs == [] && NothingBelow(place, region)
      ensures Sound({net})
      decreases width - |region|, 1
    {
      hide Sound, Tree, BlockLists, Homes, BlockPointers, FreeOk, Shelved, Counted, ListOk, NetsAt, Entry, SubBits;
      hide Moved, MovedBefore, OccupiedBefore, Occupied, NoBlockBefore, NothingBelow, Uncut, Start, RunLength;
      Basics({net});
      SlotFacts(b, {net});
      WalkStart(width, shapes, place, b, listing, items, netof, region, net);
      inUse := false;
      var i, size := 0, |shapes[b].subs|;
      ghost var nb := itemBlock[net];
      while i < size
        invariant shapes.Keys == old(shapes.Keys)
        invariant b in place && place[b] == region && b in shapes && shapes[b].bits == |region|
        invariant shapes[b] == old(shapes[b]).(subs := shapes[b].subs) && |shapes[b].subs| == size
        invariant Kept(old(shapes), shapes, old(place), place, region)
        invariant nb in place && !(region < place[nb])
        invariant Sound({net})
        invariant Uncut(width, shapes, place, b, i)
        invariant MovedBefore(width, listing, items, old(netof), netof, region, net, i)
        invariant inUse <==> OccupiedBefore(width, items, region, i)
        invariant !inUse ==> NoBlockBefore(width, place, region, i)
        decreases size - i
      {
        var step, used := ReparentEntry(b, i, net, old(netof), inUse);
        inUse := inUse || used;
        i := i + step;
        Basics({net});
        assert itemBlock[net] in place;
      }
      Parts({net});
      ListsOf({net}, b);
      WalkDone(width, root.value, shapes, place, listing, items, old(netof), netof, b, net, i);
      if !inUse {
        Trim(b, {net});
      }
    }

    /** The sub-block list of a block with nothing below it is trimmed to the empty one. */
    method Trim(b: Id, ghost extra: set<Item>)
      requires b in place && b in shapes && NothingBelow(place, place[b]) && Sound(extra)
      modifies this`shapes
      ensures shapes == old(shapes)[b := old(shapes)[b].(subs := [])] && Sound(extra)
    {
      hide Sound, Tree, BlockLists, Homes, BlockPointers, FreeOk, Shelved, Counted, ListOk, NothingBelow;
      Parts(extra);
      TrimKeepsTree(width, root.value, shapes, shapes[b := shapes[b].(subs := [])], place, b);
      FreeTrim(shapes, nets, nodes, place, b, freeBlocks + freeSlots, nextId);
      ShelvedKept(shapes, shapes[b := shapes[b].(subs := [])], freeBlocks, freeSlots, width);
      shapes := shapes[b := shapes[b].(subs := [])];
      Assemble(extra);
    }

    /** One iteration of the loop: an empty entry, or the run of a sub-block. */
    method ReparentEntry(b: Id, i: nat, net: Item, ghost netof0: map<Item, Option<Item>>, ghost before: bool)
      returns (step: nat, used: bool)
      requires b in place && b in shapes && b in nets && shapes[b].bits == |place[b]| < width
      requires |place[b]| + SubBits(|place[b]|) <= width
      requires net in itemBlock && itemBlock[net] in place && !(place[b] < place[itemBlock[net]])
      requires nets[b] == [] && i < |shapes[b].subs|
      requires Sound({net})
      requires Uncut(width, shapes, place, b, i)
      requires MovedBefore(width, listing, items, netof0, netof, place[b], net, i)
      requires !before ==> NoBlockBefore(width, place, place[b], i)
      modifies this`shapes, this`netof, this`count, this`freeBlocks, this`freeSlots, this`place
      ensures step > 0
      ensures shapes.Keys == old(shapes.Keys)
      ensures b in place && place[b] == old(place[b]) && |shapes[b].subs| == |old(shapes[b].subs)|
      ensures shapes[b] == old(shapes[b]).(subs := shapes[b].subs)
      ensures Kept(old(shapes), shapes, old(place), place, place[b])
      ensures Uncut(width, shapes, place, b, i + step)
      ensures MovedBefore(width, listing, items, netof0, netof, place[b], net, i + step)
      ensures OccupiedBefore(width, items, place[b], i + step) <==> (OccupiedBefore(width, items, place[b], i) || used)
      ensures !before && !used ==> NoBlockBefore(width, place, place[b], i + step)
      ensures Sound({net})
      decreases width - |place[b]|, 1, 0
    {
      hide Sound, Tree, ListOk, BlockLists, Homes, NetsAt, Entry, SubBits, Moved, MovedBefore, OccupiedBefore,
        Occupied, NoBlockBefore, Uncut, Start, RunLength;
      Basics({net});
      Parts({net});
      ListsOf({net}, b);
      ghost var region, netof1, shapes1, place1 := place[b], netof, shapes, place;
      var entry := Nth(shapes[b].subs, i);
      if entry.None? {
        StepNull(width, root.value, shapes, place, listing, items, netof0, netof, b, net, i);
        UncutAfterNull(width, root.value, shapes, place, b, i);
        return 1, false;
      }
      var o := entry.value;
      MetAtStart(width, root.value, shapes, place, b, i, o);
      step := RunLength(shapes[b].bits, shapes[o].bits);
      UncutAfterRun(width, root.value, shapes, place, b, i, o);
      used := ReparentSub(b, o, i, step, net);
      StepRun(width, root.value, shapes1, place1, listing, items, netof0, netof1, netof, b, o, net, i, step);
      UncutKept(width, shapes1, shapes, place1, place, b, i + step);
      if !before && !used {
        StepGone(width, root.value, shapes1, place1, place, b, o, i, step);
      }
    }

    /** A block with nothing below it is alone in its region. */
    lemma Alone(o: Id, extra: set<Item>)
      requires o in place && Sound(extra) && NothingBelow(place, place[o])
      ensures forall c :: c in place && place[o] <= place[c] ==> c == o
    {
      hide Tree, FreeOk, Shelved, Counted, NetofKnown, BlockPointers, Homes, BlockLists, ListOk;
      forall c | c in place && place[o] <= place[c]
        ensures c == o
      {
        SamePlace(width, root.value, shapes, place, c, o);
      }
    }

    /** One sub-block: walk it, and drop it if it is not in use. */
    method ReparentSub(b: Id, o: Id, i: nat, run: nat, net: Item) returns (used: bool)
      requires b in shapes && o in shapes && Child(shapes, place, b, o)
      requires net in itemBlock && itemBlock[net] in place && !(place[b] < place[itemBlock[net]])
      requires |place[b]| + SubBits(|place[b]|) <= width && |place[o]| <= width
      requires i == Start(width, |place[b]|, place[o]) && run == RunLength(|place[b]|, |place[o]|)
      requires Sound({net})
      modifies this`shapes, this`netof, this`count, this`freeBlocks, this`freeSlots, this`place
      ensures shapes.Keys == old(shapes.Keys)
      ensures b in place && place[b] == old(place[b]) && |shapes[b].subs| == |old(shapes[b].subs)|
      ensures shapes[b] == old(shapes[b]).(subs := shapes[b].subs)
      ensures Kept(old(shapes), shapes, old(place), place, old(place[b]))
      ensures forall q: Bits {:trigger Entry(shapes, b, q)} :: Covers(width, place[b], q) ==>
        Entry(shapes, b, q) == None || Entry(shapes, b, q) == Entry(old(shapes), b, q)
      ensures Moved(listing, items, old(netof), netof, old(place[o]), net)
      ensures used <==> Occupied(items, old(place[o]))
      ensures !used ==> forall c :: c in place ==> !(old(place[o]) <= place[c])
      ensures Sound({net})
      decreases width - |place[b]|, 0, 0
    {
      hide Sound, Tree, ListOk, BlockLists, Homes, BlockPointers, FreeOk, Shelved, Counted, SubBits, RunLength, Start,
        Entry,
        NetofKnown, Moved, Occupied;
      ghost var r := place[o];
      Basics({net});
      used := Reparent(o, net, false, r);
      forall q: Bits | true
        ensures Entry(shapes, b, q) == Entry(old(shapes), b, q)
      {
        EntrySame(old(shapes), shapes, b, q);
      }
      if !used {
        Parts({net});
        ListedOccupies(width, listing, items, nets, nodes, place, o);
        Alone(o, {net});
        FreeSub(b, o, i, run, {net});
      }
    }

    /** The first part of Inet_Insert: find the block of the prefix, making the missing ones. */
    method Descend(p: Prefix) returns (net: Option<Item>, block: Id)
      requires Sound({}) && ValidPrefix(width, p)
      modifies this`shapes, this`nets, this`nodes, this`count, this`freeBlocks, this`freeSlots, this`nextId, this`place
      ensures Sound({})
      ensures block in place && place[block] == Text(p)
      ensures net.Some? && net == NetId(Best(listing, Text(p)))
      ensures NewBlocks(old(place), place, Text(p))
    {
      hide Sound, SubBits, Best;
      var bits;
      net, block, bits := Find(p);
      while bits < p.bits
        invariant Sound({}) && ValidPrefix(width, p) && NewBlocks(old(place), place, Text(p))
        invariant block in place && bits == |place[block]| <= p.bits <= 8 * |p.octets| && place[block] <= Text(p)
        invariant forall c :: c in place && place[c] <= Text(p) ==> place[c] <= place[block]
        decreases p.bits - bits
      {
        block, bits := NewBlock(p, block, bits);
      }
    }

    /** Inet_Insert for a node.  Without a universe the address cannot be entered. */
    method InsertNode(o: Item, p: Prefix) returns (ok: bool)
      requires Valid() && ValidPrefix(width, p) && p.bits == width
      requires o !in items
      modifies this
      ensures Valid()
      ensures ok <==> old(root).Some?
      ensures root == old(root) && listing == old(listing)
      ensures items == if ok then old(items)[o := Entity(NodeKind, Text(p))] else old(items)
      ensures old(OffBoundary(place, listing)) ==> OffBoundary(place, listing)
    {
      hide Sound, Best, Cached, OffBoundary, NewBlocks;
      if root.None? {
        return false;
      }
      ok := true;
      Basics({});
      var net, block := Descend(p);
      EnterNode(o, Text(p), net, block);
      if old(OffBoundary(place, listing)) {
        OffBoundaryKept(old(place), place, listing, listing, Text(p));
      }
    }

    /** An item of which nothing was known yet gets its network. */
    method EnterItem(o: Item, e: Entity, net: Option<Item>)
      requires o !in items && NetofKnown() && (net.Some? ==> net.value in itemBlock)
      requires Counted(items, netof, itemBlock, count, place, width)
      modifies this`items, this`netof, this`count
      ensures items == old(items)[o := e] && netof == old(netof)[o := net]
      ensures NetofKnown() && Counted(items, netof, itemBlock, count, place, width)
    {
      hide Counted;
      CountsItem(items, netof, itemBlock, count, place, width, o, e);
      items := items[o := e];
      netof := netof[o := None];
      SetNetof(o, net);
    }

    /** The last part of Inet_Insert for a node: its network is set and it joins its slot. */
    method EnterNode(o: Item, t: Bits, net: Option<Item>, block: Id)
      requires Sound({}) && Cached(listing, items, netof) && netof.Keys == items.Keys
      requires block in place && place[block] == t && |t| == width && o !in items
      requires net.Some? && net == NetId(Best(listing, t))
      modifies this`items, this`netof, this`count, this`nodes
      ensures items == old(items)[o := Entity(NodeKind, t)]
      ensures netof.Keys == items.Keys
      ensures Sound({}) && Cached(listing, items, netof)
    {
      hide Sound, Best, Tree, ListOk, BlockLists, Homes, BlockPointers, FreeOk, Shelved, Counted, NetsAt, Cached;
      Basics({});
      Parts({});
      MatchKnown(width, listing, items, itemBlock, place, t);
      var e := Entity(NodeKind, t);
      ListsNode(width, root.value, shapes, listing, items, nets, nodes, place, block, o, t);
      PointersNode(items, itemBlock, place, o, t);
      FreeLists(shapes, nets, nodes, place, freeBlocks + freeSlots, nextId, block, nodes[block] + [o]);
      CachedEnter(listing, items, netof, o, e, net);
      EnterItem(o, e, net);
      nodes := nodes[block := nodes[block] + [o]];
      Assemble({});
    }

    /** Inet_Insert_Root: the first network must be the universe, and its block is the root. */
    method InsertRoot(o: Item)
      requires Valid() && root == None && width > 0
      modifies this
      ensures Valid() && root.Some?
      ensures items == map[o := Entity(NetKind, [])] && listing == [Listed(o, [])]
      ensures OffBoundary(place, listing)
    {
      hide Sound, Best, Tree, ListOk, BlockLists, Homes, BlockPointers, FreeOk, Shelved, Counted, NetsAt, Container,
        Cached;
      var id := nextId;
      StoreRoot(id, o);
      StoreUniverse(id, o);
      RootTree(width, shapes, place, id);
      RootLists(width, nets, nodes, items, itemBlock, place, listing, id, o);
      RootCounts(width, count, items, itemBlock, netof, place, listing, id, o);
      RootFree(shapes, nets, nodes, place, nextId, id);
      assert freeBlocks + freeSlots == [];
      NoneShelved(shapes, width);
      Assemble({});
    }

    method StoreRoot(id: Id, o: Item)
      modifies this`root, this`nextId, this`shapes, this`nets, this`nodes, this`count, this`place
      ensures root == Some(id) && nextId == id + 1
      ensures shapes == map[id := Shape(0, None, [])] && nets == map[id := [o]] && nodes == map[id := []]
      ensures count == map[Counter(NodeKind, id) := 0, Counter(NetKind, id) := 0]
      ensures place == map[id := []]
    {
      root, nextId := Some(id), id + 1;
      shapes, nets, nodes := map[id := Shape(0, None, [])], map[id := [o]], map[id := []];
      count := map[Counter(NodeKind, id) := 0, Counter(NetKind, id) := 0];
      place := map[id := []];
    }

    method StoreUniverse(id: Id, o: Item)
      modifies this`universe, this`items, this`itemBlock, this`netof, this`listing
      ensures universe == Some(o) && listing == [Listed(o, [])]
      ensures items == map[o := Entity(NetKind, [])] && itemBlock == map[o := id] && netof == map[o := None]
    {
      universe := Some(o);
      items, itemBlock, netof := map[o := Entity(NetKind, [])], map[o := id], map[o := None];
      listing := [Listed(o, [])];
    }

    /**
     Inet_Insert for a network.  The universe must come first; the first network at a prefix takes
     over the items of its region, a further one leaves them with the first.
     */
    method InsertNet(o: Item, p: Prefix) returns (ok: bool)
      requires Valid() && ValidPrefix(width, p) && p.bits < width
      requires o !in items
      modifies this
      ensures Valid()
      ensures ok <==> old(root).Some? || p.bits == 0
      ensures !ok ==> items == old(items) && listing == old(listing)
      ensures ok ==>
        items == old(items)[o := Entity(NetKind, Text(p))] && listing == old(listing) + [Listed(o, Text(p))]
      ensures old(OffBoundary(place, listing)) ==> OffBoundary(place, listing)
    {
      hide Sound, Best, Cached, NewBlocks;
      if root.None? {
        if p.bits != 0 {
          return false;
        }
        InsertRoot(o);
        return true;
      }
      hide OffBoundary;
      ok := true;
      var net, block := Descend(p);
      ghost var mid := place;
      PlaceNet(o, Text(p), net, block);
      if old(OffBoundary(place, listing)) {
        OnlyFewer(old(place), mid, place, Text(p));
        CarriedLast(old(listing), o, Text(p));
        OffBoundaryKept(old(place), place, old(listing), listing, Text(p));
      }
    }

    lemma OnlyFewer(place0: map<Id, Bits>, place1: map<Id, Bits>, place2: map<Id, Bits>, t: Bits)
      requires NewBlocks(place0, place1, t) && forall c :: c in place2 ==> c in place1 && place2[c] == place1[c]
      ensures NewBlocks(place0, place2, t)
    {
    }

    /** The network part of Inet_Insert, once the block of the prefix is found. */
    method PlaceNet(o: Item, t: Bits, net: Option<Item>, block: Id)
      requires Sound({}) && Cached(listing, items, netof) && netof.Keys == items.Keys
      requires block in place && place[block] == t && |t| < width && o !in items
      requires net.Some? && net == NetId(Best(listing, t))
      modifies this
      ensures items == old(items)[o := Entity(NetKind, t)] && listing == old(listing) + [Listed(o, t)]
      ensures netof.Keys == items.Keys && root == old(root)
      ensures forall c :: c in place ==> c in old(place) && place[c] == old(place)[c]
      ensures Sound({}) && Cached(listing, items, netof)
    {
      hide Sound, Best, Cached, Tree, ListOk, BlockLists, Homes, BlockPointers, FreeOk, Shelved, Counted, NetsAt,
        Container,
        Moved;
      Basics({});
      Parts({});
      ListsOf({}, block);
      NewContainer(width, listing, items, netof, o, t);
      MatchKnown(width, listing, items, itemBlock, place, t);
      AttachNet(o, block);
      if nets[block] == [] {
        NotEmpty(width, listing, items, t);
        var _ := Reparent(block, o, true, t);
        CachedFirst(width, listing, items, old(netof), netof, o, t);
        SameKeys(items, old(netof), netof, t, o);
        EnterNet(o, t, net, block);
      } else {
        CachedAgain(listing, items, netof, o, t);
        var up := netof[net.value];
        EnterNet(o, t, up, block);
      }
    }

    lemma SameKeys(items: map<Item, Entity>, netof0: map<Item, Option<Item>>, netof1: map<Item, Option<Item>>, t: Bits,
        o: Item)
      requires Moved(listing, items, netof0, netof1, t, o)
      ensures netof1.Keys == netof0.Keys
    {
    }

    /** Point the new network at its block. */
    method AttachNet(o: Item, block: Id)
      requires Sound({}) && netof.Keys == items.Keys
      requires block in place && |place[block]| < width && o !in items
      modifies this`itemBlock
      ensures itemBlock == old(itemBlock)[o := block]
      ensures Sound({o})
    {
      hide Tree, ListOk, BlockLists, Homes, FreeOk, Shelved, Counted;
      CountsPointer(items, netof, itemBlock, count, place, width, o, block);
      itemBlock := itemBlock[o := block];
    }

    /** The last part of Inet_Insert for a network: its own network is set and it joins its block. */
    method EnterNet(o: Item, t: Bits, net: Option<Item>, block: Id)
      requires Sound({o}) && netof.Keys == items.Keys && o !in items
      requires Cached(listing + [Listed(o, t)], items, netof)
      requires block in place && place[block] == t && |t| < width
      requires o in itemBlock && itemBlock[o] == block
      requires net == Container(listing + [Listed(o, t)], Entity(NetKind, t)) && (net.Some? ==> net.value in itemBlock)
      modifies this`items, this`netof, this`count, this`nets, this`listing
      ensures items == old(items)[o := Entity(NetKind, t)] && listing == old(listing) + [Listed(o, t)]
      ensures netof.Keys == items.Keys
      ensures Sound({}) && Cached(listing, items, netof)
    {
      hide Sound, Best, Tree, ListOk, BlockLists, Homes, BlockPointers, FreeOk, Shelved, Counted, NetsAt, Container,
        Cached;
      Basics({o});
      Parts({o});
      var e := Entity(NetKind, t);
      ListsNet(width, root.value, shapes, listing, items, nets, nodes, place, block, o, t);
      PointersNet(items, itemBlock, place, o, t);
      FreeLists(shapes, nets, nodes, place, freeBlocks + freeSlots, nextId, block, nets[block] + [o]);
      CachedEnter(listing + [Listed(o, t)], items, netof, o, e, net);
      EnterItem(o, e, net);
      nets := nets[block := nets[block] + [o]];
      listing := listing + [Listed(o, t)];
      Assemble({});
    }

    lemma Assemble(extra: set<Item>)
      requires root.Some? && Tree(width, root.value, shapes, place)
      requires ListOk(width, listing, items) && BlockLists(listing, items, nets, nodes, place) && Homes(items, place)
      requires BlockPointers(items, itemBlock, place, extra)
      requires FreeOk(shapes, nets, nodes, place, freeBlocks + freeSlots, nextId)
      requires Shelved(shapes, freeBlocks, freeSlots, width)
      requires NetofKnown() && Counted(items, netof, itemBlock, count, place, width)
      requires listing != [] && universe == Some(listing[0].net)
      ensures Sound(extra)
    {
      hide Tree, ListOk, BlockLists, Homes, BlockPointers, FreeOk, Shelved, Counted, NetofKnown;
    }

    /** Inet_Delete for a node: it leaves its slot, which stays in the tree. */
    method DeleteNode(o: Item, p: Prefix)
      requires Valid() && ValidPrefix(width, p)
      requires o in items && items[o] == Entity(NodeKind, Text(p))
      modifies this`items, this`netof, this`count, this`nodes
      ensures Valid()
      ensures items == old(items) - {o}
    {
      hide Sound, Best, Cached;
      var net, block, bits := Find(p);
      assert place[block] == Text(p) by {
        var c := HomeOf(o);
        assert place[c] <= place[block];
      }
      LeaveSlot(o, block);
    }

    method LeaveSlot(o: Item, block: Id)
      requires Sound({}) && Cached(listing, items, netof) && netof.Keys == items.Keys
      requires block in place && o in items && items[o] == Entity(NodeKind, place[block])
      modifies this`items, this`netof, this`count, this`nodes
      ensures items == old(items) - {o}
      ensures netof.Keys == items.Keys
      ensures Sound({}) && Cached(listing, items, netof)
    {
      hide Sound, Best, Tree, ListOk, BlockLists, Homes, BlockPointers, FreeOk, Shelved, Counted, NetsAt, Container;
      Basics({});
      Parts({});
      ListsOf({}, block);
      var k :| 0 <= k < |nodes[block]| && nodes[block][k] == o;
      var list := nodes[block][..k] + nodes[block][k + 1..];
      ListsDrop(width, root.value, shapes, listing, items, nets, nodes, place, block, o, k);
      PointersDrop(items, itemBlock, place, o);
      FreeLists(shapes, nets, nodes, place, freeBlocks + freeSlots, nextId, block, list);
      nodes := nodes[block := list];
      SetNetof(o, None);
      CountsLess(items, netof, itemBlock, count, place, width, o);
      items := items - {o};
      netof := netof - {o};
      Assemble({});
    }

    /**
     Any run of insertions and node deletions from an empty index: what the index holds, and the
     network it has cached for every item, are those of the plain model.
     */
    method RunAll(ops: seq<Op>)
      requires Valid() && root == None && width > 0
      requires LegalRun(width, Plain(map[], []), ops)
      modifies this
      ensures Valid()
      ensures Plain(items, listing) == ApplyAll(width, Plain(map[], []), ops)
      ensures forall x :: x in items ==>
        x in netof && netof[x] == Container(ApplyAll(width, Plain(map[], []), ops).listing, items[x])
      ensures root.Some? ==> Counted(items, netof, itemBlock, count, place, width)
      ensures OffBoundary(place, listing)
    {
      hide Sound, Best, Text, OffBoundary;
      NoBlocks();
      var i := 0;
      while i < |ops|
        invariant 0 <= i <= |ops|
        invariant Valid() && (root.None? <==> listing == []) && OffBoundary(place, listing)
        invariant LegalRun(width, Plain(items, listing), ops[i..])
        invariant ApplyAll(width, Plain(items, listing), ops[i..]) == ApplyAll(width, Plain(map[], []), ops)
      {
        assert ops[i..][0] == ops[i] && ops[i..][1..] == ops[i + 1..];
        match ops[i] {
          case AddNet(o, p) => var _ := InsertNet(o, p);
          case AddNode(o, p) => var _ := InsertNode(o, p);
          case DropNode(o, p) => DeleteNode(o, p);
        }
        HasUniverse();
        i := i + 1;
      }
      if root.Some? {
        Parts({});
      }
    }

    lemma NoBlocks()
      requires Valid() && root == None
      ensures OffBoundary(place, listing)
    {
    }

    lemma HasUniverse()
      requires Valid()
      ensures root.None? <==> listing == []
    {
      hide Tree, BlockLists, Homes, BlockPointers, FreeOk, Shelved, Counted, Cached, NetsAt;
    }
  }
}
