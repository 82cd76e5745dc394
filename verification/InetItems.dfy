/**
 What the address index of libudb/inet.c keeps besides the tree: which networks and nodes sit
 at which block, and the network each item is counted under.
 */
module InetItems {
  import opened Basics
  import opened InetBits
  import opened InetTree
  import opened LongestMatch

  datatype Kind = NetKind | NodeKind

  /** What the index knows of a network or node object: its prefix, or its full address. */
  datatype Entity = Entity(kind: Kind, at: Bits)

  /** Names a counter attribute of a block: its nodes, or its subnets. */
  datatype Counter = Counter(kind: Kind, block: Id)

  /** The longest prefix a containing network of the item may have. */
  function Limit(e: Entity): Bits {
    if e.kind == NetKind && e.at != [] then e.at[..|e.at| - 1] else e.at
  }

  /** The network the reference assigns to an item. */
  function Container(l: seq<Listed>, e: Entity): Option<Item> {
    NetId(if e.kind == NetKind then Enclosing(l, e.at) else Best(l, e.at))
  }

  ghost predicate NoDup<T>(s: seq<T>) {
    forall i, j :: 0 <= i < j < |s| ==> s[i] != s[j]
  }

  /** Items whose containing network owns block c. */
  ghost function Parented(items: map<Item, Entity>, netof: map<Item, Option<Item>>, itemBlock: map<Item, Id>,
                          kind: Kind, c: Id): set<Item>
  {
    set x | x in items && items[x].kind == kind && x in netof && netof[x].Some?
            && netof[x].value in itemBlock && itemBlock[netof[x].value] == c
  }

  ghost predicate Counted(items: map<Item, Entity>, netof: map<Item, Option<Item>>, itemBlock: map<Item, Id>,
                          count: map<Counter, int>, place: map<Id, Bits>, width: nat)
  {
    forall c :: c in place && |place[c]| < width ==>
      && CountedAt(items, netof, itemBlock, count, NetKind, c)
      && CountedAt(items, netof, itemBlock, count, NodeKind, c)
  }

  ghost predicate CountedAt(items: map<Item, Entity>, netof: map<Item, Option<Item>>, itemBlock: map<Item, Id>,
                            count: map<Counter, int>, kind: Kind, c: Id)
  {
    Counter(kind, c) in count && count[Counter(kind, c)] == |Parented(items, netof, itemBlock, kind, c)|
  }

  ghost predicate Owned(items: map<Item, Entity>, itemBlock: map<Item, Id>, kind: Kind, c: Id, x: Item,
      net: Option<Item>)
    requires x in items
  {
    items[x].kind == kind && net.Some? && net.value in itemBlock && itemBlock[net.value] == c
  }

  /** Effect on a block's set of items when one item changes network. */
  lemma ParentedChange(items: map<Item, Entity>, netof: map<Item, Option<Item>>, itemBlock: map<Item, Id>,
                       x: Item, net: Option<Item>, kind: Kind, c: Id)
    requires x in items && x in netof
    ensures |Parented(items, netof[x := net], itemBlock, kind, c)| ==
      |Parented(items, netof, itemBlock, kind, c)|
      + (if Owned(items, itemBlock, kind, c, x, net) then 1 else 0)
      - (if Owned(items, itemBlock, kind, c, x, netof[x]) then 1 else 0)
  {
    var was := Parented(items, netof, itemBlock, kind, c);
    var now := Parented(items, netof[x := net], itemBlock, kind, c);
    assert x in was <==> Owned(items, itemBlock, kind, c, x, netof[x]);
    assert x in now <==> Owned(items, itemBlock, kind, c, x, net);
    assert now - {x} == was - {x};
    SizeSplit(was, x);
    SizeSplit(now, x);
  }

  lemma SizeSplit<T>(s: set<T>, x: T)
    ensures |s| == |s - {x}| + if x in s then 1 else 0
  {
    if x in s {
      assert s == (s - {x}) + {x};
    } else {
      assert s == s - {x};
    }
  }

  /** InetPrefix: an octet buffer and a bit count. */
  datatype Prefix = Prefix(bits: nat, octets: seq<Octet>)

  /** All bits after the prefix are off, as Inet_Net_Prefix checks; an address has no such bits. */
  ghost predicate ValidPrefix(width: nat, p: Prefix) {
    && 8 * |p.octets| == width && p.bits <= width
    && forall i :: p.bits <= i < width ==> !BitsOf(p.octets)[i]
  }

  function Text(p: Prefix): Bits
    requires p.bits <= 8 * |p.octets|
  {
    BitsOf(p.octets)[..p.bits]
  }

  /** The items and the reference list name the same networks. */
  ghost predicate ListOk(width: nat, l: seq<Listed>, items: map<Item, Entity>) {
    && l != [] && l[0].prefix == []
    && (forall i :: 0 <= i < |l| ==> l[i].net in items && items[l[i].net] == Entity(NetKind, l[i].prefix))
    && (forall x :: x in items && items[x].kind == NetKind ==> x in NetsAt(l, items[x].at) && |items[x].at| < width)
    && (forall x :: x in items && items[x].kind == NodeKind ==> |items[x].at| == width)
  }

  ghost predicate NodesAt(items: map<Item, Entity>, list: seq<Item>, p: Bits) {
    NoDup(list) && forall x :: x in list <==> x in items && items[x] == Entity(NodeKind, p)
  }

  /** Each block lists exactly the networks and nodes that sit at its place, networks in order of entry. */
  ghost predicate BlockLists(l: seq<Listed>, items: map<Item, Entity>, nets: map<Id, seq<Item>>,
                             nodes: map<Id, seq<Item>>, place: map<Id, Bits>)
  {
    forall c :: c in place ==>
      && c in nets && nets[c] == NetsAt(l, place[c])
      && c in nodes && NodesAt(items, nodes[c], place[c])
  }

  /** Every item has a block. */
  ghost predicate Homes(items: map<Item, Entity>, place: map<Id, Bits>) {
    forall x :: x in items ==> HasBlock(place, items[x].at)
  }

  ghost predicate HasBlock(place: map<Id, Bits>, p: Bits) {
    exists c :: c in place && place[c] == p
  }

  /** A network object points at the block it sits at; `extra` holds a network being entered. */
  ghost predicate BlockPointers(items: map<Item, Entity>, itemBlock: map<Item, Id>, place: map<Id, Bits>,
      extra: set<Item>) {
    && (forall y :: y in items && items[y].kind == NetKind ==>
          y in itemBlock && itemBlock[y] in place && place[itemBlock[y]] == items[y].at)
    && (forall y :: y in itemBlock ==> y in extra || (y in items && items[y].kind == NetKind))
  }

  /** Objects on the free lists are out of the tree and empty. */
  ghost predicate FreeOk(shapes: map<Id, Shape>, nets: map<Id, seq<Item>>, nodes: map<Id, seq<Item>>,
                         place: map<Id, Bits>, free: seq<Id>, nextId: Id)
  {
    && NoDup(free)
    && (forall c :: c in free ==>
          && c in shapes && c !in place && shapes[c].subs == []
          && c in nets && nets[c] == [] && c in nodes && nodes[c] == [])
    && (forall c :: c in shapes ==> c < nextId)
  }

  /** Each free list holds former objects of its own class: blocks in one, node slots in the other. */
  ghost predicate Shelved(shapes: map<Id, Shape>, freeBlocks: seq<Id>, freeSlots: seq<Id>, width: nat) {
    && (forall c :: c in freeBlocks ==> c in shapes && shapes[c].bits < width)
    && (forall c :: c in freeSlots ==> c in shapes && shapes[c].bits == width)
  }

  lemma ShelvedKept(shapes: map<Id, Shape>, shapes': map<Id, Shape>, freeBlocks: seq<Id>, freeSlots: seq<Id>,
      width: nat)
    requires Shelved(shapes, freeBlocks, freeSlots, width)
    requires forall c :: c in shapes && c in freeBlocks + freeSlots ==>
      c in shapes' && shapes'[c].bits == shapes[c].bits
    ensures Shelved(shapes', freeBlocks, freeSlots, width)
  {
  }

  lemma NoneShelved(shapes: map<Id, Shape>, width: nat)
    ensures Shelved(shapes, [], [], width)
  {
  }

  lemma ShelvedMore(shapes: map<Id, Shape>, shapes': map<Id, Shape>, freeBlocks: seq<Id>, freeSlots: seq<Id>,
      freeBlocks': seq<Id>, freeSlots': seq<Id>, o: Id, width: nat)
    requires Shelved(shapes, freeBlocks, freeSlots, width) && o in shapes && shapes[o].bits <= width
    requires forall c :: c in shapes ==> c in shapes' && shapes'[c].bits == shapes[c].bits
    requires freeBlocks' == if shapes[o].bits < width then [o] + freeBlocks else freeBlocks
    requires freeSlots' == if shapes[o].bits < width then freeSlots else [o] + freeSlots
    ensures Shelved(shapes', freeBlocks', freeSlots', width)
  {
  }

  /** The tree step of Inet_Find: no block lies strictly between b and the sub-block entered. */
  lemma FindStep(width: nat, root: Id, shapes: map<Id, Shape>, place: map<Id, Bits>, b: Id, o: Id, q: Bits, c: Id)
    requires Tree(width, root, shapes, place)
    requires b in place && Covers(width, place[b], q) && Entry(shapes, b, q) == Some(o)
    requires c in place && place[b] < place[c] <= q
    ensures o in place && place[b] < place[o] <= place[c]
  {
    assert Covers(width, place[c], q);
    Cover(width, root, shapes, place, b, c, q);
  }

  /** Where the search stops, no deeper block covers the query. */
  lemma FindStop(width: nat, root: Id, shapes: map<Id, Shape>, place: map<Id, Bits>, b: Id, q: Bits, p: Bits, c: Id)
    requires Tree(width, root, shapes, place)
    requires b in place && |q| == width && place[b] <= p <= q
    requires Entry(shapes, b, q).None? || shapes[b].bits == |p|
          || (Entry(shapes, b, q).value in shapes && shapes[Entry(shapes, b, q).value].bits > |p|)
    requires c in place && place[c] <= p
    ensures place[c] <= place[b]
  {
    PrefixChain(place[c], place[b], p);
    PrefixChain(place[b], place[c], p);
    if place[b] < place[c] {
      assert place[c] <= q;
      assert Covers(width, place[c], q);
      Cover(width, root, shapes, place, b, c, q);
      assert false;
    }
  }

  lemma UniverseIsBest(width: nat, l: seq<Listed>, items: map<Item, Entity>)
    requires ListOk(width, l, items)
    ensures NetId(Best(l, [])) == Some(l[0].net)
  {
    assert IsBest(l, [], 0);
    BestUnique(l, [], 0);
  }

  lemma Popped<T>(s: seq<T>, k: nat, r: seq<T>)
    requires NoDup(s) && k < |s| && r == s[..k] + s[k + 1..]
    ensures NoDup(r) && s[k] !in r
    ensures forall x :: x in r ==> x in s
  {
    assert forall i :: 0 <= i < |r| ==> r[i] == s[if i < k then i else i + 1];
  }

  /** A new empty block keeps the lists right when nothing sits at its place. */
  lemma ListsGrow(width: nat, l: seq<Listed>, items: map<Item, Entity>, nets: map<Id, seq<Item>>,
      nodes: map<Id, seq<Item>>,
                  place: map<Id, Bits>, id: Id, v: Bits)
    requires ListOk(width, l, items) && Homes(items, place) && BlockLists(l, items, nets, nodes, place)
    requires id !in place && !HasBlock(place, v)
    ensures BlockLists(l, items, nets[id := []], nodes[id := []], place[id := v])
    ensures Homes(items, place[id := v])
  {
    var i := NetsAtFirst(l, v);
    assert NetsAt(l, v) == [];
    forall x | x in items
      ensures items[x].at != v && HasBlock(place[id := v], items[x].at)
    {
      assert HasBlock(place, items[x].at);
      var c :| c in place && place[c] == items[x].at;
      assert c in place[id := v] && place[id := v][c] == items[x].at;
    }
  }

  lemma NoneParented(items: map<Item, Entity>, netof: map<Item, Option<Item>>, itemBlock: map<Item, Id>,
                     place: map<Id, Bits>, kind: Kind, id: Id)
    requires forall y :: y in itemBlock ==> itemBlock[y] in place
    requires id !in place
    ensures Parented(items, netof, itemBlock, kind, id) == {}
  {
    forall x | x in items && x in netof && netof[x].Some? && netof[x].value in itemBlock
      ensures itemBlock[netof[x].value] != id
    {
      var y := netof[x].value;
      assert itemBlock[y] in place;
    }
  }

  /** A block no network points at has no items parented to it. */
  lemma CountsGrow(items: map<Item, Entity>, netof: map<Item, Option<Item>>, itemBlock: map<Item, Id>,
                   count: map<Counter, int>, place: map<Id, Bits>, width: nat, id: Id, v: Bits)
    requires Counted(items, netof, itemBlock, count, place, width)
    requires forall y :: y in itemBlock ==> itemBlock[y] in place
    requires id !in place
    ensures |v| < width ==>
      Counted(items, netof, itemBlock, count[Counter(NodeKind, id) := 0][Counter(NetKind, id) := 0], place[id := v],
        width)
    ensures |v| >= width ==> Counted(items, netof, itemBlock, count, place[id := v], width)
  {
    NoneParented(items, netof, itemBlock, place, NetKind, id);
    NoneParented(items, netof, itemBlock, place, NodeKind, id);
    var count' := count[Counter(NodeKind, id) := 0][Counter(NetKind, id) := 0];
    forall c | c in place && |place[c]| < width
      ensures CountedAt(items, netof, itemBlock, count', NetKind, c)
      ensures CountedAt(items, netof, itemBlock, count', NodeKind, c)
    {
      assert CountedAt(items, netof, itemBlock, count, NetKind, c);
      assert CountedAt(items, netof, itemBlock, count, NodeKind, c);
    }
  }

  /** The copied run holds only blocks of the tree below b; a slot's run of one entry is empty. */
  lemma CopyOk(width: nat, root: Id, shapes: map<Id, Shape>, place: map<Id, Bits>, b: Id, v: Bits, w: Bits,
               end: nat, index: nat, run: nat, subs: seq<Option<Id>>)
    requires Tree(width, root, shapes, place)
    requires b in place && Vacant(width, shapes, place, b, v)
    requires Run(width, |place[b]|, v, w, end, index, run)
    requires (|v| == width && subs == []) || RunCopied(shapes[b].subs, subs, index, run)
    ensures RunCopied(shapes[b].subs, subs, index, run)
    ensures forall c :: Holds(subs, c) ==> c in place && c != b
    ensures |shapes[b].subs| <= Pow2(SubBits(|place[b]|))
  {
    hide DownLinks, UpLinks, Value, Pow2;
    if |v| == width && subs == [] {
      SlotRun(width, root, shapes, place, b, v, w, end, index, run);
    }
    forall c | Holds(subs, c)
      ensures c in place && c != b
    {
      HeldIsSubsumed(width, root, shapes, subs, place, b, v, w, end, index, run, c);
    }
  }

  lemma SlotRun(width: nat, root: Id, shapes: map<Id, Shape>, place: map<Id, Bits>, b: Id, v: Bits, w: Bits,
                end: nat, index: nat, run: nat)
    requires Tree(width, root, shapes, place)
    requires b in place && Vacant(width, shapes, place, b, v)
    requires Run(width, |place[b]|, v, w, end, index, run)
    requires |v| == width
    ensures RunCopied(shapes[b].subs, [], index, run)
  {
    hide DownLinks, UpLinks, Value;
    MeetsBelow(width, root, shapes, place, b, v, w);
    assert Entry(shapes, b, w) == Nth(shapes[b].subs, index);
  }

  lemma FreeGrow(shapes: map<Id, Shape>, shapes': map<Id, Shape>, nets: map<Id, seq<Item>>, nodes: map<Id, seq<Item>>,
                 place: map<Id, Bits>, block: Id, subs: seq<Option<Id>>, id: Id, v: Bits, free: seq<Id>, nextId: Id)
    requires FreeOk(shapes, nets, nodes, place, free, nextId)
    requires block in place && id !in free && shapes'.Keys == shapes.Keys
    requires forall c :: Holds(subs, c) ==> c in place
    requires forall c :: c in shapes && c != block && c != id && !Holds(subs, c) ==> shapes'[c] == shapes[c]
    ensures FreeOk(shapes', nets, nodes, place[id := v], free, nextId)
  {
    hide Holds;
  }

  lemma PointersGrow(items: map<Item, Entity>, itemBlock: map<Item, Id>, place: map<Id, Bits>, id: Id, v: Bits)
    requires BlockPointers(items, itemBlock, place, {}) && id !in place
    ensures BlockPointers(items, itemBlock, place[id := v], {})
  {
  }

  /** All that is kept about items, when the tree grows by an empty block. */
  lemma PartsGrow(width: nat, l: seq<Listed>, items: map<Item, Entity>, nets: map<Id, seq<Item>>,
      nodes: map<Id, seq<Item>>,
                  netof: map<Item, Option<Item>>, itemBlock: map<Item, Id>, count: map<Counter, int>,
                    place: map<Id, Bits>, id: Id, v: Bits)
    requires ListOk(width, l, items) && Homes(items, place) && BlockLists(l, items, nets, nodes, place)
    requires BlockPointers(items, itemBlock, place, {}) && Counted(items, netof, itemBlock, count, place, width)
    requires forall y :: y in itemBlock ==> itemBlock[y] in place
    requires id !in place && !HasBlock(place, v)
    ensures BlockLists(l, items, nets[id := []], nodes[id := []], place[id := v])
    ensures Homes(items, place[id := v]) && BlockPointers(items, itemBlock, place[id := v], {})
    ensures Counted(items, netof, itemBlock,
      if |v| < width then count[Counter(NodeKind, id) := 0][Counter(NetKind, id) := 0]
        else count, place[id := v], width)
  {
    hide ListOk, Homes, BlockLists, BlockPointers, Counted, HasBlock;
    ListsGrow(width, l, items, nets, nodes, place, id, v);
    CountsGrow(items, netof, itemBlock, count, place, width, id, v);
    PointersGrow(items, itemBlock, place, id, v);
  }

  /** After growing at v on the way to t, the new block is the deepest one covering t. */
  lemma DeepestGrow(place: map<Id, Bits>, place': map<Id, Bits>, id: Id, v: Bits, t: Bits, b: Id)
    requires place' == place[id := v]
    requires id !in place && b in place && place[b] < v <= t
    requires forall c :: c in place && place[c] <= t ==> place[c] <= place[b]
    ensures forall c :: c in place' && place'[c] <= t ==> place'[c] <= v
  {
    forall c | c in place && place[c] <= t
      ensures place[c] <= v
    {
      assert place[c] <= place[b];
    }
  }

  ghost predicate HeldBefore(subs: seq<Option<Id>>, i: nat, c: Id) {
    exists j: nat :: j < i && Nth(subs, j) == Some(c)
  }
}
