/**
 What entering or removing an item does to the lists, the counters and the cached networks.
 */
module InetCache {
  import opened Basics
  import opened InetBits
  import opened InetTree
  import opened LongestMatch
  import opened InetItems
  import opened InetRegions

  /** Every item's cached network is the one the reference assigns. */
  ghost predicate Cached(l: seq<Listed>, items: map<Item, Entity>, netof: map<Item, Option<Item>>) {
    forall x :: x in items ==> x in netof && netof[x] == Container(l, items[x])
  }

  /** Entering the first network of a prefix changes exactly the items the walk reaches. */
  lemma CachedFirst(width: nat, l: seq<Listed>, items: map<Item, Entity>, netof: map<Item, Option<Item>>,
                    netof': map<Item, Option<Item>>, o: Item, t: Bits)
    requires ListOk(width, l, items) && Cached(l, items, netof)
    requires NetsAt(l, t) == [] && Moved(l, items, netof, netof', t, o)
    ensures Cached(l + [Listed(o, t)], items, netof')
  {
    hide NetsAt, Best, Crossed, ListOk;
    ListedItems(width, l, items, t);
    NotEmpty(width, l, items, t);
    forall x | x in items
      ensures netof'[x] == Container(l + [Listed(o, t)], items[x])
    {
      var e := items[x];
      BestAppend(l, Listed(o, t), Limit(e));
      if t < e.at {
        BelowLimit(t, e);
      }
    }
  }

  lemma NotEmpty(width: nat, l: seq<Listed>, items: map<Item, Entity>, t: Bits)
    requires ListOk(width, l, items) && NetsAt(l, t) == []
    ensures t != []
  {
    var f := NetsAtFirst(l, t);
  }

  /** Entering a further network of a prefix changes nothing for the others. */
  lemma CachedAgain(l: seq<Listed>, items: map<Item, Entity>, netof: map<Item, Option<Item>>, o: Item, t: Bits)
    requires Cached(l, items, netof) && NetsAt(l, t) != []
    ensures Cached(l + [Listed(o, t)], items, netof)
  {
    hide NetsAt, Best;
    forall x | x in items
      ensures Container(l + [Listed(o, t)], items[x]) == Container(l, items[x])
    {
      BestAppend(l, Listed(o, t), Limit(items[x]));
    }
  }

  /** The network of the new network itself. */
  lemma NewContainer(width: nat, l: seq<Listed>, items: map<Item, Entity>, netof: map<Item, Option<Item>>, o: Item,
      t: Bits)
    requires ListOk(width, l, items) && Cached(l, items, netof)
    ensures NetsAt(l, t) == [] ==> Container(l + [Listed(o, t)], Entity(NetKind, t)) == NetId(Best(l, t))
    ensures NetsAt(l, t) != [] ==> Best(l, t).Some? && Best(l, t).value.net in items
    ensures NetsAt(l, t) != [] ==> Container(l + [Listed(o, t)], Entity(NetKind, t)) == netof[Best(l, t).value.net]
  {
    hide NetsAt, Best, Crossed;
    if t == [] {
      UniverseIsBest(width, l, items);
      var i := BestIsLongest(l, []);
      var f := NetsAtFirst(l, t);
    } else {
      var up := t[..|t| - 1];
      BestAppend(l, Listed(o, t), up);
      assert !(t <= up);
      BestStep(l, up, t);
      var f := NetsAtFirst(l, t);
    }
  }

  /** The lists after one more network. */
  lemma ListsNet(width: nat, root: Id, shapes: map<Id, Shape>, l: seq<Listed>, items: map<Item, Entity>,
      nets: map<Id, seq<Item>>,
                 nodes: map<Id, seq<Item>>, place: map<Id, Bits>, b: Id, o: Item, t: Bits)
    requires Tree(width, root, shapes, place)
    requires ListOk(width, l, items) && BlockLists(l, items, nets, nodes, place) && Homes(items, place)
    requires b in place && place[b] == t && |t| < width && o !in items
    ensures ListOk(width, l + [Listed(o, t)], items[o := Entity(NetKind, t)])
    ensures BlockLists(l + [Listed(o, t)], items[o := Entity(NetKind, t)], nets[b := nets[b] + [o]], nodes, place)
    ensures Homes(items[o := Entity(NetKind, t)], place)
  {
    hide Tree, NoDup, HasBlock;
    Here(place, b);
    var l', items' := l + [Listed(o, t)], items[o := Entity(NetKind, t)];
    assert l'[..|l|] == l;
    forall c | c in place && c != b
      ensures place[c] != t
    {
      if place[c] == t {
        SamePlace(width, root, shapes, place, b, c);
      }
    }
    forall c | c in place
      ensures NodesAt(items', nodes[c], place[c])
    {
      assert NodesAt(items, nodes[c], place[c]);
    }
  }

  /** The lists after one more node. */
  lemma ListsNode(width: nat, root: Id, shapes: map<Id, Shape>, l: seq<Listed>, items: map<Item, Entity>,
      nets: map<Id, seq<Item>>,
                  nodes: map<Id, seq<Item>>, place: map<Id, Bits>, b: Id, o: Item, t: Bits)
    requires Tree(width, root, shapes, place)
    requires ListOk(width, l, items) && BlockLists(l, items, nets, nodes, place) && Homes(items, place)
    requires b in place && place[b] == t && |t| == width && o !in items
    ensures ListOk(width, l, items[o := Entity(NodeKind, t)])
    ensures BlockLists(l, items[o := Entity(NodeKind, t)], nets, nodes[b := nodes[b] + [o]], place)
    ensures Homes(items[o := Entity(NodeKind, t)], place)
  {
    hide Tree, NetsAt, HasBlock;
    Here(place, b);
    var items' := items[o := Entity(NodeKind, t)];
    forall c | c in place
      ensures NodesAt(items', nodes[b := nodes[b] + [o]][c], place[c])
    {
      assert NodesAt(items, nodes[c], place[c]);
      if c != b && place[c] == t {
        SamePlace(width, root, shapes, place, b, c);
      }
    }
  }

  /** The lists after a node is dropped from its slot. */
  lemma ListsDrop(width: nat, root: Id, shapes: map<Id, Shape>, l: seq<Listed>, items: map<Item, Entity>,
      nets: map<Id, seq<Item>>,
                  nodes: map<Id, seq<Item>>, place: map<Id, Bits>, b: Id, o: Item, k: nat)
    requires Tree(width, root, shapes, place)
    requires ListOk(width, l, items) && BlockLists(l, items, nets, nodes, place) && Homes(items, place)
    requires b in place && o in items && items[o] == Entity(NodeKind, place[b])
    requires k < |nodes[b]| && nodes[b][k] == o
    ensures ListOk(width, l, items - {o})
    ensures BlockLists(l, items - {o}, nets, nodes[b := nodes[b][..k] + nodes[b][k + 1..]], place)
    ensures Homes(items - {o}, place)
  {
    hide Tree, NetsAt, HasBlock;
    var items', list := items - {o}, nodes[b][..k] + nodes[b][k + 1..];
    forall i | 0 <= i < |l|
      ensures l[i].net in items'
    {
      assert items[l[i].net].kind == NetKind;
    }
    forall c | c in place
      ensures NodesAt(items', nodes[b := list][c], place[c])
    {
      assert NodesAt(items, nodes[c], place[c]);
      if c == b {
        Popped(nodes[b], k, list);
        DroppedMembers(nodes[b], k, list);
      } else if place[c] == place[b] {
        SamePlace(width, root, shapes, place, b, c);
      }
    }
  }

  lemma DroppedMembers<T>(s: seq<T>, k: nat, r: seq<T>)
    requires k < |s| && r == s[..k] + s[k + 1..]
    ensures forall x :: x in s && x != s[k] ==> x in r
  {
    forall x | x in s && x != s[k]
      ensures x in r
    {
      var i :| 0 <= i < |s| && s[i] == x;
      assert r[if i < k then i else i - 1] == x;
    }
  }

  /** An item without a network is counted nowhere. */
  lemma CountsItem(items: map<Item, Entity>, netof: map<Item, Option<Item>>, itemBlock: map<Item, Id>,
                   count: map<Counter, int>, place: map<Id, Bits>, width: nat, o: Item, e: Entity)
    requires Counted(items, netof, itemBlock, count, place, width) && o !in items
    ensures Counted(items[o := e], netof[o := None], itemBlock, count, place, width)
  {
    forall kind: Kind, c: Id
      ensures Parented(items[o := e], netof[o := None], itemBlock, kind, c) ==
        Parented(items, netof, itemBlock, kind, c)
    {
    }
    forall c | c in place && |place[c]| < width
      ensures CountedAt(items[o := e], netof[o := None], itemBlock, count, NetKind, c)
      ensures CountedAt(items[o := e], netof[o := None], itemBlock, count, NodeKind, c)
    {
      assert CountedAt(items, netof, itemBlock, count, NetKind, c) &&
        CountedAt(items, netof, itemBlock, count, NodeKind, c);
    }
  }

  lemma CountsLess(items: map<Item, Entity>, netof: map<Item, Option<Item>>, itemBlock: map<Item, Id>,
                   count: map<Counter, int>, place: map<Id, Bits>, width: nat, o: Item)
    requires Counted(items, netof, itemBlock, count, place, width) && o in netof && netof[o] == None
    ensures Counted(items - {o}, netof - {o}, itemBlock, count, place, width)
  {
    forall kind: Kind, c: Id
      ensures Parented(items - {o}, netof - {o}, itemBlock, kind, c) == Parented(items, netof, itemBlock, kind, c)
    {
    }
    forall c | c in place && |place[c]| < width
      ensures CountedAt(items - {o}, netof - {o}, itemBlock, count, NetKind, c)
      ensures CountedAt(items - {o}, netof - {o}, itemBlock, count, NodeKind, c)
    {
      assert CountedAt(items, netof, itemBlock, count, NetKind, c) &&
        CountedAt(items, netof, itemBlock, count, NodeKind, c);
    }
  }

  /** Pointing a new network at its block counts nothing yet. */
  lemma CountsPointer(items: map<Item, Entity>, netof: map<Item, Option<Item>>, itemBlock: map<Item, Id>,
                      count: map<Counter, int>, place: map<Id, Bits>, width: nat, o: Item, b: Id)
    requires Counted(items, netof, itemBlock, count, place, width) && o !in itemBlock
    requires forall x :: x in netof && netof[x].Some? ==> netof[x].value in itemBlock
    ensures Counted(items, netof, itemBlock[o := b], count, place, width)
  {
    forall kind: Kind, c: Id
      ensures Parented(items, netof, itemBlock[o := b], kind, c) == Parented(items, netof, itemBlock, kind, c)
    {
      assert forall x :: x in netof && netof[x].Some? ==> netof[x].value != o;
    }
    forall c | c in place && |place[c]| < width
      ensures CountedAt(items, netof, itemBlock[o := b], count, NetKind, c)
      ensures CountedAt(items, netof, itemBlock[o := b], count, NodeKind, c)
    {
      assert CountedAt(items, netof, itemBlock, count, NetKind, c) &&
        CountedAt(items, netof, itemBlock, count, NodeKind, c);
    }
  }

  /** The network matching a query is in the index and points at a block. */
  lemma MatchKnown(width: nat, l: seq<Listed>, items: map<Item, Entity>, itemBlock: map<Item, Id>,
      place: map<Id, Bits>, t: Bits)
    requires ListOk(width, l, items) && BlockPointers(items, itemBlock, place, {})
    ensures Best(l, t).Some? ==> Best(l, t).value.net in items && Best(l, t).value.net in itemBlock
  {
    hide NetsAt;
    var i := BestIsLongest(l, t);
  }

  lemma PointersNode(items: map<Item, Entity>, itemBlock: map<Item, Id>, place: map<Id, Bits>, o: Item, t: Bits)
    requires BlockPointers(items, itemBlock, place, {}) && o !in items
    ensures BlockPointers(items[o := Entity(NodeKind, t)], itemBlock, place, {})
  {
  }

  /** Changing the list of a block in the tree leaves the free lists alone. */
  lemma FreeLists(shapes: map<Id, Shape>, nets: map<Id, seq<Item>>, nodes: map<Id, seq<Item>>,
                  place: map<Id, Bits>, free: seq<Id>, nextId: Id, b: Id, list: seq<Item>)
    requires FreeOk(shapes, nets, nodes, place, free, nextId) && b in place
    ensures FreeOk(shapes, nets, nodes[b := list], place, free, nextId)
    ensures FreeOk(shapes, nets[b := list], nodes, place, free, nextId)
  {
    hide NoDup;
  }

  lemma PointersNet(items: map<Item, Entity>, itemBlock: map<Item, Id>, place: map<Id, Bits>, o: Item, t: Bits)
    requires BlockPointers(items, itemBlock, place, {o}) && o in itemBlock && itemBlock[o] in place &&
      place[itemBlock[o]] == t
    ensures BlockPointers(items[o := Entity(NetKind, t)], itemBlock, place, {})
  {
  }

  lemma PointersDrop(items: map<Item, Entity>, itemBlock: map<Item, Id>, place: map<Id, Bits>, o: Item)
    requires BlockPointers(items, itemBlock, place, {}) && o in items && items[o].kind == NodeKind
    ensures BlockPointers(items - {o}, itemBlock, place, {})
  {
  }

  lemma CachedEnter(l: seq<Listed>, items: map<Item, Entity>, netof: map<Item, Option<Item>>, o: Item, e: Entity,
      net: Option<Item>)
    requires Cached(l, items, netof) && o !in items && net == Container(l, e)
    ensures Cached(l, items[o := e], netof[o := net])
  {
    hide Container;
  }

  // The index right after its universe was entered.

  lemma RootTree(width: nat, shapes: map<Id, Shape>, place: map<Id, Bits>, id: Id)
    requires width % 8 == 0 && width > 0
    requires shapes == map[id := Shape(0, None, [])] && place == map[id := []]
    ensures Tree(width, id, shapes, place)
  {
    hide Value;
  }

  lemma RootLists(width: nat, nets: map<Id, seq<Item>>, nodes: map<Id, seq<Item>>, items: map<Item, Entity>,
                  itemBlock: map<Item, Id>, place: map<Id, Bits>, l: seq<Listed>, id: Id, o: Item)
    requires width > 0 && nets == map[id := [o]] && nodes == map[id := []]
    requires items == map[o := Entity(NetKind, [])] && itemBlock == map[o := id]
    requires place == map[id := []] && l == [Listed(o, [])]
    ensures ListOk(width, l, items) && BlockLists(l, items, nets, nodes, place) && Homes(items, place)
    ensures BlockPointers(items, itemBlock, place, {})
  {
    assert l[..0] == [];
    assert NetsAt(l, []) == [o];
    assert place[id] == items[o].at;
  }

  lemma RootCounts(width: nat, count: map<Counter, int>, items: map<Item, Entity>, itemBlock: map<Item, Id>,
                   netof: map<Item, Option<Item>>, place: map<Id, Bits>, l: seq<Listed>, id: Id, o: Item)
    requires count == map[Counter(NodeKind, id) := 0, Counter(NetKind, id) := 0]
    requires items == map[o := Entity(NetKind, [])] && itemBlock == map[o := id] && netof == map[o := None]
    requires place == map[id := []] && l == [Listed(o, [])]
    ensures Counted(items, netof, itemBlock, count, place, width)
    ensures Cached(l, items, netof)
  {
    assert Parented(items, netof, itemBlock, NetKind, id) == {} &&
      Parented(items, netof, itemBlock, NodeKind, id) == {};
  }

  lemma RootFree(shapes: map<Id, Shape>, nets: map<Id, seq<Item>>, nodes: map<Id, seq<Item>>, place: map<Id, Bits>,
      nextId: Id, id: Id)
    requires shapes.Keys == {id} && id < nextId
    ensures FreeOk(shapes, nets, nodes, place, [], nextId)
  {
  }

  // The plain model of a run: which items exist, and the networks in order of entry.

  datatype Op = AddNet(o: Item, p: Prefix) | AddNode(o: Item, p: Prefix) | DropNode(o: Item, p: Prefix)

  datatype Plain = Plain(items: map<Item, Entity>, listing: seq<Listed>)

  /** What a caller may ask for next: a new item with a checked prefix, or a node that is there. */
  ghost predicate Legal(width: nat, s: Plain, op: Op) {
    match op
    case AddNet(o, p) => ValidPrefix(width, p) && p.bits < width && o !in s.items
    case AddNode(o, p) => ValidPrefix(width, p) && p.bits == width && o !in s.items
    case DropNode(o, p) => ValidPrefix(width, p) && o in s.items && s.items[o] == Entity(NodeKind, Text(p))
  }

  /** The universe must come first; until then nothing else is accepted. */
  ghost function Apply(width: nat, s: Plain, op: Op): Plain
    requires Legal(width, s, op)
  {
    match op
    case AddNet(o, p) =>
      if s.listing == [] && p.bits != 0 then s
      else Plain(s.items[o := Entity(NetKind, Text(p))], s.listing + [Listed(o, Text(p))])
    case AddNode(o, p) =>
      if s.listing == [] then s else s.(items := s.items[o := Entity(NodeKind, Text(p))])
    case DropNode(o, p) => s.(items := s.items - {o})
  }

  ghost predicate LegalRun(width: nat, s: Plain, ops: seq<Op>)
    decreases |ops|
  {
    ops == [] || (Legal(width, s, ops[0]) && LegalRun(width, Apply(width, s, ops[0]), ops[1..]))
  }

  ghost function ApplyAll(width: nat, s: Plain, ops: seq<Op>): Plain
    requires LegalRun(width, s, ops)
    decreases |ops|
  {
    if ops == [] then s else ApplyAll(width, Apply(width, s, ops[0]), ops[1..])
  }

  // Blocks off the nibble boundary.

  ghost predicate Carried(l: seq<Listed>, t: Bits) {
    exists i :: 0 <= i < |l| && l[i].prefix == t
  }

  /** A block off the nibble boundary is there for a network. */
  ghost predicate OffBoundary(place: map<Id, Bits>, l: seq<Listed>) {
    forall c :: c in place && |place[c]| % NSHIFT != 0 ==> Carried(l, place[c])
  }

  /** Blocks are as before, on the boundary, or at t. */
  ghost predicate NewBlocks(place: map<Id, Bits>, place': map<Id, Bits>, t: Bits) {
    forall c :: c in place' ==> (c in place && place'[c] == place[c]) || |place'[c]| % NSHIFT == 0 || place'[c] == t
  }

  lemma OffBoundaryKept(place: map<Id, Bits>, place': map<Id, Bits>, l: seq<Listed>, l': seq<Listed>, t: Bits)
    requires OffBoundary(place, l) && NewBlocks(place, place', t) && l <= l' && (|t| % NSHIFT == 0 || Carried(l', t))
    ensures OffBoundary(place', l')
  {
    forall c | c in place' && |place'[c]| % NSHIFT != 0
      ensures Carried(l', place'[c])
    {
      if c in place && place'[c] == place[c] {
        var i :| 0 <= i < |l| && l[i].prefix == place[c];
        assert l'[i] == l[i];
      }
    }
  }

  lemma CarriedLast(l: seq<Listed>, o: Item, t: Bits)
    ensures Carried(l + [Listed(o, t)], t)
  {
    assert (l + [Listed(o, t)])[|l|].prefix == t;
  }
}
