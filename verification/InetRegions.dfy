/**
 Facts about the walk of Inet_Reparent: which items lie under an entry of a block, and which
 of them are reached without crossing a network.
 */
module InetRegions {
  import opened Basics
  import opened InetBits
  import opened InetTree
  import opened LongestMatch
  import opened InetItems

  /** The item lies in the region and no listed network lies between. */
  ghost predicate Touched(l: seq<Listed>, region: Bits, e: Entity) {
    region <= e.at && !Crossed(l, region, Limit(e))
  }

  /** The entry of a block with n bits that address q selects. */
  function Index(n: nat, q: Bits): nat
    requires n + SubBits(n) <= |q|
  {
    Value(q[n .. n + SubBits(n)])
  }

  /** The first entry of the run of p. */
  function Start(width: nat, n: nat, p: Bits): nat
    requires n + SubBits(n) <= width && |p| <= width
  {
    Index(n, Pad(width, p))
  }

  ghost predicate Child(shapes: map<Id, Shape>, place: map<Id, Bits>, b: Id, o: Id) {
    && b in place && o in place && o in shapes && shapes[o].super == Some(b)
    && place[b] < place[o] && |place[o]| <= |place[b]| + SubBits(|place[b]|)
  }

  /** Number of entries sub-block o takes. */
  function RunLength(n: nat, bits: nat): (r: nat)
    requires n <= bits <= n + SubBits(n)
    ensures r >= 1
  {
    Pow2(n + SubBits(n) - bits)
  }

  lemma ChildRun(width: nat, root: Id, shapes: map<Id, Shape>, place: map<Id, Bits>, b: Id, o: Id, q: Bits)
    requires Placed(width, root, shapes, place) && Child(shapes, place, b, o)
    requires |place[b]| + SubBits(|place[b]|) <= width
    requires Covers(width, place[b], q)
    ensures place[o] <= q <==>
      Start(width, |place[b]|, place[o]) <= Index(|place[b]|, q) < Start(width, |place[b]|, place[o]) +
        RunLength(|place[b]|, |place[o]|)
  {
    var n := |place[b]|;
    assert place[o][..n] == place[b];
    InRun(width, n, place[o], Pad(width, place[o]), n + SubBits(n), Start(width, n, place[o]),
      RunLength(n, |place[o]|), q);
  }

  /** The walk position i does not cut the run of any sub-block. */
  ghost predicate Uncut(width: nat, shapes: map<Id, Shape>, place: map<Id, Bits>, b: Id, i: nat)
    requires b in place && b in shapes && shapes[b].bits == |place[b]| && |place[b]| + SubBits(|place[b]|) <= width
  {
    forall q: Bits, q': Bits {:trigger Entry(shapes, b, q), Entry(shapes, b, q')} ::
      Covers(width, place[b], q) && Covers(width, place[b], q')
      && Entry(shapes, b, q).Some? && Entry(shapes, b, q) == Entry(shapes, b, q') ==>
        (Index(|place[b]|, q) < i <==> Index(|place[b]|, q') < i)
  }

  /** A sub-block met at an uncut position is met at the start of its run. */
  lemma MetAtStart(width: nat, root: Id, shapes: map<Id, Shape>, place: map<Id, Bits>, b: Id, i: nat, o: Id)
    requires Tree(width, root, shapes, place)
    requires b in place && |place[b]| + SubBits(|place[b]|) <= width
    requires Uncut(width, shapes, place, b, i) && Nth(shapes[b].subs, i) == Some(o)
    ensures Child(shapes, place, b, o) && Start(width, |place[b]|, place[o]) == i
  {
    hide Value, Pow2, UpLinks;
    var n := |place[b]|;
    assert i < Pow2(SubBits(n));
    var x := place[b] + FromValue(i, SubBits(n));
    var q := Pad(width, x);
    assert q[n .. n + SubBits(n)] == FromValue(i, SubBits(n));
    assert Covers(width, place[b], q);
    assert Entry(shapes, b, q) == Some(o);
    assert IsSub(shapes, place, b, q, o);
    ChildRun(width, root, shapes, place, b, o, q);
    assert Index(n, q) == i;
    ChildEntry(width, root, shapes, place, b, o);
    assert Start(width, n, place[o]) >= i;
  }

  lemma ChildEntry(width: nat, root: Id, shapes: map<Id, Shape>, place: map<Id, Bits>, b: Id, o: Id)
    requires Tree(width, root, shapes, place)
    requires Child(shapes, place, b, o)
    ensures Covers(width, place[b], Pad(width, place[o]))
    ensures Entry(shapes, b, Pad(width, place[o])) == Some(o)
  {
    assert Covers(width, place[o], Pad(width, place[o]));
    assert o != root;
  }

  /** Stepping over a whole run leaves the position uncut. */
  lemma UncutAfterRun(width: nat, root: Id, shapes: map<Id, Shape>, place: map<Id, Bits>, b: Id, i: nat, o: Id)
    requires Tree(width, root, shapes, place)
    requires b in place && |place[b]| + SubBits(|place[b]|) <= width
    requires Uncut(width, shapes, place, b, i)
    requires Child(shapes, place, b, o) && Start(width, |place[b]|, place[o]) == i
    ensures Uncut(width, shapes, place, b, i + RunLength(|place[b]|, |place[o]|))
  {
    hide Value, Pow2, Entry;
    var n := |place[b]|;
    var run := RunLength(n, |place[o]|);
    forall q: Bits | Covers(width, place[b], q) && Entry(shapes, b, q).Some?
      ensures i <= Index(n, q) < i + run <==> Entry(shapes, b, q) == Some(o)
    {
      ChildRun(width, root, shapes, place, b, o, q);
      assert place[o] <= q ==> Covers(width, place[o], q);
    }
    forall q: Bits, q': Bits | Covers(width, place[b], q) && Covers(width, place[b], q')
      && Entry(shapes, b, q).Some? && Entry(shapes, b, q) == Entry(shapes, b, q')
      ensures Index(n, q) < i + run <==> Index(n, q') < i + run
    {
    }
  }

  /** Stepping over an empty entry leaves the position uncut. */
  lemma UncutAfterNull(width: nat, root: Id, shapes: map<Id, Shape>, place: map<Id, Bits>, b: Id, i: nat)
    requires Tree(width, root, shapes, place)
    requires b in place && |place[b]| + SubBits(|place[b]|) <= width
    requires Uncut(width, shapes, place, b, i) && Nth(shapes[b].subs, i) == None
    ensures Uncut(width, shapes, place, b, i + 1)
  {
    hide Value, DownLinks, UpLinks;
    var n := |place[b]|;
    forall q: Bits | Covers(width, place[b], q) && Entry(shapes, b, q).Some?
      ensures Index(n, q) != i
    {
    }
  }

  /** Emptying entries leaves the position uncut. */
  lemma UncutKept(width: nat, shapes: map<Id, Shape>, shapes': map<Id, Shape>, place: map<Id, Bits>,
      place': map<Id, Bits>, b: Id, i: nat)
    requires b in place && b in shapes && shapes[b].bits == |place[b]| && |place[b]| + SubBits(|place[b]|) <= width
    requires b in place' && b in shapes' && shapes'[b].bits == |place'[b]| && place'[b] == place[b]
    requires forall q: Bits {:trigger Entry(shapes', b, q)} :: Covers(width, place[b], q) ==>
      Entry(shapes', b, q) == None || Entry(shapes', b, q) == Entry(shapes, b, q)
    requires Uncut(width, shapes, place, b, i)
    ensures Uncut(width, shapes', place', b, i)
  {
    hide Entry, Value;
  }

  /** A block at p below b is found through the entry that p selects. */
  lemma BelowEntry(width: nat, root: Id, shapes: map<Id, Shape>, place: map<Id, Bits>, b: Id, p: Bits)
    requires Tree(width, root, shapes, place)
    requires b in place && place[b] < p && |p| <= width && HasBlock(place, p)
    ensures Covers(width, place[b], Pad(width, p))
    ensures Entry(shapes, b, Pad(width, p)).Some?
    ensures var o := Entry(shapes, b, Pad(width, p)).value; Child(shapes, place, b, o) && place[o] <= p
  {
    var c :| c in place && place[c] == p;
    assert Covers(width, place[c], Pad(width, p));
    Cover(width, root, shapes, place, b, c, Pad(width, p));
  }

  /** What sits in the run of sub-block o is exactly what lies under o. */
  lemma RunIsRegion(width: nat, root: Id, shapes: map<Id, Shape>, place: map<Id, Bits>, b: Id, o: Id, p: Bits)
    requires Tree(width, root, shapes, place)
    requires Child(shapes, place, b, o) && |place[b]| + SubBits(|place[b]|) <= width
    requires place[b] < p && |p| <= width && HasBlock(place, p)
    ensures var i := Start(width, |place[b]|, place[o]);
      place[o] <= p <==> i <= Start(width, |place[b]|, p) < i + RunLength(|place[b]|, |place[o]|)
  {
    hide Entry, DownLinks, Value, Pow2;
    var q := Pad(width, p);
    BelowEntry(width, root, shapes, place, b, p);
    ChildRun(width, root, shapes, place, b, o, q);
    assert place[o] <= q ==> Covers(width, place[o], q);
  }

  /** Under sub-block o of a block without networks, the same items are reached from o as from the block. */
  lemma SameReach(width: nat, root: Id, shapes: map<Id, Shape>, place: map<Id, Bits>, l: seq<Listed>,
      items: map<Item, Entity>,
                  b: Id, o: Id, x: Item)
    requires Tree(width, root, shapes, place)
    requires ListOk(width, l, items) && Homes(items, place)
    requires Child(shapes, place, b, o) && NetsAt(l, place[b]) == []
    requires x in items && place[o] <= items[x].at
    ensures Touched(l, place[b], items[x]) <==> Touched(l, place[o], items[x])
  {
    hide Entry, DownLinks, NetsAt;
    var lim := Limit(items[x]);
    var f := NetsAtFirst(l, place[b]);
    forall j | 0 <= j < |l| && place[b] <= l[j].prefix <= lim
      ensures place[o] <= l[j].prefix
    {
      var y := l[j].net;
      assert items[y].at == l[j].prefix;
      assert l[j].prefix != place[b];
      assert HasBlock(place, items[y].at);
      Between(width, root, shapes, place, b, o, items[y].at, items[x].at);
    }
    if Crossed(l, place[b], lim) {
      var j :| 0 <= j < |l| && place[b] <= l[j].prefix <= lim;
      assert place[o] <= l[j].prefix <= lim;
    }
    if Crossed(l, place[o], lim) {
      var j :| 0 <= j < |l| && place[o] <= l[j].prefix <= lim;
      assert place[b] <= l[j].prefix <= lim;
    }
  }

  /** A block between b and something under o lies under o. */
  lemma Between(width: nat, root: Id, shapes: map<Id, Shape>, place: map<Id, Bits>, b: Id, o: Id, p: Bits, t: Bits)
    requires Tree(width, root, shapes, place)
    requires Child(shapes, place, b, o) && HasBlock(place, p) && |t| <= width
    requires place[b] < p <= t && place[o] <= t
    ensures place[o] <= p
  {
    hide Entry, DownLinks;
    var c :| c in place && place[c] == p;
    var q := Pad(width, t);
    assert Covers(width, place[c], q) && Covers(width, place[o], q);
    Cover(width, root, shapes, place, b, c, q);
  }

  /** Dropping an empty block from the tree leaves every item where it was. */
  lemma ItemsPrune(width: nat, l: seq<Listed>, items: map<Item, Entity>, nets: map<Id, seq<Item>>,
      nodes: map<Id, seq<Item>>,
                   itemBlock: map<Item, Id>, place: map<Id, Bits>, place': map<Id, Bits>, c: Id, extra: set<Item>)
    requires ListOk(width, l, items) && BlockLists(l, items, nets, nodes, place)
    requires Homes(items, place) && BlockPointers(items, itemBlock, place, extra)
    requires c in place && nets[c] == [] && nodes[c] == [] && place' == place - {c}
    requires forall y :: y in itemBlock && y in extra ==> itemBlock[y] != c
    ensures BlockLists(l, items, nets, nodes, place') && Homes(items, place')
    ensures BlockPointers(items, itemBlock, place', extra)
    ensures forall y :: y in itemBlock ==> itemBlock[y] != c
  {
    hide NetsAt, NoDup;
    forall x | x in items
      ensures HasBlock(place', items[x].at) && items[x].at != place[c]
    {
      assert HasBlock(place, items[x].at);
      var d :| d in place && place[d] == items[x].at;
      assert x !in nodes[c] && x !in nets[c];
      assert d != c && d in place' && place'[d] == items[x].at;
    }
  }

  /** The dropped block joins the free list. */
  lemma FreePush(shapes: map<Id, Shape>, shapes': map<Id, Shape>, nets: map<Id, seq<Item>>, nodes: map<Id, seq<Item>>,
                 place: map<Id, Bits>, place': map<Id, Bits>, b: Id, c: Id, free: seq<Id>, free': seq<Id>, k: nat,
                   nextId: Id)
    requires FreeOk(shapes, nets, nodes, place, free, nextId)
    requires b in place && c in place && b != c && place' == place - {c}
    requires c in shapes && shapes'.Keys == shapes.Keys &&
      (forall x :: x in shapes && x != b ==> shapes'[x] == shapes[x])
    requires shapes[c].subs == [] && c in nets && nets[c] == [] && c in nodes && nodes[c] == []
    requires k <= |free| && free' == free[..k] + [c] + free[k..]
    ensures FreeOk(shapes', nets, nodes, place', free', nextId)
  {
    assert c !in free;
    assert NoDup(free') by {
      assert forall i :: 0 <= i < |free'| ==> free'[i] == if i < k then free[i] else if i == k then c else free[i - 1];
    }
    assert forall x :: x in free' ==> x == c || x in free;
  }

  /** Emptying the run of a childless sub-block prunes it from the tree. */
  lemma EmptiedIsPruned(width: nat, root: Id, shapes: map<Id, Shape>, shapes': map<Id, Shape>, place: map<Id, Bits>,
                        b: Id, o: Id, i: nat, run: nat)
    requires Tree(width, root, shapes, place) && Child(shapes, place, b, o)
    requires |place[b]| + SubBits(|place[b]|) <= width
    requires i == Start(width, |place[b]|, place[o]) && run == RunLength(|place[b]|, |place[o]|)
    requires shapes'.Keys == shapes.Keys && (forall c :: c in shapes && c != b ==> shapes'[c] == shapes[c])
    requires shapes'[b] == shapes[b].(subs := shapes'[b].subs) && |shapes'[b].subs| == |shapes[b].subs|
    requires forall j: nat :: Nth(shapes'[b].subs, j) == if i <= j < i + run then None else Nth(shapes[b].subs, j)
    ensures Pruned(width, shapes, shapes', place, b, o)
  {
    hide DownLinks, UpLinks, Value, Pow2, RunLength;
    forall q: Bits | Covers(width, place[b], q)
      ensures Entry(shapes', b, q) == if place[o] <= q then None else Entry(shapes, b, q)
    {
      ChildRun(width, root, shapes, place, b, o, q);
    }
  }

  /** The run of a sub-block lies within the parent's table. */
  lemma RunRoom(width: nat, root: Id, shapes: map<Id, Shape>, place: map<Id, Bits>, b: Id, o: Id)
    requires Tree(width, root, shapes, place) && Child(shapes, place, b, o)
    requires |place[b]| + SubBits(|place[b]|) <= width
    ensures Start(width, |place[b]|, place[o]) + RunLength(|place[b]|, |place[o]|) <= |shapes[b].subs|
  {
    hide DownLinks, Value, Pow2;
    var n, v := |place[b]|, place[o];
    var end, w := n + SubBits(n), Pad(width, v);
    var q := RunEntry(width, n, v, w, end, Start(width, n, v), RunLength(n, |v|), RunLength(n, |v|) - 1);
    assert Entry(shapes, b, q) == Some(o);
  }

  lemma CountsPrune(items: map<Item, Entity>, netof: map<Item, Option<Item>>, itemBlock: map<Item, Id>,
                    count: map<Counter, int>, place: map<Id, Bits>, place': map<Id, Bits>, width: nat)
    requires Counted(items, netof, itemBlock, count, place, width)
    requires forall c :: c in place' ==> c in place && place'[c] == place[c]
    ensures Counted(items, netof, itemBlock, count, place', width)
  {
    hide CountedAt;
  }

  /** Blocks outside the region are untouched, and no block moves. */
  ghost predicate Kept(shapes: map<Id, Shape>, shapes': map<Id, Shape>, place: map<Id, Bits>, place': map<Id, Bits>,
      region: Bits) {
    && (forall c :: c in place' ==> c in place && place'[c] == place[c])
    && (forall c :: c in place && !(region <= place[c]) ==>
          c in place' && c in shapes && c in shapes' && shapes'[c] == shapes[c])
  }

  /** Exactly the items reached from the region have been given the network. */
  ghost predicate Moved(l: seq<Listed>, items: map<Item, Entity>, netof: map<Item, Option<Item>>,
      netof': map<Item, Option<Item>>,
                        region: Bits, net: Item)
  {
    && netof'.Keys == netof.Keys
    && forall x :: x in items && x in netof ==>
         netof'[x] == if Touched(l, region, items[x]) then Some(net) else netof[x]
  }

  ghost predicate Occupied(items: map<Item, Entity>, region: Bits) {
    exists x :: x in items && region <= items[x].at
  }

  /** The run of p starts before position i of a block with n bits. */
  ghost predicate Before(width: nat, n: nat, p: Bits, i: nat) {
    n + SubBits(n) <= width && |p| <= width && Start(width, n, p) < i
  }

  /** The same two facts for a walk that has come to position i. */
  ghost predicate MovedBefore(width: nat, l: seq<Listed>, items: map<Item, Entity>, netof: map<Item, Option<Item>>,
                              netof': map<Item, Option<Item>>, region: Bits, net: Item, i: nat)
  {
    && netof'.Keys == netof.Keys
    && forall x :: x in items && x in netof ==>
         netof'[x] == if region < items[x].at && Before(width, |region|, items[x].at, i) && Touched(l, region, items[x])
                      then Some(net) else netof[x]
  }

  ghost predicate OccupiedBefore(width: nat, items: map<Item, Entity>, region: Bits, i: nat) {
    exists x :: x in items && region < items[x].at && Before(width, |region|, items[x].at, i)
  }

  ghost predicate NoBlockBefore(width: nat, place: map<Id, Bits>, region: Bits, i: nat) {
    forall c :: c in place && region < place[c] ==> !Before(width, |region|, place[c], i)
  }

  ghost predicate NothingBelow(place: map<Id, Bits>, region: Bits) {
    forall c :: c in place ==> !(region < place[c])
  }

  /** Nothing starts at an empty entry. */
  lemma NullStart(width: nat, root: Id, shapes: map<Id, Shape>, place: map<Id, Bits>, b: Id, i: nat, p: Bits)
    requires Tree(width, root, shapes, place) && b in place && |place[b]| + SubBits(|place[b]|) <= width
    requires Nth(shapes[b].subs, i) == None
    requires place[b] < p && |p| <= width && HasBlock(place, p)
    ensures Before(width, |place[b]|, p, i + 1) <==> Before(width, |place[b]|, p, i)
  {
    hide DownLinks, UpLinks, Value;
    BelowEntry(width, root, shapes, place, b, p);
  }

  lemma StepNull(width: nat, root: Id, shapes: map<Id, Shape>, place: map<Id, Bits>, l: seq<Listed>,
      items: map<Item, Entity>,
                 netof: map<Item, Option<Item>>, netof': map<Item, Option<Item>>, b: Id, net: Item, i: nat)
    requires Tree(width, root, shapes, place) && b in place && |place[b]| + SubBits(|place[b]|) <= width
    requires ListOk(width, l, items) && Homes(items, place)
    requires Nth(shapes[b].subs, i) == None
    requires MovedBefore(width, l, items, netof, netof', place[b], net, i)
    ensures MovedBefore(width, l, items, netof, netof', place[b], net, i + 1)
    ensures OccupiedBefore(width, items, place[b], i + 1) <==> OccupiedBefore(width, items, place[b], i)
    ensures NoBlockBefore(width, place, place[b], i) ==> NoBlockBefore(width, place, place[b], i + 1)
  {
    hide Tree, Before, HasBlock, Touched, NetsAt;
    WidthOf(width, root, shapes, place);
    forall x | x in items && place[b] < items[x].at
      ensures Before(width, |place[b]|, items[x].at, i + 1) <==> Before(width, |place[b]|, items[x].at, i)
    {
      NullStart(width, root, shapes, place, b, i, items[x].at);
    }
    forall c | c in place && place[b] < place[c]
      ensures Before(width, |place[b]|, place[c], i + 1) <==> Before(width, |place[b]|, place[c], i)
    {
      Here(place, c);
      NullStart(width, root, shapes, place, b, i, place[c]);
    }
  }

  lemma Here(place: map<Id, Bits>, c: Id)
    requires c in place
    ensures HasBlock(place, place[c])
  {
  }

  lemma WidthOf(width: nat, root: Id, shapes: map<Id, Shape>, place: map<Id, Bits>)
    requires Tree(width, root, shapes, place)
    ensures forall c :: c in place ==> |place[c]| <= width && c in shapes
  {
  }

  lemma RunStep(width: nat, root: Id, shapes: map<Id, Shape>, place: map<Id, Bits>, b: Id, o: Id, i: nat, p: Bits)
    requires Tree(width, root, shapes, place) && Child(shapes, place, b, o)
    requires |place[b]| + SubBits(|place[b]|) <= width && |place[o]| <= width && i == Start(width, |place[b]|, place[o])
    requires place[b] < p && |p| <= width && HasBlock(place, p)
    ensures place[o] <= p ==> !Before(width, |place[b]|, p, i)
    ensures Before(width, |place[b]|, p, i + RunLength(|place[b]|, |place[o]|)) <==>
      (Before(width, |place[b]|, p, i) || place[o] <= p)
  {
    hide Tree, Start, RunLength, HasBlock;
    RunIsRegion(width, root, shapes, place, b, o, p);
  }

  /** After the walk below sub-block o, the walk below b has come to the end of o's run. */
  lemma StepRun(width: nat, root: Id, shapes: map<Id, Shape>, place: map<Id, Bits>, l: seq<Listed>,
      items: map<Item, Entity>,
                netof: map<Item, Option<Item>>, netof1: map<Item, Option<Item>>, netof2: map<Item, Option<Item>>,
                b: Id, o: Id, net: Item, i: nat, run: nat)
    requires Tree(width, root, shapes, place) && Child(shapes, place, b, o)
    requires |place[b]| + SubBits(|place[b]|) <= width && |place[o]| <= width
    requires i == Start(width, |place[b]|, place[o]) && run == RunLength(|place[b]|, |place[o]|)
    requires ListOk(width, l, items) && Homes(items, place) && NetsAt(l, place[b]) == []
    requires MovedBefore(width, l, items, netof, netof1, place[b], net, i)
    requires Moved(l, items, netof1, netof2, place[o], net)
    ensures MovedBefore(width, l, items, netof, netof2, place[b], net, i + run)
    ensures OccupiedBefore(width, items, place[b], i + run) <==>
      (OccupiedBefore(width, items, place[b], i) || Occupied(items, place[o]))
  {
    hide Tree, Before, HasBlock, NetsAt, Start, RunLength, Crossed;
    forall x | x in items && place[b] < items[x].at
      ensures place[o] <= items[x].at ==> !Before(width, |place[b]|, items[x].at, i)
      ensures Before(width, |place[b]|, items[x].at, i + run) <==>
        (Before(width, |place[b]|, items[x].at, i) || place[o] <= items[x].at)
    {
      RunStep(width, root, shapes, place, b, o, i, items[x].at);
    }
    forall x | x in items && place[o] <= items[x].at
      ensures Touched(l, place[b], items[x]) <==> Touched(l, place[o], items[x])
    {
      SameReach(width, root, shapes, place, l, items, b, o, x);
    }
  }

  /** The same for blocks, once o and all below it are gone. */
  lemma StepGone(width: nat, root: Id, shapes: map<Id, Shape>, place: map<Id, Bits>, place': map<Id, Bits>,
                 b: Id, o: Id, i: nat, run: nat)
    requires Tree(width, root, shapes, place) && Child(shapes, place, b, o)
    requires |place[b]| + SubBits(|place[b]|) <= width && |place[o]| <= width
    requires i == Start(width, |place[b]|, place[o]) && run == RunLength(|place[b]|, |place[o]|)
    requires forall c :: c in place' ==> c in place && place'[c] == place[c] && !(place[o] <= place[c])
    requires NoBlockBefore(width, place, place[b], i)
    ensures NoBlockBefore(width, place', place[b], i + run)
  {
    hide Tree, Before, HasBlock, Start, RunLength;
    WidthOf(width, root, shapes, place);
    forall c | c in place' && place[b] < place'[c]
      ensures !Before(width, |place[b]|, place'[c], i + run)
    {
      Here(place, c);
      RunStep(width, root, shapes, place, b, o, i, place[c]);
    }
  }

  /** At the end of the table the walk has reached everything below the block. */
  lemma WalkDone(width: nat, root: Id, shapes: map<Id, Shape>, place: map<Id, Bits>, l: seq<Listed>,
      items: map<Item, Entity>,
                 netof: map<Item, Option<Item>>, netof': map<Item, Option<Item>>, b: Id, net: Item, i: nat)
    requires Tree(width, root, shapes, place) && b in place && |place[b]| < width &&
      |place[b]| + SubBits(|place[b]|) <= width
    requires ListOk(width, l, items) && Homes(items, place) && NetsAt(l, place[b]) == []
    requires i >= |shapes[b].subs|
    requires MovedBefore(width, l, items, netof, netof', place[b], net, i)
    ensures Moved(l, items, netof, netof', place[b], net)
    ensures OccupiedBefore(width, items, place[b], i) <==> Occupied(items, place[b])
    ensures NoBlockBefore(width, place, place[b], i) ==> NothingBelow(place, place[b])
  {
    hide Tree, Before, HasBlock, Crossed, NetsAt;
    WidthOf(width, root, shapes, place);
    forall x | x in items && place[b] <= items[x].at
      ensures place[b] < items[x].at && Before(width, |place[b]|, items[x].at, i)
    {
      NotAtBlock(width, l, items, place[b], x);
      InTable(width, root, shapes, place, b, items[x].at, i);
    }
    forall c | c in place && place[b] < place[c]
      ensures Before(width, |place[b]|, place[c], i)
    {
      Here(place, c);
      InTable(width, root, shapes, place, b, place[c], i);
    }
  }

  lemma NotAtBlock(width: nat, l: seq<Listed>, items: map<Item, Entity>, p: Bits, x: Item)
    requires ListOk(width, l, items) && NetsAt(l, p) == [] && |p| < width
    requires x in items
    ensures items[x].at != p
  {
  }

  lemma InTable(width: nat, root: Id, shapes: map<Id, Shape>, place: map<Id, Bits>, b: Id, p: Bits, i: nat)
    requires Tree(width, root, shapes, place) && b in place && |place[b]| + SubBits(|place[b]|) <= width
    requires i >= |shapes[b].subs|
    requires place[b] < p && |p| <= width && HasBlock(place, p)
    ensures Before(width, |place[b]|, p, i)
  {
    hide DownLinks, UpLinks, Value;
    BelowEntry(width, root, shapes, place, b, p);
  }

  /** Trimming the table of a block with nothing below it. */
  lemma TrimKeepsTree(width: nat, root: Id, shapes: map<Id, Shape>, shapes': map<Id, Shape>, place: map<Id, Bits>,
      b: Id)
    requires Tree(width, root, shapes, place) && b in place && NothingBelow(place, place[b])
    requires shapes' == shapes[b := shapes[b].(subs := [])]
    ensures Tree(width, root, shapes', place)
  {
    hide Entry;
    assert Placed(width, root, shapes', place);
    forall x, q: Bits | x in place && Covers(width, place[x], q) && Entry(shapes', x, q).Some?
      ensures IsSub(shapes', place, x, q, Entry(shapes', x, q).value)
    {
      TrimEntry(shapes, shapes', b, x, q);
      assert IsSub(shapes, place, x, q, Entry(shapes, x, q).value);
    }
    forall c, q: Bits | c in place && c != root && Covers(width, place[c], q)
      ensures Entry(shapes', shapes'[c].super.value, q) == Some(c)
    {
      assert Entry(shapes, shapes[c].super.value, q) == Some(c);
      assert shapes[c].super != Some(b);
      TrimEntry(shapes, shapes', b, shapes[c].super.value, q);
    }
  }

  lemma FreeTrim(shapes: map<Id, Shape>, nets: map<Id, seq<Item>>, nodes: map<Id, seq<Item>>,
                 place: map<Id, Bits>, b: Id, free: seq<Id>, nextId: Id)
    requires FreeOk(shapes, nets, nodes, place, free, nextId) && b in place && b in shapes
    ensures FreeOk(shapes[b := shapes[b].(subs := [])], nets, nodes, place, free, nextId)
  {
  }

  lemma TrimEntry(shapes: map<Id, Shape>, shapes': map<Id, Shape>, b: Id, x: Id, q: Bits)
    requires b in shapes && x in shapes && shapes' == shapes[b := shapes[b].(subs := [])]
    ensures Entry(shapes', x, q) == if x == b then None else Entry(shapes, x, q)
  {
  }

  /** A block with an item on its lists has an item in its region. */
  lemma ListedOccupies(width: nat, l: seq<Listed>, items: map<Item, Entity>, nets: map<Id, seq<Item>>,
      nodes: map<Id, seq<Item>>,
                       place: map<Id, Bits>, c: Id)
    requires ListOk(width, l, items) && BlockLists(l, items, nets, nodes, place) && c in place
    ensures nets[c] != [] || nodes[c] != [] ==> Occupied(items, place[c])
  {
    hide NoDup;
    if nets[c] != [] {
      var i := NetsAtFirst(l, place[c]);
      var x := l[i].net;
      assert items[x].at == place[c] && place[c] <= items[x].at;
    } else if nodes[c] != [] {
      var x := nodes[c][0];
      assert x in nodes[c] && NodesAt(items, nodes[c], place[c]);
      assert items[x].at == place[c] && place[c] <= items[x].at;
    }
  }

  /** A slot: its nodes are all there is in its region, and no network lies between. */
  lemma SlotMoved(width: nat, l: seq<Listed>, items: map<Item, Entity>, list: seq<Item>,
                  netof: map<Item, Option<Item>>, netof': map<Item, Option<Item>>, region: Bits, net: Item)
    requires ListOk(width, l, items) && NodesAt(items, list, region) && |region| == width
    requires netof'.Keys == netof.Keys && forall x :: x in netof' ==> netof'[x] == if x in list then Some(net)
      else netof[x]
    ensures Moved(l, items, netof, netof', region, net)
    ensures Occupied(items, region) <==> list != []
  {
    hide NoDup, NetsAt;
    forall x | x in items
      ensures Touched(l, region, items[x]) <==> x in list
      ensures region <= items[x].at <==> x in list
    {
      assert region <= items[x].at ==> items[x].at == region;
      if x in list {
        assert forall i :: 0 <= i < |l| ==> |l[i].prefix| < width;
      }
    }
    if list != [] {
      var x := list[0];
      assert x in list && region <= items[x].at;
    }
  }

  /** A block with networks: they stop the walk. */
  lemma NetMoved(width: nat, l: seq<Listed>, items: map<Item, Entity>, list: seq<Item>,
                 netof: map<Item, Option<Item>>, netof': map<Item, Option<Item>>, region: Bits, net: Item)
    requires ListOk(width, l, items) && list == NetsAt(l, region) && list != [] && 0 < |region| < width
    requires netof'.Keys == netof.Keys && forall x :: x in netof' ==> netof'[x] == if x in list then Some(net)
      else netof[x]
    ensures Moved(l, items, netof, netof', region, net)
    ensures Occupied(items, region)
  {
    hide NetsAt, Touched, ListOk;
    ListedItems(width, l, items, region);
    var f := NetsAtFirst(l, region);
    var y := list[0];
    assert y in list && region <= items[y].at;
    forall x | x in items
      ensures Touched(l, region, items[x]) <==> x in list
    {
      StopsWalk(width, l, items, region, f, x);
    }
  }

  lemma ListedItems(width: nat, l: seq<Listed>, items: map<Item, Entity>, p: Bits)
    requires ListOk(width, l, items)
    ensures forall x :: x in NetsAt(l, p) <==> x in items && items[x] == Entity(NetKind, p)
  {
    hide NetsAt;
    forall x | x in NetsAt(l, p)
      ensures x in items && items[x] == Entity(NetKind, p)
    {
      var i := NetsAtSound(l, p, x);
    }
  }

  lemma StopsWalk(width: nat, l: seq<Listed>, items: map<Item, Entity>, region: Bits, f: int, x: Item)
    requires ListOk(width, l, items) && 0 <= f < |l| && l[f].prefix == region && 0 < |region| < width && x in items
    ensures Touched(l, region, items[x]) <==> items[x] == Entity(NetKind, region)
  {
    hide NetsAt;
    var e := items[x];
    if e.at == region {
      assert e.kind == NetKind;
      assert |Limit(e)| < |region|;
    } else if region <= e.at {
      BelowLimit(region, e);
      assert Crossed(l, region, Limit(e));
    }
  }

  lemma BelowLimit(region: Bits, e: Entity)
    requires region < e.at
    ensures region <= Limit(e)
  {
  }

  /** The walk before its first step. */
  lemma WalkStart(width: nat, shapes: map<Id, Shape>, place: map<Id, Bits>, b: Id, l: seq<Listed>,
      items: map<Item, Entity>,
                  netof: map<Item, Option<Item>>, region: Bits, net: Item)
    requires b in place && b in shapes && shapes[b].bits == |place[b]| && |place[b]| + SubBits(|place[b]|) <= width
    ensures Uncut(width, shapes, place, b, 0)
    ensures MovedBefore(width, l, items, netof, netof, region, net, 0)
    ensures !OccupiedBefore(width, items, region, 0) && NoBlockBefore(width, place, region, 0)
  {
    hide Value;
  }
}
