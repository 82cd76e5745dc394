/**
 The nibble-stride block tree of libudb/inet.c.

 A block with n prefix bits has a table of 2^SubBits(n) entries.  A sub-block whose prefix
 ends inside the parent's nibble is stored in a whole aligned run of entries.  `place` is the
 bit string each block of the tree stands for; it is specification only.
 */
module InetTree {
  import opened Basics
  import opened InetBits

  type Id = int

  /** The attributes of a block object that make up the tree: "bits", "super" and "subs". */
  datatype Shape = Shape(bits: nat, super: Option<Id>, subs: seq<Option<Id>>)

  /** Inet_Nth: reading past the end of a sequence yields NULL. */
  function Nth(subs: seq<Option<Id>>, i: nat): Option<Id> {
    if i < |subs| then subs[i] else None
  }

  /** Inet_Put: storing past the end of a sequence extends it with NULLs. */
  function Put(subs: seq<Option<Id>>, i: nat, o: Option<Id>): (r: seq<Option<Id>>)
    ensures forall j: nat :: Nth(r, j) == if j == i then o else Nth(subs, j)
    ensures |r| == if i < |subs| then |subs| else i + 1
  {
    if i < |subs| then subs[i := o] else subs + seq(i - |subs|, _ => None) + [o]
  }

  /** The entry of block b that the full address q selects. */
  function Entry(shapes: map<Id, Shape>, b: Id, q: Bits): Option<Id>
    requires b in shapes
  {
    var n := shapes[b].bits;
    if n + SubBits(n) <= |q| then Nth(shapes[b].subs, Value(q[n .. n + SubBits(n)])) else None
  }

  ghost predicate Covers(width: nat, p: Bits, q: Bits) {
    |q| == width && p <= q
  }

  /** Every block is where its place says, within the address width. */
  ghost predicate Placed(width: nat, root: Id, shapes: map<Id, Shape>, place: map<Id, Bits>) {
    && width % 8 == 0
    && root in place && place[root] == [] && root in shapes && shapes[root].super == None
    && (forall c :: c in place ==> c in shapes && shapes[c].bits == |place[c]| <= width)
    && (forall c :: c in place ==> |shapes[c].subs| <= Pow2(SubBits(shapes[c].bits)))
    && (forall c :: c in place && |place[c]| == width ==> shapes[c].subs == [])
  }

  /** A non-empty entry names a longer block within the nibble that covers the address. */
  ghost predicate DownLinks(width: nat, shapes: map<Id, Shape>, place: map<Id, Bits>)
    requires forall c :: c in place ==> c in shapes
  {
    forall b, q: Bits {:trigger Entry(shapes, b, q)} ::
      b in place && Covers(width, place[b], q) && Entry(shapes, b, q).Some? ==>
        IsSub(shapes, place, b, q, Entry(shapes, b, q).value)
  }

  ghost predicate IsSub(shapes: map<Id, Shape>, place: map<Id, Bits>, b: Id, q: Bits, o: Id)
    requires b in place
  {
    && o in place && o in shapes
    && shapes[o].super == Some(b)
    && place[b] < place[o] <= q
    && |place[o]| <= |place[b]| + SubBits(|place[b]|)
  }

  /** Every block but the root fills its whole aligned run of its parent's entries. */
  ghost predicate UpLinks(width: nat, root: Id, shapes: map<Id, Shape>, place: map<Id, Bits>)
    requires forall c :: c in place ==> c in shapes
  {
    && (forall c :: c in place && c != root ==>
          && shapes[c].super.Some? && shapes[c].super.value in place
          && place[shapes[c].super.value] < place[c])
    && (forall c, q: Bits {:trigger Covers(width, place[c], q)} ::
          c in place && c != root && Covers(width, place[c], q) ==>
            Entry(shapes, shapes[c].super.value, q) == Some(c))
  }

  ghost predicate Tree(width: nat, root: Id, shapes: map<Id, Shape>, place: map<Id, Bits>) {
    && Placed(width, root, shapes, place)
    && DownLinks(width, shapes, place)
    && UpLinks(width, root, shapes, place)
  }

  /** A bit string extended with zero bits to the address width. */
  function Pad(width: nat, p: Bits): (q: Bits)
    requires |p| <= width
    ensures |q| == width && p <= q
  {
    p + Zeros(width - |p|)
  }

  lemma PrefixChain(a: Bits, b: Bits, q: Bits)
    requires a <= q && b <= q
    ensures |a| <= |b| ==> a <= b
    ensures |a| < |b| ==> a < b
    ensures |a| == |b| ==> a == b
  {
    assert a == q[..|a|] && b == q[..|b|];
  }

  /**
   No block hides another: if block c lies below block b, the entry of b on the way to c
   leads to a block that still covers c.
   */
  lemma {:induction false} Cover(width: nat, root: Id, shapes: map<Id, Shape>, place: map<Id, Bits>, b: Id, c: Id,
      q: Bits)
    requires Tree(width, root, shapes, place)
    requires b in place && c in place && place[b] < place[c]
    requires Covers(width, place[c], q)
    ensures Entry(shapes, b, q).Some?
    ensures IsSub(shapes, place, b, q, Entry(shapes, b, q).value)
    ensures place[Entry(shapes, b, q).value] <= place[c]
    decreases |place[c]|
  {
    assert c != root;
    var s := shapes[c].super.value;
    assert Entry(shapes, s, q) == Some(c);
    assert place[b] <= q && place[s] <= q;
    assert Covers(width, place[b], q) && Covers(width, place[s], q);
    PrefixChain(place[b], place[s], q);
    PrefixChain(place[s], place[b], q);
    if place[s] < place[b] {
      Cover(width, root, shapes, place, s, b, q);
      assert false;
    } else if place[b] < place[s] {
      Cover(width, root, shapes, place, b, s, q);
    } else {
      SamePlace(width, root, shapes, place, b, s);
    }
  }

  /** No two blocks stand for the same bit string. */
  lemma {:induction false} SamePlace(width: nat, root: Id, shapes: map<Id, Shape>, place: map<Id, Bits>, c: Id, d: Id)
    requires Tree(width, root, shapes, place)
    requires c in place && d in place && place[c] == place[d]
    ensures c == d
    decreases |place[c]|
  {
    if c != root && d != root {
      var s, t := shapes[c].super.value, shapes[d].super.value;
      var q := Pad(width, place[c]);
      assert Covers(width, place[c], q) && Covers(width, place[d], q);
      assert Entry(shapes, s, q) == Some(c) && Entry(shapes, t, q) == Some(d);
      PrefixChain(place[s], place[t], q);
      PrefixChain(place[t], place[s], q);
      assert Covers(width, place[s], q) && Covers(width, place[t], q);
      if place[s] < place[t] {
        Cover(width, root, shapes, place, s, t, q);
        assert false;
      } else if place[t] < place[s] {
        Cover(width, root, shapes, place, t, s, q);
        assert false;
      } else {
        SamePlace(width, root, shapes, place, s, t);
      }
    }
  }

  /** Padding with zeros multiplies by the run length. */
  lemma RunStart(n: nat, v: Bits, w: Bits, end: nat)
    requires n <= |v| <= end <= |w| && v <= w
    requires forall i :: |v| <= i < end ==> !w[i]
    ensures Value(w[n..end]) == Value(v[n..]) * Pow2(end - |v|)
  {
    assert w[n..end] == v[n..] + Zeros(end - |v|);
    ValueConcat(v[n..], Zeros(end - |v|));
    ValueZeros(end - |v|);
  }

  lemma ValueSplit(q: Bits, n: nat, m: nat, end: nat)
    requires n <= m <= end <= |q|
    ensures Value(q[n..end]) == Value(q[n..m]) * Pow2(end - m) + Value(q[m..end])
  {
    hide Value, Pow2;
    var x, y := q[n..m], q[m..end];
    assert q[n..end] == x + y;
    ValueConcat(x, y);
  }

  lemma SameMiddle(n: nat, v: Bits, q: Bits)
    requires n <= |v| <= |q| && v[..n] <= q
    ensures v <= q <==> Value(v[n..]) == Value(q[n..|v|])
  {
    assert v == v[..n] + v[n..];
    assert q[..|v|] == q[..n] + q[n..|v|];
    if Value(v[n..]) == Value(q[n..|v|]) {
      ValueInjective(v[n..], q[n..|v|]);
    }
    if v <= q {
      assert v == q[..|v|];
      assert v[n..] == q[n..|v|];
    }
  }

  lemma SameMultiple(x: nat, y: nat, z: nat, count: nat, start: nat, total: nat)
    requires z < count && start == x * count && total == y * count + z
    ensures start <= total < start + count <==> x == y
    ensures x == y ==> total - start == z
  {
    if y < x {
      FitsMultiple(y, x, count);
    } else if x < y {
      FitsMultiple(x, y, count);
    }
  }

  /** The run has room in the block's table. */
  lemma RunFits(n: nat, k: nat, v: Bits, w: Bits)
    requires n < |v| <= n + k <= |w|
    requires v <= w
    requires forall i :: |v| <= i < n + k ==> !w[i]
    ensures Value(w[n .. n + k]) + Pow2(n + k - |v|) <= Pow2(k)
  {
    RunStart(n, v, w, n + k);
    Pow2Add(|v| - n, n + k - |v|);
    FitsMultiple(Value(v[n..]), Pow2(|v| - n), Pow2(n + k - |v|));
  }

  /** Shapes after a block `id` standing for v was put between block b and its sub-blocks under v. */
  ghost predicate Grown(width: nat, shapes: map<Id, Shape>, shapes': map<Id, Shape>, place: map<Id, Bits>, b: Id,
      id: Id, v: Bits)
    requires b in place && forall c :: c in place ==> c in shapes
  {
    && id in shapes' && shapes'[id].bits == |v| && shapes'[id].super == Some(b)
    && |shapes'[id].subs| <= Pow2(SubBits(|v|)) && (|v| == width ==> shapes'[id].subs == [])
    && b in shapes' && shapes'[b].bits == shapes[b].bits && shapes'[b].super == shapes[b].super
    && |shapes'[b].subs| <= Pow2(SubBits(shapes[b].bits))
    && (forall c :: c in place && c != b ==>
          && c in shapes' && shapes'[c].bits == shapes[c].bits && shapes'[c].subs == shapes[c].subs
          && shapes'[c].super == if shapes[c].super == Some(b) && v < place[c] then Some(id) else shapes[c].super)
    && (forall q: Bits {:trigger Entry(shapes', b, q)} :: Covers(width, place[b], q) ==>
          Entry(shapes', b, q) == if v <= q then Some(id) else Entry(shapes, b, q))
    && (forall q: Bits {:trigger Entry(shapes', id, q)} :: Covers(width, v, q) ==>
          Entry(shapes', id, q) == if |v| < |place[b]| + SubBits(|place[b]|) then Entry(shapes, b, q) else None)
  }

  /** v is where Inet_New_Block puts a new block below b: nothing of b lies between b and v. */
  ghost predicate Vacant(width: nat, shapes: map<Id, Shape>, place: map<Id, Bits>, b: Id, v: Bits)
    requires b in place && b in shapes
  {
    && place[b] < v && |v| <= width
    && |v| <= |place[b]| + SubBits(|place[b]|)
    && (forall o :: o in place && o in shapes && shapes[o].super == Some(b) ==> !(place[o] <= v))
  }

  /** Sub-blocks of b that meet the run of v lie strictly below v. */
  lemma MeetsBelow(width: nat, root: Id, shapes: map<Id, Shape>, place: map<Id, Bits>, b: Id, v: Bits, q: Bits)
    requires Placed(width, root, shapes, place)
    requires DownLinks(width, shapes, place)
    requires b in place && Vacant(width, shapes, place, b, v)
    requires Covers(width, v, q)
    ensures Entry(shapes, b, q).Some? ==>
      var e := Entry(shapes, b, q).value; e in place && v < place[e] && shapes[e].super == Some(b)
    ensures |v| == |place[b]| + SubBits(|place[b]|) ==> Entry(shapes, b, q).None?
  {
    assert Covers(width, place[b], q);
    if Entry(shapes, b, q).Some? {
      var e := Entry(shapes, b, q).value;
      PrefixChain(place[e], v, q);
      PrefixChain(v, place[e], q);
    }
  }

  lemma GrownKeepsTree(width: nat, root: Id, shapes: map<Id, Shape>, shapes': map<Id, Shape>, place: map<Id, Bits>,
      b: Id, id: Id, v: Bits)
    requires Tree(width, root, shapes, place)
    requires b in place && id !in place && Vacant(width, shapes, place, b, v)
    requires Grown(width, shapes, shapes', place, b, id, v)
    ensures Tree(width, root, shapes', place[id := v])
  {
    var place' := place[id := v];
    assert Placed(width, root, shapes', place');
    assert place[b] <= v;
    forall x, q: Bits | x in place' && Covers(width, place'[x], q) && Entry(shapes', x, q).Some?
      ensures IsSub(shapes', place', x, q, Entry(shapes', x, q).value)
    {
      if x == id {
        GrownDownNew(width, root, shapes, shapes', place, b, id, v, q);
      } else {
        GrownDown(width, root, shapes, shapes', place, b, id, v, x, q);
      }
    }
    forall c | c in place' && c != root
      ensures shapes'[c].super.Some? && shapes'[c].super.value in place'
      ensures place'[shapes'[c].super.value] < place'[c]
    {
    }
    forall c, q: Bits | c in place' && c != root && Covers(width, place'[c], q)
      ensures Entry(shapes', shapes'[c].super.value, q) == Some(c)
    {
      if c == id {
        assert Covers(width, place[b], q);
      } else {
        GrownUp(width, root, shapes, shapes', place, b, id, v, c, q);
      }
    }
  }

  lemma GrownDown(width: nat, root: Id, shapes: map<Id, Shape>, shapes': map<Id, Shape>, place: map<Id, Bits>,
                  b: Id, id: Id, v: Bits, x: Id, q: Bits)
    requires Placed(width, root, shapes, place)
    requires DownLinks(width, shapes, place)
    requires b in place && id !in place && Vacant(width, shapes, place, b, v)
    requires Grown(width, shapes, shapes', place, b, id, v)
    requires x in place && Covers(width, place[x], q) && Entry(shapes', x, q).Some?
    ensures IsSub(shapes', place[id := v], x, q, Entry(shapes', x, q).value)
  {
    if x == b && v <= q {
    } else {
      var e := Entry(shapes', x, q).value;
      assert Entry(shapes, x, q) == Some(e);
      assert IsSub(shapes, place, x, q, e);
      if x == b {
        NotUnder(v, place[e], q);
      }
      SubKept(shapes, shapes', place, id, v, x, q, e);
    }
  }

  lemma SubKept(shapes: map<Id, Shape>, shapes': map<Id, Shape>, place: map<Id, Bits>, id: Id, v: Bits, x: Id, q: Bits,
      e: Id)
    requires x in place && id !in place && IsSub(shapes, place, x, q, e)
    requires e in shapes' && shapes'[e].super == shapes[e].super
    ensures IsSub(shapes', place[id := v], x, q, e)
  {
  }

  lemma GrownDownNew(width: nat, root: Id, shapes: map<Id, Shape>, shapes': map<Id, Shape>, place: map<Id, Bits>,
                     b: Id, id: Id, v: Bits, q: Bits)
    requires Placed(width, root, shapes, place)
    requires DownLinks(width, shapes, place)
    requires b in place && id !in place && Vacant(width, shapes, place, b, v)
    requires Grown(width, shapes, shapes', place, b, id, v)
    requires Covers(width, v, q) && Entry(shapes', id, q).Some?
    ensures IsSub(shapes', place[id := v], id, q, Entry(shapes', id, q).value)
  {
    var e := Entry(shapes', id, q).value;
    assert Covers(width, place[b], q);
    MeetsBelow(width, root, shapes, place, b, v, q);
    assert Entry(shapes, b, q) == Some(e);
    assert IsSub(shapes, place, b, q, e);
    SameBoundary(|place[b]|, |v|);
  }

  lemma SameBoundary(n: nat, m: nat)
    requires n <= m < n + SubBits(n)
    ensures m + SubBits(m) == n + SubBits(n)
  {
  }

  lemma NotUnder(v: Bits, p: Bits, q: Bits)
    requires p <= q && !(v <= q)
    ensures !(v < p)
  {
  }

  lemma GrownUp(width: nat, root: Id, shapes: map<Id, Shape>, shapes': map<Id, Shape>, place: map<Id, Bits>,
                b: Id, id: Id, v: Bits, c: Id, q: Bits)
    requires Placed(width, root, shapes, place)
    requires DownLinks(width, shapes, place) && UpLinks(width, root, shapes, place)
    requires b in place && id !in place && Vacant(width, shapes, place, b, v)
    requires Grown(width, shapes, shapes', place, b, id, v)
    requires c in place && c != root && Covers(width, place[c], q)
    ensures shapes'[c].super.Some? && shapes'[c].super.value in shapes'
    ensures Entry(shapes', shapes'[c].super.value, q) == Some(c)
  {
    hide Entry;
    var s := shapes[c].super.value;
    assert Entry(shapes, s, q) == Some(c);
    assert Covers(width, place[s], q);
    if s == b {
      GrownUpBelow(width, root, shapes, shapes', place, b, id, v, c, q);
    } else {
      EntrySame(shapes, shapes', s, q);
    }
  }

  lemma EntrySame(shapes: map<Id, Shape>, shapes': map<Id, Shape>, s: Id, q: Bits)
    requires s in shapes && s in shapes'
    requires shapes'[s].subs == shapes[s].subs && shapes'[s].bits == shapes[s].bits
    ensures Entry(shapes', s, q) == Entry(shapes, s, q)
  {
  }

  lemma GrownUpBelow(width: nat, root: Id, shapes: map<Id, Shape>, shapes': map<Id, Shape>, place: map<Id, Bits>,
                     b: Id, id: Id, v: Bits, c: Id, q: Bits)
    requires Placed(width, root, shapes, place)
    requires DownLinks(width, shapes, place)
    requires b in place && id !in place && Vacant(width, shapes, place, b, v)
    requires Grown(width, shapes, shapes', place, b, id, v)
    requires c in place && c != root && shapes[c].super == Some(b) && Covers(width, place[c], q)
    requires Entry(shapes, b, q) == Some(c) && Covers(width, place[b], q)
    ensures if v < place[c] then Entry(shapes', id, q) == Some(c) else Entry(shapes', b, q) == Some(c)
  {
    if v <= q {
      MeetsBelow(width, root, shapes, place, b, v, q);
      assert Covers(width, v, q);
    }
  }

  /** Shapes after the childless block c was dropped from the entries of its parent b. */
  ghost predicate Pruned(width: nat, shapes: map<Id, Shape>, shapes': map<Id, Shape>, place: map<Id, Bits>, b: Id,
      c: Id)
    requires b in place && c in place && forall x :: x in place ==> x in shapes
  {
    && b in shapes' && shapes'[b].bits == shapes[b].bits && shapes'[b].super == shapes[b].super
    && |shapes'[b].subs| <= Pow2(SubBits(shapes[b].bits)) && |place[b]| < width
    && (forall x :: x in place && x != b && x != c ==> x in shapes' && shapes'[x] == shapes[x])
    && (forall q: Bits {:trigger Entry(shapes', b, q)} :: Covers(width, place[b], q) ==>
          Entry(shapes', b, q) == if place[c] <= q then None else Entry(shapes, b, q))
  }

  lemma PrunedKeepsTree(width: nat, root: Id, shapes: map<Id, Shape>, shapes': map<Id, Shape>, place: map<Id, Bits>,
      b: Id, c: Id)
    requires Tree(width, root, shapes, place)
    requires b in place && c in place && c != root && shapes[c].super == Some(b)
    requires forall d :: d in place ==> !(place[c] < place[d])
    requires Pruned(width, shapes, shapes', place, b, c)
    ensures Tree(width, root, shapes', place - {c})
  {
    var place' := place - {c};
    assert b != c;
    assert Placed(width, root, shapes', place');
    forall x, q: Bits | x in place' && Covers(width, place'[x], q) && Entry(shapes', x, q).Some?
      ensures IsSub(shapes', place', x, q, Entry(shapes', x, q).value)
    {
      PrunedDown(width, root, shapes, shapes', place, b, c, x, q);
    }
    forall d, q: Bits | d in place' && d != root && Covers(width, place'[d], q)
      ensures shapes'[d].super.Some?
      ensures Entry(shapes', shapes'[d].super.value, q) == Some(d)
    {
      PrunedUp(width, root, shapes, shapes', place, b, c, d, q);
    }
    forall d | d in place' && d != root
      ensures shapes'[d].super.Some? && shapes'[d].super.value in place'
      ensures place'[shapes'[d].super.value] < place'[d]
    {
      PrunedUp(width, root, shapes, shapes', place, b, c, d, Pad(width, place[d]));
    }
  }

  lemma PrunedDown(width: nat, root: Id, shapes: map<Id, Shape>, shapes': map<Id, Shape>, place: map<Id, Bits>,
                   b: Id, c: Id, x: Id, q: Bits)
    requires Placed(width, root, shapes, place)
    requires DownLinks(width, shapes, place)
    requires b in place && c in place && c != root && shapes[c].super == Some(b)
    requires Pruned(width, shapes, shapes', place, b, c)
    requires x in place && x != c && Covers(width, place[x], q) && Entry(shapes', x, q).Some?
    ensures IsSub(shapes', place - {c}, x, q, Entry(shapes', x, q).value)
  {
    var e := Entry(shapes', x, q).value;
    assert Entry(shapes, x, q) == Some(e);
    assert IsSub(shapes, place, x, q, e);
    assert e != c;
    assert shapes'[e].super == shapes[e].super;
  }

  lemma PrunedUp(width: nat, root: Id, shapes: map<Id, Shape>, shapes': map<Id, Shape>, place: map<Id, Bits>,
                 b: Id, c: Id, d: Id, q: Bits)
    requires Placed(width, root, shapes, place)
    requires UpLinks(width, root, shapes, place)
    requires b in place && c in place && c != root && shapes[c].super == Some(b)
    requires forall x :: x in place ==> !(place[c] < place[x])
    requires Pruned(width, shapes, shapes', place, b, c)
    requires d in place && d != c && d != root && Covers(width, place[d], q)
    ensures shapes'[d].super.Some?
    ensures shapes'[d].super.value in place && shapes'[d].super.value != c
    ensures place[shapes'[d].super.value] < place[d]
    ensures Entry(shapes', shapes'[d].super.value, q) == Some(d)
  {
    hide Entry;
    var s := shapes[d].super.value;
    assert shapes'[d].super == Some(s);
    assert s != c;
    assert Entry(shapes, s, q) == Some(d);
    assert Covers(width, place[s], q);
    assert place[c] <= q ==> Covers(width, place[c], q);
    assert !(s == b && place[c] <= q);
    if s != b {
      EntrySame(shapes, shapes', s, q);
    }
  }

  /** What the entries of b hold before and after the run of v was given to a new block. */
  ghost predicate RunTaken(subs: seq<Option<Id>>, subs': seq<Option<Id>>, index: nat, count: nat, id: Id) {
    forall i: nat :: Nth(subs', i) == if index <= i < index + count then Some(id) else Nth(subs, i)
  }

  ghost predicate RunCopied(subs: seq<Option<Id>>, copy: seq<Option<Id>>, index: nat, count: nat) {
    forall j: nat :: Nth(copy, j) == if j < count then Nth(subs, index + j) else None
  }

  ghost predicate Holds(copy: seq<Option<Id>>, c: Id) {
    exists j: nat :: Nth(copy, j) == Some(c)
  }

  /** The run of v in a block with n bits, as w selects it: n < |v| <= end and w is v then zeros. */
  ghost predicate Run(width: nat, n: nat, v: Bits, w: Bits, end: nat, index: nat, count: nat) {
    && end == n + SubBits(n) <= width && n < |v| <= end
    && |w| == width && v <= w && (forall i :: |v| <= i < end ==> !w[i])
    && index == Value(w[n..end]) && count == Pow2(end - |v|)
  }

  /** The entries under v are exactly those of its run. */
  lemma InRun(width: nat, n: nat, v: Bits, w: Bits, end: nat, index: nat, count: nat, q: Bits)
    requires Run(width, n, v, w, end, index, count)
    requires |q| == width && v[..n] <= q
    ensures v <= q <==> index <= Value(q[n..end]) < index + count
    ensures v <= q ==> Value(q[n..end]) - index == Value(q[|v|..end])
  {
    RunStart(n, v, w, end);
    ValueSplit(q, n, |v|, end);
    SameMultiple(Value(v[n..]), Value(q[n..|v|]), Value(q[|v|..end]), count, index, Value(q[n..end]));
    SameMiddle(n, v, q);
  }

  /** An address that selects entry index + j, where the run starts at index. */
  lemma RunEntry(width: nat, n: nat, v: Bits, w: Bits, end: nat, index: nat, count: nat, j: nat) returns (q: Bits)
    requires Run(width, n, v, w, end, index, count)
    requires j < count
    ensures Covers(width, v, q)
    ensures Value(q[n..end]) == index + j
  {
    var tail := FromValue(j, end - |v|);
    q := Pad(width, v + tail);
    assert q[|v|..end] == tail;
    InRun(width, n, v, w, end, index, count, q);
  }

  /** Taking over a run and re-linking the blocks copied from it is exactly growing the tree at v. */
  ghost predicate Taken(width: nat, shapes: map<Id, Shape>, shapes': map<Id, Shape>, place: map<Id, Bits>, b: Id,
      id: Id, v: Bits,
                        index: nat, count: nat)
    requires b in place && forall c :: c in place ==> c in shapes
  {
    && id in shapes' && shapes'[id].bits == |v| && shapes'[id].super == Some(b)
    && b in shapes' && shapes'[b].bits == shapes[b].bits && shapes'[b].super == shapes[b].super
    && RunTaken(shapes[b].subs, shapes'[b].subs, index, count, id)
    && RunCopied(shapes[b].subs, shapes'[id].subs, index, count)
    && (|v| == width ==> shapes'[id].subs == [])
    && |shapes'[id].subs| <= count && |shapes'[b].subs| <= Pow2(SubBits(shapes[b].bits))
    && (forall c :: c in place && c != b ==>
          c in shapes' && shapes'[c] == if Holds(shapes'[id].subs, c) then shapes[c].(super := Some(id)) else shapes[c])
  }

  lemma TakenIsGrown(width: nat, root: Id, shapes: map<Id, Shape>, shapes': map<Id, Shape>, place: map<Id, Bits>,
                     b: Id, id: Id, v: Bits, w: Bits, end: nat, index: nat, count: nat)
    requires Tree(width, root, shapes, place)
    requires b in place && id !in place && Vacant(width, shapes, place, b, v)
    requires Run(width, |place[b]|, v, w, end, index, count)
    requires Taken(width, shapes, shapes', place, b, id, v, index, count)
    ensures Grown(width, shapes, shapes', place, b, id, v)
  {
    hide Entry;
    hide Holds;
    assert v[..|place[b]|] == place[b];
    forall q: Bits | Covers(width, place[b], q)
      ensures Entry(shapes', b, q) == if v <= q then Some(id) else Entry(shapes, b, q)
    {
      TakenEntry(width, shapes, shapes', b, id, |place[b]|, v, w, end, index, count, q);
    }
    forall q: Bits | Covers(width, v, q)
      ensures Entry(shapes', id, q) == if |v| < end then Entry(shapes, b, q) else None
    {
      NewEntries(width, root, shapes, shapes', place, b, id, v, w, end, index, count, q);
    }
    forall c | c in place && c != b
      ensures Holds(shapes'[id].subs, c) <==> shapes[c].super == Some(b) && v < place[c]
    {
      SubsumedIsHeld(width, root, shapes, shapes'[id].subs, place, b, v, w, end, index, count, c);
    }
    RunBound(|place[b]|, |v|, end);
  }

  lemma TakenEntry(width: nat, shapes: map<Id, Shape>, shapes': map<Id, Shape>, b: Id, id: Id, n: nat,
                   v: Bits, w: Bits, end: nat, index: nat, count: nat, q: Bits)
    requires b in shapes && b in shapes' && shapes[b].bits == shapes'[b].bits == n
    requires Run(width, n, v, w, end, index, count)
    requires RunTaken(shapes[b].subs, shapes'[b].subs, index, count, id)
    requires |q| == width && v[..n] <= q
    ensures Entry(shapes', b, q) == if v <= q then Some(id) else Entry(shapes, b, q)
  {
    InRun(width, n, v, w, end, index, count, q);
  }

  lemma RunBound(n: nat, m: nat, end: nat)
    requires n < m <= end == n + SubBits(n)
    ensures Pow2(end - m) <= Pow2(SubBits(m))
  {
    if m < end {
      SameBoundary(n, m);
    }
  }

  lemma NewEntries(width: nat, root: Id, shapes: map<Id, Shape>, shapes': map<Id, Shape>, place: map<Id, Bits>,
                   b: Id, id: Id, v: Bits, w: Bits, end: nat, index: nat, count: nat, q: Bits)
    requires Placed(width, root, shapes, place)
    requires DownLinks(width, shapes, place)
    requires b in place && Vacant(width, shapes, place, b, v)
    requires Run(width, |place[b]|, v, w, end, index, count)
    requires id in shapes' && shapes'[id].bits == |v|
    requires RunCopied(shapes[b].subs, shapes'[id].subs, index, count)
    requires Covers(width, v, q)
    ensures Entry(shapes', id, q) == if |v| < end then Entry(shapes, b, q) else None
  {
    var n := |place[b]|;
    assert v[..n] == place[b];
    InRun(width, n, v, w, end, index, count, q);
    if |v| < end {
      SameBoundary(n, |v|);
      CopiedEntry(shapes[b].subs, shapes'[id].subs, index, count, Value(q[|v|..end]));
    } else {
      MeetsBelow(width, root, shapes, place, b, v, q);
      assert q[|v|..end] == [];
      OnlyEntry(shapes[b].subs, shapes'[id].subs, index, count);
    }
  }

  lemma CopiedEntry(subs: seq<Option<Id>>, copy: seq<Option<Id>>, index: nat, count: nat, j: nat)
    requires RunCopied(subs, copy, index, count) && j < count
    ensures Nth(copy, j) == Nth(subs, index + j)
  {
  }

  lemma OnlyEntry(subs: seq<Option<Id>>, copy: seq<Option<Id>>, index: nat, count: nat)
    requires RunCopied(subs, copy, index, count) && count == 1 && Nth(subs, index) == None
    ensures forall j: nat :: Nth(copy, j) == None
  {
    assert index + 0 == index;
  }

  /** A block found in the run is a sub-block of b under v. */
  lemma HeldIsSubsumed(width: nat, root: Id, shapes: map<Id, Shape>, copy: seq<Option<Id>>, place: map<Id, Bits>,
                       b: Id, v: Bits, w: Bits, end: nat, index: nat, count: nat, c: Id)
    requires Tree(width, root, shapes, place)
    requires b in place && Vacant(width, shapes, place, b, v)
    requires Run(width, |place[b]|, v, w, end, index, count)
    requires RunCopied(shapes[b].subs, copy, index, count)
    requires Holds(copy, c)
    ensures c in place && shapes[c].super == Some(b) && v < place[c]
  {
    var j: nat :| Nth(copy, j) == Some(c);
    var q := RunEntry(width, |place[b]|, v, w, end, index, count, j);
    assert Entry(shapes, b, q) == Some(c);
    MeetsBelow(width, root, shapes, place, b, v, q);
  }

  /** The blocks found in the run are the sub-blocks of b under v. */
  lemma SubsumedIsHeld(width: nat, root: Id, shapes: map<Id, Shape>, copy: seq<Option<Id>>, place: map<Id, Bits>,
                       b: Id, v: Bits, w: Bits, end: nat, index: nat, count: nat, c: Id)
    requires Tree(width, root, shapes, place)
    requires b in place && Vacant(width, shapes, place, b, v)
    requires Run(width, |place[b]|, v, w, end, index, count)
    requires RunCopied(shapes[b].subs, copy, index, count)
    requires c in place
    ensures Holds(copy, c) <==> shapes[c].super == Some(b) && v < place[c]
  {
    if Holds(copy, c) {
      HeldIsSubsumed(width, root, shapes, copy, place, b, v, w, end, index, count, c);
    }
    if shapes[c].super == Some(b) && v < place[c] {
      var q := Pad(width, place[c]);
      assert Covers(width, place[c], q);
      assert Entry(shapes, b, q) == Some(c);
      assert v[..|place[b]|] == place[b];
      InRun(width, |place[b]|, v, w, end, index, count, q);
      CopiedEntry(shapes[b].subs, copy, index, count, Value(q[|place[b]|..end]) - index);
    }
  }
}
