/**
 The search for a vacant subnet (Inet_Auto_Net in libudb/inet.c).

 A candidate is a largest vacant piece the search can name: an empty entry of a block, or an
 aligned group of empty entries when the wanted prefix ends inside the block's nibble.
 */
module InetAuto {
  import opened Basics
  import opened InetBits
  import opened InetTree
  import opened InetRegions

  datatype InetBest = NoneBest | ZeroBest | OtherBest

  /** What the search is run on: the tree, the blocks holding a net or range, the net and the wanted size. */
  datatype Ctx = Ctx(width: nat, root: Id, shapes: map<Id, Shape>, marked: set<Id>, place: map<Id, Bits>, base: Bits,
    want: nat)

  /** The tree is well formed, and blocks off the nibble boundary carry a network or range. */
  ghost predicate Usable(x: Ctx) {
    && Tree(x.width, x.root, x.shapes, x.place)
    && (forall c :: c in x.place && |x.place[c]| % NSHIFT != 0 ==> c in x.marked)
    && |x.base| < x.want < x.width
  }

  /** Block c belongs to the net itself: no subnet or range lies on the way down to it. */
  ghost predicate Open(x: Ctx, c: Id) {
    && c in x.place && x.base <= x.place[c]
    && (forall d :: d in x.place && x.base < x.place[d] <= x.place[c] ==> d !in x.marked)
  }

  /** Number of bits of the pieces block c is divided into. */
  function PieceBits(n: nat, want: nat): nat {
    if n + SubBits(n) > want then want else n + SubBits(n)
  }

  ghost predicate CandidateOf(x: Ctx, c: Id, v: Bits) {
    && Open(x, c) && x.place[c] < v && |v| == PieceBits(|x.place[c]|, x.want)
    && (forall d :: d in x.place && x.place[c] < x.place[d] ==> !(v <= x.place[d]) && !(x.place[d] <= v))
  }

  ghost predicate Candidate(x: Ctx, v: Bits) {
    exists c :: c in x.place && CandidateOf(x, c, v)
  }

  /** Candidates below block c. */
  ghost predicate Under(x: Ctx, p: Bits, v: Bits) {
    p < v && Candidate(x, v)
  }

  /** Bits up to the last one bit after the net's prefix, or the net's own bits if there is none. */
  function Left(base: nat, v: Bits): (r: nat)
    ensures r == base || base < r <= |v|
  {
    if |v| <= base then base
    else if v[|v| - 1] then |v|
    else Left(base, v[..|v| - 1])
  }

  /** The count by which candidates are compared. */
  function Cost(base: nat, v: Bits): nat {
    if Left(base, v) == base then |v| else Left(base, v)
  }

  function KindOf(base: nat, v: Bits): InetBest {
    if Left(base, v) == base then ZeroBest else OtherBest
  }

  /** No bit behind the first `base` is on. */
  ghost predicate Blank(base: nat, v: Bits) {
    forall i :: base <= i < |v| ==> !v[i]
  }

  /** The first n bits of v are its bits up to the last one that is on, or all of them if none behind `base` is. */
  ghost predicate Measures(base: nat, v: Bits, n: nat) {
    && base < n <= |v|
    && if Blank(base, v) then n == |v| else v[n - 1] && forall i :: n <= i < |v| ==> !v[i]
  }

  lemma {:induction false} LeftMeans(base: nat, v: Bits)
    ensures Left(base, v) == base <==> Blank(base, v)
    ensures Left(base, v) > base ==> v[Left(base, v) - 1] && forall i :: Left(base, v) <= i < |v| ==> !v[i]
    decreases |v|
  {
    if |v| > base && !v[|v| - 1] {
      var w := v[..|v| - 1];
      LeftMeans(base, w);
      assert Blank(base, w) ==> Blank(base, v);
      assert Blank(base, v) ==> Blank(base, w);
    }
  }

  /** The cost of a candidate is its measure, and the only one. */
  lemma CostMeans(base: nat, v: Bits, n: nat)
    requires base < |v|
    ensures Measures(base, v, n) <==> n == Cost(base, v)
    ensures KindOf(base, v) == if Blank(base, v) then ZeroBest else OtherBest
  {
    LeftMeans(base, v);
    hide Left;
    if Measures(base, v, n) && !Blank(base, v) {
      assert v[n - 1] && v[Left(base, v) - 1];
    }
  }

  /** A longer string does not measure less. */
  lemma MeasuresGrow(base: nat, v: Bits, n: nat, w: Bits, m: nat)
    requires v <= w && Measures(base, v, n) && Measures(base, w, m)
    ensures n <= m
  {
    assert forall i :: 0 <= i < |v| ==> w[i] == v[i];
  }

  /** Does a candidate with this cost replace the best so far? */
  predicate Better(cost: nat, best: InetBest, bits: nat) {
    cost < bits || best == NoneBest || (best == ZeroBest && cost == bits)
  }

  /** Candidate v is at least as good as u: it costs less, or the same and only then prefers a nonzero one. */
  ghost predicate NoWorse(base: nat, v: Bits, u: Bits) {
    Cost(base, v) < Cost(base, u) ||
      (Cost(base, v) == Cost(base, u) && (KindOf(base, v) == OtherBest || KindOf(base, u) == ZeroBest))
  }

  /** The table of trailing zero counts used by the search, for entries other than 0. */
  function RightZero(i: nat): (r: nat)
    requires 0 < i < 16
    ensures r < NSHIFT
  {
    [4, 0, 1, 0, 2, 0, 1, 0, 3, 0, 1, 0, 2, 0, 1, 0][i]
  }

  lemma RightZeroHalf(i: nat)
    requires 0 < i < 16
    ensures i % 2 == 1 ==> RightZero(i) == 0
    ensures i % 2 == 0 ==> RightZero(i) == RightZero(i / 2) + 1
  {
    assert i == 2 * (i / 2) + i % 2;
    var t := [4, 0, 1, 0, 2, 0, 1, 0, 3, 0, 1, 0, 2, 0, 1, 0];
    assert t[1] == 0 && t[3] == 0 && t[5] == 0 && t[7] == 0 && t[9] == 0 && t[11] == 0 && t[13] == 0 && t[15] == 0;
    assert t[2] == 1 && t[4] == 2 && t[6] == 1 && t[8] == 3 && t[10] == 1 && t[12] == 2 && t[14] == 1;
  }

  lemma {:induction false} FromValueHalf(v: nat, k: nat)
    requires k > 0 && v < Pow2(k)
    ensures v / 2 < Pow2(k - 1)
    ensures FromValue(v, k)[k - 1] == (v % 2 == 1)
    ensures FromValue(v, k)[..k - 1] == FromValue(v / 2, k - 1)
  {
    assert Pow2(k) == 2 * Pow2(k - 1);
    hide Pow2, FromValue, Value;
    var w, u := FromValue(v, k), FromValue(v / 2, k - 1);
    ValueLast(w);
    ValueInjective(w[..k - 1], u);
  }

  lemma ValueLast(w: Bits)
    requires w != []
    ensures Value(w) == 2 * Value(w[..|w| - 1]) + if w[|w| - 1] then 1 else 0
  {
    var n := |w| - 1;
    assert Pow2(1) == 2;
    hide Pow2, Value;
    assert w == w[..n] + [w[n]];
    ValueConcat(w[..n], [w[n]]);
    ValueSmall([w[n]]);
  }

  lemma LeftOfLast(base: nat, p: Bits, w: Bits)
    requires base <= |p| && w != []
    ensures Left(base, p + w) == if w[|w| - 1] then |p| + |w| else Left(base, p + w[..|w| - 1])
  {
    var v := p + w;
    assert v[..|v| - 1] == p + w[..|w| - 1];
  }

  /** Left of a prefix extended by an entry index. */
  lemma {:induction false} LeftOfIndex(base: nat, p: Bits, i: nat, k: nat)
    requires base <= |p| && k <= 4 && i < Pow2(k)
    ensures i == 0 ==> Left(base, p + FromValue(i, k)) == Left(base, p)
    ensures i > 0 ==> i < 16 && RightZero(i) < k && Left(base, p + FromValue(i, k)) == |p| + k - RightZero(i)
  {
    SmallPowers();
    if k == 0 {
      assert p + FromValue(i, k) == p;
    } else {
      hide RightZero, FromValue, Pow2, Left;
      FromValueHalf(i, k);
      LeftOfLast(base, p, FromValue(i, k));
      LeftOfIndex(base, p, i / 2, k - 1);
      if i > 0 { RightZeroHalf(i); }
    }
  }

  /** Dropping trailing zero bits does not change Left. */
  lemma {:induction false} LeftOfPiece(base: nat, p: Bits, w: Bits, s: nat)
    requires base <= |p| && s <= |w| && forall j :: s <= j < |w| ==> !w[j]
    ensures Left(base, p + w[..s]) == Left(base, p + w)
  {
    if s == |w| {
      assert w[..s] == w;
    } else {
      var v := p + w;
      assert v[..|v| - 1] == p + w[..|w| - 1];
      assert w[..|w| - 1][..s] == w[..s];
      LeftOfPiece(base, p, w[..|w| - 1], s);
    }
  }

  // The pieces of a block.

  /** Piece number i of a block: its place extended by the leading bits of i. */
  function Piece(p: Bits, i: nat, s: nat): Bits
    requires i < Pow2(SubBits(|p|)) && s <= SubBits(|p|)
  {
    p + FromValue(i, SubBits(|p|))[..s]
  }

  lemma PieceBitsGrow(n: nat, m: nat, want: nat)
    requires n <= m
    ensures PieceBits(n, want) <= PieceBits(m, want)
    ensures n < want ==> n < PieceBits(n, want) <= want && PieceBits(n, want) <= n + SubBits(n)
  {
  }

  /** Entries i .. i + run of a block are the run of piece i, when i is a multiple of the run length. */
  lemma PieceRun(width: nat, p: Bits, i: nat, s: nat)
    requires 1 <= s <= SubBits(|p|) && |p| + SubBits(|p|) <= width
    requires i < Pow2(SubBits(|p|)) && i % Pow2(SubBits(|p|) - s) == 0
    ensures var v := Piece(p, i, s);
      && p < v && |v| == |p| + s
      && Run(width, |p|, v, Pad(width, v), |p| + SubBits(|p|), i, Pow2(SubBits(|p|) - s))
      && Start(width, |p|, v) == i
      && (forall j :: s <= j < SubBits(|p|) ==> !FromValue(i, SubBits(|p|))[j])
  {
    hide Value, Pow2, FromValue;
    var k, n := SubBits(|p|), |p|;
    var w, v := FromValue(i, k), Piece(p, i, s);
    LowZeros(i, k, s);
    assert w == w[..s] + Zeros(k - s);
    assert Pad(width, v)[n .. n + k] == w;
  }

  lemma LowZeros(i: nat, k: nat, s: nat)
    requires s <= k && i < Pow2(k) && i % Pow2(k - s) == 0
    ensures forall j :: s <= j < k ==> !FromValue(i, k)[j]
  {
    hide Value, Pow2, FromValue;
    var w := FromValue(i, k);
    assert w == w[..s] + w[s..];
    ValueConcat(w[..s], w[s..]);
    var m, a, b := Pow2(k - s), Value(w[..s]), Value(w[s..]);
    ModUnique(i, m, a, b);
    assert b == 0;
    ValueZeros(k - s);
    ValueInjective(w[s..], Zeros(k - s));
    assert forall j :: s <= j < k ==> w[j] == w[s..][j - s];
  }

  /** A candidate below c comes from c or from a block below c, and is at least as long as a piece of c. */
  lemma Owner(x: Ctx, c: Id, u: Bits) returns (c': Id)
    requires Usable(x) && Open(x, c) && Under(x, x.place[c], u)
    ensures CandidateOf(x, c', u) && x.place[c] <= x.place[c']
    ensures |u| >= PieceBits(|x.place[c]|, x.want)
  {
    hide Tree, SubBits;
    c' :| c' in x.place && CandidateOf(x, c', u);
    PrefixChain(x.place[c'], x.place[c], u);
    PrefixChain(x.place[c], x.place[c'], u);
    PieceBitsGrow(|x.place[c]|, |x.place[c']|, x.want);
  }

  /** The candidates in the group of piece v are those that extend v. */
  lemma InGroup(x: Ctx, c: Id, i: nat, s: nat, u: Bits)
    requires Usable(x) && Open(x, c) && |x.place[c]| < x.want
    requires s == PieceBits(|x.place[c]|, x.want) - |x.place[c]|
    requires |x.place[c]| + SubBits(|x.place[c]|) <= x.width && 1 <= s <= SubBits(|x.place[c]|)
    requires i < Pow2(SubBits(|x.place[c]|)) && i % Pow2(SubBits(|x.place[c]|) - s) == 0
    requires Under(x, x.place[c], u) && |u| <= x.width
    ensures Piece(x.place[c], i, s) <= u <==>
      i <= Start(x.width, |x.place[c]|, u) < i + Pow2(SubBits(|x.place[c]|) - s)
  {
    hide Tree, SubBits, Pow2, Value, Piece, Under;
    var p := x.place[c];
    var v, q := Piece(p, i, s), Pad(x.width, u);
    PieceRun(x.width, p, i, s);
    var _ := Owner(x, c, u);
    UnderBelow(x, p, u);
    assert v[..|p|] == p;
    InRun(x.width, |p|, v, Pad(x.width, v), |p| + SubBits(|p|), i, Pow2(SubBits(|p|) - s), q);
    if v <= q {
      PrefixChain(v, u, q);
    }
  }

  lemma UnderBelow(x: Ctx, p: Bits, u: Bits)
    requires Under(x, p, u)
    ensures p < u && exists c :: c in x.place && CandidateOf(x, c, u)
  {
  }

  ghost predicate EmptyGroup(subs: seq<Option<Id>>, i: nat, run: nat) {
    forall e: nat :: i <= e < i + run ==> Nth(subs, e) == None
  }

  /** A block below c that meets piece v shows up in v's entries. */
  lemma MeetsGroup(x: Ctx, c: Id, i: nat, s: nat, d: Id)
    requires Usable(x) && c in x.place && |x.place[c]| + SubBits(|x.place[c]|) <= x.width &&
      1 <= s <= SubBits(|x.place[c]|)
    requires i < Pow2(SubBits(|x.place[c]|)) && i % Pow2(SubBits(|x.place[c]|) - s) == 0
    requires d in x.place && x.place[c] < x.place[d] && c in x.shapes
    requires Piece(x.place[c], i, s) <= x.place[d] || x.place[d] <= Piece(x.place[c], i, s)
    ensures !EmptyGroup(x.shapes[c].subs, i, Pow2(SubBits(|x.place[c]|) - s))
  {
    hide SubBits, Pow2, Value, Piece, Tree, Entry, EmptyGroup;
    var p, n := x.place[c], |x.place[c]|;
    var v := Piece(p, i, s);
    PieceRun(x.width, p, i, s);
    WidthOf(x.width, x.root, x.shapes, x.place);
    var q := if v <= x.place[d] then Pad(x.width, x.place[d]) else Pad(x.width, v);
    assert v <= q && Covers(x.width, x.place[d], q);
    Cover(x.width, x.root, x.shapes, x.place, c, d, q);
    assert v[..n] == p;
    InRun(x.width, n, v, Pad(x.width, v), n + SubBits(n), i, Pow2(SubBits(n) - s), q);
    BitsAre(x, c);
    SeenAt(x.shapes, c, q, i, Pow2(SubBits(n) - s));
  }

  lemma BitsAre(x: Ctx, c: Id)
    requires Usable(x) && c in x.place
    ensures c in x.shapes && x.shapes[c].bits == |x.place[c]| <= x.width
    ensures |x.place[c]| < x.width ==> |x.place[c]| + SubBits(|x.place[c]|) <= x.width
    ensures |x.shapes[c].subs| <= Pow2(SubBits(|x.place[c]|))
  {
    hide DownLinks, UpLinks, SubBits, Pow2;
    if |x.place[c]| < x.width {
      FieldFits(x.width / 8, |x.place[c]|);
    }
  }

  lemma SeenAt(shapes: map<Id, Shape>, c: Id, q: Bits, i: nat, run: nat)
    requires c in shapes && shapes[c].bits + SubBits(shapes[c].bits) <= |q|
    requires i <= Value(q[shapes[c].bits .. shapes[c].bits + SubBits(shapes[c].bits)]) < i + run
    requires Entry(shapes, c, q).Some?
    ensures !EmptyGroup(shapes[c].subs, i, run)
  {
    hide Value, SubBits;
  }

  /** The search stands at entries i .. i + run of open block c, which together are one piece of s more bits. */
  ghost predicate Group(x: Ctx, c: Id, i: nat, s: nat, run: nat) {
    && Usable(x) && Open(x, c) && c in x.shapes && |x.place[c]| < x.want
    && |x.place[c]| + SubBits(|x.place[c]|) <= x.width
    && |x.place[c]| + s == PieceBits(|x.place[c]|, x.want) && 1 <= s <= SubBits(|x.place[c]|)
    && run == Pow2(SubBits(|x.place[c]|) - s)
    && i < Pow2(SubBits(|x.place[c]|)) && i % run == 0
  }

  /** An empty group is a candidate, and the only one there. */
  lemma EmptyIsCandidate(x: Ctx, c: Id, i: nat, s: nat, run: nat)
    requires Group(x, c, i, s, run) && EmptyGroup(x.shapes[c].subs, i, run)
    ensures Under(x, x.place[c], Piece(x.place[c], i, s))
    ensures forall u :: Under(x, x.place[c], u) && Piece(x.place[c], i, s) <= u ==> u == Piece(x.place[c], i, s)
  {
    hide Usable, EmptyGroup, SubBits, Pow2, Piece;
    var p := x.place[c];
    var v := Piece(p, i, s);
    PieceRun(x.width, p, i, s);
    forall d | d in x.place && p < x.place[d]
      ensures !(v <= x.place[d]) && !(x.place[d] <= v)
    {
      if v <= x.place[d] || x.place[d] <= v {
        MeetsGroup(x, c, i, s, d);
      }
    }
    assert CandidateOf(x, c, v);
    forall u | Under(x, p, u) && v <= u
      ensures u == v
    {
      var c' := Owner(x, c, u);
      PrefixChain(v, x.place[c'], u);
      PrefixChain(x.place[c'], v, u);
      assert !(p < x.place[c']);
    }
  }

  /** An occupied entry of the group leads to a block that meets the group's piece. */
  lemma EntryBlock(x: Ctx, c: Id, i: nat, s: nat, run: nat, j: nat) returns (o: Id, q: Bits)
    requires Group(x, c, i, s, run) && j < run && Nth(x.shapes[c].subs, i + j).Some?
    ensures Nth(x.shapes[c].subs, i + j) == Some(o) && Piece(x.place[c], i, s) <= q && |q| == x.width
    ensures Entry(x.shapes, c, q) == Some(o) && IsSub(x.shapes, x.place, c, q, o)
    ensures x.place[o] <= Piece(x.place[c], i, s) || Piece(x.place[c], i, s) <= x.place[o]
  {
    hide SubBits, Pow2, Piece, UpLinks, Value;
    var p, n := x.place[c], |x.place[c]|;
    var v := Piece(p, i, s);
    o := Nth(x.shapes[c].subs, i + j).value;
    PieceRun(x.width, p, i, s);
    q := RunEntry(x.width, n, v, Pad(x.width, v), n + SubBits(n), i, run, j);
    BitsAre(x, c);
    assert Covers(x.width, p, q);
    assert Entry(x.shapes, c, q) == Some(o);
    PrefixChain(x.place[o], v, q);
    PrefixChain(v, x.place[o], q);
  }

  /** A candidate owned by a block strictly below c is reached through an unmarked entry of c on the next boundary. */
  lemma Through(x: Ctx, c: Id, u: Bits, c': Id) returns (o: Id)
    requires Usable(x) && Open(x, c) && CandidateOf(x, c', u) && x.place[c] < x.place[c'] && |u| <= x.width
    requires c in x.shapes
    ensures Entry(x.shapes, c, Pad(x.width, u)) == Some(o) && o in x.place && o !in x.marked
    ensures x.place[c] < x.place[o] <= x.place[c']
    ensures |x.place[o]| == |x.place[c]| + SubBits(|x.place[c]|)
  {
    hide Tree, Entry, Value, Pow2;
    var q := Pad(x.width, u);
    assert x.place[c'] <= u <= q;
    Cover(x.width, x.root, x.shapes, x.place, c, c', q);
    o := Entry(x.shapes, c, q).value;
    assert x.base < x.place[o];
    NextBoundary(|x.place[c]|, |x.place[o]|);
  }

  lemma NextBoundary(n: nat, m: nat)
    requires n < m <= n + SubBits(n) && m % NSHIFT == 0
    ensures m == n + SubBits(n)
  {
  }

  /** The piece of an occupied group is not a candidate of its block. */
  lemma OccupiedPiece(x: Ctx, c: Id, i: nat, s: nat, run: nat, j: nat)
    requires Group(x, c, i, s, run) && j < run && Nth(x.shapes[c].subs, i + j).Some?
    ensures !CandidateOf(x, c, Piece(x.place[c], i, s))
  {
    hide SubBits, Pow2, Piece, Usable, Entry;
    var o, q := EntryBlock(x, c, i, s, run, j);
  }

  /** Where entries are no larger than the wanted size, an occupied group holds no candidate. */
  lemma FullGroup(x: Ctx, c: Id, i: nat, s: nat, run: nat, j: nat, u: Bits)
    requires Group(x, c, i, s, run) && j < run && Nth(x.shapes[c].subs, i + j).Some?
    requires |x.place[c]| + s == x.want
    ensures !(Under(x, x.place[c], u) && Piece(x.place[c], i, s) <= u)
  {
    hide Usable, Pow2, Piece, Entry;
    var v := Piece(x.place[c], i, s);
    PieceRun(x.width, x.place[c], i, s);
    OccupiedPiece(x, c, i, s, run, j);
    if Under(x, x.place[c], u) && v <= u {
      var c' := Owner(x, c, u);
      assert |u| <= x.want;
      assert u == v;
      assert x.place[c] < x.place[c'];
      WantFits(x);
      var o := Through(x, c, u, c');
      assert false;
    }
  }

  lemma WantFits(x: Ctx)
    requires Usable(x)
    ensures |x.base| < x.want < x.width
  {
    hide Tree;
  }

  /** A candidate extending an occupied single entry lies below that entry's block, which is unmarked. */
  lemma EntryCandidate(x: Ctx, c: Id, i: nat, s: nat, o: Id, u: Bits)
    requires Group(x, c, i, s, 1) && Nth(x.shapes[c].subs, i) == Some(o) && |x.place[c]| + s < x.want
    requires Under(x, x.place[c], u) && Piece(x.place[c], i, s) <= u
    ensures o in x.place && o !in x.marked && x.place[o] == Piece(x.place[c], i, s) < u
  {
    hide Usable, Pow2, Piece, Entry, Value;
    var v := Piece(x.place[c], i, s);
    PieceRun(x.width, x.place[c], i, s);
    OccupiedPiece(x, c, i, s, 1, 0);
    var c' := Owner(x, c, u);
    WantFits(x);
    assert x.place[c] < x.place[c'] by {
      if x.place[c'] == x.place[c] {
        PrefixChain(u, v, u);
        assert u == v;
        SameOwner(x, c, c');
        assert false;
      }
    }
    var o' := Through(x, c, u, c');
    EntryAt(x, c, i, s, u);
    PrefixChain(x.place[o'], v, u);
  }

  lemma SameOwner(x: Ctx, c: Id, c': Id)
    requires Usable(x) && c in x.place && c' in x.place && x.place[c] == x.place[c']
    ensures c == c'
  {
    hide Tree;
    SamePlace(x.width, x.root, x.shapes, x.place, c, c');
  }

  /** The entry of an address inside a one-entry group is that entry. */
  lemma EntryAt(x: Ctx, c: Id, i: nat, s: nat, u: Bits)
    requires Group(x, c, i, s, 1) && Piece(x.place[c], i, s) <= u && |u| <= x.width
    ensures Entry(x.shapes, c, Pad(x.width, u)) == Nth(x.shapes[c].subs, i)
  {
    hide Pow2, Piece, Value, Tree, SubBits, Entry, PieceBits;
    var p, n := x.place[c], |x.place[c]|;
    var v := Piece(p, i, s);
    PieceRun(x.width, p, i, s);
    BitsAre(x, c);
    assert v[..n] == p;
    assert p <= v <= u <= Pad(x.width, u);
    InRun(x.width, n, v, Pad(x.width, v), n + SubBits(n), i, 1, Pad(x.width, u));
    EntryNumbered(x.shapes, c, Pad(x.width, u), i);
  }

  lemma EntryNumbered(shapes: map<Id, Shape>, c: Id, q: Bits, i: nat)
    requires c in shapes && shapes[c].bits + SubBits(shapes[c].bits) <= |q|
    requires Value(q[shapes[c].bits .. shapes[c].bits + SubBits(shapes[c].bits)]) == i
    ensures Entry(shapes, c, q) == Nth(shapes[c].subs, i)
  {
    hide Value, SubBits;
  }

  /** An unmarked sub-block covers exactly its entry's piece, is open, and its candidates are those of the entry. */
  lemma EntryOpen(x: Ctx, c: Id, i: nat, s: nat, o: Id)
    requires Group(x, c, i, s, 1) && Nth(x.shapes[c].subs, i) == Some(o) && |x.place[c]| + s < x.want
    requires o !in x.marked
    ensures o in x.place && x.place[o] == Piece(x.place[c], i, s) && Open(x, o)
  {
    hide Tree, Pow2, Piece, Entry, Value;
    var v := Piece(x.place[c], i, s);
    PieceRun(x.width, x.place[c], i, s);
    var o', q := EntryBlock(x, c, i, s, 1, 0);
    NextBoundary(|x.place[c]|, |x.place[o]|);
    PrefixChain(x.place[o], v, q);
    forall d | d in x.place && x.base < x.place[d] <= x.place[o]
      ensures d !in x.marked
    {
      PrefixChain(x.place[c], x.place[d], x.place[o]);
      PrefixChain(x.place[d], x.place[c], x.place[o]);
      if x.place[c] < x.place[d] {
        OnTheWay(x, c, o, d, q);
      }
    }
  }

  lemma OnTheWay(x: Ctx, c: Id, o: Id, d: Id, q: Bits)
    requires Usable(x) && c in x.shapes && c in x.place && o in x.place && d in x.place
    requires Entry(x.shapes, c, q) == Some(o) && x.place[o] <= q && |q| == x.width
    requires x.place[c] < x.place[d] <= x.place[o]
    ensures d == o
  {
    hide Tree, Entry;
    Cover(x.width, x.root, x.shapes, x.place, c, d, q);
    PrefixChain(x.place[o], x.place[d], q);
    SamePlace(x.width, x.root, x.shapes, x.place, d, o);
  }
}
