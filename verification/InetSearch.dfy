/**
 The search loop of Inet_Auto_Net and what it returns: the best of all candidates, with its
 leading bits in the octet buffer.
 */
module InetSearch {
  import opened Basics
  import opened InetBits
  import opened InetTree
  import opened InetRegions
  import opened InetBuffer
  import opened InetAuto

  /** The entry of the block at p in which u lies. */
  function Where(x: Ctx, p: Bits, u: Bits): nat {
    if |p| + SubBits(|p|) <= x.width && |u| <= x.width then Start(x.width, |p|, u) else 0
  }

  /** The outcome of looking at the candidates in entries lo .. hi, given the best found before. */
  ghost predicate Found(x: Ctx, p: Bits, lo: nat, hi: nat, best: InetBest, bits: nat, r: InetBest, bits': nat,
      v: Bits) {
    if r == NoneBest then
      && bits' == bits
      && (forall u :: Under(x, p, u) && lo <= Where(x, p, u) < hi ==> !Better(Cost(|x.base|, u), best, bits))
    else
      && Under(x, p, v) && lo <= Where(x, p, v) < hi
      && bits' == Cost(|x.base|, v) && r == KindOf(|x.base|, v) && Better(bits', best, bits)
      && (forall u :: Under(x, p, u) && lo <= Where(x, p, u) < hi ==> NoWorse(|x.base|, v, u))
  }

  /** Looking at two ranges of entries one after the other. */
  lemma FoundBoth(x: Ctx, p: Bits, lo: nat, mid: nat, hi: nat, best: InetBest, bits: nat,
      r: InetBest, bits': nat, v: Bits, r': InetBest, bits'': nat, v': Bits)
    requires lo <= mid <= hi && Found(x, p, lo, mid, best, bits, r, bits', v)
    requires Found(x, p, mid, hi, if r == NoneBest then best else r, bits', r', bits'', v')
    ensures if r' == NoneBest then Found(x, p, lo, hi, best, bits, r, bits'', v)
      else Found(x, p, lo, hi, best, bits, r', bits'', v')
  {
    hide Under, Where, Cost, KindOf;
    forall u | Under(x, p, u) && lo <= Where(x, p, u) < hi
      ensures r == NoneBest && r' == NoneBest ==> !Better(Cost(|x.base|, u), best, bits)
      ensures r' == NoneBest && r != NoneBest ==> NoWorse(|x.base|, v, u)
      ensures r' != NoneBest ==> NoWorse(|x.base|, v', u)
    {
      Ranked(|x.base|, u);
    }
  }

  lemma Ranked(base: nat, u: Bits)
    ensures KindOf(base, u) == ZeroBest || KindOf(base, u) == OtherBest
  {
  }

  /** What the buffer holds afterwards: v's bits from bit n on, if something was found. */
  ghost predicate Written(was: Bits, now: Bits, n: nat, r: InetBest, v: Bits) {
    if r == NoneBest then now == was
    else |now| == |was| && n <= |v| <= |now| && now[..n] == was[..n] && now[n..|v|] == v[n..]
  }

  /** The first occupied entry among i .. i + run. */
  method FirstOccupied(subs: seq<Option<Id>>, i: nat, run: nat) returns (o: Option<Id>, ghost j: nat)
    ensures o == None ==> EmptyGroup(subs, i, run)
    ensures o.Some? ==> j < run && Nth(subs, i + j) == o && EmptyGroup(subs, i, j)
  {
    o, j := None, 0;
    var e := 0;
    while e < run
      invariant e <= run && EmptyGroup(subs, i, e)
    {
      o := Nth(subs, i + e);
      if o != None {
        j := e;
        return;
      }
      e := e + 1;
    }
    o := None;
  }

  lemma PieceLeft(base: nat, width: nat, p: Bits, i: nat, s: nat)
    requires base <= |p| && 1 <= s <= SubBits(|p|) && |p| + SubBits(|p|) <= width
    requires i < Pow2(SubBits(|p|)) && i % Pow2(SubBits(|p|) - s) == 0
    ensures |Piece(p, i, s)| == |p| + s
    ensures i == 0 ==> Left(base, Piece(p, i, s)) == Left(base, p)
    ensures i > 0 ==>
      i < 16 && RightZero(i) < SubBits(|p|) && Left(base, Piece(p, i, s)) == |p| + SubBits(|p|) - RightZero(i)
  {
    hide Pow2, Left, FromValue, Value, RightZero;
    PieceRun(width, p, i, s);
    var w := FromValue(i, SubBits(|p|));
    LeftOfIndex(base, p, i, SubBits(|p|));
    LeftOfPiece(base, p, w, s);
  }

  /** Candidates of a group: all of them, and only they, extend the group's piece. */
  lemma GroupMembers(x: Ctx, c: Id, i: nat, s: nat, run: nat, u: Bits)
    requires Group(x, c, i, s, run) && Under(x, x.place[c], u)
    ensures |u| <= x.want < x.width
    ensures Piece(x.place[c], i, s) <= u <==> i <= Where(x, x.place[c], u) < i + run
  {
    hide Usable, Pow2, SubBits, Piece;
    var _ := Owner(x, c, u);
    WantFits(x);
    InGroup(x, c, i, s, u);
  }

  /** An empty group: its one candidate is the piece itself. */
  lemma TakeEmpty(x: Ctx, c: Id, i: nat, s: nat, run: nat, best: InetBest, bits: nat)
    requires Group(x, c, i, s, run) && EmptyGroup(x.shapes[c].subs, i, run)
    ensures var v := Piece(x.place[c], i, s); var cost := Cost(|x.base|, v);
      if Better(cost, best, bits) then Found(x, x.place[c], i, i + run, best, bits, KindOf(|x.base|, v), cost, v)
      else Found(x, x.place[c], i, i + run, best, bits, NoneBest, bits, v)
  {
    hide Usable, Pow2, SubBits, Piece, Cost, KindOf, EmptyGroup, Under, Where, Group, Better;
    var p := GroupPlace(x, c, i, s, run);
    var v := Piece(p, i, s);
    EmptyIsCandidate(x, c, i, s, run);
    Ranked(|x.base|, v);
    forall u | Under(x, p, u)
      ensures i <= Where(x, p, u) < i + run <==> u == v
    {
      GroupMembers(x, c, i, s, run, u);
    }
  }

  lemma GroupPlace(x: Ctx, c: Id, i: nat, s: nat, run: nat) returns (p: Bits)
    requires Group(x, c, i, s, run)
    ensures Usable(x) && c in x.place && p == x.place[c] && x.base <= p && |p| < x.want && c in x.shapes
    ensures |p| + SubBits(|p|) <= x.width && 1 <= s <= SubBits(|p|) && i < Pow2(SubBits(|p|)) &&
      run == Pow2(SubBits(|p|) - s)
    ensures i % Pow2(SubBits(|p|) - s) == 0 && |p| + s == PieceBits(|p|, x.want)
  {
    hide Usable;
    p := x.place[c];
  }

  /** A group whose entries must be passed over holds no candidate. */
  lemma SkipGroup(x: Ctx, c: Id, i: nat, s: nat, run: nat, j: nat, best: InetBest, bits: nat, v: Bits)
    requires Group(x, c, i, s, run) && j < run && Nth(x.shapes[c].subs, i + j).Some?
    requires |x.place[c]| + s == x.want || (run == 1 && j == 0 && Nth(x.shapes[c].subs, i).value in x.marked)
    ensures Found(x, x.place[c], i, i + run, best, bits, NoneBest, bits, v)
  {
    hide Usable, Pow2, SubBits, Piece, Cost, KindOf, Where, Group, Better, Under;
    var p := GroupPlace(x, c, i, s, run);
    PieceBitsGrow(|p|, |p|, x.want);
    forall u | Under(x, p, u)
      ensures !(i <= Where(x, p, u) < i + run)
    {
      GroupMembers(x, c, i, s, run, u);
      if |p| + s == x.want {
        FullGroup(x, c, i, s, run, j, u);
      } else if Piece(p, i, s) <= u {
        EntryCandidate(x, c, i, s, Nth(x.shapes[c].subs, i).value, u);
        assert false;
      }
    }
  }

  /** The candidates below an unmarked sub-block are those of its entry. */
  lemma SubMembers(x: Ctx, c: Id, i: nat, s: nat, o: Id, u: Bits)
    requires Group(x, c, i, s, 1) && Nth(x.shapes[c].subs, i) == Some(o) && |x.place[c]| + s < x.want && o !in x.marked
    ensures o in x.place
    ensures Under(x, x.place[o], u) <==> Under(x, x.place[c], u) && i <= Where(x, x.place[c], u) < i + 1
    ensures Under(x, x.place[o], u) ==> 0 <= Where(x, x.place[o], u) < Pow2(SubBits(|x.place[o]|))
  {
    hide Usable, Pow2, SubBits, Piece, Group, Candidate, Where;
    var p := GroupPlace(x, c, i, s, 1);
    EntryOpen(x, c, i, s, o);
    PieceRun(x.width, p, i, s);
    if Under(x, p, u) {
      GroupMembers(x, c, i, s, 1, u);
      if Piece(p, i, s) <= u {
        EntryCandidate(x, c, i, s, o, u);
      }
    }
    InBlock(x, x.place[o], u);
  }

  lemma InBlock(x: Ctx, p: Bits, u: Bits)
    ensures Where(x, p, u) < Pow2(SubBits(|p|))
  {
    hide Pow2, SubBits;
    PowPositive(SubBits(|p|));
  }

  lemma PowPositive(k: nat)
    ensures Pow2(k) > 0
  {
  }

  lemma TakeSub(x: Ctx, c: Id, i: nat, s: nat, o: Id, best: InetBest, bits: nat, r: InetBest, bits': nat, v: Bits)
    requires Group(x, c, i, s, 1) && Nth(x.shapes[c].subs, i) == Some(o) && |x.place[c]| + s < x.want && o !in x.marked
    requires o in x.place && Found(x, x.place[o], 0, Pow2(SubBits(|x.place[o]|)), best, bits, r, bits', v)
    ensures Found(x, x.place[c], i, i + 1, best, bits, r, bits', v)
  {
    hide Usable, Pow2, SubBits, Piece, Cost, KindOf, Where, Group, Better, Under;
    var p := GroupPlace(x, c, i, s, 1);
    SubMembers(x, c, i, s, o, v);
    forall u | Under(x, p, u) && i <= Where(x, p, u) < i + 1
      ensures Under(x, x.place[o], u) && 0 <= Where(x, x.place[o], u) < Pow2(SubBits(|x.place[o]|))
    {
      SubMembers(x, c, i, s, o, u);
    }
  }

  /** A block met again in a later entry fills several entries, so it is off the boundary and marked. */
  lemma Repeated(x: Ctx, c: Id, i: nat, e: nat, s: nat, o: Id)
    requires Group(x, c, i, s, 1) && e < i && |x.place[c]| + s < x.want
    requires Nth(x.shapes[c].subs, i) == Some(o) && Nth(x.shapes[c].subs, e) == Some(o)
    ensures o in x.marked
  {
    hide Usable, Pow2, SubBits, Piece;
    if o !in x.marked {
      EntryOpen(x, c, i, s, o);
      assert Group(x, c, e, s, 1);
      EntryOpen(x, c, e, s, o);
      PieceRun(x.width, x.place[c], i, s);
      PieceRun(x.width, x.place[c], e, s);
      assert false;
    }
  }

  /** The groups of a block, when its entries are large enough, are its single entries. */
  lemma SingleEntries(x: Ctx, c: Id, i: nat, s: nat, run: nat)
    requires Group(x, c, i, s, run)
    ensures |x.place[c]| + s <= x.want
    ensures |x.place[c]| + s < x.want ==> run == 1
  {
    hide Usable;
    PieceBitsGrow(|x.place[c]|, |x.place[c]|, x.want);
  }

  /** Storing the piece's index stores the piece. */
  lemma PieceWritten(was: Bits, now: Bits, p: Bits, i: nat, s: nat, r: InetBest)
    requires 1 <= s <= SubBits(|p|) && i < Pow2(SubBits(|p|)) && r != NoneBest
    requires Stored(was, now, |p|, FromValue(i, SubBits(|p|))[..s])
    ensures Written(was, now, |p|, r, Piece(p, i, s))
  {
    hide Pow2, SubBits, FromValue;
    var w := FromValue(i, SubBits(|p|))[..s];
    assert Piece(p, i, s) == p + w;
    assert (p + w)[|p|..] == w;
  }

  /** Storing the index above what the deeper search wrote completes that candidate's bits. */
  lemma SubWritten(was: Bits, mid: Bits, now: Bits, p: Bits, i: nat, s: nat, r: InetBest, v: Bits)
    requires 1 <= s <= SubBits(|p|) && i < Pow2(SubBits(|p|)) && r != NoneBest
    requires Written(was, mid, |p| + s, r, v) && Piece(p, i, s) <= v
    requires Stored(mid, now, |p|, FromValue(i, SubBits(|p|))[..s])
    ensures Written(was, now, |p|, r, v)
  {
    hide Pow2, SubBits, FromValue;
    var w, n := FromValue(i, SubBits(|p|))[..s], |p|;
    assert Piece(p, i, s) == p + w;
    assert v[..n + s] == p + w;
    assert v[n..] == w + v[n + s..];
    assert mid[n + s..|v|] == mid[n + s..][..|v| - n - s];
    assert now[n + s..|v|] == now[n + s..][..|v| - n - s];
    assert now[n..|v|] == now[n..n + s] + now[n + s..|v|];
    assert mid[..n] == mid[..n + s][..n] == was[..n];
  }

  lemma FoundHere(x: Ctx, p: Bits, lo: nat, hi: nat, best: InetBest, bits: nat, r: InetBest, bits': nat, v: Bits)
    requires Found(x, p, lo, hi, best, bits, r, bits', v) && r != NoneBest
    ensures p < v
  {
    hide Cost, KindOf, Better, Where, Candidate;
  }

  /** The data the search reads, as the ghost context sees it. */
  ghost predicate Seen(x: Ctx, shapes: map<Id, Shape>, marked: set<Id>, want: nat, base: nat, octets: nat) {
    x.shapes == shapes && x.marked == marked && x.want == want && |x.base| == base && x.width == 8 * octets
  }

  /** One turn of the search loop. */
  method AutoEntry(ghost x: Ctx, shapes: map<Id, Shape>, marked: set<Id>, want: nat, base: nat, buf: array<Octet>,
      bits: nat,
      block: Id, blockBits: nat, best: InetBest, blockLeft: nat, i: nat, s: nat, run: nat, last: Option<Id>)
    returns (result: InetBest, bits': nat, last': Option<Id>, ghost v: Bits)
    requires Seen(x, shapes, marked, want, base, buf.Length) && Group(x, block, i, s, run)
    requires |x.place[block]| == blockBits && blockLeft == Left(base, x.place[block])
    requires last.Some? ==> exists e :: 0 <= e < i && Nth(shapes[block].subs, e) == last
    modifies buf
    ensures Found(x, x.place[block], i, i + run, best, bits, result, bits', v)
    ensures Written(BitsOf(old(buf[..])), BitsOf(buf[..]), blockBits, result, v)
    ensures last'.Some? ==> last' == last || exists e :: 0 <= e < i + run && Nth(shapes[block].subs, e) == last'
    decreases want - blockBits, 0
  {
    hide Usable, Pow2, SubBits, Piece, Group, Found, BitsOf, Left, RightZero, EmptyGroup;
    ghost var p := GroupPlace(x, block, i, s, run);
    SingleEntries(x, block, i, s, run);
    PieceLeft(base, x.width, p, i, s);
    result, bits', last', v := NoneBest, bits, last, Piece(p, i, s);
    var o, j := FirstOccupied(shapes[block].subs, i, run);
    var left := if i != 0 then blockBits + SubBits(blockBits) - RightZero(i) else blockLeft;
    var cmp := if i == 0 && left == base then blockBits + s else left;
    if o == None {
      TakeEmpty(x, block, i, s, run, best, bits);
      if cmp < bits || best == NoneBest || (best == ZeroBest && cmp == bits) {
        result := if left == base then ZeroBest else OtherBest;
        bits' := cmp;
        SubPrefix(buf, blockBits, s, i);
        PieceWritten(BitsOf(old(buf[..])), BitsOf(buf[..]), p, i, s, result);
      }
    } else if blockBits + s < want {
      if o != last {
        last' := o;
        if o.value !in marked {
          EntryOpen(x, block, i, s, o.value);
          result, bits', v := AutoNet(x, shapes, marked, want, base, buf, bits, o.value, blockBits + s, best, left);
          TakeSub(x, block, i, s, o.value, best, bits, result, bits', v);
          if result != NoneBest {
            FoundHere(x, x.place[o.value], 0, Pow2(SubBits(blockBits + s)), best, bits, result, bits', v);
            ghost var mid := BitsOf(buf[..]);
            SubPrefix(buf, blockBits, s, i);
            SubWritten(BitsOf(old(buf[..])), mid, BitsOf(buf[..]), p, i, s, result, v);
          }
        } else {
          SkipGroup(x, block, i, s, run, j, best, bits, v);
        }
      } else {
        ghost var e :| 0 <= e < i && Nth(shapes[block].subs, e) == last;
        Repeated(x, block, i, e, s, o.value);
        SkipGroup(x, block, i, s, run, j, best, bits, v);
      }
    } else {
      SkipGroup(x, block, i, s, run, j, best, bits, v);
    }
  }

  /** Inet_Auto_Net: the best candidate below a block, if it beats what was found before. */
  method AutoNet(ghost x: Ctx, shapes: map<Id, Shape>, marked: set<Id>, want: nat, base: nat, buf: array<Octet>,
      bits: nat,
      block: Id, blockBits: nat, best: InetBest, blockLeft: nat)
    returns (result: InetBest, bits': nat, ghost v: Bits)
    requires Seen(x, shapes, marked, want, base, buf.Length) && Usable(x) && Open(x, block)
    requires |x.place[block]| == blockBits < want && blockLeft == Left(base, x.place[block])
    modifies buf
    ensures Found(x, x.place[block], 0, Pow2(SubBits(blockBits)), best, bits, result, bits', v)
    ensures Written(BitsOf(old(buf[..])), BitsOf(buf[..]), blockBits, result, v)
    decreases want - blockBits, 1
  {
    hide Usable, Pow2, SubBits, Piece, Found, BitsOf, Left;
    WantFits(x);
    BitsAre(x, block);
    PieceBitsGrow(blockBits, blockBits, want);
    ghost var p := x.place[block];
    var sbits := SubBits(blockBits);
    var count := Pow2(sbits);
    var run := 1;
    if blockBits + sbits > want {
      run := Pow2(blockBits + sbits - want);
      sbits := want - blockBits;
    }
    Groups(blockBits, want, sbits, run);
    Pow2Add(sbits, SubBits(blockBits) - sbits);
    ghost var t := 0;
    var i, last, now := 0, None, best;
    result, bits', v := NoneBest, bits, p;
    assert Found(x, p, 0, 0, best, bits, result, bits', v) by { FoundNone(x, p, best, bits, v); }
    while i < count
      invariant i == t * run && t <= Pow2(sbits)
      invariant now == if result == NoneBest then best else result
      invariant Found(x, p, 0, i, best, bits, result, bits', v)
      invariant Written(BitsOf(old(buf[..])), BitsOf(buf[..]), blockBits, result, v)
      invariant last.Some? ==> exists e :: 0 <= e < i && Nth(shapes[block].subs, e) == last
      decreases Pow2(sbits) - t
    {
      Distribute(t, 1, run);
      GroupStep(i, t, run, Pow2(sbits), count);
      ghost var was := BitsOf(buf[..]);
      var r, b, l, v' := AutoEntry(x, shapes, marked, want, base, buf, bits', block, blockBits, now, blockLeft, i,
        sbits, run, last);
      FoundBoth(x, p, 0, i, i + run, best, bits, result, bits', v, r, b, v');
      WrittenBoth(BitsOf(old(buf[..])), was, BitsOf(buf[..]), blockBits, result, v, r, v');
      bits', last := b, l;
      if r != NoneBest {
        result, now, v := r, r, v';
      }
      i, t := i + run, t + 1;
    }
    Ended(i, t, run, Pow2(sbits), count);
  }

  lemma FoundNone(x: Ctx, p: Bits, best: InetBest, bits: nat, v: Bits)
    ensures Found(x, p, 0, 0, best, bits, NoneBest, bits, v)
  {
    hide Under, Cost, Better, Where;
  }

  lemma WrittenBoth(was: Bits, mid: Bits, now: Bits, n: nat, r: InetBest, v: Bits, r': InetBest, v': Bits)
    requires Written(was, mid, n, r, v) && Written(mid, now, n, r', v')
    ensures if r' == NoneBest then Written(was, now, n, r, v) else Written(was, now, n, r', v')
  {
  }

  lemma Groups(n: nat, want: nat, s: nat, run: nat)
    requires n < want
    requires if n + SubBits(n) > want then s == want - n && run == Pow2(n + SubBits(n) - want)
      else s == SubBits(n) && run == 1
    ensures n + s == PieceBits(n, want) && 1 <= s <= SubBits(n) && run == Pow2(SubBits(n) - s) && run > 0
  {
  }

  lemma GroupStep(i: nat, t: nat, run: nat, groups: nat, count: nat)
    requires i == t * run && count == groups * run && i < count && run > 0
    ensures t < groups && i % run == 0
  {
    ModUnique(i, run, t, 0);
    if t >= groups { FitsMultiple(groups, t + 1, run); Distribute(t, 1, run); }
  }

  lemma Ended(i: nat, t: nat, run: nat, groups: nat, count: nat)
    requires i == t * run && count == groups * run && i >= count && t <= groups
    ensures i == count
  {
    Scale(t, groups, run);
  }

  lemma Scale(t: nat, groups: nat, run: nat)
    requires t <= groups
    ensures t * run <= groups * run
  {
  }

  // What the search is for.

  /**
   An aligned region of the wanted size inside the net, with no block at or below it and no subnet
   or range around it.
   */
  ghost predicate VacantRegion(x: Ctx, w: Bits) {
    && |w| == x.want && x.base < w
    && (forall d :: d in x.place ==> !(w <= x.place[d]))
    && (forall d :: d in x.place && x.base < x.place[d] <= w ==> d !in x.marked)
  }

  /** Whatever follows a candidate's bits, the wanted prefix is a vacant region. */
  lemma CandidateIsVacant(x: Ctx, v: Bits, w: Bits)
    requires Candidate(x, v) && v <= w && |w| == x.want
    ensures VacantRegion(x, w)
  {
    hide SubBits;
    var c :| c in x.place && CandidateOf(x, c, v);
    var p := x.place[c];
    forall d | d in x.place
      ensures !(w <= x.place[d])
      ensures x.base < x.place[d] <= w ==> d !in x.marked
    {
      if x.base < x.place[d] <= w {
        PrefixChain(p, x.place[d], w);
        PrefixChain(x.place[d], p, w);
        PrefixChain(v, x.place[d], w);
        PrefixChain(x.place[d], v, w);
      }
    }
  }

  /** The deepest block around a region. */
  lemma {:induction false} Deepest(x: Ctx, ids: set<Id>, w: Bits, c: Id) returns (e: Id)
    requires c in x.place && x.place[c] <= w
    ensures e in x.place && x.place[c] <= x.place[e] <= w
    ensures forall d :: d in ids && d in x.place && x.place[d] <= w ==> |x.place[d]| <= |x.place[e]|
    decreases ids
  {
    e := c;
    if d :| d in ids {
      e := Deepest(x, ids - {d}, w, c);
      if d in x.place && x.place[d] <= w {
        PrefixChain(x.place[c], x.place[d], w);
        if |x.place[d]| > |x.place[e]| {
          e := d;
        }
      }
    }
  }

  /** Every vacant region lies in a candidate. */
  lemma VacantHasCandidate(x: Ctx, w: Bits, c: Id) returns (v: Bits)
    requires Usable(x) && c in x.place && x.place[c] == x.base && VacantRegion(x, w)
    ensures Candidate(x, v) && v <= w && x.base < v
  {
    hide Tree, SubBits;
    var e := Deepest(x, x.place.Keys, w, c);
    var p := x.place[e];
    assert p < w;
    PieceBitsGrow(|p|, |p|, x.want);
    v := w[..PieceBits(|p|, x.want)];
    assert p < v;
    forall d | d in x.place && p < x.place[d]
      ensures !(v <= x.place[d]) && !(x.place[d] <= v)
    {
      if v <= x.place[d] && |v| != x.want {
        Blocked(x, e, d, v);
      }
    }
    assert CandidateOf(x, e, v);
  }

  /** A block below entry piece v of c means a block between c and v. */
  lemma Blocked(x: Ctx, c: Id, d: Id, v: Bits)
    requires Usable(x) && c in x.place && d in x.place && x.place[c] < v <= x.place[d]
    requires |v| == |x.place[c]| + SubBits(|x.place[c]|)
    ensures exists o :: o in x.place && x.place[c] < x.place[o] <= v
  {
    hide Tree, SubBits, Entry;
    WidthOf(x.width, x.root, x.shapes, x.place);
    var q := Pad(x.width, x.place[d]);
    Cover(x.width, x.root, x.shapes, x.place, c, d, q);
    var o := Entry(x.shapes, c, q).value;
    PrefixChain(x.place[o], v, q);
  }

  /** Piece v, of measure n, is preferred to or as good as piece u of measure m: a blank one only wins by less. */
  ghost predicate Preferred(base: nat, v: Bits, n: nat, u: Bits, m: nat) {
    n < m || (n == m && (Blank(base, v) ==> Blank(base, u)))
  }

  /** The bits begin with a vacant piece of this measure to which no other one is preferred. */
  ghost predicate IsBest(x: Ctx, r: InetBest, bits: nat, now: Bits) {
    && |x.base| < bits <= x.want
    && (exists v :: BestPiece(x, v, bits) && v <= now && r == if Blank(|x.base|, v) then ZeroBest else OtherBest)
    && (forall w, m :: VacantRegion(x, w) && Measures(|x.base|, w, m) ==> bits <= m)
  }

  ghost predicate BestPiece(x: Ctx, v: Bits, bits: nat) {
    && Candidate(x, v) && Measures(|x.base|, v, bits)
    && (forall u, m :: Candidate(x, u) && Measures(|x.base|, u, m) ==> Preferred(|x.base|, v, bits, u, m))
  }

  lemma BestMeans(x: Ctx, v: Bits)
    requires Candidate(x, v) && forall u :: Candidate(x, u) ==> NoWorse(|x.base|, v, u)
    ensures BestPiece(x, v, Cost(|x.base|, v))
    ensures KindOf(|x.base|, v) == if Blank(|x.base|, v) then ZeroBest else OtherBest
  {
    hide Candidate, Cost, KindOf, Measures, Blank;
    Inside(x, v);
    CostMeans(|x.base|, v, Cost(|x.base|, v));
    forall u, m | Candidate(x, u) && Measures(|x.base|, u, m)
      ensures Preferred(|x.base|, v, Cost(|x.base|, v), u, m)
    {
      Inside(x, u);
      CostMeans(|x.base|, u, m);
    }
  }

  /** No vacant region of the wanted size measures less than the best piece. */
  lemma LeastOfRegions(x: Ctx, c: Id, v: Bits, bits: nat, w: Bits, m: nat)
    requires Usable(x) && c in x.place && x.place[c] == x.base && BestPiece(x, v, bits)
    requires VacantRegion(x, w) && Measures(|x.base|, w, m)
    ensures bits <= m
  {
    hide Usable, Candidate, Measures, VacantRegion, Blank;
    var u := VacantHasCandidate(x, w, c);
    CostMeans(|x.base|, u, Cost(|x.base|, u));
    MeasuresGrow(|x.base|, u, Cost(|x.base|, u), w, m);
  }

  /** Nothing found means no candidate, hence no vacant region. */
  lemma NothingFound(x: Ctx, c: Id, bits: nat, bits': nat, v: Bits, w: Bits)
    requires Usable(x) && c in x.place && x.place[c] == x.base
    requires Found(x, x.base, 0, Pow2(SubBits(|x.base|)), NoneBest, bits, NoneBest, bits', v)
    ensures !VacantRegion(x, w)
  {
    hide Usable, Pow2, SubBits, Cost, Where, VacantRegion, Candidate;
    if VacantRegion(x, w) {
      var u := VacantHasCandidate(x, w, c);
      InBlock(x, x.base, u);
    }
  }

  /** What was found at the net's own block is the best of all candidates. */
  lemma BestFound(x: Ctx, c: Id, bits: nat, r: InetBest, bits': nat, v: Bits, now: Bits)
    requires Usable(x) && c in x.place && x.place[c] == x.base && v <= now
    requires Found(x, x.base, 0, Pow2(SubBits(|x.base|)), NoneBest, bits, r, bits', v) && r != NoneBest
    ensures Candidate(x, v) && x.base < v && IsBest(x, r, bits', now)
  {
    hide Usable, Pow2, SubBits, Cost, KindOf, Where, Candidate, NoWorse, VacantRegion, Measures, Blank, BestPiece;
    forall u | Candidate(x, u)
      ensures NoWorse(|x.base|, v, u)
    {
      Inside(x, u);
      InBlock(x, x.base, u);
      assert Under(x, x.base, u);
    }
    BestMeans(x, v);
    BestBounds(x, v, bits');
    forall w, m | VacantRegion(x, w) && Measures(|x.base|, w, m)
      ensures bits' <= m
    {
      LeastOfRegions(x, c, v, bits', w, m);
    }
  }

  lemma BestBounds(x: Ctx, v: Bits, bits: nat)
    requires BestPiece(x, v, bits)
    ensures |x.base| < bits <= x.want
  {
    hide Candidate;
    Inside(x, v);
  }

  lemma CandidateFound(x: Ctx, bits: nat, r: InetBest, bits': nat, v: Bits)
    requires Found(x, x.base, 0, Pow2(SubBits(|x.base|)), NoneBest, bits, r, bits', v) && r != NoneBest
    ensures Candidate(x, v) && x.base < v
  {
    hide Usable, Pow2, SubBits, Cost, KindOf, Where, Candidate, NoWorse;
  }

  lemma Inside(x: Ctx, u: Bits)
    requires Candidate(x, u)
    ensures x.base < u && |u| <= x.want
  {
    hide SubBits;
  }

  lemma SearchMeans(x: Ctx, c: Id, r: InetBest, bits: nat, v: Bits, was: Bits, now: Bits)
    requires Usable(x) && c in x.place && x.place[c] == x.base && x.base <= was && |was| == x.width
    requires Found(x, x.base, 0, Pow2(SubBits(|x.base|)), NoneBest, |x.base|, r, bits, v)
    requires Written(was, now, |x.base|, r, v)
    ensures |now| == x.width > x.want
    ensures r != NoneBest <==> exists w :: VacantRegion(x, w)
    ensures r != NoneBest ==> VacantRegion(x, now[..x.want]) && IsBest(x, r, bits, now[..x.want])
  {
    hide Usable, Pow2, SubBits, Found, VacantRegion, Candidate, IsBest;
    WantFits(x);
    if r == NoneBest {
      forall w
        ensures !VacantRegion(x, w)
      {
        NothingFound(x, c, |x.base|, bits, v, w);
      }
    } else {
      CandidateFound(x, |x.base|, r, bits, v);
      Inside(x, v);
      var n := |x.base|;
      assert v == v[..n] + v[n..] && now[..|v|] == now[..n] + now[n..|v|];
      assert v <= now[..x.want];
      BestFound(x, c, |x.base|, r, bits, v, now[..x.want]);
      CandidateIsVacant(x, v, now[..x.want]);
    }
  }

  lemma AtBase(b: Bits)
    ensures Left(|b|, b) == |b|
  {
  }

  /** A wanted prefix no longer than the net's own has no region inside it. */
  lemma TooLarge(x: Ctx)
    requires x.want <= |x.base|
    ensures !exists w :: VacantRegion(x, w)
  {
  }

  /**
   The search as Inet_Auto_NetCmd starts it at the net's own block. It succeeds exactly when the
   net has a vacant region of the wanted size; the first `want` bits of the buffer then name one,
   whatever abandoned candidates left behind them, and the count is that of the best candidate.
   */
  method AutoSubnet(ghost x: Ctx, shapes: map<Id, Shape>, marked: set<Id>, want: nat, base: nat, buf: array<Octet>,
      block: Id)
    returns (result: InetBest, bits: nat)
    requires Seen(x, shapes, marked, want, base, buf.Length) && Tree(x.width, x.root, x.shapes, x.place) &&
      want < x.width
    requires forall c :: c in x.place && |x.place[c]| % NSHIFT != 0 ==> c in x.marked
    requires block in x.place && x.place[block] == x.base && x.base <= BitsOf(buf[..])
    modifies buf
    ensures result != NoneBest <==> exists w :: VacantRegion(x, w)
    ensures result != NoneBest ==>
      VacantRegion(x, BitsOf(buf[..])[..want]) && IsBest(x, result, bits, BitsOf(buf[..])[..want])
    ensures result == NoneBest ==> BitsOf(buf[..]) == BitsOf(old(buf[..]))
  {
    hide Tree, Pow2, SubBits, Found, BitsOf, Left, VacantRegion, Candidate;
    result, bits := NoneBest, base;
    if want > base {
      ghost var v;
      assert Open(x, block);
      AtBase(x.base);
      result, bits, v := AutoNet(x, shapes, marked, want, base, buf, base, block, base, NoneBest, base);
      SearchMeans(x, block, result, bits, v, BitsOf(old(buf[..])), BitsOf(buf[..]));
    } else {
      TooLarge(x);
    }
  }
}
