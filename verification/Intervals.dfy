/**
 Sorted lists of integer intervals that neither overlap nor touch, and what adding or removing one
 integer makes of them.
 */
module Intervals {
  datatype Interval = Interval(lo: int, hi: int)

  /** Sorted, disjoint, and with a gap between neighbours. */
  ghost predicate Normal(s: seq<Interval>) {
    && (forall i :: 0 <= i < |s| ==> s[i].lo <= s[i].hi)
    && (forall i, j :: 0 <= i < j < |s| ==> s[i].hi + 1 < s[j].lo)
  }

  ghost predicate Has(s: seq<Interval>, n: int) {
    exists i :: 0 <= i < |s| && s[i].lo <= n <= s[i].hi
  }

  ghost predicate Adds(s: seq<Interval>, s': seq<Interval>, n: int) {
    && Normal(s')
    && (forall m :: Has(s', m) <==> Has(s, m) || m == n)
  }

  ghost predicate Drops(s: seq<Interval>, s': seq<Interval>, n: int) {
    && Normal(s')
    && (forall m :: Has(s', m) <==> Has(s, m) && m != n)
  }

  function Insert(s: seq<Interval>, g: nat, v: Interval): seq<Interval>
    requires g <= |s|
  {
    s[..g] + [v] + s[g..]
  }

  function Remove(s: seq<Interval>, g: nat): seq<Interval>
    requires g < |s|
  {
    s[..g] + s[g + 1..]
  }

  lemma HasConcat(a: seq<Interval>, b: seq<Interval>, m: int)
    ensures Has(a + b, m) <==> Has(a, m) || Has(b, m)
  {
    if i :| 0 <= i < |a| && a[i].lo <= m <= a[i].hi { assert (a + b)[i] == a[i]; }
    if i :| 0 <= i < |b| && b[i].lo <= m <= b[i].hi { assert (a + b)[|a| + i] == b[i]; }
  }

  /** Everything in a lies below everything in b, with a gap. */
  ghost predicate Apart(a: seq<Interval>, b: seq<Interval>) {
    forall i, j :: 0 <= i < |a| && 0 <= j < |b| ==> a[i].hi + 1 < b[j].lo
  }

  lemma NormalConcat(a: seq<Interval>, b: seq<Interval>)
    ensures Normal(a + b) <==> Normal(a) && Normal(b) && Apart(a, b)
  {
    var s := a + b;
    assert forall i :: 0 <= i < |a| ==> s[i] == a[i];
    assert forall i :: 0 <= i < |b| ==> s[|a| + i] == b[i];
    if Normal(s) {
      forall i, j | 0 <= i < |a| && 0 <= j < |b|
        ensures a[i].hi + 1 < b[j].lo
      {
        assert s[i].hi + 1 < s[|a| + j].lo;
      }
      forall i, j | 0 <= i < j < |b|
        ensures b[i].hi + 1 < b[j].lo
      {
        assert s[|a| + i].hi + 1 < s[|a| + j].lo;
      }
    }
  }

  lemma ApartConcat(a: seq<Interval>, b: seq<Interval>, c: seq<Interval>)
    ensures Apart(a + b, c) <==> Apart(a, c) && Apart(b, c)
  {
    assert forall i :: 0 <= i < |a| ==> (a + b)[i] == a[i];
    assert forall i :: 0 <= i < |b| ==> (a + b)[|a| + i] == b[i];
  }

  /** Replacing the intervals x between a and b by y. */
  lemma Edit(a: seq<Interval>, x: seq<Interval>, y: seq<Interval>, b: seq<Interval>)
    requires Normal(a + x + b) && Normal(y) && Apart(a, y) && Apart(y, b)
    ensures Normal(a + y + b)
    ensures forall m :: Has(a + x + b, m) <==> Has(a, m) || Has(x, m) || Has(b, m)
    ensures forall m :: Has(a + y + b, m) <==> Has(a, m) || Has(y, m) || Has(b, m)
  {
    hide Normal, Has, Apart;
    NormalConcat(a + x, b);
    NormalConcat(a, x);
    NormalConcat(a, y);
    ApartConcat(a, x, b);
    ApartConcat(a, y, b);
    NormalConcat(a + y, b);
    forall m
      ensures Has(a + x + b, m) <==> Has(a, m) || Has(x, m) || Has(b, m)
      ensures Has(a + y + b, m) <==> Has(a, m) || Has(y, m) || Has(b, m)
    {
      HasConcat(a + x, b, m);
      HasConcat(a, x, m);
      HasConcat(a + y, b, m);
      HasConcat(a, y, m);
    }
  }

  lemma Added(a: seq<Interval>, x: seq<Interval>, y: seq<Interval>, b: seq<Interval>, n: int)
    requires Normal(a + x + b) && Normal(y) && Apart(a, y) && Apart(y, b)
    requires forall m :: Has(y, m) <==> Has(x, m) || m == n
    ensures Adds(a + x + b, a + y + b, n)
  {
    hide Normal, Has, Apart;
    Edit(a, x, y, b);
  }

  lemma Dropped(a: seq<Interval>, x: seq<Interval>, y: seq<Interval>, b: seq<Interval>, n: int)
    requires Normal(a + x + b) && Normal(y) && Apart(a, y) && Apart(y, b) && Has(x, n)
    requires forall m :: Has(y, m) <==> Has(x, m) && m != n
    ensures Drops(a + x + b, a + y + b, n)
  {
    hide Normal, Has, Apart;
    Edit(a, x, y, b);
    NormalConcat(a + x, b);
    NormalConcat(a, x);
    ApartConcat(a, x, b);
    Separate(a, x, n);
    Separate(x, b, n);
  }

  lemma Separate(a: seq<Interval>, b: seq<Interval>, n: int)
    requires Apart(a, b) && Normal(a) && Normal(b)
    ensures !(Has(a, n) && Has(b, n))
  {
  }

  lemma HasOne(v: Interval, m: int)
    ensures Has([v], m) <==> v.lo <= m <= v.hi
  {
    assert [v][0] == v;
  }

  lemma HasTwo(v: Interval, w: Interval, m: int)
    ensures Has([v, w], m) <==> v.lo <= m <= v.hi || w.lo <= m <= w.hi
  {
    assert [v, w] == [v] + [w];
    HasConcat([v], [w], m);
    HasOne(v, m);
    HasOne(w, m);
  }

  lemma HasNone(m: int)
    ensures !Has([], m)
  {
  }

  /** The parts of a list before index i and from index j on, as bounds on what may stand between. */
  lemma Sides(s: seq<Interval>, i: nat, j: nat, y: seq<Interval>)
    requires Normal(s) && i <= j <= |s|
    requires forall e :: 0 <= e < |y| && i > 0 ==> s[i - 1].hi + 1 < y[e].lo
    requires forall e :: 0 <= e < |y| && j < |s| ==> y[e].hi + 1 < s[j].lo
    ensures Apart(s[..i], y) && Apart(y, s[j..])
    ensures s == s[..i] + s[i..j] + s[j..]
  {
    assert forall e :: 0 <= e < |s| - j ==> s[j..][e] == s[j + e];
  }

  /** n extends interval g upwards and touches nothing above. */
  lemma GrowUp(s: seq<Interval>, g: nat, n: int)
    requires Normal(s) && g < |s| && n == s[g].hi + 1 && (g + 1 < |s| ==> n + 1 < s[g + 1].lo)
    ensures Adds(s, s[g := Interval(s[g].lo, n)], n)
  {
    var v := Interval(s[g].lo, n);
    Sides(s, g, g + 1, [v]);
    hide Has, Apart;
    forall m
      ensures Has([v], m) <==> Has([s[g]], m) || m == n
    {
      HasOne(v, m);
      HasOne(s[g], m);
    }
    assert s[g..g + 1] == [s[g]];
    Added(s[..g], [s[g]], [v], s[g + 1..], n);
    assert s[g := v] == s[..g] + [v] + s[g + 1..];
  }

  /** n extends interval g downwards and touches nothing below. */
  lemma GrowDown(s: seq<Interval>, g: nat, n: int)
    requires Normal(s) && g < |s| && n == s[g].lo - 1 && (g > 0 ==> s[g - 1].hi + 1 < n)
    ensures Adds(s, s[g := Interval(n, s[g].hi)], n)
  {
    var v := Interval(n, s[g].hi);
    Sides(s, g, g + 1, [v]);
    hide Has, Apart;
    forall m
      ensures Has([v], m) <==> Has([s[g]], m) || m == n
    {
      HasOne(v, m);
      HasOne(s[g], m);
    }
    assert s[g..g + 1] == [s[g]];
    Added(s[..g], [s[g]], [v], s[g + 1..], n);
    assert s[g := v] == s[..g] + [v] + s[g + 1..];
  }

  /** n stands alone between intervals g - 1 and g. */
  lemma Alone(s: seq<Interval>, g: nat, n: int)
    requires Normal(s) && g <= |s| && (g > 0 ==> s[g - 1].hi + 1 < n) && (g < |s| ==> n + 1 < s[g].lo)
    ensures Adds(s, Insert(s, g, Interval(n, n)), n)
  {
    var v := Interval(n, n);
    Sides(s, g, g, [v]);
    hide Has, Apart;
    forall m
      ensures Has([v], m) <==> Has([], m) || m == n
    {
      HasOne(v, m);
      HasNone(m);
    }
    assert s[g..g] == [];
    Added(s[..g], [], [v], s[g..], n);
  }

  /** n closes the gap between intervals g and g + 1. */
  lemma Join(s: seq<Interval>, g: nat, n: int)
    requires Normal(s) && g + 1 < |s| && n == s[g].hi + 1 == s[g + 1].lo - 1
    ensures Adds(s, Remove(s, g)[g := Interval(s[g].lo, s[g + 1].hi)], n)
    ensures Adds(s, Remove(s, g + 1)[g := Interval(s[g].lo, s[g + 1].hi)], n)
  {
    var v := Interval(s[g].lo, s[g + 1].hi);
    JoinSides(s, g, v);
    hide Has, Apart;
    forall m
      ensures Has([v], m) <==> Has([s[g], s[g + 1]], m) || m == n
    {
      HasOne(v, m);
      HasTwo(s[g], s[g + 1], m);
    }
    Added(s[..g], [s[g], s[g + 1]], [v], s[g + 2..], n);
    assert Remove(s, g)[g := v] == s[..g] + [v] + s[g + 2..];
    assert Remove(s, g + 1)[g := v] == s[..g] + [v] + s[g + 2..];
  }

  lemma JoinSides(s: seq<Interval>, g: nat, v: Interval)
    requires Normal(s) && g + 1 < |s| && v == Interval(s[g].lo, s[g + 1].hi)
    ensures Apart(s[..g], [v]) && Apart([v], s[g + 2..]) && Normal([v])
    ensures s == s[..g] + [s[g], s[g + 1]] + s[g + 2..]
  {
    Sides(s, g, g + 2, [v]);
    assert s[g..g + 2] == [s[g], s[g + 1]];
    assert s[g].hi + 1 < s[g + 1].lo;
  }

  lemma DropAlone(s: seq<Interval>, g: nat, n: int)
    requires Normal(s) && g < |s| && s[g] == Interval(n, n)
    ensures Drops(s, Remove(s, g), n)
  {
    Sides(s, g, g + 1, []);
    hide Has, Apart;
    forall m
      ensures Has([], m) <==> Has([s[g]], m) && m != n
    {
      HasOne(s[g], m);
      HasNone(m);
    }
    assert s[g..g + 1] == [s[g]];
    HasOne(s[g], n);
    Dropped(s[..g], [s[g]], [], s[g + 1..], n);
    assert Remove(s, g) == s[..g] + [] + s[g + 1..];
  }

  /** Removing an end of an interval. */
  lemma DropEnd(s: seq<Interval>, g: nat, n: int, v: Interval)
    requires Normal(s) && g < |s| && s[g].lo < s[g].hi
    requires (n == s[g].lo && v == Interval(n + 1, s[g].hi)) || (n == s[g].hi && v == Interval(s[g].lo, n - 1))
    ensures Drops(s, s[g := v], n)
  {
    Sides(s, g, g + 1, [v]);
    hide Has, Apart;
    forall m
      ensures Has([v], m) <==> Has([s[g]], m) && m != n
    {
      HasOne(v, m);
      HasOne(s[g], m);
    }
    assert s[g..g + 1] == [s[g]];
    HasOne(s[g], n);
    Dropped(s[..g], [s[g]], [v], s[g + 1..], n);
    assert s[g := v] == s[..g] + [v] + s[g + 1..];
  }

  /** Removing an inner integer splits its interval. */
  lemma DropInner(s: seq<Interval>, g: nat, n: int)
    requires Normal(s) && g < |s| && s[g].lo < n < s[g].hi
    ensures Drops(s, Insert(s[g := Interval(s[g].lo, n - 1)], g + 1, Interval(n + 1, s[g].hi)), n)
  {
    var v, w := Interval(s[g].lo, n - 1), Interval(n + 1, s[g].hi);
    Sides(s, g, g + 1, [v, w]);
    assert Normal([v, w]);
    hide Has, Apart, Normal;
    forall m
      ensures Has([v, w], m) <==> Has([s[g]], m) && m != n
    {
      HasTwo(v, w, m);
      HasOne(s[g], m);
    }
    assert s[g..g + 1] == [s[g]];
    HasOne(s[g], n);
    Dropped(s[..g], [s[g]], [v, w], s[g + 1..], n);
    assert Insert(s[g := v], g + 1, w) == s[..g] + [v, w] + s[g + 1..];
  }

  /** The list is determined by the integers it stands for. */
  lemma {:induction false} Canonical(s: seq<Interval>, t: seq<Interval>)
    requires Normal(s) && Normal(t) && forall m :: Has(s, m) <==> Has(t, m)
    ensures s == t
    decreases |s|
  {
    if s == [] || t == [] {
      if s != [] { assert s[0].lo <= s[0].lo <= s[0].hi; assert Has(s, s[0].lo); }
      if t != [] { assert t[0].lo <= t[0].lo <= t[0].hi; assert Has(t, t[0].lo); }
    } else {
      SameFirst(s, t);
      SameFirst(t, s);
      forall m
        ensures Has(s[1..], m) <==> Has(t[1..], m)
      {
        Tail(s, m);
        Tail(t, m);
      }
      Canonical(s[1..], t[1..]);
      assert s == [s[0]] + s[1..] && t == [t[0]] + t[1..];
    }
  }

  lemma Tail(s: seq<Interval>, m: int)
    requires Normal(s) && s != []
    ensures Has(s[1..], m) <==> Has(s, m) && m > s[0].hi
  {
    if i :| 0 <= i < |s| && s[i].lo <= m <= s[i].hi && m > s[0].hi {
      assert s[1..][i - 1] == s[i];
    }
    if i :| 0 <= i < |s[1..]| && s[1..][i].lo <= m <= s[1..][i].hi {
      assert s[1..][i] == s[i + 1];
    }
  }

  /** Neither list can start lower, nor end its first interval later, than the other. */
  lemma SameFirst(s: seq<Interval>, t: seq<Interval>)
    requires Normal(s) && Normal(t) && s != [] && t != [] && forall m :: Has(s, m) <==> Has(t, m)
    ensures s[0].lo >= t[0].lo
    ensures s[0].lo == t[0].lo ==> s[0].hi <= t[0].hi
  {
    assert s[0].lo <= s[0].lo <= s[0].hi;
    assert Has(s, s[0].lo);
    NextFree(t, 0);
  }

  lemma NextFree(t: seq<Interval>, g: nat)
    requires Normal(t) && g < |t|
    ensures !Has(t, t[g].hi + 1)
  {
  }
}
