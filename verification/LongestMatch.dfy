/**
 The reference against which the block tree is judged: a plain list of networks in the order
 they were entered, searched from end to end for the longest prefix that covers a query.
 */
module LongestMatch {
  import opened Basics
  import opened InetBits
  import opened InetTree

  type Item = int

  datatype Listed = Listed(net: Item, prefix: Bits)

  /** The first-listed network among those with the longest prefix covering q. */
  function Best(l: seq<Listed>, q: Bits): Option<Listed> {
    if l == [] then None
    else
      var r := Best(l[..|l| - 1], q);
      var x := l[|l| - 1];
      if x.prefix <= q && (r.None? || |r.value.prefix| < |x.prefix|) then Some(x) else r
  }

  /** The same, for prefixes strictly shorter than p. */
  function Enclosing(l: seq<Listed>, p: Bits): Option<Listed> {
    if p == [] then None else Best(l, p[..|p| - 1])
  }

  function NetId(o: Option<Listed>): Option<Item> {
    match o case None => None case Some(x) => Some(x.net)
  }

  /** The networks listed with exactly prefix p, in order. */
  function NetsAt(l: seq<Listed>, p: Bits): (r: seq<Item>)
  {
    if l == [] then []
    else
      var x := l[|l| - 1];
      NetsAt(l[..|l| - 1], p) + if x.prefix == p then [x.net] else []
  }

  /** Is a network listed between prefixes lo and hi? */
  ghost predicate Crossed(l: seq<Listed>, lo: Bits, hi: Bits) {
    exists i :: 0 <= i < |l| && lo <= l[i].prefix <= hi
  }

  /** i is the first-listed network with the longest prefix covering q. */
  ghost predicate IsBest(l: seq<Listed>, q: Bits, i: int) {
    && 0 <= i < |l| && l[i].prefix <= q
    && (forall j :: 0 <= j < |l| && l[j].prefix <= q ==> |l[j].prefix| <= |l[i].prefix|)
    && (forall j :: 0 <= j < i && l[j].prefix <= q ==> |l[j].prefix| < |l[i].prefix|)
  }

  /** The scan finds what its description says, and only that. */
  lemma {:induction false} BestIsLongest(l: seq<Listed>, q: Bits) returns (i: int)
    ensures Best(l, q).None? ==> forall j :: 0 <= j < |l| ==> !(l[j].prefix <= q)
    ensures Best(l, q).Some? ==> IsBest(l, q, i) && Best(l, q) == Some(l[i])
  {
    i := 0;
    if l != [] {
      var n := |l| - 1;
      var k := BestIsLongest(l[..n], q);
      var r := Best(l[..n], q);
      assert forall j :: 0 <= j < n ==> l[j] == l[..n][j];
      if l[n].prefix <= q && (r.None? || |r.value.prefix| < |l[n].prefix|) {
        i := n;
      } else {
        i := k;
      }
    }
  }

  lemma BestUnique(l: seq<Listed>, q: Bits, i: int)
    requires IsBest(l, q, i)
    ensures Best(l, q) == Some(l[i])
  {
    var k := BestIsLongest(l, q);
    assert !(k < i) && !(i < k);
  }

  /** The head of the list of a prefix is the first network listed with it. */
  lemma {:induction false} NetsAtFirst(l: seq<Listed>, p: Bits) returns (i: int)
    ensures NetsAt(l, p) == [] <==> forall j :: 0 <= j < |l| ==> l[j].prefix != p
    ensures NetsAt(l, p) != [] ==> 0 <= i < |l| && l[i] == Listed(NetsAt(l, p)[0], p)
    ensures NetsAt(l, p) != [] ==> forall j :: 0 <= j < i ==> l[j].prefix != p
  {
    i := 0;
    if l != [] {
      var n := |l| - 1;
      assert forall j :: 0 <= j < n ==> l[j] == l[..n][j];
      i := NetsAtFirst(l[..n], p);
      if NetsAt(l[..n], p) == [] { i := n; }
    }
  }

  lemma {:induction false} NetsAtSound(l: seq<Listed>, p: Bits, x: Item) returns (i: int)
    requires x in NetsAt(l, p)
    ensures 0 <= i < |l| && l[i] == Listed(x, p)
  {
    var n := |l| - 1;
    if x in NetsAt(l[..n], p) {
      i := NetsAtSound(l[..n], p, x);
    } else {
      i := n;
    }
  }

  /**
   Going from a prefix to a longer one with no listed prefix strictly between changes the
   match only if a network is listed at the longer one.
   */
  lemma BestStep(l: seq<Listed>, a: Bits, b: Bits)
    requires a <= b
    requires forall j :: 0 <= j < |l| && a < l[j].prefix <= b ==> l[j].prefix == b
    ensures a < b && NetsAt(l, b) != [] ==> Best(l, b) == Some(Listed(NetsAt(l, b)[0], b))
    ensures NetsAt(l, b) == [] ==> Best(l, b) == Best(l, a)
    ensures a == b ==> Best(l, b) == Best(l, a)
  {
    var f := NetsAtFirst(l, b);
    var i := BestIsLongest(l, a);
    var k := BestIsLongest(l, b);
    forall j | 0 <= j < |l| && l[j].prefix <= b
      ensures l[j].prefix <= a || l[j].prefix == b
    {
      PrefixChain(l[j].prefix, a, b);
      PrefixChain(a, l[j].prefix, b);
    }
    if a < b {
      if NetsAt(l, b) != [] {
        assert IsBest(l, b, f);
        BestUnique(l, b, f);
      } else if Best(l, a).Some? {
        assert IsBest(l, b, i);
        BestUnique(l, b, i);
      }
    }
  }

  /** What entering one more network does to the match of a query. */
  lemma BestAppend(l: seq<Listed>, o: Listed, q: Bits)
    ensures NetsAt(l, o.prefix) != [] ==> Best(l + [o], q) == Best(l, q)
    ensures NetsAt(l, o.prefix) == [] ==>
      Best(l + [o], q) == if o.prefix <= q && !Crossed(l, o.prefix, q) then Some(o) else Best(l, q)
  {
    assert (l + [o])[..|l|] == l;
    var i := BestIsLongest(l, q);
    var f := NetsAtFirst(l, o.prefix);
    if o.prefix <= q {
      if Best(l, q).Some? && |l[i].prefix| >= |o.prefix| {
        PrefixChain(o.prefix, l[i].prefix, q);
        assert Crossed(l, o.prefix, q);
      }
    }
  }
}
