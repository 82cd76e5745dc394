/**
 The sort comparator of libconn/qbe_tcl.c: items are compared by their name attributes, and names
 that are references are compared by what they refer to, with a cache of finished comparisons.
 */
module Compare {
  import opened Basics

  datatype Slot = Slot(uuid: string, attr: string)

  /** The Tcl variables the comparison reads; a missing one aborts the sort. */
  datatype World = World(
    classOf: map<string, string>,
    names: map<string, string>,
    split: map<string, seq<string>>,
    types: map<string, string>,
    value: map<Slot, string>,
    ints: map<string, int>)

  const UUID_LEN := 22

  predicate Uuid(s: string) {
    |s| == UUID_LEN
  }

  // strcmp.

  function Strcmp(a: string, b: string): (r: int)
    ensures r == 0 <==> a == b
    ensures -1 <= r <= 1
  {
    if a == "" then (if b == "" then 0 else -1)
    else if b == "" then 1
    else if a[0] < b[0] then -1
    else if a[0] > b[0] then 1
    else
      assert a == [a[0]] + a[1..] && b == [b[0]] + b[1..];
      Strcmp(a[1..], b[1..])
  }

  lemma {:induction false} StrcmpOpposite(a: string, b: string)
    ensures Strcmp(b, a) == -Strcmp(a, b)
  {
    if a != "" && b != "" && a[0] == b[0] {
      StrcmpOpposite(a[1..], b[1..]);
    }
  }

  lemma {:induction false} StrcmpTransitive(a: string, b: string, c: string)
    ensures Strcmp(a, b) <= 0 && Strcmp(b, c) <= 0 ==> Strcmp(a, c) <= 0
    ensures Strcmp(a, b) <= 0 && Strcmp(b, c) <= 0 && Strcmp(a, c) == 0 ==> Strcmp(a, b) == 0 && Strcmp(b, c) == 0
  {
    if a != "" && b != "" && c != "" && a[0] == b[0] == c[0] {
      StrcmpTransitive(a[1..], b[1..], c[1..]);
    }
    StrcmpOpposite(a, b);
  }

  /** At their first difference the first string ends, or has the smaller character. */
  ghost predicate Precedes(a: string, b: string) {
    exists k :: FirstSmaller(a, b, k)
  }

  ghost predicate FirstSmaller(a: string, b: string, k: nat) {
    k <= |a| && k < |b| && a[..k] == b[..k] && (k == |a| || a[k] < b[k])
  }

  /** The sign of strcmp is the lexical order. */
  lemma StrcmpIsLexical(a: string, b: string)
    ensures Strcmp(a, b) < 0 <==> Precedes(a, b)
    ensures Strcmp(a, b) > 0 <==> Precedes(b, a)
  {
    var k := Differ(a, b);
    StrcmpAt(a, b, k);
    if Precedes(a, b) {
      var i :| FirstSmaller(a, b, i);
      FirstOnly(a, b, k, i);
    }
    if Precedes(b, a) {
      var i :| FirstSmaller(b, a, i);
      FirstOnly(b, a, k, i);
    }
    assert FirstSmaller(a, b, k) ==> Precedes(a, b);
    assert FirstSmaller(b, a, k) ==> Precedes(b, a);
  }

  /** The length of the longest common prefix. */
  lemma {:induction false} Differ(a: string, b: string) returns (k: nat)
    ensures k <= |a| && k <= |b| && a[..k] == b[..k] && (k < |a| && k < |b| ==> a[k] != b[k])
    decreases |a|
  {
    k := 0;
    if a != "" && b != "" && a[0] == b[0] {
      var n := Differ(a[1..], b[1..]);
      k := n + 1;
      assert a[..k] == [a[0]] + a[1..][..n] && b[..k] == [b[0]] + b[1..][..n];
    }
  }

  lemma FirstOnly(a: string, b: string, k: nat, i: nat)
    requires k <= |a| && k <= |b| && a[..k] == b[..k] && (k < |a| && k < |b| ==> a[k] != b[k])
    requires FirstSmaller(a, b, i)
    ensures i == k
  {
    SamePrefix(a, b, k);
    SamePrefix(a, b, i);
  }

  lemma SamePrefix(a: string, b: string, k: nat)
    requires k <= |a| && k <= |b| && a[..k] == b[..k]
    ensures forall j :: 0 <= j < k ==> a[j] == b[j]
  {
    forall j | 0 <= j < k
      ensures a[j] == b[j]
    {
      assert a[j] == a[..k][j] && b[j] == b[..k][j];
    }
  }

  /** The common prefix does not matter. */
  lemma {:induction false} StrcmpAt(a: string, b: string, k: nat)
    requires k <= |a| && k <= |b| && a[..k] == b[..k]
    ensures Strcmp(a, b) == Strcmp(a[k..], b[k..])
    decreases k
  {
    if k > 0 {
      assert a[0] == a[..k][0] && b[0] == b[..k][0];
      assert a[1..][..k - 1] == a[..k][1..] && b[1..][..k - 1] == b[..k][1..];
      StrcmpAt(a[1..], b[1..], k - 1);
      assert a[1..][k - 1..] == a[k..] && b[1..][k - 1..] == b[k..];
    }
  }

  // The plain comparison.

  /** References between names only go down in rank, and are uuids or empty. */
  ghost predicate Ranked(w: World, rank: string -> nat) {
    forall t: Slot :: t in w.value && t.attr in w.types && w.types[t.attr] == "Object" && w.value[t] != "" ==>
      Uuid(w.value[t]) && rank(w.value[t]) < rank(t.uuid)
  }

  /** Compare two items, recursively, without a cache; None if something is missing. */
  ghost function Plain(w: World, rank: string -> nat, u: string, v: string): Option<int>
    requires Ranked(w, rank)
    decreases rank(u) + rank(v), 1, 0
  {
    if u !in w.classOf || v !in w.classOf || w.classOf[u] !in w.names || w.classOf[v] !in w.names then None
    else
      var n, m := w.names[w.classOf[u]], w.names[w.classOf[v]];
      if n != m then Some(Strcmp(n, m))
      else if n !in w.split then None
      else ByNames(w, rank, u, v, w.split[n])
  }

  /** The first attribute that differs decides. */
  ghost function ByNames(w: World, rank: string -> nat, u: string, v: string, attrs: seq<string>): Option<int>
    requires Ranked(w, rank)
    decreases rank(u) + rank(v), 0, |attrs|
  {
    if attrs == [] then Some(0)
    else
      var r := ByName(w, rank, u, v, attrs[0]);
      if r == None || r.value != 0 then r else ByNames(w, rank, u, v, attrs[1..])
  }

  ghost function ByName(w: World, rank: string -> nat, u: string, v: string, attr: string): Option<int>
    requires Ranked(w, rank)
    decreases rank(u) + rank(v), 0, 0
  {
    if attr !in w.types || Slot(u, attr) !in w.value || Slot(v, attr) !in w.value then None
    else
      var a, b := w.value[Slot(u, attr)], w.value[Slot(v, attr)];
      if w.types[attr] == "String" then Some(Strcmp(a, b))
      else if w.types[attr] == "Integer" then
        if a in w.ints && b in w.ints then Some(w.ints[a] - w.ints[b]) else None
      else if w.types[attr] == "Object" then
        if a == b || a == "" || b == "" then Some(Strcmp(a, b)) else Plain(w, rank, a, b)
      else Some(0)
  }

  lemma {:induction false} PlainOpposite(w: World, rank: string -> nat, u: string, v: string)
    requires Ranked(w, rank)
    ensures Plain(w, rank, v, u) == Negated(Plain(w, rank, u, v))
    decreases rank(u) + rank(v), 1, 0
  {
    if u in w.classOf && v in w.classOf && w.classOf[u] in w.names && w.classOf[v] in w.names {
      var n, m := w.names[w.classOf[u]], w.names[w.classOf[v]];
      if n != m {
        StrcmpOpposite(n, m);
      } else if n in w.split {
        ByNamesOpposite(w, rank, u, v, w.split[n]);
      }
    }
  }

  function Negated(r: Option<int>): Option<int> {
    if r.Some? then Some(-r.value) else None
  }

  lemma {:induction false} ByNamesOpposite(w: World, rank: string -> nat, u: string, v: string, attrs: seq<string>)
    requires Ranked(w, rank)
    ensures ByNames(w, rank, v, u, attrs) == Negated(ByNames(w, rank, u, v, attrs))
    decreases rank(u) + rank(v), 0, |attrs|
  {
    if attrs != [] {
      ByNameOpposite(w, rank, u, v, attrs[0]);
      ByNamesOpposite(w, rank, u, v, attrs[1..]);
    }
  }

  lemma {:induction false} ByNameOpposite(w: World, rank: string -> nat, u: string, v: string, attr: string)
    requires Ranked(w, rank)
    ensures ByName(w, rank, v, u, attr) == Negated(ByName(w, rank, u, v, attr))
    decreases rank(u) + rank(v), 0, 0
  {
    if attr in w.types && Slot(u, attr) in w.value && Slot(v, attr) in w.value {
      var a, b := w.value[Slot(u, attr)], w.value[Slot(v, attr)];
      StrcmpOpposite(a, b);
      if w.types[attr] == "Object" && a != b && a != "" && b != "" {
        PlainOpposite(w, rank, a, b);
      }
    }
  }

  // What the sign of the comparison says.

  /** Item u sorts before item v: by the lists of name attributes, or by the first attribute that tells them apart. */
  ghost predicate Before(w: World, rank: string -> nat, u: string, v: string)
    requires Ranked(w, rank)
    decreases rank(u) + rank(v), 1, 0
  {
    && u in w.classOf && v in w.classOf && w.classOf[u] in w.names && w.classOf[v] in w.names
    && var n, m := w.names[w.classOf[u]], w.names[w.classOf[v]];
    if n != m then Precedes(n, m)
    else n in w.split && BeforeBy(w, rank, u, v, w.split[n])
  }

  ghost predicate BeforeBy(w: World, rank: string -> nat, u: string, v: string, attrs: seq<string>)
    requires Ranked(w, rank)
    decreases rank(u) + rank(v), 0, 2
  {
    exists i :: 0 <= i < |attrs| && Smaller(w, rank, u, v, attrs[i]) &&
      forall j :: 0 <= j < i ==> Alike(w, rank, u, v, attrs[j])
  }

  /** The attribute of u is lexically smaller, the smaller integer, or refers to an item that sorts first. */
  ghost predicate Smaller(w: World, rank: string -> nat, u: string, v: string, attr: string)
    requires Ranked(w, rank)
    decreases rank(u) + rank(v), 0, 0
  {
    && attr in w.types && Slot(u, attr) in w.value && Slot(v, attr) in w.value
    && var a, b := w.value[Slot(u, attr)], w.value[Slot(v, attr)];
    if w.types[attr] == "String" then Precedes(a, b)
    else if w.types[attr] == "Integer" then a in w.ints && b in w.ints && w.ints[a] < w.ints[b]
    else w.types[attr] == "Object" && if a == "" || b == "" then a == "" && b != "" else a != b && Before(w, rank, a, b)
  }

  /** The attribute does not tell the two items apart. */
  ghost predicate Alike(w: World, rank: string -> nat, u: string, v: string, attr: string)
    requires Ranked(w, rank)
    decreases rank(u) + rank(v), 0, 1
  {
    !Smaller(w, rank, u, v, attr) && !Smaller(w, rank, v, u, attr)
  }

  /** The sign of a comparison, where nothing it reads is missing. */
  lemma {:induction false} PlainMeans(w: World, rank: string -> nat, u: string, v: string)
    requires Ranked(w, rank) && Plain(w, rank, u, v).Some?
    ensures Plain(w, rank, u, v).value < 0 <==> Before(w, rank, u, v)
    ensures Plain(w, rank, u, v).value > 0 <==> Before(w, rank, v, u)
    decreases rank(u) + rank(v), 1, 0
  {
    hide Ranked, Precedes, BeforeBy, Strcmp;
    var n, m := w.names[w.classOf[u]], w.names[w.classOf[v]];
    if n != m {
      StrcmpIsLexical(n, m);
    } else {
      ByNamesMean(w, rank, u, v, w.split[n]);
    }
  }

  lemma {:induction false} ByNamesMean(w: World, rank: string -> nat, u: string, v: string, attrs: seq<string>)
    requires Ranked(w, rank) && ByNames(w, rank, u, v, attrs).Some?
    ensures ByNames(w, rank, u, v, attrs).value < 0 <==> BeforeBy(w, rank, u, v, attrs)
    ensures ByNames(w, rank, u, v, attrs).value > 0 <==> BeforeBy(w, rank, v, u, attrs)
    decreases rank(u) + rank(v), 0, |attrs|
  {
    hide Ranked, ByName, Smaller, BeforeBy;
    if attrs == [] {
      NoneBefore(w, rank, u, v);
      NoneBefore(w, rank, v, u);
    } else {
      ByNameMeans(w, rank, u, v, attrs[0]);
      if ByName(w, rank, u, v, attrs[0]) == Some(0) {
        ByNamesMean(w, rank, u, v, attrs[1..]);
      }
      FirstDecides(w, rank, u, v, attrs);
      FirstDecides(w, rank, v, u, attrs);
    }
  }

  lemma NoneBefore(w: World, rank: string -> nat, u: string, v: string)
    requires Ranked(w, rank)
    ensures !BeforeBy(w, rank, u, v, [])
  {
  }

  /** The first attribute decides unless it does not tell the items apart. */
  lemma FirstDecides(w: World, rank: string -> nat, u: string, v: string, attrs: seq<string>)
    requires Ranked(w, rank) && attrs != []
    requires Smaller(w, rank, u, v, attrs[0]) ==> !Smaller(w, rank, v, u, attrs[0])
    ensures BeforeBy(w, rank, u, v, attrs) <==>
      Smaller(w, rank, u, v, attrs[0]) || (Alike(w, rank, u, v, attrs[0]) && BeforeBy(w, rank, u, v, attrs[1..]))
    ensures Alike(w, rank, u, v, attrs[0]) <==> Alike(w, rank, v, u, attrs[0])
  {
    hide Ranked, Smaller;
    var rest := attrs[1..];
    if BeforeBy(w, rank, u, v, attrs) {
      var i :| 0 <= i < |attrs| && Smaller(w, rank, u, v, attrs[i]) &&
        forall j :: 0 <= j < i ==> Alike(w, rank, u, v, attrs[j]);
      if i > 0 {
        assert attrs[i] == rest[i - 1] && Alike(w, rank, u, v, attrs[0]);
        assert forall j :: 0 <= j < i - 1 ==> rest[j] == attrs[j + 1];
        assert BeforeBy(w, rank, u, v, rest);
      }
    }
    if Alike(w, rank, u, v, attrs[0]) && BeforeBy(w, rank, u, v, rest) {
      var i :| 0 <= i < |rest| && Smaller(w, rank, u, v, rest[i]) &&
        forall j :: 0 <= j < i ==> Alike(w, rank, u, v, rest[j]);
      forall j | 0 <= j < i + 1
        ensures Alike(w, rank, u, v, attrs[j])
      {
        assert j > 0 ==> attrs[j] == rest[j - 1];
      }
      assert Smaller(w, rank, u, v, attrs[i + 1]);
    }
  }

  lemma {:induction false} ByNameMeans(w: World, rank: string -> nat, u: string, v: string, attr: string)
    requires Ranked(w, rank) && ByName(w, rank, u, v, attr).Some?
    ensures ByName(w, rank, u, v, attr).value < 0 <==> Smaller(w, rank, u, v, attr)
    ensures ByName(w, rank, u, v, attr).value > 0 <==> Smaller(w, rank, v, u, attr)
    decreases rank(u) + rank(v), 0, 0
  {
    hide Precedes, Before, Plain;
    var a, b := w.value[Slot(u, attr)], w.value[Slot(v, attr)];
    StrcmpIsLexical(a, b);
    if w.types[attr] == "Object" && a != "" && b != "" && a != b {
      SmallerRank(w, rank, u, v, attr);
      PlainMeans(w, rank, a, b);
    }
  }

  // The order it defines.

  /** Nothing the comparison of these items reads is missing. */
  ghost predicate Complete(w: World, items: set<string>) {
    forall u :: u in items ==>
      && u in w.classOf && w.classOf[u] in w.names && w.names[w.classOf[u]] in w.split
      && forall attr :: attr in w.split[w.names[w.classOf[u]]] ==> Has(w, items, u, attr)
  }

  ghost predicate Has(w: World, items: set<string>, u: string, attr: string) {
    && attr in w.types && Slot(u, attr) in w.value
    && (w.types[attr] == "Integer" ==> w.value[Slot(u, attr)] in w.ints)
    && (w.types[attr] == "Object" ==> w.value[Slot(u, attr)] == "" || w.value[Slot(u, attr)] in items)
  }

  /** Three comparisons, of a first item with a second, the second with a third and the first with the third, agree. */
  ghost predicate Agree(r1: Option<int>, r2: Option<int>, r3: Option<int>) {
    && r1.Some? && r2.Some? && r3.Some?
    && (r1.value <= 0 && r2.value <= 0 ==> if r1.value == 0 && r2.value == 0 then r3.value == 0 else r3.value < 0)
  }

  lemma StrcmpAgree(a: string, b: string, c: string)
    ensures Agree(Some(Strcmp(a, b)), Some(Strcmp(b, c)), Some(Strcmp(a, c)))
  {
    StrcmpTransitive(a, b, c);
  }

  /** The comparison is total and transitive, and items that compare equal to the same item compare equal. */
  lemma {:induction false} PlainAgree(w: World, rank: string -> nat, items: set<string>, u: string, v: string,
      x: string)
    requires Ranked(w, rank) && Complete(w, items) && u in items && v in items && x in items
    ensures Agree(Plain(w, rank, u, v), Plain(w, rank, v, x), Plain(w, rank, u, x))
    decreases rank(u) + rank(v) + rank(x), 1, 0
  {
    hide Ranked;
    var n1, n2, n3 := w.names[w.classOf[u]], w.names[w.classOf[v]], w.names[w.classOf[x]];
    StrcmpAgree(n1, n2, n3);
    Defined(w, rank, items, u, v);
    Defined(w, rank, items, v, x);
    Defined(w, rank, items, u, x);
    if n1 == n2 == n3 {
      ByNamesAgree(w, rank, items, u, v, x, w.split[n1]);
    }
  }

  lemma {:induction false} Defined(w: World, rank: string -> nat, items: set<string>, u: string, v: string)
    requires Ranked(w, rank) && Complete(w, items) && u in items && v in items
    ensures Plain(w, rank, u, v).Some?
    decreases rank(u) + rank(v), 1, 0
  {
    var n, m := w.names[w.classOf[u]], w.names[w.classOf[v]];
    if n == m {
      NamesDefined(w, rank, items, u, v, w.split[n]);
    }
  }

  lemma {:induction false} NamesDefined(w: World, rank: string -> nat, items: set<string>, u: string, v: string,
      attrs: seq<string>)
    requires Ranked(w, rank) && Complete(w, items) && forall attr :: attr in attrs ==>
      Has(w, items, u, attr) && Has(w, items, v, attr)
    ensures ByNames(w, rank, u, v, attrs).Some?
    decreases rank(u) + rank(v), 0, |attrs|
  {
    if attrs != [] {
      var attr := attrs[0];
      assert Has(w, items, u, attr) && Has(w, items, v, attr);
      var a, b := w.value[Slot(u, attr)], w.value[Slot(v, attr)];
      if w.types[attr] == "Object" && a != b && a != "" && b != "" {
        SmallerRank(w, rank, u, v, attr);
        Defined(w, rank, items, a, b);
      }
      NamesDefined(w, rank, items, u, v, attrs[1..]);
    }
  }

  lemma {:induction false} ByNamesAgree(w: World, rank: string -> nat, items: set<string>, u: string, v: string,
      x: string, attrs: seq<string>)
    requires Ranked(w, rank) && Complete(w, items)
    requires forall attr :: attr in attrs ==> Has(w, items, u, attr) && Has(w, items, v, attr) && Has(w, items, x, attr)
    ensures Agree(ByNames(w, rank, u, v, attrs), ByNames(w, rank, v, x, attrs), ByNames(w, rank, u, x, attrs))
    decreases rank(u) + rank(v) + rank(x), 0, |attrs|
  {
    hide Ranked, Complete, Has, ByName;
    NamesDefined(w, rank, items, u, v, attrs);
    NamesDefined(w, rank, items, v, x, attrs);
    NamesDefined(w, rank, items, u, x, attrs);
    if attrs != [] {
      assert attrs[0] in attrs;
      ByNameAgree(w, rank, items, u, v, x, attrs[0]);
      ByNamesAgree(w, rank, items, u, v, x, attrs[1..]);
    }
  }

  lemma {:induction false} ByNameAgree(w: World, rank: string -> nat, items: set<string>, u: string, v: string,
      x: string, attr: string)
    requires Ranked(w, rank) && Complete(w, items) && Has(w, items, u, attr) && Has(w, items, v, attr) &&
      Has(w, items, x, attr)
    ensures Agree(ByName(w, rank, u, v, attr), ByName(w, rank, v, x, attr), ByName(w, rank, u, x, attr))
    decreases rank(u) + rank(v) + rank(x), 0, 0
  {
    hide Complete;
    var a, b, c := w.value[Slot(u, attr)], w.value[Slot(v, attr)], w.value[Slot(x, attr)];
    StrcmpAgree(a, b, c);
    NamesDefined(w, rank, items, u, v, [attr]);
    NamesDefined(w, rank, items, v, x, [attr]);
    NamesDefined(w, rank, items, u, x, [attr]);
    if w.types[attr] == "Object" && a != "" && b != "" && c != "" {
      Lower(w, rank, u, attr);
      Lower(w, rank, v, attr);
      Lower(w, rank, x, attr);
      hide Ranked;
      PlainAgree(w, rank, items, a, b, c);
      PlainOpposite(w, rank, a, b);
    }
  }

  lemma Lower(w: World, rank: string -> nat, u: string, attr: string)
    requires Ranked(w, rank) && Slot(u, attr) in w.value && attr in w.types && w.types[attr] == "Object" &&
      w.value[Slot(u, attr)] != ""
    ensures Uuid(w.value[Slot(u, attr)]) && rank(w.value[Slot(u, attr)]) < rank(u)
  {
    var s := Slot(u, attr);
    assert rank(w.value[s]) < rank(s.uuid);
  }

  /** The result of a comparison tells which item sorts first, if either does. */
  ghost predicate Says(w: World, rank: string -> nat, u: string, v: string, r: int)
    requires Ranked(w, rank)
  {
    (r < 0 <==> Before(w, rank, u, v)) && (r > 0 <==> Before(w, rank, v, u))
  }

  lemma PlainSays(w: World, rank: string -> nat, u: string, v: string)
    requires Ranked(w, rank) && Plain(w, rank, u, v).Some?
    ensures Says(w, rank, u, v, Plain(w, rank, u, v).value)
  {
    hide Plain, Before;
    PlainMeans(w, rank, u, v);
  }

  // The cache.

  /** The cache key of two uuids: both, the smaller one first. */
  function Key(a: string, b: string): string {
    if Strcmp(a, b) > 0 then b + a else a + b
  }

  lemma KeyInjective(a: string, b: string, c: string, d: string)
    requires Uuid(a) && Uuid(b) && Uuid(c) && Uuid(d) && Key(a, b) == Key(c, d)
    ensures (a == c && b == d) || (a == d && b == c)
  {
    var k := Key(a, b);
    assert k[..UUID_LEN] == if Strcmp(a, b) > 0 then b else a;
    assert k[UUID_LEN..] == if Strcmp(a, b) > 0 then a else b;
    assert k[..UUID_LEN] == if Strcmp(c, d) > 0 then d else c;
    assert k[UUID_LEN..] == if Strcmp(c, d) > 0 then c else d;
  }

  /** The entry of two uuids is finished and right: it holds the comparison of the smaller with the larger. */
  ghost predicate Right(w: World, rank: string -> nat, cache: map<string, Option<int>>, a: string, b: string)
    requires Ranked(w, rank) && Key(a, b) in cache
  {
    cache[Key(a, b)].Some? && cache[Key(a, b)] == if Strcmp(a, b) > 0 then Plain(w, rank, b, a)
      else Plain(w, rank, a, b)
  }

  /** Entries of pairs below the given rank are finished and right. */
  ghost predicate RightBelow(w: World, rank: string -> nat, cache: map<string, Option<int>>, bound: nat)
    requires Ranked(w, rank)
  {
    forall a, b :: Uuid(a) && Uuid(b) && Key(a, b) in cache && rank(a) + rank(b) < bound ==> Right(w, rank, cache, a, b)
  }

  /** What a comparison does to the cache: it adds finished entries and changes none. */
  ghost predicate Grown(w: World, rank: string -> nat, was: map<string, Option<int>>, now: map<string, Option<int>>)
    requires Ranked(w, rank)
  {
    && (forall k :: k in was ==> k in now && now[k] == was[k])
    && (forall a, b :: Uuid(a) && Uuid(b) && Key(a, b) in now && Key(a, b) !in was ==> Right(w, rank, now, a, b))
  }

  lemma GrownTwice(w: World, rank: string -> nat, was: map<string, Option<int>>, mid: map<string, Option<int>>,
      now: map<string, Option<int>>)
    requires Ranked(w, rank) && Grown(w, rank, was, mid) && Grown(w, rank, mid, now)
    ensures Grown(w, rank, was, now)
  {
    hide Ranked, Plain, Key;
  }

  lemma GrownBelow(w: World, rank: string -> nat, was: map<string, Option<int>>, now: map<string, Option<int>>,
      bound: nat)
    requires Ranked(w, rank) && Grown(w, rank, was, now) && RightBelow(w, rank, was, bound)
    ensures RightBelow(w, rank, now, bound)
  {
    hide Ranked, Plain, Key;
  }

  class Comparator {
    const world: World
    var cache: map<string, Option<int>>

    constructor (world: World)
      ensures this.world == world && cache == map[]
    {
      this.world := world;
      cache := map[];
    }

    /** compare_uuids. */
    method CompareUuids(u: string, v: string, ghost rank: string -> nat) returns (r: Option<int>)
      requires Ranked(world, rank) && RightBelow(world, rank, cache, rank(u) + rank(v))
      modifies this`cache
      ensures r == Plain(world, rank, u, v)
      ensures r.Some? ==> Says(world, rank, u, v, r.value)
      ensures r.Some? ==> Grown(world, rank, old(cache), cache)
      decreases rank(u) + rank(v), 1, 0
    {
      if Plain(world, rank, u, v).Some? {
        PlainSays(world, rank, u, v);
      }
      hide Says;
      hide Ranked, RightBelow, Grown, ByNames;
      if u !in world.classOf || v !in world.classOf {
        return None;
      }
      var c1, c2 := world.classOf[u], world.classOf[v];
      if c1 !in world.names {
        return None;
      }
      var nattrs := world.names[c1];
      if c1 != c2 {
        if c2 !in world.names {
          return None;
        }
        var order := Strcmp(nattrs, world.names[c2]);
        if order != 0 {
          GrownNone(world, rank, cache);
          return Some(order);
        }
      }
      if nattrs !in world.split {
        return None;
      }
      r := CompareNames(u, v, world.split[nattrs], rank);
    }

    /** Any sequence of comparisons through one cache gives the plain results, until one finds something missing. */
    method CompareAll(pairs: seq<(string, string)>, ghost rank: string -> nat) returns (results: seq<int>)
      requires Ranked(world, rank) && cache == map[]
      modifies this`cache
      ensures |results| <= |pairs|
      ensures forall i :: 0 <= i < |results| ==> Plain(world, rank, pairs[i].0, pairs[i].1) == Some(results[i])
      ensures forall i :: 0 <= i < |results| ==> Says(world, rank, pairs[i].0, pairs[i].1, results[i])
      ensures |results| < |pairs| ==> Plain(world, rank, pairs[|results|].0, pairs[|results|].1) == None
    {
      hide Ranked, Plain, RightBelow, Grown, Says;
      results := [];
      GrownNone(world, rank, cache);
      while |results| < |pairs|
        invariant |results| <= |pairs| && Grown(world, rank, map[], cache)
        invariant forall i :: 0 <= i < |results| ==> Plain(world, rank, pairs[i].0, pairs[i].1) == Some(results[i])
        invariant forall i :: 0 <= i < |results| ==> Says(world, rank, pairs[i].0, pairs[i].1, results[i])
      {
        var (u, v) := pairs[|results|];
        ghost var mid := cache;
        AllRight(world, rank, cache, rank(u) + rank(v));
        var r := CompareUuids(u, v, rank);
        if r == None {
          return;
        }
        GrownTwice(world, rank, map[], mid, cache);
        PlainSays(world, rank, u, v);
        results := results + [r.value];
      }
    }

    /** The loop over the name attributes. */
    method CompareNames(u: string, v: string, attrs: seq<string>, ghost rank: string -> nat) returns (r: Option<int>)
      requires Ranked(world, rank) && RightBelow(world, rank, cache, rank(u) + rank(v))
      modifies this`cache
      ensures r == ByNames(world, rank, u, v, attrs)
      ensures r.Some? ==> Grown(world, rank, old(cache), cache)
      decreases rank(u) + rank(v), 0, |attrs| + 1
    {
      hide Ranked, RightBelow, Grown, ByName;
      GrownNone(world, rank, cache);
      var i := 0;
      assert attrs[0..] == attrs;
      while i < |attrs|
        invariant 0 <= i <= |attrs| && ByNames(world, rank, u, v, attrs) == ByNames(world, rank, u, v, attrs[i..])
        invariant Grown(world, rank, old(cache), cache) && RightBelow(world, rank, cache, rank(u) + rank(v))
      {
        ghost var mid := cache;
        assert attrs[i..][0] == attrs[i] && attrs[i..][1..] == attrs[i + 1..];
        r := CompareName(u, v, attrs[i], rank);
        if r == None {
          return;
        }
        GrownTwice(world, rank, old(cache), mid, cache);
        GrownBelow(world, rank, mid, cache, rank(u) + rank(v));
        if r.value != 0 {
          return;
        }
        i := i + 1;
      }
      r := Some(0);
    }

    method CompareName(u: string, v: string, attr: string, ghost rank: string -> nat) returns (r: Option<int>)
      requires Ranked(world, rank) && RightBelow(world, rank, cache, rank(u) + rank(v))
      modifies this`cache
      ensures r == ByName(world, rank, u, v, attr)
      ensures r.Some? ==> Grown(world, rank, old(cache), cache)
      decreases rank(u) + rank(v), 0, 0
    {
      hide RightBelow, Grown, Plain;
      GrownNone(world, rank, cache);
      if attr !in world.types || Slot(u, attr) !in world.value || Slot(v, attr) !in world.value {
        return None;
      }
      var type_, a, b := world.types[attr], world.value[Slot(u, attr)], world.value[Slot(v, attr)];
      if type_ == "String" {
        return Some(Strcmp(a, b));
      } else if type_ == "Integer" {
        if a !in world.ints || b !in world.ints {
          return None;
        }
        return Some(world.ints[a] - world.ints[b]);
      } else if type_ == "Object" {
        var order := Strcmp(a, b);
        if order == 0 || a == "" || b == "" {
          return Some(order);
        }
        SmallerRank(world, rank, u, v, attr);
        r := CompareCached(a, b, order, rank, rank(u) + rank(v));
      } else {
        return Some(0);
      }
    }

    /** Look the pair up, or compare it and remember the result under the sorted pair. */
    method CompareCached(a: string, b: string, order: int, ghost rank: string -> nat, ghost bound: nat)
      returns (r: Option<int>)
      requires Ranked(world, rank) && RightBelow(world, rank, cache, bound)
      requires Uuid(a) && Uuid(b) && a != b && order == Strcmp(a, b) && rank(a) + rank(b) < bound
      modifies this`cache
      ensures r == Plain(world, rank, a, b)
      ensures r.Some? ==> Grown(world, rank, old(cache), cache)
      decreases rank(a) + rank(b), 2, 0
    {
      hide Ranked, Plain, Key, Grown;
      PlainOpposite(world, rank, a, b);
      var key := Key(a, b);
      if key in cache {
        assert Right(world, rank, cache, a, b);
        r := cache[key];
        if order > 0 {
          r := Some(-r.value);
        }
        GrownNone(world, rank, cache);
        return;
      }
      hide RightBelow;
      cache := cache[key := None];
      Unfinished(world, rank, old(cache), a, b, bound);
      ghost var mid := cache;
      r := CompareUuids(a, b, rank);
      if r == None {
        return;
      }
      var value := if order > 0 then -r.value else r.value;
      FinishedEntry(world, rank, old(cache), mid, cache, a, b, value);
      cache := cache[key := Some(value)];
    }
  }

  lemma AllRight(w: World, rank: string -> nat, cache: map<string, Option<int>>, bound: nat)
    requires Ranked(w, rank) && Grown(w, rank, map[], cache)
    ensures RightBelow(w, rank, cache, bound)
  {
    hide Ranked, Plain, Key;
  }

  lemma GrownNone(w: World, rank: string -> nat, cache: map<string, Option<int>>)
    requires Ranked(w, rank)
    ensures Grown(w, rank, cache, cache)
  {
  }

  lemma SmallerRank(w: World, rank: string -> nat, u: string, v: string, attr: string)
    requires Ranked(w, rank) && Slot(u, attr) in w.value && Slot(v, attr) in w.value && attr in w.types &&
      w.types[attr] == "Object"
    requires w.value[Slot(u, attr)] != "" && w.value[Slot(v, attr)] != ""
    ensures Uuid(w.value[Slot(u, attr)]) && Uuid(w.value[Slot(v, attr)])
    ensures rank(w.value[Slot(u, attr)]) + rank(w.value[Slot(v, attr)]) < rank(u) + rank(v)
  {
    Lower(w, rank, u, attr);
    Lower(w, rank, v, attr);
  }

  /** An unfinished entry is out of the way of the comparison it waits for. */
  lemma Unfinished(w: World, rank: string -> nat, cache: map<string, Option<int>>, a: string, b: string, bound: nat)
    requires Ranked(w, rank) && RightBelow(w, rank, cache, bound) && Uuid(a) && Uuid(b) && rank(a) + rank(b) < bound
    ensures RightBelow(w, rank, cache[Key(a, b) := None], rank(a) + rank(b))
  {
    hide Ranked, Plain;
    var cache' := cache[Key(a, b) := None];
    forall c, d | Uuid(c) && Uuid(d) && Key(c, d) in cache' && rank(c) + rank(d) < rank(a) + rank(b)
      ensures Right(w, rank, cache', c, d)
    {
      if Key(c, d) == Key(a, b) {
        KeyInjective(a, b, c, d);
      }
      assert Right(w, rank, cache, c, d);
    }
  }

  lemma FinishedEntry(w: World, rank: string -> nat, was: map<string, Option<int>>, mid: map<string, Option<int>>,
      now: map<string, Option<int>>,
      a: string, b: string, value: int)
    requires Ranked(w, rank) && Uuid(a) && Uuid(b) && Key(a, b) !in was && mid == was[Key(a, b) := None] &&
      Grown(w, rank, mid, now)
    requires Some(value) == if Strcmp(a, b) > 0 then Plain(w, rank, b, a) else Plain(w, rank, a, b)
    ensures Grown(w, rank, was, now[Key(a, b) := Some(value)])
  {
    hide Ranked, Plain;
    var now' := now[Key(a, b) := Some(value)];
    forall c, d | Uuid(c) && Uuid(d) && Key(c, d) in now' && Key(c, d) !in was
      ensures Right(w, rank, now', c, d)
    {
      if Key(c, d) == Key(a, b) {
        KeyInjective(a, b, c, d);
        StrcmpOpposite(a, b);
      } else {
        assert Right(w, rank, now, c, d);
      }
    }
  }
}
