/**
 The intrusive back-reference lists of libudb/relation.c. Each relation record has a `prev` link,
 which names the record before it or, at the head, the item the list belongs to, and a `next` link.
 */
module RelationLists {
  import opened Basics

  type Obj = nat
  type Rec = nat

  datatype Action = Block | Cascade | Nullify

  /** The list of records of one kind that point at an item. */
  datatype Back = Back(item: Obj, action: Action)

  datatype Link = Item(item: Obj) | Rel(record: Rec)

  ghost predicate NoDup(l: seq<Rec>) {
    forall i, j :: 0 <= i < j < |l| ==> l[i] != l[j]
  }

  function NextOf(l: seq<Rec>, i: nat): Option<Rec>
    requires i <= |l|
  {
    if i < |l| then Some(l[i]) else None
  }

  function PrevOf(o: Obj, l: seq<Rec>, i: nat): Link
    requires i <= |l|
  {
    if i == 0 then Item(o) else Rel(l[i - 1])
  }

  /** Record i of the list is linked to its neighbours, or to the item at the head. */
  ghost predicate LinkedAt(o: Obj, l: seq<Rec>, i: nat, prev: map<Rec, Link>, next: map<Rec, Option<Rec>>)
    requires i < |l|
  {
    l[i] in prev && l[i] in next && prev[l[i]] == PrevOf(o, l, i) && next[l[i]] == NextOf(l, i + 1)
  }

  /** The links spell out the list l of item o. */
  ghost predicate Chained(o: Obj, l: seq<Rec>, head: Option<Rec>, prev: map<Rec, Link>, next: map<Rec, Option<Rec>>) {
    && NoDup(l)
    && head == NextOf(l, 0)
    && (forall i :: 0 <= i < |l| ==> LinkedAt(o, l, i, prev, next))
  }

  function Without(l: seq<Rec>, i: nat): seq<Rec>
    requires i < |l|
  {
    l[..i] + l[i + 1..]
  }

  /** Taking record i out of a list by rewiring its neighbours. */
  lemma Unlinked(o: Obj, l: seq<Rec>, i: nat, head: Option<Rec>, prev: map<Rec, Link>, next: map<Rec, Option<Rec>>,
      head': Option<Rec>, prev': map<Rec, Link>, next': map<Rec, Option<Rec>>)
    requires Chained(o, l, head, prev, next) && i < |l|
    requires head' == if i == 0 then NextOf(l, 1) else head
    requires next' == if i == 0 then next else next[l[i - 1] := NextOf(l, i + 1)]
    requires prev' == if i + 1 < |l| then prev[l[i + 1] := PrevOf(o, l, i)] else prev
    ensures Chained(o, Without(l, i), head', prev', next')
    ensures forall r :: r in Without(l, i) <==> r in l && r != l[i]
  {
    WithoutMembers(l, i);
    forall j | 0 <= j < |l| - 1
      ensures LinkedAt(o, Without(l, i), j, prev', next')
    {
      hide NoDup;
      assert LinkedAt(o, l, if j < i then j else j + 1, prev, next);
      UnlinkedAt(o, l, i, prev, next, prev', next', j);
    }
  }

  lemma UnlinkedAt(o: Obj, l: seq<Rec>, i: nat, prev: map<Rec, Link>, next: map<Rec, Option<Rec>>,
      prev': map<Rec, Link>, next': map<Rec, Option<Rec>>, j: nat)
    requires NoDup(l) && i < |l| && j < |l| - 1
    requires LinkedAt(o, l, if j < i then j else j + 1, prev, next)
    requires next' == if i == 0 then next else next[l[i - 1] := NextOf(l, i + 1)]
    requires prev' == if i + 1 < |l| then prev[l[i + 1] := PrevOf(o, l, i)] else prev
    ensures LinkedAt(o, Without(l, i), j, prev', next')
  {
    var k := Without(l, i);
    var e := if j < i then j else j + 1;
    assert k[j] == l[e] && |k| == |l| - 1;
    assert j > 0 ==> k[j - 1] == l[if j - 1 < i then j - 1 else j];
    assert j + 1 < |k| ==> k[j + 1] == l[if j + 1 < i then j + 1 else j + 2];
    assert i > 0 && e != i - 1 ==> l[e] != l[i - 1];
    assert i + 1 < |l| && e != i + 1 ==> l[e] != l[i + 1];
  }

  lemma WithoutMembers(l: seq<Rec>, i: nat)
    requires NoDup(l) && i < |l|
    ensures NoDup(Without(l, i))
    ensures forall r :: r in Without(l, i) <==> r in l && r != l[i]
  {
    var k := Without(l, i);
    assert forall j :: 0 <= j < |k| ==> k[j] == l[if j < i then j else j + 1];
    forall r | r in l && r != l[i]
      ensures r in k
    {
      var e :| 0 <= e < |l| && l[e] == r;
      assert k[if e < i then e else e - 1] == r;
    }
  }

  /** Putting a record in front of a list. */
  lemma Pushed(o: Obj, l: seq<Rec>, r: Rec, head: Option<Rec>, prev: map<Rec, Link>, next: map<Rec, Option<Rec>>,
      prev': map<Rec, Link>, next': map<Rec, Option<Rec>>)
    requires Chained(o, l, head, prev, next) && r !in l
    requires next' == next[r := head]
    requires prev' == if head.Some? then prev[r := Item(o)][head.value := Rel(r)] else prev[r := Item(o)]
    ensures Chained(o, [r] + l, Some(r), prev', next')
  {
    var k := [r] + l;
    forall j | 0 <= j < |k|
      ensures LinkedAt(o, k, j, prev', next')
    {
      if j > 0 {
        assert LinkedAt(o, l, j - 1, prev, next);
        assert k[j] == l[j - 1] && l[j - 1] in l;
      }
    }
  }

  /** A list none of whose records is rewired stays as it is. */
  lemma Untouched(o: Obj, l: seq<Rec>, head: Option<Rec>, prev: map<Rec, Link>, next: map<Rec, Option<Rec>>,
      prev': map<Rec, Link>, next': map<Rec, Option<Rec>>)
    requires Chained(o, l, head, prev, next)
    requires forall r :: r in l && r in prev ==> r in prev' && prev'[r] == prev[r]
    requires forall r :: r in l && r in next ==> r in next' && next'[r] == next[r]
    ensures Chained(o, l, head, prev', next')
  {
    forall j | 0 <= j < |l|
      ensures LinkedAt(o, l, j, prev', next')
    {
      assert LinkedAt(o, l, j, prev, next);
      assert l[j] in l;
    }
  }
}
