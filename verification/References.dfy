/**
 Referential integrity of libudb/relation.c: relation records kept in step with the objects'
 pointer attributes, deletion with Cascade, Nullify and Block, and the deferred reference checks.
 */
module References {
  import opened Basics
  import opened RelationLists

  type Attr = nat
  type ClassId = nat

  /** What the schema fixes: pointer attributes and their actions, and which classes may not be changed. */
  datatype Schema = Schema(
    relattrs: ClassId -> seq<Attr>,
    action: (ClassId, Attr) -> Action,
    scalar: Attr -> bool,
    readonly: ClassId -> bool,
    loops: (ClassId, Attr) -> bool)

  datatype Field = Field(owner: Obj, attr: Attr)

  /** Object lhs points at object rhs through attribute attr. */
  datatype Ref = Ref(lhs: Obj, attr: Attr, rhs: Obj)

  function ListAt(lists: map<Back, seq<Rec>>, b: Back): seq<Rec> {
    if b in lists then lists[b] else []
  }

  function HeadAt(heads: map<Back, Rec>, b: Back): Option<Rec> {
    if b in heads then Some(heads[b]) else None
  }

  /** Every list is properly linked. */
  ghost predicate Links(lists: map<Back, seq<Rec>>, heads: map<Back, Rec>, prev: map<Rec, Link>,
      next: map<Rec, Option<Rec>>) {
    forall b: Back :: Chained(b.item, ListAt(lists, b), HeadAt(heads, b), prev, next)
  }

  /** A record is in the list it belongs to and in no other. */
  ghost predicate Homes(lists: map<Back, seq<Rec>>, home: map<Rec, Back>) {
    forall b: Back, r: Rec :: r in ListAt(lists, b) <==> r in home && home[r] == b
  }

  /** Rewiring records of one list, or loose ones, leaves every other list linked. */
  lemma OtherLists(lists: map<Back, seq<Rec>>, heads: map<Back, Rec>, home: map<Rec, Back>, prev: map<Rec, Link>,
      next: map<Rec, Option<Rec>>,
      prev': map<Rec, Link>, next': map<Rec, Option<Rec>>, b: Back, c: Back)
    requires Links(lists, heads, prev, next) && Homes(lists, home) && c != b
    requires forall r :: r in prev && (r in home ==> home[r] != b) && r in home ==> r in prev' && prev'[r] == prev[r]
    requires forall r :: r in next && (r in home ==> home[r] != b) && r in home ==> r in next' && next'[r] == next[r]
    ensures Chained(c.item, ListAt(lists, c), HeadAt(heads, c), prev', next')
  {
    hide Chained;
    assert Chained(c.item, ListAt(lists, c), HeadAt(heads, c), prev, next);
    Untouched(c.item, ListAt(lists, c), HeadAt(heads, c), prev, next, prev', next');
  }

  lemma UnlinkedAll(lists: map<Back, seq<Rec>>, heads: map<Back, Rec>, home: map<Rec, Back>, prev: map<Rec, Link>,
      next: map<Rec, Option<Rec>>,
      heads': map<Back, Rec>, prev': map<Rec, Link>, next': map<Rec, Option<Rec>>, b: Back, i: nat)
    requires Links(lists, heads, prev, next) && Homes(lists, home) && b in lists && i < |lists[b]|
    requires forall c :: c != b ==> HeadAt(heads', c) == HeadAt(heads, c)
    requires HeadAt(heads', b) == if i == 0 then NextOf(lists[b], 1) else HeadAt(heads, b)
    requires next' == if i == 0 then next else next[lists[b][i - 1] := NextOf(lists[b], i + 1)]
    requires prev' == if i + 1 < |lists[b]| then prev[lists[b][i + 1] := PrevOf(b.item, lists[b], i)] else prev
    ensures Links(lists[b := Without(lists[b], i)], heads', prev', next')
    ensures Homes(lists[b := Without(lists[b], i)], home - {lists[b][i]})
  {
    hide Chained, NoDup, HeadAt;
    var l := lists[b];
    assert l == ListAt(lists, b);
    assert Chained(b.item, l, HeadAt(heads, b), prev, next);
    Unlinked(b.item, l, i, HeadAt(heads, b), prev, next, HeadAt(heads', b), prev', next');
    UnlinkedHomes(lists, home, b, i);
    assert i > 0 ==> l[i - 1] in ListAt(lists, b);
    assert i + 1 < |l| ==> l[i + 1] in ListAt(lists, b);
    forall c: Back | c != b
      ensures Chained(c.item, ListAt(lists[b := Without(l, i)], c), HeadAt(heads', c), prev', next')
    {
      OtherLists(lists, heads, home, prev, next, prev', next', b, c);
    }
  }

  lemma UnlinkedHomes(lists: map<Back, seq<Rec>>, home: map<Rec, Back>, b: Back, i: nat)
    requires Homes(lists, home) && b in lists && i < |lists[b]|
    requires forall r :: r in Without(lists[b], i) <==> r in lists[b] && r != lists[b][i]
    ensures Homes(lists[b := Without(lists[b], i)], home - {lists[b][i]})
  {
    assert lists[b][i] in ListAt(lists, b);
    var lists', home' := lists[b := Without(lists[b], i)], home - {lists[b][i]};
    forall c: Back, r: Rec
      ensures r in ListAt(lists', c) <==> r in home' && home'[r] == c
    {
      assert r in ListAt(lists, c) <==> r in home && home[r] == c;
    }
  }

  lemma PushedAll(lists: map<Back, seq<Rec>>, heads: map<Back, Rec>, home: map<Rec, Back>, prev: map<Rec, Link>,
      next: map<Rec, Option<Rec>>,
      heads': map<Back, Rec>, prev': map<Rec, Link>, next': map<Rec, Option<Rec>>, b: Back, r: Rec)
    requires Links(lists, heads, prev, next) && Homes(lists, home) && r !in home
    requires heads' == heads[b := r] && next' == next[r := HeadAt(heads, b)]
    requires prev' == if b in heads then prev[r := Item(b.item)][heads[b] := Rel(r)] else prev[r := Item(b.item)]
    ensures Links(lists[b := [r] + ListAt(lists, b)], heads', prev', next')
    ensures Homes(lists[b := [r] + ListAt(lists, b)], home[r := b])
  {
    hide Chained, NoDup;
    var l := ListAt(lists, b);
    assert Chained(b.item, l, HeadAt(heads, b), prev, next);
    Pushed(b.item, l, r, HeadAt(heads, b), prev, next, prev', next');
    assert b in heads ==> heads[b] in ListAt(lists, b) by { HeadIsFirst(b.item, l, HeadAt(heads, b), prev, next); }
    forall c: Back | c != b
      ensures Chained(c.item, ListAt(lists[b := [r] + l], c), HeadAt(heads', c), prev', next')
    {
      OtherLists(lists, heads, home, prev, next, prev', next', b, c);
    }
  }

  lemma HeadIsFirst(o: Obj, l: seq<Rec>, head: Option<Rec>, prev: map<Rec, Link>, next: map<Rec, Option<Rec>>)
    requires Chained(o, l, head, prev, next)
    ensures head.Some? <==> l != []
    ensures head.Some? ==> head.value == l[0]
  {
  }

  function RefOf(lhs: map<Rec, Obj>, rhs: map<Rec, Obj>, attr: map<Rec, Attr>, r: Rec): Ref
    requires r in lhs && r in rhs && r in attr
  {
    Ref(lhs[r], attr[r], rhs[r])
  }

  /** Every record in use is in the list of its rhs and action. */
  ghost predicate RecordsOk(schema: Schema, classOf: map<Obj, ClassId>, home: map<Rec, Back>, lhs: map<Rec, Obj>,
      rhs: map<Rec, Obj>, attr: map<Rec, Attr>) {
    && home.Keys == lhs.Keys
    && (forall r :: r in lhs ==>
      r in rhs && r in attr && lhs[r] in classOf && home[r] == Back(rhs[r], schema.action(classOf[lhs[r]], attr[r])))
  }

  /** One record for every reference. */
  ghost predicate Indexed(recs: map<Ref, Rec>, lhs: map<Rec, Obj>, rhs: map<Rec, Obj>, attr: map<Rec, Attr>) {
    && (forall r :: r in lhs ==>
      r in rhs && r in attr && RefOf(lhs, rhs, attr, r) in recs && recs[RefOf(lhs, rhs, attr, r)] == r)
    && (forall t :: t in recs ==>
      recs[t] in lhs && recs[t] in rhs && recs[t] in attr && RefOf(lhs, rhs, attr, recs[t]) == t)
  }

  function FreeAt(free: map<Attr, seq<Rec>>, a: Attr): seq<Rec> {
    if a in free then free[a] else []
  }

  /** The free list of a relation class: records of that class, not in use. */
  ghost predicate FreeList(l: seq<Rec>, a: Attr, lhs: map<Rec, Obj>, attr: map<Rec, Attr>, nextRec: Rec) {
    && NoDup(l)
    && (forall r :: r in l ==> r !in lhs && r < nextRec && r in attr && attr[r] == a)
  }

  ghost predicate FreeOk(free: map<Attr, seq<Rec>>, lhs: map<Rec, Obj>, attr: map<Rec, Attr>, nextRec: Rec) {
    && (forall r :: r in lhs ==> r < nextRec)
    && (forall a: Attr :: FreeList(FreeAt(free, a), a, lhs, attr, nextRec))
  }

  lemma RecordNew(schema: Schema, classOf: map<Obj, ClassId>, home: map<Rec, Back>, lhs: map<Rec, Obj>,
      rhs: map<Rec, Obj>, attr: map<Rec, Attr>,
      recs: map<Ref, Rec>, r: Rec, t: Ref)
    requires RecordsOk(schema, classOf, home, lhs, rhs, attr) && Indexed(recs, lhs, rhs, attr)
    requires r !in lhs && t !in recs && t.lhs in classOf
    ensures RecordsOk(schema, classOf, home[r := Back(t.rhs, schema.action(classOf[t.lhs], t.attr))], lhs[r := t.lhs],
      rhs[r := t.rhs], attr[r := t.attr])
    ensures Indexed(recs[t := r], lhs[r := t.lhs], rhs[r := t.rhs], attr[r := t.attr])
  {
    var lhs', rhs', attr' := lhs[r := t.lhs], rhs[r := t.rhs], attr[r := t.attr];
    forall e | e in lhs
      ensures e != r && RefOf(lhs', rhs', attr', e) == RefOf(lhs, rhs, attr, e)
    {
    }
  }

  lemma RecordGone(schema: Schema, classOf: map<Obj, ClassId>, home: map<Rec, Back>, lhs: map<Rec, Obj>,
      rhs: map<Rec, Obj>, attr: map<Rec, Attr>,
      recs: map<Ref, Rec>, r: Rec, t: Ref)
    requires RecordsOk(schema, classOf, home, lhs, rhs, attr) && Indexed(recs, lhs, rhs, attr)
    requires r in lhs && t == RefOf(lhs, rhs, attr, r)
    ensures RecordsOk(schema, classOf, home - {r}, lhs - {r}, rhs, attr)
    ensures Indexed(recs - {t}, lhs - {r}, rhs, attr)
    ensures t in recs
  {
    var lhs' := lhs - {r};
    forall e | e in lhs'
      ensures RefOf(lhs', rhs, attr, e) == RefOf(lhs, rhs, attr, e) != t
    {
    }
  }

  /** The references other than those of one attribute of one object. */
  ghost function Others(refs: set<Ref>, x: Obj, a: Attr): set<Ref> {
    set t | t in refs && !(t.lhs == x && t.attr == a)
  }

  /** At most one reference comes from the attribute. */
  ghost predicate Single(refs: set<Ref>, x: Obj, a: Attr) {
    forall t, t' :: t in refs && t' in refs && t.lhs == x == t'.lhs && t.attr == a == t'.attr ==> t == t'
  }

  /** The references other than those of the given attributes of one object. */
  ghost function Cut(refs: set<Ref>, x: Obj, attrs: seq<Attr>): set<Ref> {
    set t | t in refs && !(t.lhs == x && t.attr in attrs)
  }

  lemma CutStep(refs: set<Ref>, x: Obj, attrs: seq<Attr>, i: nat)
    requires i < |attrs|
    ensures Others(Cut(refs, x, attrs[..i]), x, attrs[i]) == Cut(refs, x, attrs[..i + 1])
    ensures Single(refs, x, attrs[i]) ==> Single(Cut(refs, x, attrs[..i]), x, attrs[i])
  {
    assert attrs[..i + 1] == attrs[..i] + [attrs[i]];
  }

  /** The new value points at something the attribute did not point at before. */
  ghost predicate Extends(refs: set<Ref>, x: Obj, a: Attr, ys: seq<Obj>) {
    exists y :: y in ys && Ref(x, a, y) !in refs
  }

  lemma ExtendsTable(refs: set<Ref>, x: Obj, a: Attr, ys: seq<Obj>, want: set<Obj>, table: set<Obj>)
    requires want == (set y | y in ys) && table == set y | y in want && Ref(x, a, y) !in refs
    ensures table != {} <==> Extends(refs, x, a, ys)
  {
    if y :| y in ys && Ref(x, a, y) !in refs {
      assert y in table;
    }
    if y :| y in table {
      assert y in ys;
    }
  }

  /** Of the records of one attribute, those with a rhs in `todo` or `want` are left; all others are as they were. */
  ghost predicate Kept(was: map<Ref, Rec>, now: map<Ref, Rec>, x: Obj, a: Attr, todo: set<Obj>, want: set<Obj>) {
    && (forall t :: t in now <==> t in was && (t.lhs == x && t.attr == a ==> t.rhs in todo || t.rhs in want))
    && (forall t :: t in now ==> now[t] == was[t])
  }

  lemma KeptAll(recs: map<Ref, Rec>, x: Obj, a: Attr, all: set<Obj>, want: set<Obj>)
    requires forall y :: Ref(x, a, y) in recs ==> y in all
    ensures Kept(recs, recs, x, a, all, want)
  {
    forall t | t in recs && t.lhs == x && t.attr == a
      ensures t.rhs in all
    {
      assert t == Ref(x, a, t.rhs);
    }
  }

  lemma KeptLess(was: map<Ref, Rec>, now: map<Ref, Rec>, x: Obj, a: Attr, todo: set<Obj>, want: set<Obj>, y: Obj)
    requires Kept(was, now, x, a, todo, want) && y in todo && Ref(x, a, y) in was
    ensures y in want ==> Kept(was, now, x, a, todo - {y}, want)
    ensures y !in want ==> Kept(was, now - {Ref(x, a, y)}, x, a, todo - {y}, want)
    ensures Ref(x, a, y) in now && now[Ref(x, a, y)] == was[Ref(x, a, y)]
  {
  }

  lemma KeptDone(was: map<Ref, Rec>, now: map<Ref, Rec>, x: Obj, a: Attr, want: set<Obj>, table: set<Obj>)
    requires Kept(was, now, x, a, {}, want) && table == set y | y in want && Ref(x, a, y) !in was
    ensures now.Keys == Others(was.Keys, x, a) + RefsTo(x, a, want - table)
  {
  }

  ghost function RefsTo(x: Obj, a: Attr, ys: set<Obj>): set<Ref> {
    set y | y in ys :: Ref(x, a, y)
  }

  function ActionOf(schema: Schema, classOf: map<Obj, ClassId>, t: Ref): Action {
    if t.lhs in classOf then schema.action(classOf[t.lhs], t.attr) else Block
  }

  function ValueAt(value: map<Field, seq<Obj>>, x: Obj, a: Attr): seq<Obj> {
    if Field(x, a) in value then value[Field(x, a)] else []
  }

  ghost predicate Pointer(schema: Schema, classOf: map<Obj, ClassId>, x: Obj, a: Attr) {
    x in classOf && a in schema.relattrs(classOf[x])
  }

  /** The references on record are exactly the pointer values of the live objects. */
  ghost predicate Matched(schema: Schema, classOf: map<Obj, ClassId>, dead: set<Obj>, value: map<Field, seq<Obj>>,
      refs: set<Ref>) {
    forall t :: t in refs <==>
      Pointer(schema, classOf, t.lhs, t.attr) && t.lhs !in dead && t.rhs in ValueAt(value, t.lhs, t.attr)
  }

  /** Pointer values name objects, and scalar attributes hold at most one. */
  ghost predicate Typed(schema: Schema, classOf: map<Obj, ClassId>, value: map<Field, seq<Obj>>) {
    && (forall x, a, y :: Pointer(schema, classOf, x, a) && y in ValueAt(value, x, a) ==> y in classOf)
    && (forall x, a :: Pointer(schema, classOf, x, a) && schema.scalar(a) ==> |ValueAt(value, x, a)| <= 1)
    && (forall f :: f in value ==> f.owner in classOf)
  }

  /**
   A deleted object, other than those still being deleted, has no Cascade or Nullify reference left,
   and is to be checked if it has a Block reference.
   */
  ghost predicate Settled(schema: Schema, classOf: map<Obj, ClassId>, dead: set<Obj>, pending: set<Obj>,
      refs: set<Ref>, refTable: set<Obj>) {
    forall t :: t in refs && t.rhs in dead && t.rhs !in pending ==>
      ActionOf(schema, classOf, t) == Block && t.rhs in refTable
  }

  /** A collection without the objects in `gone`, in its order. */
  function Removed(s: seq<Obj>, gone: set<Obj>): (r: seq<Obj>)
    ensures forall y :: y in r <==> y in s && y !in gone
    ensures |r| <= |s|
  {
    if s == [] then []
    else
      var rest := Removed(s[..|s| - 1], gone);
      assert forall y :: y in s <==> y in s[..|s| - 1] || y == s[|s| - 1];
      if s[|s| - 1] in gone then rest else rest + [s[|s| - 1]]
  }

  lemma {:induction false} RemovedTwice(s: seq<Obj>, gone: set<Obj>, gone': set<Obj>)
    ensures Removed(Removed(s, gone), gone') == Removed(s, gone + gone')
  {
    if s != [] {
      var t, last := s[..|s| - 1], s[|s| - 1];
      RemovedTwice(t, gone, gone');
      if last !in gone {
        assert Removed(s, gone)[..|Removed(t, gone)|] == Removed(t, gone);
      }
    }
  }

  lemma {:induction false} RemovedNone(s: seq<Obj>, gone: set<Obj>)
    requires forall y :: y in s ==> y !in gone
    ensures Removed(s, gone) == s
  {
    if s != [] {
      RemovedNone(s[..|s| - 1], gone);
    }
  }

  ghost predicate Nullable(schema: Schema, classOf: map<Obj, ClassId>, x: Obj, a: Attr) {
    Pointer(schema, classOf, x, a) && schema.action(classOf[x], a) == Nullify
  }

  /** The live objects' Nullify attributes have lost exactly the objects in `gone`; no other attribute has changed. */
  ghost predicate Nulled(schema: Schema, classOf: map<Obj, ClassId>, dead: set<Obj>, value: map<Field, seq<Obj>>,
      value': map<Field, seq<Obj>>, gone: set<Obj>) {
    forall x: Obj, a: Attr :: x !in dead ==>
      ValueAt(value', x, a) ==
        if Nullable(schema, classOf, x, a) then Removed(ValueAt(value, x, a), gone)
        else ValueAt(value, x, a)
  }

  lemma NulledTwice(schema: Schema, classOf: map<Obj, ClassId>, dead: set<Obj>, dead': set<Obj>,
      value: map<Field, seq<Obj>>, value': map<Field, seq<Obj>>,
      value'': map<Field, seq<Obj>>, gone: set<Obj>, gone': set<Obj>)
    requires Nulled(schema, classOf, dead, value, value', gone) &&
      Nulled(schema, classOf, dead', value', value'', gone') && dead <= dead'
    ensures Nulled(schema, classOf, dead', value, value'', gone + gone')
  {
    hide Nullable, ValueAt, Removed;
    forall x: Obj, a: Attr | x !in dead'
      ensures ValueAt(value'', x, a) ==
        if Nullable(schema, classOf, x, a) then Removed(ValueAt(value, x, a), gone + gone')
        else ValueAt(value, x, a)
    {
      RemovedTwice(ValueAt(value, x, a), gone, gone');
    }
  }

  /**
   The references left after the objects in `gone` are deleted: theirs are dropped, and so are the
   Nullify ones to them.
   */
  ghost function Survive(schema: Schema, classOf: map<Obj, ClassId>, refs: set<Ref>, gone: set<Obj>): set<Ref> {
    set t | t in refs && t.lhs !in gone && !(t.rhs in gone && ActionOf(schema, classOf, t) == Nullify)
  }

  /** Deleting x forces the deletion of y, n Cascade references away. */
  ghost predicate Reaches(schema: Schema, classOf: map<Obj, ClassId>, refs: set<Ref>, x: Obj, y: Obj, n: nat)
    decreases n
  {
    if n == 0 then x == y
    else exists t ::
      t in refs && ActionOf(schema, classOf, t) == Cascade && t.lhs == y &&
      Reaches(schema, classOf, refs, x, t.rhs, n - 1)
  }

  /** The backward closure of x along Cascade references. */
  ghost predicate InClosure(schema: Schema, classOf: map<Obj, ClassId>, refs: set<Ref>, x: Obj, y: Obj) {
    exists n :: Reaches(schema, classOf, refs, x, y, n)
  }

  lemma {:induction false} ReachesMore(schema: Schema, classOf: map<Obj, ClassId>, refs: set<Ref>, refs': set<Ref>,
      x: Obj, y: Obj, n: nat)
    requires refs <= refs' && Reaches(schema, classOf, refs, x, y, n)
    ensures Reaches(schema, classOf, refs', x, y, n)
    decreases n
  {
    if n > 0 {
      var t :| t in refs && ActionOf(schema, classOf, t) == Cascade && t.lhs == y &&
        Reaches(schema, classOf, refs, x, t.rhs, n - 1);
      ReachesMore(schema, classOf, refs, refs', x, t.rhs, n - 1);
    }
  }

  /** What y forces, x forces too, when y has a Cascade reference to x. */
  lemma {:induction false} ReachesThrough(schema: Schema, classOf: map<Obj, ClassId>, refs: set<Ref>, x: Obj, y: Obj,
      z: Obj, n: nat, t: Ref)
    requires t in refs && ActionOf(schema, classOf, t) == Cascade && t.lhs == y && t.rhs == x
    requires Reaches(schema, classOf, refs, y, z, n)
    ensures Reaches(schema, classOf, refs, x, z, n + 1)
    decreases n
  {
    if n == 0 {
      assert Reaches(schema, classOf, refs, x, t.rhs, 0);
    } else {
      var u :| u in refs && ActionOf(schema, classOf, u) == Cascade && u.lhs == z &&
        Reaches(schema, classOf, refs, y, u.rhs, n - 1);
      ReachesThrough(schema, classOf, refs, x, y, u.rhs, n - 1, t);
    }
  }

  lemma ClosureThrough(schema: Schema, classOf: map<Obj, ClassId>, refs: set<Ref>, refs': set<Ref>, x: Obj, z: Obj,
      t: Ref)
    requires refs <= refs' && t in refs' && ActionOf(schema, classOf, t) == Cascade && t.rhs == x
    requires InClosure(schema, classOf, refs, t.lhs, z)
    ensures InClosure(schema, classOf, refs', x, z)
  {
    var n :| Reaches(schema, classOf, refs, t.lhs, z, n);
    ReachesMore(schema, classOf, refs, refs', t.lhs, z, n);
    ReachesThrough(schema, classOf, refs', x, t.lhs, z, n, t);
  }

  /** A set that holds x and every object with a Cascade reference into it holds the closure. */
  lemma {:induction false} ClosureWithin(schema: Schema, classOf: map<Obj, ClassId>, refs: set<Ref>, x: Obj, y: Obj,
      n: nat, gone: set<Obj>)
    requires x in gone && Reaches(schema, classOf, refs, x, y, n)
    requires forall t :: t in refs && ActionOf(schema, classOf, t) == Cascade && t.rhs in gone ==> t.lhs in gone
    ensures y in gone
    decreases n
  {
    if n > 0 {
      var t :| t in refs && ActionOf(schema, classOf, t) == Cascade && t.lhs == y &&
        Reaches(schema, classOf, refs, x, t.rhs, n - 1);
      ClosureWithin(schema, classOf, refs, x, t.rhs, n - 1, gone);
    }
  }

  function Registered(loopTable: map<Attr, set<Obj>>, a: Attr): set<Obj> {
    if a in loopTable then loopTable[a] else {}
  }

  class RefStore {
    const schema: Schema
    // Objects, and the values of their pointer attributes.
    var classOf: map<Obj, ClassId>
    var dead: set<Obj>
    var value: map<Field, seq<Obj>>
    // Relation records; a freed record has no lhs.
    var lhs: map<Rec, Obj>
    var rhs: map<Rec, Obj>
    var attr: map<Rec, Attr>
    var prev: map<Rec, Link>
    var next: map<Rec, Option<Rec>>
    var heads: map<Back, Rec>
    var free: map<Attr, seq<Rec>>
    var nextRec: Rec
    // Checks to be made before commit.
    var refTable: set<Obj>
    var loopTable: map<Attr, set<Obj>>
    // The lists as sequences, the list each record is in, and the record of each reference.
    ghost var lists: map<Back, seq<Rec>>
    ghost var home: map<Rec, Back>
    ghost var recs: map<Ref, Rec>

    constructor (schema: Schema)
      ensures this.schema == schema && Sound({}) && classOf == map[] && dead == {} && recs == map[] &&
        loopTable == map[] && refTable == {}
    {
      this.schema := schema;
      classOf, dead, value, lhs, rhs, attr, prev, next, heads :=
        map[], {}, map[], map[], map[], map[], map[], map[], map[];
      free, nextRec, refTable, loopTable, lists, home, recs := map[], 0, {}, map[], map[], map[], map[];
    }

    ghost predicate Listed()
      reads this`lists, this`heads, this`prev, this`next, this`home
    {
      Links(lists, heads, prev, next) && Homes(lists, home)
    }

    /** The neighbours a record's links name. */
    lemma Neighbours(r: Rec) returns (i: nat)
      requires Listed() && r in home
      ensures home[r] in lists && i < |lists[home[r]]| && lists[home[r]][i] == r && r in prev && r in next
      ensures prev[r] == PrevOf(home[r].item, lists[home[r]], i) && next[r] == NextOf(lists[home[r]], i + 1)
    {
      hide NoDup;
      var b := home[r];
      var l := ListAt(lists, b);
      assert r in l;
      i :| 0 <= i < |l| && l[i] == r;
      assert Chained(b.item, l, HeadAt(heads, b), prev, next);
      assert LinkedAt(b.item, l, i, prev, next);
    }

    /** Take a record out of its list (first half of Update_Relation). */
    method Unlink(r: Rec, item: Obj, action: Action)
      requires Listed() && r in home && home[r] == Back(item, action)
      modifies this`heads, this`prev, this`next, this`lists, this`home
      ensures Listed() && home == old(home) - {r}
      ensures forall b: Back :: b != Back(item, action) ==> ListAt(lists, b) == old(ListAt(lists, b))
      ensures |ListAt(lists, Back(item, action))| < old(|ListAt(lists, Back(item, action))|)
    {
      hide Links, Homes, NoDup;
      var b := Back(item, action);
      ghost var i := Neighbours(r);
      var p, n := prev[r], next[r];
      if p != Item(item) {
        next := next[p.record := n];
      } else if n.Some? {
        heads := heads[b := n.value];
      } else {
        heads := heads - {b};
      }
      if n.Some? {
        prev := prev[n.value := p];
      }
      UnlinkedAll(lists, old(heads), home, old(prev), old(next), heads, prev, next, b, i);
      home := home - {r};
      lists := lists[b := Without(lists[b], i)];
    }

    /** Put a record at the head of an item's list (Build_Relation). */
    method Build(r: Rec, item: Obj, action: Action)
      requires Listed() && r !in home
      modifies this`rhs, this`heads, this`prev, this`next, this`lists, this`home
      ensures Listed() && home == old(home)[r := Back(item, action)] && rhs == old(rhs)[r := item]
      ensures forall b: Back :: b != Back(item, action) ==> ListAt(lists, b) == old(ListAt(lists, b))
      ensures ListAt(lists, Back(item, action)) == [r] + old(ListAt(lists, Back(item, action)))
    {
      hide Links, Homes, NoDup;
      var b := Back(item, action);
      rhs := rhs[r := item];
      prev := prev[r := Item(item)];
      var n := if b in heads then Some(heads[b]) else None;
      next := next[r := n];
      heads := heads[b := r];
      if n.Some? {
        prev := prev[n.value := Rel(r)];
      }
      PushedAll(lists, old(heads), home, old(prev), old(next), heads, prev, next, b, r);
      home := home[r := b];
      lists := lists[b := [r] + ListAt(lists, b)];
    }

    /** The records, their lists and the free lists agree. */
    ghost predicate Recorded()
      reads this`classOf, this`lists, this`heads, this`prev, this`next, this`home, this`lhs, this`rhs, this`attr,
        this`free, this`nextRec, this`recs
    {
      && Listed()
      && RecordsOk(schema, classOf, home, lhs, rhs, attr)
      && Indexed(recs, lhs, rhs, attr)
      && FreeOk(free, lhs, attr, nextRec)
    }

    /** Udb_Edit_Free_Object for a relation class. */
    method EditFreeRecord(a: Attr) returns (r: Rec)
      requires FreeOk(free, lhs, attr, nextRec)
      modifies this`free, this`nextRec, this`attr
      ensures FreeOk(free, lhs, attr, nextRec) && r < nextRec && r !in lhs && attr == old(attr)[r := a] &&
        r !in FreeAt(free, a)
      ensures FreeAt(old(free), a) != [] ==> FreeAt(old(free), a) == [r] + FreeAt(free, a) && nextRec == old(nextRec)
    {
      hide FreeOk;
      if FreeAt(free, a) != [] {
        Popped(free, lhs, attr, nextRec, a);
        r := free[a][0];
        assert attr[r := a] == attr;
        free := free[a := free[a][1..]];
      } else {
        Created(free, lhs, attr, nextRec, a);
        r := nextRec;
        nextRec := nextRec + 1;
        attr := attr[r := a];
      }
    }

    /** New_Relation. */
    method NewRelation(x: Obj, a: Attr, y: Obj, action: Action)
      requires Recorded() && x in classOf && action == schema.action(classOf[x], a) && Ref(x, a, y) !in recs
      modifies this`lists, this`heads, this`prev, this`next, this`home, this`lhs, this`rhs, this`attr, this`free,
        this`nextRec, this`recs
      ensures Recorded() && recs.Keys == old(recs.Keys) + {Ref(x, a, y)}
    {
      hide Links, Homes, FreeOk, NoDup, RecordsOk, Indexed;
      SameRecords();
      var r := EditFreeRecord(a);
      RecordNew(schema, classOf, home, lhs, rhs, old(attr), recs, r, Ref(x, a, y));
      Build(r, y, action);
      Filled(free, lhs, attr, nextRec, r, x);
      lhs := lhs[r := x];
      recs := recs[Ref(x, a, y) := r];
    }

    lemma SameRecords()
      requires Recorded()
      ensures home.Keys == lhs.Keys
    {
      hide Links, Homes, FreeOk, Indexed;
    }

    lemma RecordAt(r: Rec)
      requires Recorded() && r in lhs
      ensures r in rhs && r in attr && lhs[r] in classOf && r in home &&
        home[r] == Back(rhs[r], schema.action(classOf[lhs[r]], attr[r]))
      ensures RefOf(lhs, rhs, attr, r) in recs && recs[RefOf(lhs, rhs, attr, r)] == r
    {
      hide Links, Homes, FreeOk;
    }

    lemma RefAt(t: Ref)
      requires Recorded() && t in recs
      ensures recs[t] in lhs && recs[t] in rhs && recs[t] in attr && RefOf(lhs, rhs, attr, recs[t]) == t &&
        t.lhs in classOf
    {
      hide Links, Homes, FreeOk;
    }

    /** Update_Relation: point a record at another item, or free it. */
    method UpdateRelation(r: Rec, item: Obj, newItem: Option<Obj>, action: Action, ghost t: Ref)
      requires r in lhs && r in rhs && r in attr && t == RefOf(lhs, rhs, attr, r) && t.rhs == item
      requires t.lhs in classOf && action == schema.action(classOf[t.lhs], t.attr)
      requires newItem.Some? ==> newItem.value == item || Ref(t.lhs, t.attr, newItem.value) !in recs
      requires Recorded()
      modifies this`lists, this`heads, this`prev, this`next, this`home, this`lhs, this`rhs, this`free, this`recs
      ensures Recorded() && (newItem == None ==> recs == old(recs) - {t})
      ensures recs.Keys == old(recs.Keys) - {t} + (if newItem.Some? then {Ref(t.lhs, t.attr, newItem.value)} else {})
    {
      hide Links, Homes, FreeOk, NoDup, RecordsOk, Indexed;
      RecordAt(r);
      RecordGone(schema, classOf, home, lhs, rhs, attr, recs, r, t);
      Unlink(r, item, action);
      recs := recs - {t};
      if newItem.Some? {
        Reuse(r, newItem.value, action, t);
      } else {
        AppendFreeList(r);
      }
    }

    /** Udb_Append_Free_List with its lhs cleared. */
    method AppendFreeList(r: Rec)
      requires r in lhs && r in attr && FreeOk(free, lhs, attr, nextRec)
      modifies this`lhs, this`free
      ensures FreeOk(free, lhs, attr, nextRec) && lhs == old(lhs) - {r}
      ensures free == old(free)[attr[r] := [r] + FreeAt(old(free), attr[r])]
    {
      hide FreeOk;
      Freed(free, lhs, attr, nextRec, r);
      free := free[attr[r] := [r] + FreeAt(free, attr[r])];
      lhs := lhs - {r};
    }

    /** A record that is in no list is given a new rhs. */
    method Reuse(r: Rec, item: Obj, action: Action, ghost t: Ref)
      requires r in lhs && r in rhs && r in attr && t == RefOf(lhs, rhs, attr, r) && r !in home
      requires t.lhs in classOf && action == schema.action(classOf[t.lhs], t.attr) && Ref(t.lhs, t.attr, item) !in recs
      requires Listed() && RecordsOk(schema, classOf, home, lhs - {r}, rhs, attr) && Indexed(recs, lhs - {r}, rhs, attr)
      requires FreeOk(free, lhs, attr, nextRec)
      modifies this`lists, this`heads, this`prev, this`next, this`home, this`rhs, this`recs
      ensures Recorded() && recs.Keys == old(recs.Keys) + {Ref(t.lhs, t.attr, item)}
    {
      hide Links, Homes, FreeOk, NoDup, RecordsOk, Indexed;
      RecordNew(schema, classOf, home, lhs - {r}, rhs, attr, recs, r, Ref(t.lhs, t.attr, item));
      assert attr[r := t.attr] == attr && (lhs - {r})[r := t.lhs] == lhs;
      Build(r, item, action);
      recs := recs[Ref(t.lhs, t.attr, item) := r];
    }

    /** Add_Loop_Check, if the object's class asks for it (Maybe_Add_Loop_Check). */
    method MaybeAddLoopCheck(o: Obj, a: Attr)
      requires o in classOf
      modifies this`loopTable
      ensures Registered(loopTable, a) == old(Registered(loopTable, a)) +
        (if schema.loops(classOf[o], a) then {o} else {})
      ensures forall b :: b != a ==> Registered(loopTable, b) == old(Registered(loopTable, b))
    {
      if schema.loops(classOf[o], a) {
        loopTable := loopTable[a := Registered(loopTable, a) + {o}];
      }
    }

    /** The records of one attribute of one object, by rhs (db_find_unique, or the query on lhs). */
    method FindRelations(x: Obj, a: Attr) returns (found: map<Obj, Rec>)
      requires Recorded()
      ensures forall y :: y in found <==> Ref(x, a, y) in recs
      ensures forall y :: y in found ==> found[y] == recs[Ref(x, a, y)]
    {
      hide Links, Homes, FreeOk;
      found := map r | r in lhs && lhs[r] == x && r in attr && attr[r] == a :: rhs[r] := r;
      forall y
        ensures y in found <==> Ref(x, a, y) in recs
        ensures y in found ==> found[y] == recs[Ref(x, a, y)]
      {
        if Ref(x, a, y) in recs {
          var r := recs[Ref(x, a, y)];
          assert RefOf(lhs, rhs, attr, r) == Ref(x, a, y);
        }
      }
    }

    /** Update_Scalar_Relation. */
    method UpdateScalar(x: Obj, a: Attr, y: Option<Obj>, isNew: bool, dontLoop: bool)
      requires x in classOf && (y.Some? ==> y.value in classOf)
      requires Single(recs.Keys, x, a)
      requires isNew ==> forall t :: t in recs ==> !(t.lhs == x && t.attr == a)
      requires Recorded()
      modifies this`lists, this`heads, this`prev, this`next, this`home, this`lhs, this`rhs, this`attr, this`free,
        this`nextRec, this`recs, this`loopTable
      ensures recs.Keys == Others(old(recs.Keys), x, a) + (if y.Some? then {Ref(x, a, y.value)} else {})
      ensures Registered(loopTable, a) == old(Registered(loopTable, a))
        + (if y.Some? && !isNew && !dontLoop && schema.loops(classOf[y.value], a) then {y.value} else {})
      ensures forall b :: b != a ==> Registered(loopTable, b) == old(Registered(loopTable, b))
      ensures Recorded()
    {
      hide Recorded;
      var action := schema.action(classOf[x], a);
      var found := map[];
      if !isNew {
        found := FindRelations(x, a);
      }
      if y0 :| y0 in found {
        RefAt(Ref(x, a, y0));
        UpdateRelation(found[y0], y0, y, action, Ref(x, a, y0));
      } else {
        if y.Some? {
          NewRelation(x, a, y.value, action);
        }
      }
      if y.Some? && !isNew && !dontLoop {
        MaybeAddLoopCheck(y.value, a);
      }
    }

    /** Keep the records whose rhs is still wanted and free the others; return what is wanted and has none. */
    method KeepRelations(x: Obj, a: Attr, want: set<Obj>, action: Action) returns (table: set<Obj>)
      requires x in classOf && action == schema.action(classOf[x], a)
      requires Recorded()
      modifies this`lists, this`heads, this`prev, this`next, this`home, this`lhs, this`rhs, this`free, this`recs
      ensures table == set y | y in want && Ref(x, a, y) !in old(recs)
      ensures recs.Keys == Others(old(recs.Keys), x, a) + RefsTo(x, a, want - table)
      ensures Recorded()
    {
      hide Recorded, Kept;
      var found := FindRelations(x, a);
      table := want;
      var todo := found.Keys;
      KeptAll(recs, x, a, todo, want);
      while todo != {}
        invariant todo <= found.Keys
        invariant table == set y | y in want && y !in found.Keys - todo
        invariant Kept(old(recs), recs, x, a, todo, want)
        invariant Recorded()
        decreases |todo|
      {
        var y :| y in todo;
        KeptLess(old(recs), recs, x, a, todo, want, y);
        todo := todo - {y};
        if table != {} && y in table {
          table := table - {y};
        } else {
          RefAt(Ref(x, a, y));
          UpdateRelation(found[y], y, None, action, Ref(x, a, y));
        }
      }
      KeptDone(old(recs), recs, x, a, want, table);
    }

    /** Make a record for each object in the table. */
    method MakeRelations(x: Obj, a: Attr, table: set<Obj>, action: Action)
      requires x in classOf && action == schema.action(classOf[x], a) &&
        (forall y :: y in table ==> Ref(x, a, y) !in recs)
      requires Recorded()
      modifies this`lists, this`heads, this`prev, this`next, this`home, this`lhs, this`rhs, this`attr, this`free,
        this`nextRec, this`recs
      ensures recs.Keys == old(recs.Keys) + RefsTo(x, a, table)
      ensures Recorded()
    {
      hide Recorded;
      var todo := table;
      while todo != {}
        invariant todo <= table && recs.Keys == old(recs.Keys) + RefsTo(x, a, table - todo)
        invariant Recorded()
        decreases |todo|
      {
        var y :| y in todo;
        todo := todo - {y};
        NewRelation(x, a, y, action);
      }
    }

    /** Update_Vector_Relation: keep the records still wanted, free the others, then make the missing ones. */
    method UpdateVector(x: Obj, a: Attr, ys: seq<Obj>, isNew: bool, dontLoop: bool)
      requires x in classOf && (forall y :: y in ys ==> y in classOf)
      requires isNew ==> forall t :: t in recs ==> !(t.lhs == x && t.attr == a)
      requires Recorded()
      modifies this`lists, this`heads, this`prev, this`next, this`home, this`lhs, this`rhs, this`attr, this`free,
        this`nextRec, this`recs, this`loopTable
      ensures recs.Keys == Others(old(recs.Keys), x, a) + RefsTo(x, a, set y | y in ys)
      ensures Registered(loopTable, a) == old(Registered(loopTable, a))
        + (if !isNew && !dontLoop && schema.loops(classOf[x], a) && Extends(old(recs.Keys), x, a, ys) then {x} else {})
      ensures forall b :: b != a ==> Registered(loopTable, b) == old(Registered(loopTable, b))
      ensures Recorded()
    {
      hide Recorded, Extends;
      var action := schema.action(classOf[x], a);
      var table := set y | y in ys;
      if !isNew {
        ghost var want := table;
        table := KeepRelations(x, a, table, action);
        ExtendsTable(old(recs.Keys), x, a, ys, want, table);
      }
      if table == {} {
        return;
      }
      if !isNew && !dontLoop {
        MaybeAddLoopCheck(x, a);
      }
      MakeRelations(x, a, table, action);
    }

    ghost predicate Sound(pending: set<Obj>)
      reads this
    {
      && Recorded()
      && Matched(schema, classOf, dead, value, recs.Keys)
      && Typed(schema, classOf, value)
      && Settled(schema, classOf, dead, pending, recs.Keys, refTable)
      && refTable <= dead <= classOf.Keys
    }

    /** What the head of a list tells about the references. */
    lemma HeadRef(b: Back)
      requires Recorded()
      ensures b in heads ==>
        heads[b] in lhs && heads[b] in rhs && heads[b] in attr && RefOf(lhs, rhs, attr, heads[b]) in recs
      ensures b in heads ==>
        rhs[heads[b]] == b.item && ActionOf(schema, classOf, RefOf(lhs, rhs, attr, heads[b])) == b.action
      ensures b in heads ==> lhs[heads[b]] in classOf && recs[RefOf(lhs, rhs, attr, heads[b])] == heads[b]
      ensures b !in heads ==> forall t :: t in recs && t.rhs == b.item ==> ActionOf(schema, classOf, t) != b.action
    {
      hide FreeOk, NoDup;
      var l := ListAt(lists, b);
      assert Chained(b.item, l, HeadAt(heads, b), prev, next);
      HeadIsFirst(b.item, l, HeadAt(heads, b), prev, next);
      if b in heads {
        assert heads[b] in l;
        RecordAt(heads[b]);
      } else {
        forall t | t in recs && t.rhs == b.item
          ensures ActionOf(schema, classOf, t) != b.action
        {
          RefAt(t);
          RecordAt(recs[t]);
          assert recs[t] !in l;
        }
      }
    }

    /** Drop_Lhs_Relations: forget all references the object makes. */
    method DropLhs(x: Obj)
      requires x in classOf && x !in dead && Matched(schema, classOf, dead, value, recs.Keys) &&
        Typed(schema, classOf, value)
      requires Recorded()
      modifies this`lists, this`heads, this`prev, this`next, this`home, this`lhs, this`rhs, this`attr, this`free,
        this`nextRec, this`recs, this`loopTable
      ensures recs.Keys == set t | t in old(recs.Keys) && t.lhs != x
      ensures forall a :: Registered(loopTable, a) == old(Registered(loopTable, a))
      ensures Recorded()
    {
      hide Recorded, Matched, Typed, Others, Cut, Single;
      var attrs := schema.relattrs(classOf[x]);
      CutAll(x);
      var i := 0;
      while i < |attrs|
        invariant 0 <= i <= |attrs| && recs.Keys == Cut(old(recs.Keys), x, attrs[..i])
        invariant forall a :: Registered(loopTable, a) == old(Registered(loopTable, a))
        invariant Recorded()
      {
        var a := attrs[i];
        CutStep(old(recs.Keys), x, attrs, i);
        if schema.scalar(a) {
          UpdateScalar(x, a, None, false, true);
        } else {
          UpdateVector(x, a, [], false, true);
          NoRefs(x, a);
        }
        i := i + 1;
      }
      assert attrs[..i] == attrs;
    }

    lemma CutAll(x: Obj)
      requires x in classOf && x !in dead && Matched(schema, classOf, dead, value, recs.Keys) &&
        Typed(schema, classOf, value)
      ensures Cut(recs.Keys, x, []) == recs.Keys
      ensures Cut(recs.Keys, x, schema.relattrs(classOf[x])) == set t | t in recs.Keys && t.lhs != x
      ensures forall a :: a in schema.relattrs(classOf[x]) && schema.scalar(a) ==> Single(recs.Keys, x, a)
    {
    }

    lemma NoRefs(x: Obj, a: Attr)
      ensures RefsTo(x, a, set y | y in []) == {}
    {
    }

    /** Nullify_Attribute: rebuild the attribute without x. */
    method NullifyAttribute(y: Obj, a: Attr, x: Obj)
      requires y in classOf && x in ValueAt(value, y, a)
      requires schema.scalar(a) ==> |ValueAt(value, y, a)| <= 1
      modifies this`value
      ensures value == old(value)[Field(y, a) := Removed(old(ValueAt(value, y, a)), {x})]
    {
      var col := ValueAt(value, y, a);
      var newcol := [];
      if schema.scalar(a) {
        assert col == [x] && col[..0] == [];
      } else {
        var i := 0;
        while i < |col|
          invariant 0 <= i <= |col| && newcol == Removed(col[..i], {x})
        {
          assert col[..i + 1][..i] == col[..i] && col[..i + 1][i] == col[i];
          if col[i] != x {
            newcol := newcol + [col[i]];
          }
          i := i + 1;
        }
        assert col[..i] == col;
      }
      value := value[Field(y, a) := newcol];
    }

    /** One reference is nullified: the attribute and its record go together. */
    lemma NullifiedStep(t: Ref, value': map<Field, seq<Obj>>)
      requires Matched(schema, classOf, dead, value, recs.Keys) && Typed(schema, classOf, value) && t in recs &&
        Nullable(schema, classOf, t.lhs, t.attr)
      requires value' == value[Field(t.lhs, t.attr) := Removed(ValueAt(value, t.lhs, t.attr), {t.rhs})]
      ensures Matched(schema, classOf, dead, value', recs.Keys - {t}) && Typed(schema, classOf, value')
    {
      hide Removed;
      forall u: Ref
        ensures u in recs.Keys - {t} <==>
          Pointer(schema, classOf, u.lhs, u.attr) && u.lhs !in dead && u.rhs in ValueAt(value', u.lhs, u.attr)
      {
        assert Field(u.lhs, u.attr) == Field(t.lhs, t.attr) <==> u.lhs == t.lhs && u.attr == t.attr;
      }
    }

    /** One turn of the Nullify loop. */
    method NullifyHead(x: Obj, ghost was: map<Field, seq<Obj>>, ghost refs: set<Ref>)
      requires Back(x, Nullify) in heads && PartlyNulled(schema, classOf, was, value, refs, recs.Keys, x)
      requires Matched(schema, classOf, dead, value, recs.Keys) && Typed(schema, classOf, value)
      requires Recorded()
      modifies this`lists, this`heads, this`prev, this`next, this`home, this`lhs, this`rhs, this`free, this`recs,
        this`value
      ensures PartlyNulled(schema, classOf, was, value, refs, recs.Keys, x) && |recs| < old(|recs|)
      ensures Matched(schema, classOf, dead, value, recs.Keys) && Typed(schema, classOf, value)
      ensures Recorded()
    {
      hide Recorded, Matched, Typed, Nullable, ValueAt, Removed, PartlyNulled;
      HeadRef(Back(x, Nullify));
      var r := heads[Back(x, Nullify)];
      var y, a := lhs[r], attr[r];
      ghost var t := Ref(y, a, x);
      NullRef(t);
      ghost var value' := value[Field(y, a) := Removed(ValueAt(value, y, a), {x})];
      NullifiedStep(t, value');
      PartlyStep(schema, classOf, was, value, refs, recs.Keys, x, t, value');
      NullifyAttribute(y, a, x);
      UpdateRelation(r, x, None, Nullify, t);
    }

    /** Nullify every Nullify reference to x. */
    method NullifyAll(x: Obj, ghost pending: set<Obj>)
      requires Sound(pending)
      modifies this`lists, this`heads, this`prev, this`next, this`home, this`lhs, this`rhs, this`free, this`recs,
        this`value
      ensures Sound(pending)
      ensures recs.Keys == set t | t in old(recs.Keys) && !(t.rhs == x && ActionOf(schema, classOf, t) == Nullify)
      ensures Nulled(schema, classOf, dead, old(value), value, {x})
    {
      hide Recorded, Matched, Typed, Nullable, ValueAt, Removed, PartlyNulled, Nulled, Settled;
      var b := Back(x, Nullify);
      PartlyStart(schema, classOf, value, recs.Keys, x);
      while b in heads
        invariant PartlyNulled(schema, classOf, old(value), value, old(recs.Keys), recs.Keys, x)
        invariant Matched(schema, classOf, dead, value, recs.Keys) && Typed(schema, classOf, value)
        invariant Recorded()
        decreases |recs|
      {
        NullifyHead(x, old(value), old(recs.Keys));
      }
      HeadRef(b);
      PartlyEnd(schema, classOf, dead, old(value), value, old(recs.Keys), recs.Keys, x);
      SettledLess(schema, classOf, dead, pending, old(recs.Keys), recs.Keys, refTable);
    }

    lemma NullRef(t: Ref)
      requires Matched(schema, classOf, dead, value, recs.Keys) && Typed(schema, classOf, value) && t in recs &&
        ActionOf(schema, classOf, t) == Nullify
      ensures Nullable(schema, classOf, t.lhs, t.attr) && t.lhs in classOf && t.rhs in ValueAt(value, t.lhs, t.attr)
      ensures schema.scalar(t.attr) ==> |ValueAt(value, t.lhs, t.attr)| <= 1
    {
    }

    /** Drop_Loop_Check. */
    method DropLoopCheck(x: Obj)
      modifies this`loopTable
      ensures forall a :: Registered(loopTable, a) == old(Registered(loopTable, a)) - {x}
    {
      loopTable := map a | a in loopTable :: loopTable[a] - {x};
    }

    lemma Parts(pending: set<Obj>)
      requires Sound(pending)
      ensures Recorded() && Matched(schema, classOf, dead, value, recs.Keys) && Typed(schema, classOf, value) &&
        refTable <= dead <= classOf.Keys
      ensures Settled(schema, classOf, dead, pending, recs.Keys, refTable)
    {
      hide Recorded, Matched, Typed, Settled;
    }

    lemma Assemble(pending: set<Obj>)
      requires Recorded() && Matched(schema, classOf, dead, value, recs.Keys) && Typed(schema, classOf, value) &&
        refTable <= dead <= classOf.Keys
      requires Settled(schema, classOf, dead, pending, recs.Keys, refTable)
      ensures Sound(pending)
    {
      hide Recorded, Matched, Typed, Settled;
    }

    /** A new object, which nothing points at and which points at nothing. */
    method NewObject(x: Obj, c: ClassId)
      requires x !in classOf && Recorded()
      modifies this`classOf
      ensures Recorded() && classOf == old(classOf)[x := c]
    {
      hide Links, Homes, FreeOk, Indexed;
      classOf := classOf[x := c];
    }

    /** Udb_Delete_Object, behind the read-only test of Udb_Delete. */
    method DeleteObject(x: Obj, ghost pending: set<Obj>) returns (ok: bool)
      requires x in classOf && x !in dead && pending <= dead && Sound(pending)
      modifies this
      ensures classOf == old(classOf)
      ensures ok ==> x in dead && old(dead) <= dead && Sound(pending)
      ensures ok ==>
        Gone(schema, classOf, x, dead - old(dead), dead, old(recs.Keys), recs.Keys, old(value), value, old(loopTable),
        loopTable)
      ensures !ok ==> Refused(schema, classOf, x, old(recs.Keys))
      decreases classOf.Keys - dead, 0
    {
      hide Sound, Recorded, Matched, Typed, Settled, Gone, Refused;
      if schema.readonly(classOf[x]) {
        RefusedHere(schema, classOf, recs.Keys, x);
        return false;
      }
      Parts(pending);
      DropLhs(x);
      DropLoopCheck(x);
      dead := dead + {x};
      Dropped(schema, classOf, old(dead), value, old(recs.Keys), recs.Keys, x, pending, refTable);
      Assemble(pending + {x});
      ghost var loops, refs := loopTable, recs.Keys;
      ok := ProcessRhs(x, pending + {x});
      if ok {
        assert pending + {x} - {x} == pending;
        assert dead - (old(dead) + {x}) + {x} == dead - old(dead);
        GoneMore(schema, classOf, x, dead - old(dead), dead, old(recs.Keys), refs, recs.Keys, old(value), value,
          old(loopTable), loops, loopTable);
      } else {
        RefusedMore(schema, classOf, x, refs, old(recs.Keys));
      }
    }

    /** Process_Rhs_Relations. */
    method ProcessRhs(x: Obj, ghost pending: set<Obj>) returns (ok: bool)
      requires x in dead && x in pending && pending <= dead && x in classOf && !schema.readonly(classOf[x])
      requires (forall t :: t in recs ==> t.lhs != x) && forall a :: x !in Registered(loopTable, a)
      requires Sound(pending)
      modifies this
      ensures classOf == old(classOf)
      ensures ok ==> old(dead) <= dead && Sound(pending - {x})
      ensures ok ==>
        Gone(schema, classOf, x, dead - old(dead) + {x}, dead, old(recs.Keys), recs.Keys, old(value), value,
        old(loopTable), loopTable)
      ensures !ok ==> Refused(schema, classOf, x, old(recs.Keys))
      decreases classOf.Keys - dead, 2
    {
      hide Sound, Recorded, Matched, Typed, Settled, Gone, Refused;
      ok := CascadeAll(x, pending);
      if !ok {
        return;
      }
      ghost var refs, was := recs.Keys, value;
      GoneShrinks(schema, classOf, x, dead - old(dead), dead, old(recs.Keys), refs, old(value), value, old(loopTable),
        loopTable);
      NullifyAll(x, pending);
      Parts(pending);
      HeadRef(Back(x, Block));
      SettledHere(schema, classOf, dead, pending, recs.Keys, refTable, x, Back(x, Block) in heads);
      if Back(x, Block) in heads {
        refTable := refTable + {x};
      }
      Assemble(pending - {x});
      GoneNull(schema, classOf, x, dead - old(dead), dead, old(recs.Keys), refs, recs.Keys, old(value), was, value,
        old(loopTable), loopTable);
    }

    /** The Cascade loop: each head record's lhs is deleted, which takes the record away. */
    method CascadeAll(x: Obj, ghost pending: set<Obj>) returns (ok: bool)
      requires x in dead && x in pending && pending <= dead && Sound(pending)
      modifies this
      ensures classOf == old(classOf)
      ensures ok ==> old(dead) <= dead && Sound(pending)
      ensures ok ==>
        Gone(schema, classOf, x, dead - old(dead), dead, old(recs.Keys), recs.Keys, old(value), value, old(loopTable),
        loopTable)
      ensures ok ==> forall t :: t in recs && t.rhs == x ==> ActionOf(schema, classOf, t) != Cascade
      ensures !ok ==> Refused(schema, classOf, x, old(recs.Keys))
      decreases classOf.Keys - dead, 1
    {
      hide Sound, Recorded, Matched, Typed, Settled, Gone, Refused;
      var b := Back(x, Cascade);
      GoneNone(schema, classOf, x, dead, recs.Keys, value, loopTable);
      assert dead - old(dead) == {};
      while b in heads
        invariant classOf == old(classOf) && old(dead) <= dead && Sound(pending)
        invariant Gone(schema, classOf, x, dead - old(dead), dead, old(recs.Keys), recs.Keys, old(value), value,
          old(loopTable), loopTable)
        decreases classOf.Keys - dead
      {
        Parts(pending);
        HeadRef(b);
        var y := lhs[heads[b]];
        ghost var t := Ref(y, attr[heads[b]], x);
        LiveLhs(t);
        ghost var dead1, refs1, value1, loops1 := dead, recs.Keys, value, loopTable;
        GoneShrinks(schema, classOf, x, dead - old(dead), dead, old(recs.Keys), recs.Keys, old(value), value,
          old(loopTable), loopTable);
        ok := DeleteObject(y, pending);
        if !ok {
          RefusedThrough(schema, classOf, x, old(recs.Keys), refs1, t);
          return;
        }
        GoneStep(schema, classOf, x, t, dead1 - old(dead), dead - dead1, dead1, dead, old(recs.Keys), refs1, recs.Keys,
          old(value), value1, value, old(loopTable), loops1, loopTable);
        assert dead1 - old(dead) + (dead - dead1) == dead - old(dead);
      }
      Parts(pending);
      HeadRef(b);
      ok := true;
    }

    lemma LiveLhs(t: Ref)
      requires Matched(schema, classOf, dead, value, recs.Keys) && t in recs
      ensures t.lhs !in dead && t.lhs in classOf
    {
    }
  }

  ghost predicate Deletable(schema: Schema, classOf: map<Obj, ClassId>, d: Obj) {
    d in classOf && !schema.readonly(classOf[d])
  }

  /** What deleting the objects in `gone`, because x was deleted, has done to the store. */
  ghost predicate Gone(schema: Schema, classOf: map<Obj, ClassId>, x: Obj, gone: set<Obj>, dead: set<Obj>,
      refs: set<Ref>, now: set<Ref>,
      was: map<Field, seq<Obj>>, value: map<Field, seq<Obj>>, loops: map<Attr, set<Obj>>,
        loopTable: map<Attr, set<Obj>>) {
    && now == Survive(schema, classOf, refs, gone)
    && Nulled(schema, classOf, dead, was, value, gone)
    && (forall a :: Registered(loopTable, a) == Registered(loops, a) - gone)
    && (forall d :: d in gone ==> InClosure(schema, classOf, refs, x, d) && Deletable(schema, classOf, d))
  }

  /** Some object that would have to go along belongs to a read-only class. */
  ghost predicate Refused(schema: Schema, classOf: map<Obj, ClassId>, x: Obj, refs: set<Ref>) {
    exists d :: InClosure(schema, classOf, refs, x, d) && !Deletable(schema, classOf, d)
  }

  lemma RefusedHere(schema: Schema, classOf: map<Obj, ClassId>, refs: set<Ref>, x: Obj)
    requires !Deletable(schema, classOf, x)
    ensures Refused(schema, classOf, x, refs)
  {
    assert Reaches(schema, classOf, refs, x, x, 0);
    assert InClosure(schema, classOf, refs, x, x);
  }

  lemma ClosureMore(schema: Schema, classOf: map<Obj, ClassId>, x: Obj, d: Obj, refs: set<Ref>, refs': set<Ref>)
    requires refs <= refs' && InClosure(schema, classOf, refs, x, d)
    ensures InClosure(schema, classOf, refs', x, d)
  {
    var n :| Reaches(schema, classOf, refs, x, d, n);
    ReachesMore(schema, classOf, refs, refs', x, d, n);
  }

  lemma RefusedMore(schema: Schema, classOf: map<Obj, ClassId>, x: Obj, refs: set<Ref>, refs': set<Ref>)
    requires refs <= refs' && Refused(schema, classOf, x, refs)
    ensures Refused(schema, classOf, x, refs')
  {
    hide InClosure, Deletable;
    var d :| InClosure(schema, classOf, refs, x, d) && !Deletable(schema, classOf, d);
    ClosureMore(schema, classOf, x, d, refs, refs');
  }

  lemma RefusedThrough(schema: Schema, classOf: map<Obj, ClassId>, x: Obj, refs: set<Ref>, refs': set<Ref>, t: Ref)
    requires refs' <= refs && t in refs' && t.rhs == x && ActionOf(schema, classOf, t) == Cascade &&
      Refused(schema, classOf, t.lhs, refs')
    ensures Refused(schema, classOf, x, refs)
  {
    hide InClosure, Deletable;
    var d :| InClosure(schema, classOf, refs', t.lhs, d) && !Deletable(schema, classOf, d);
    ClosureThrough(schema, classOf, refs', refs, x, d, t);
  }

  lemma GoneNone(schema: Schema, classOf: map<Obj, ClassId>, x: Obj, dead: set<Obj>, refs: set<Ref>,
      value: map<Field, seq<Obj>>, loops: map<Attr, set<Obj>>)
    ensures Gone(schema, classOf, x, {}, dead, refs, refs, value, value, loops, loops)
  {
    hide Removed;
    forall y: Obj, a: Attr
      ensures Removed(ValueAt(value, y, a), {}) == ValueAt(value, y, a)
    {
      RemovedNone(ValueAt(value, y, a), {});
    }
  }

  lemma GoneShrinks(schema: Schema, classOf: map<Obj, ClassId>, x: Obj, gone: set<Obj>, dead: set<Obj>, refs: set<Ref>,
      now: set<Ref>,
      was: map<Field, seq<Obj>>, value: map<Field, seq<Obj>>, loops: map<Attr, set<Obj>>,
        loopTable: map<Attr, set<Obj>>)
    requires Gone(schema, classOf, x, gone, dead, refs, now, was, value, loops, loopTable)
    ensures now <= refs && forall a :: Registered(loopTable, a) <= Registered(loops, a)
  {
    hide Nulled, InClosure, Deletable;
  }

  /** Deleting t.lhs, which had a Cascade reference to x, and all that goes with it. */
  lemma GoneStep(schema: Schema, classOf: map<Obj, ClassId>, x: Obj, t: Ref, gone: set<Obj>, more: set<Obj>,
      dead: set<Obj>, dead': set<Obj>,
      refs: set<Ref>, mid: set<Ref>, now: set<Ref>, was: map<Field, seq<Obj>>, between: map<Field, seq<Obj>>,
        value: map<Field, seq<Obj>>,
      loops: map<Attr, set<Obj>>, loops1: map<Attr, set<Obj>>, loopTable: map<Attr, set<Obj>>)
    requires Gone(schema, classOf, x, gone, dead, refs, mid, was, between, loops, loops1)
    requires Gone(schema, classOf, t.lhs, more, dead', mid, now, between, value, loops1, loopTable)
    requires t in mid && t.rhs == x && ActionOf(schema, classOf, t) == Cascade && dead <= dead'
    ensures Gone(schema, classOf, x, gone + more, dead', refs, now, was, value, loops, loopTable)
  {
    hide InClosure, Nulled, Deletable, ActionOf;
    NulledTwice(schema, classOf, dead, dead', was, between, value, gone, more);
    assert now == Survive(schema, classOf, refs, gone + more);
    forall d | d in gone + more
      ensures InClosure(schema, classOf, refs, x, d) && Deletable(schema, classOf, d)
    {
      if d !in gone {
        ClosureThrough(schema, classOf, mid, refs, x, d, t);
      }
    }
  }

  /** Seen from before x's own references and loop checks were dropped. */
  lemma GoneMore(schema: Schema, classOf: map<Obj, ClassId>, x: Obj, gone: set<Obj>, dead: set<Obj>, refs: set<Ref>,
      refs1: set<Ref>, now: set<Ref>,
      was: map<Field, seq<Obj>>, value: map<Field, seq<Obj>>, loops: map<Attr, set<Obj>>, loops1: map<Attr, set<Obj>>,
        loopTable: map<Attr, set<Obj>>)
    requires Gone(schema, classOf, x, gone, dead, refs1, now, was, value, loops1, loopTable)
    requires x in gone && refs1 == (set t | t in refs && t.lhs != x) && forall a ::
      Registered(loops1, a) == Registered(loops, a) - {x}
    ensures Gone(schema, classOf, x, gone, dead, refs, now, was, value, loops, loopTable)
  {
    hide InClosure, Nulled, Deletable, ActionOf;
    forall d | d in gone
      ensures InClosure(schema, classOf, refs, x, d)
    {
      ClosureMore(schema, classOf, x, d, refs1, refs);
    }
  }

  /** Nullifying x itself, after all that had Cascade references to it. */
  lemma GoneNull(schema: Schema, classOf: map<Obj, ClassId>, x: Obj, gone: set<Obj>, dead: set<Obj>, refs: set<Ref>,
      mid: set<Ref>, now: set<Ref>,
      was: map<Field, seq<Obj>>, between: map<Field, seq<Obj>>, value: map<Field, seq<Obj>>,
        loops: map<Attr, set<Obj>>, loopTable: map<Attr, set<Obj>>)
    requires Gone(schema, classOf, x, gone, dead, refs, mid, was, between, loops, loopTable)
    requires now == set t | t in mid && !(t.rhs == x && ActionOf(schema, classOf, t) == Nullify)
    requires Nulled(schema, classOf, dead, between, value, {x}) && Deletable(schema, classOf, x)
    requires (forall t :: t in refs ==> t.lhs != x) && forall a :: x !in Registered(loopTable, a)
    ensures Gone(schema, classOf, x, gone + {x}, dead, refs, now, was, value, loops, loopTable)
  {
    assert Reaches(schema, classOf, refs, x, x, 0);
    assert InClosure(schema, classOf, refs, x, x);
    hide InClosure, Nulled, Deletable, ActionOf;
    NulledTwice(schema, classOf, dead, dead, was, between, value, gone, {x});
  }

  /** Marking x deleted once its own references are dropped. */
  lemma Dropped(schema: Schema, classOf: map<Obj, ClassId>, dead: set<Obj>, value: map<Field, seq<Obj>>,
      refs: set<Ref>, now: set<Ref>,
      x: Obj, pending: set<Obj>, refTable: set<Obj>)
    requires Matched(schema, classOf, dead, value, refs) && Settled(schema, classOf, dead, pending, refs, refTable)
    requires now == set t | t in refs && t.lhs != x
    ensures Matched(schema, classOf, dead + {x}, value, now) &&
      Settled(schema, classOf, dead + {x}, pending + {x}, now, refTable)
  {
    hide Pointer, ValueAt, ActionOf;
  }

  /** Some Nullify references to x have been taken away, from their attributes as well. */
  ghost predicate PartlyNulled(schema: Schema, classOf: map<Obj, ClassId>, was: map<Field, seq<Obj>>,
      value: map<Field, seq<Obj>>, refs: set<Ref>, now: set<Ref>, x: Obj) {
    && now <= refs
    && (forall t :: t in refs && t !in now ==> t.rhs == x && Nullable(schema, classOf, t.lhs, t.attr))
    && (forall y: Obj, a: Attr ::
      ValueAt(value, y, a) == if Ref(y, a, x) in refs - now then Removed(ValueAt(was, y, a), {x})
      else ValueAt(was, y, a))
  }

  lemma PartlyStart(schema: Schema, classOf: map<Obj, ClassId>, value: map<Field, seq<Obj>>, refs: set<Ref>, x: Obj)
    ensures PartlyNulled(schema, classOf, value, value, refs, refs, x)
  {
  }

  lemma PartlyStep(schema: Schema, classOf: map<Obj, ClassId>, was: map<Field, seq<Obj>>, value: map<Field, seq<Obj>>,
      refs: set<Ref>, now: set<Ref>, x: Obj,
      t: Ref, value': map<Field, seq<Obj>>)
    requires PartlyNulled(schema, classOf, was, value, refs, now, x) && t in now && t.rhs == x &&
      Nullable(schema, classOf, t.lhs, t.attr)
    requires value' == value[Field(t.lhs, t.attr) := Removed(ValueAt(value, t.lhs, t.attr), {x})]
    ensures PartlyNulled(schema, classOf, was, value', refs, now - {t}, x)
  {
    hide Removed, Nullable;
  }

  lemma PartlyEnd(schema: Schema, classOf: map<Obj, ClassId>, dead: set<Obj>, was: map<Field, seq<Obj>>,
      value: map<Field, seq<Obj>>, refs: set<Ref>, now: set<Ref>, x: Obj)
    requires PartlyNulled(schema, classOf, was, value, refs, now, x) && Matched(schema, classOf, dead, was, refs)
    requires forall t :: t in now && t.rhs == x ==> ActionOf(schema, classOf, t) != Nullify
    ensures Nulled(schema, classOf, dead, was, value, {x})
    ensures now == set t | t in refs && !(t.rhs == x && ActionOf(schema, classOf, t) == Nullify)
  {
    hide Removed, ValueAt;
    forall y: Obj, a: Attr | y !in dead
      ensures ValueAt(value, y, a) == if Nullable(schema, classOf, y, a) then Removed(ValueAt(was, y, a), {x})
        else ValueAt(was, y, a)
    {
      var t := Ref(y, a, x);
      if Nullable(schema, classOf, y, a) && x !in ValueAt(was, y, a) {
        RemovedNone(ValueAt(was, y, a), {x});
      }
      assert t in refs <==> Pointer(schema, classOf, y, a) && x in ValueAt(was, y, a);
    }
  }

  lemma SettledHere(schema: Schema, classOf: map<Obj, ClassId>, dead: set<Obj>, pending: set<Obj>, refs: set<Ref>,
      refTable: set<Obj>, x: Obj, blocked: bool)
    requires Settled(schema, classOf, dead, pending, refs, refTable)
    requires forall t :: t in refs && t.rhs == x ==> ActionOf(schema, classOf, t) == Block && blocked
    ensures Settled(schema, classOf, dead, pending - {x}, refs, if blocked then refTable + {x} else refTable)
  {
  }

  lemma SettledLess(schema: Schema, classOf: map<Obj, ClassId>, dead: set<Obj>, pending: set<Obj>, refs: set<Ref>,
      now: set<Ref>, refTable: set<Obj>)
    requires Settled(schema, classOf, dead, pending, refs, refTable) && now <= refs
    ensures Settled(schema, classOf, dead, pending, now, refTable)
  {
  }

  lemma Popped(free: map<Attr, seq<Rec>>, lhs: map<Rec, Obj>, attr: map<Rec, Attr>, nextRec: Rec, a: Attr)
    requires FreeOk(free, lhs, attr, nextRec) && a in free && free[a] != []
    ensures FreeOk(free[a := free[a][1..]], lhs, attr, nextRec)
    ensures free[a][0] !in lhs && free[a][0] < nextRec && free[a][0] in attr && attr[free[a][0]] == a
    ensures free[a][0] !in free[a][1..]
  {
    hide FreeList;
    var l, free' := free[a], free[a := free[a][1..]];
    assert FreeList(FreeAt(free, a), a, lhs, attr, nextRec);
    TailOf(l, a, lhs, attr, nextRec);
    forall a': Attr
      ensures FreeList(FreeAt(free', a'), a', lhs, attr, nextRec)
    {
      assert FreeList(FreeAt(free, a'), a', lhs, attr, nextRec);
    }
  }

  lemma TailOf(l: seq<Rec>, a: Attr, lhs: map<Rec, Obj>, attr: map<Rec, Attr>, nextRec: Rec)
    requires FreeList(l, a, lhs, attr, nextRec) && l != []
    ensures FreeList(l[1..], a, lhs, attr, nextRec) && l[0] !in l[1..]
    ensures l[0] !in lhs && l[0] < nextRec && l[0] in attr && attr[l[0]] == a
  {
    assert forall i :: 0 <= i < |l| - 1 ==> l[1..][i] == l[i + 1];
    assert forall r :: r in l[1..] ==> r in l;
    assert l[0] in l;
  }

  lemma Filled(free: map<Attr, seq<Rec>>, lhs: map<Rec, Obj>, attr: map<Rec, Attr>, nextRec: Rec, r: Rec, x: Obj)
    requires r in attr && r !in FreeAt(free, attr[r]) && r < nextRec && FreeOk(free, lhs, attr, nextRec)
    ensures FreeOk(free, lhs[r := x], attr, nextRec)
  {
    forall a: Attr
      ensures FreeList(FreeAt(free, a), a, lhs[r := x], attr, nextRec)
    {
      assert FreeList(FreeAt(free, a), a, lhs, attr, nextRec);
    }
  }

  lemma Created(free: map<Attr, seq<Rec>>, lhs: map<Rec, Obj>, attr: map<Rec, Attr>, nextRec: Rec, a: Attr)
    requires FreeOk(free, lhs, attr, nextRec)
    ensures FreeOk(free, lhs, attr[nextRec := a], nextRec + 1) && nextRec !in lhs && nextRec !in FreeAt(free, a)
  {
    forall a': Attr
      ensures FreeList(FreeAt(free, a'), a', lhs, attr[nextRec := a], nextRec + 1)
    {
      assert FreeList(FreeAt(free, a'), a', lhs, attr, nextRec);
    }
  }

  lemma Freed(free: map<Attr, seq<Rec>>, lhs: map<Rec, Obj>, attr: map<Rec, Attr>, nextRec: Rec, r: Rec)
    requires r in lhs && r in attr && FreeOk(free, lhs, attr, nextRec)
    ensures FreeOk(free[attr[r] := [r] + FreeAt(free, attr[r])], lhs - {r}, attr, nextRec)
  {
    var free' := free[attr[r] := [r] + FreeAt(free, attr[r])];
    forall a: Attr
      ensures FreeList(FreeAt(free', a), a, lhs - {r}, attr, nextRec)
    {
      assert FreeList(FreeAt(free, a), a, lhs, attr, nextRec);
    }
  }
}
