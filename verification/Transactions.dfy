/**
 The operations of a transaction on the reference store (libudb/create.c, update.c, delete.c) and
 the checks that gate its commit (libudb/transaction.c).
 */
module Transactions {
  import opened Basics
  import opened RelationLists
  import opened References
  import LoopCheck

  datatype Outcome = Done | NoItem | UsedUuid | ReadOnly | BadValue

  // Loops among the recorded references.

  function After(i: nat, n: nat): nat
    requires i < n
  {
    if i + 1 < n then i + 1 else 0
  }

  ghost predicate Flagged(schema: Schema, classOf: map<Obj, ClassId>, x: Obj, a: Attr) {
    x in classOf && schema.loops(classOf[x], a)
  }

  ghost predicate Step(schema: Schema, classOf: map<Obj, ClassId>, refs: set<Ref>, a: Attr, c: seq<Obj>, i: nat)
    requires i < |c|
  {
    Flagged(schema, classOf, c[i], a) && Ref(c[i], a, c[After(i, |c|)]) in refs
  }

  /** A loop of live objects whose classes forbid loops in the attribute. */
  ghost predicate RefCycle(schema: Schema, classOf: map<Obj, ClassId>, refs: set<Ref>, a: Attr, c: seq<Obj>) {
    c != [] && forall i :: 0 <= i < |c| ==> Step(schema, classOf, refs, a, c, i)
  }

  ghost predicate Meets(c: seq<Obj>, objects: set<Obj>) {
    exists i :: 0 <= i < |c| && c[i] in objects
  }

  /** Every such loop contains an object registered for the loop check. */
  ghost predicate Guarded(schema: Schema, classOf: map<Obj, ClassId>, refs: set<Ref>, loopTable: map<Attr, set<Obj>>) {
    forall a, c :: RefCycle(schema, classOf, refs, a, c) ==> Meets(c, Registered(loopTable, a))
  }

  /** The references after an object's attributes in `done` were given the new values. */
  ghost predicate Replaced(refs: set<Ref>, now: set<Ref>, x: Obj, vals: map<Attr, seq<Obj>>, done: set<Attr>) {
    forall t :: t in now <==> if t.lhs == x && t.attr in done then t.attr in vals && t.rhs in vals[t.attr]
      else t in refs
  }

  /** The objects an update of one attribute registers for the loop check. */
  ghost function Registers(schema: Schema, classOf: map<Obj, ClassId>, refs: set<Ref>, x: Obj, a: Attr,
      ys: seq<Obj>): set<Obj> {
    if schema.scalar(a) then set y | y in ys && Flagged(schema, classOf, y, a)
    else if Flagged(schema, classOf, x, a) && Extends(refs, x, a, ys) then {x} else {}
  }

  lemma ReplacedStep(refs: set<Ref>, mid: set<Ref>, now: set<Ref>, x: Obj, vals: map<Attr, seq<Obj>>, done: set<Attr>,
      a: Attr)
    requires Replaced(refs, mid, x, vals, done) && a in vals
    requires now == Others(mid, x, a) + RefsTo(x, a, set y | y in vals[a])
    ensures Replaced(refs, now, x, vals, done + {a})
  {
    forall t: Ref
      ensures t in now <==> if t.lhs == x && t.attr in done + {a} then t.attr in vals && t.rhs in vals[t.attr]
        else t in refs
    {
      if t.lhs == x && t.attr == a {
        assert t == Ref(x, a, t.rhs);
      }
    }
  }

  lemma ReplacedAttr(refs: set<Ref>, mid: set<Ref>, x: Obj, vals: map<Attr, seq<Obj>>, done: set<Attr>, a: Attr,
      ys: seq<Obj>)
    requires Replaced(refs, mid, x, vals, done) && a !in done
    ensures Single(refs, x, a) ==> Single(mid, x, a)
    ensures (forall t :: t in refs ==> t.lhs != x) ==> forall t :: t in mid ==> !(t.lhs == x && t.attr == a)
    ensures Extends(refs, x, a, ys) <==> Extends(mid, x, a, ys)
  {
  }

  /** A scalar value as the object it points at. */
  function Target(ys: seq<Obj>): Option<Obj> {
    if ys == [] then None else Some(ys[0])
  }

  lemma TargetSet(x: Obj, a: Attr, ys: seq<Obj>)
    requires |ys| <= 1
    ensures RefsTo(x, a, set y | y in ys) == if Target(ys).Some? then {Ref(x, a, Target(ys).value)} else {}
  {
    if |ys| == 1 {
      assert (set y | y in ys) == {ys[0]};
    } else {
      assert (set y | y in ys) == {};
    }
  }

  /** The loop table after updating the attributes in `done`. */
  ghost predicate Enrolled(schema: Schema, classOf: map<Obj, ClassId>, refs: set<Ref>, x: Obj,
      vals: map<Attr, seq<Obj>>, done: set<Attr>, isNew: bool,
      loops: map<Attr, set<Obj>>, loops': map<Attr, set<Obj>>) {
    forall a ::
      Registered(loops', a) == Registered(loops, a) + if a in vals && a in done &&
        !isNew then Registers(schema, classOf, refs, x, a, vals[a]) else {}
  }

  lemma EnrolledStep(schema: Schema, classOf: map<Obj, ClassId>, refs: set<Ref>, x: Obj, vals: map<Attr, seq<Obj>>,
      done: set<Attr>, isNew: bool,
      loops: map<Attr, set<Obj>>, loops1: map<Attr, set<Obj>>, loops2: map<Attr, set<Obj>>, a: Attr)
    requires Enrolled(schema, classOf, refs, x, vals, done, isNew, loops, loops1) && a in vals && a !in done
    requires Registered(loops2, a) == Registered(loops1, a) + if isNew then {}
      else Registers(schema, classOf, refs, x, a, vals[a])
    requires forall b :: b != a ==> Registered(loops2, b) == Registered(loops1, b)
    ensures Enrolled(schema, classOf, refs, x, vals, done + {a}, isNew, loops, loops2)
  {
    hide Registers;
  }

  /** The update of one attribute, scalar or not. */
  method UpdateAttribute(s: RefStore, x: Obj, a: Attr, ys: seq<Obj>, isNew: bool)
    requires x in s.classOf && (forall y :: y in ys ==> y in s.classOf)
    requires s.schema.scalar(a) ==> |ys| <= 1 && Single(s.recs.Keys, x, a)
    requires isNew ==> forall t :: t in s.recs ==> !(t.lhs == x && t.attr == a)
    requires s.Recorded()
    modifies s`lists, s`heads, s`prev, s`next, s`home, s`lhs, s`rhs, s`attr, s`free, s`nextRec, s`recs, s`loopTable
    ensures s.recs.Keys == Others(old(s.recs.Keys), x, a) + RefsTo(x, a, set y | y in ys)
    ensures Registered(s.loopTable, a) == old(Registered(s.loopTable, a)) + if isNew then {}
      else Registers(s.schema, s.classOf, old(s.recs.Keys), x, a, ys)
    ensures forall b :: b != a ==> Registered(s.loopTable, b) == old(Registered(s.loopTable, b))
    ensures s.Recorded()
  {
    hide RefStore.Recorded, Single, Extends, Others, RefsTo;
    if s.schema.scalar(a) {
      TargetSet(x, a, ys);
      s.UpdateScalar(x, a, Target(ys), isNew, false);
    } else {
      s.UpdateVector(x, a, ys, isNew, false);
    }
  }

  /** The values name objects, scalar ones at most one, and a new object has no references yet. */
  ghost predicate Fits(schema: Schema, classOf: map<Obj, ClassId>, refs: set<Ref>, x: Obj, vals: map<Attr, seq<Obj>>,
      isNew: bool) {
    && (forall a, y :: a in vals && y in vals[a] ==> y in classOf)
    && (forall a :: a in vals && schema.scalar(a) ==> |vals[a]| <= 1 && Single(refs, x, a))
    && (isNew ==> forall t :: t in refs ==> t.lhs != x)
  }

  lemma FitsAt(schema: Schema, classOf: map<Obj, ClassId>, refs: set<Ref>, mid: set<Ref>, x: Obj,
      vals: map<Attr, seq<Obj>>, isNew: bool, done: set<Attr>, a: Attr)
    requires Fits(schema, classOf, refs, x, vals, isNew) && Replaced(refs, mid, x, vals, done) && a in vals &&
      a !in done
    ensures forall y :: y in vals[a] ==> y in classOf
    ensures schema.scalar(a) ==> |vals[a]| <= 1 && Single(mid, x, a)
    ensures isNew ==> forall t :: t in mid ==> !(t.lhs == x && t.attr == a)
    ensures Registers(schema, classOf, refs, x, a, vals[a]) == Registers(schema, classOf, mid, x, a, vals[a])
  {
    hide Replaced, Single, Extends;
    ReplacedAttr(refs, mid, x, vals, done, a, vals[a]);
  }

  /** Udb_Update_Relations. */
  method UpdateRelations(s: RefStore, x: Obj, vals: map<Attr, seq<Obj>>, isNew: bool)
    requires x in s.classOf && Fits(s.schema, s.classOf, s.recs.Keys, x, vals, isNew)
    requires s.Recorded()
    modifies s`lists, s`heads, s`prev, s`next, s`home, s`lhs, s`rhs, s`attr, s`free, s`nextRec, s`recs, s`loopTable
    ensures Replaced(old(s.recs.Keys), s.recs.Keys, x, vals, vals.Keys)
    ensures Enrolled(s.schema, s.classOf, old(s.recs.Keys), x, vals, vals.Keys, isNew, old(s.loopTable), s.loopTable)
    ensures s.Recorded()
  {
    hide RefStore.Recorded, Replaced, Single, Extends, Others, RefsTo, Enrolled, Registers, Fits;
    var todo := vals.Keys;
    ghost var done: set<Attr> := {};
    ReplacedNone(s.recs.Keys, x, vals);
    EnrolledNone(s.schema, s.classOf, s.recs.Keys, x, vals, isNew, s.loopTable);
    while todo != {}
      invariant (forall a :: a in done <==> a in vals && a !in todo) && todo <= vals.Keys
      invariant Replaced(old(s.recs.Keys), s.recs.Keys, x, vals, done)
      invariant Enrolled(s.schema, s.classOf, old(s.recs.Keys), x, vals, done, isNew, old(s.loopTable), s.loopTable)
      invariant s.Recorded()
      decreases |todo|
    {
      var a :| a in todo;
      ghost var mid, loops := s.recs.Keys, s.loopTable;
      FitsAt(s.schema, s.classOf, old(s.recs.Keys), mid, x, vals, isNew, done, a);
      UpdateAttribute(s, x, a, vals[a], isNew);
      ReplacedStep(old(s.recs.Keys), mid, s.recs.Keys, x, vals, done, a);
      EnrolledStep(s.schema, s.classOf, old(s.recs.Keys), x, vals, done, isNew, old(s.loopTable), loops, s.loopTable,
        a);
      todo, done := todo - {a}, done + {a};
    }
    assert done == vals.Keys;
  }

  lemma ReplacedNone(refs: set<Ref>, x: Obj, vals: map<Attr, seq<Obj>>)
    ensures Replaced(refs, refs, x, vals, {})
  {
  }

  lemma EnrolledNone(schema: Schema, classOf: map<Obj, ClassId>, refs: set<Ref>, x: Obj, vals: map<Attr, seq<Obj>>,
      isNew: bool, loops: map<Attr, set<Obj>>)
    ensures Enrolled(schema, classOf, refs, x, vals, {}, isNew, loops, loops)
  {
  }

  // Operations.

  function SetValues(value: map<Field, seq<Obj>>, x: Obj, vals: map<Attr, seq<Obj>>): map<Field, seq<Obj>> {
    map f | f in value.Keys + (set a | a in vals :: Field(x, a)) :: if f.owner == x && f.attr in vals then vals[f.attr]
      else value[f]
  }

  lemma SetValueAt(value: map<Field, seq<Obj>>, x: Obj, vals: map<Attr, seq<Obj>>, y: Obj, a: Attr)
    ensures ValueAt(SetValues(value, x, vals), y, a) == if y == x && a in vals then vals[a] else ValueAt(value, y, a)
  {
    if y == x && a in vals {
      assert Field(x, a) in (set b | b in vals :: Field(x, b));
    }
  }

  /** The values an object of class c may be given: its pointer attributes, naming live objects. */
  predicate Acceptable(schema: Schema, classOf: map<Obj, ClassId>, dead: set<Obj>, c: ClassId,
      vals: map<Attr, seq<Obj>>) {
    forall a :: a in vals ==>
      a in schema.relattrs(c) && (schema.scalar(a) ==> |vals[a]| <= 1) && forall y :: y in vals[a] ==>
        y in classOf && y !in dead
  }

  lemma MatchedUpdate(schema: Schema, classOf: map<Obj, ClassId>, dead: set<Obj>, value: map<Field, seq<Obj>>,
      refs: set<Ref>, now: set<Ref>, x: Obj, vals: map<Attr, seq<Obj>>)
    requires Matched(schema, classOf, dead, value, refs) && Replaced(refs, now, x, vals, vals.Keys)
    requires x in classOf && x !in dead && forall a :: a in vals ==> a in schema.relattrs(classOf[x])
    ensures Matched(schema, classOf, dead, SetValues(value, x, vals), now)
  {
    hide SetValues, ValueAt;
    forall t: Ref
      ensures t in now <==>
        Pointer(schema, classOf, t.lhs, t.attr) && t.lhs !in dead &&
          t.rhs in ValueAt(SetValues(value, x, vals), t.lhs, t.attr)
    {
      SetValueAt(value, x, vals, t.lhs, t.attr);
    }
  }

  lemma TypedUpdate(schema: Schema, classOf: map<Obj, ClassId>, dead: set<Obj>, value: map<Field, seq<Obj>>, x: Obj,
      vals: map<Attr, seq<Obj>>)
    requires Typed(schema, classOf, value) && x in classOf && Acceptable(schema, classOf, dead, classOf[x], vals)
    ensures Typed(schema, classOf, SetValues(value, x, vals))
  {
    hide ValueAt, Pointer;
    forall y: Obj, a: Attr
      ensures ValueAt(SetValues(value, x, vals), y, a) == if y == x && a in vals then vals[a] else ValueAt(value, y, a)
    {
      SetValueAt(value, x, vals, y, a);
    }
  }

  lemma SettledUpdate(schema: Schema, classOf: map<Obj, ClassId>, dead: set<Obj>, refs: set<Ref>, now: set<Ref>,
      refTable: set<Obj>, x: Obj, vals: map<Attr, seq<Obj>>)
    requires Settled(schema, classOf, dead, {}, refs, refTable) && Replaced(refs, now, x, vals, vals.Keys)
    requires x in classOf && Acceptable(schema, classOf, dead, classOf[x], vals)
    ensures Settled(schema, classOf, dead, {}, now, refTable)
  {
    hide ActionOf;
  }

  lemma FitsUpdate(schema: Schema, classOf: map<Obj, ClassId>, dead: set<Obj>, value: map<Field, seq<Obj>>,
      refs: set<Ref>, x: Obj, vals: map<Attr, seq<Obj>>)
    requires Matched(schema, classOf, dead, value, refs) && Typed(schema, classOf, value)
    requires x in classOf && Acceptable(schema, classOf, dead, classOf[x], vals)
    ensures Fits(schema, classOf, refs, x, vals, false)
  {
    forall a | a in vals && schema.scalar(a)
      ensures Single(refs, x, a)
    {
      OneRef(schema, classOf, dead, value, refs, x, a);
    }
  }

  lemma OneRef(schema: Schema, classOf: map<Obj, ClassId>, dead: set<Obj>, value: map<Field, seq<Obj>>, refs: set<Ref>,
      x: Obj, a: Attr)
    requires Matched(schema, classOf, dead, value, refs) && Typed(schema, classOf, value) && schema.scalar(a)
    ensures Single(refs, x, a)
  {
  }

  /** Only live objects are registered for the loop check. */
  ghost predicate Enlisted(classOf: map<Obj, ClassId>, dead: set<Obj>, loops: map<Attr, set<Obj>>) {
    forall a, x :: x in Registered(loops, a) ==> x in classOf && x !in dead
  }

  lemma EnlistedUpdate(schema: Schema, classOf: map<Obj, ClassId>, dead: set<Obj>, refs: set<Ref>, x: Obj,
      vals: map<Attr, seq<Obj>>, isNew: bool, loops: map<Attr, set<Obj>>, loops': map<Attr, set<Obj>>)
    requires Enlisted(classOf, dead, loops) && x in classOf && x !in dead &&
      Acceptable(schema, classOf, dead, classOf[x], vals)
    requires Enrolled(schema, classOf, refs, x, vals, vals.Keys, isNew, loops, loops')
    ensures Enlisted(classOf, dead, loops')
  {
    hide Flagged, Extends, Registered;
    forall a, y | y in Registered(loops', a)
      ensures y in classOf && y !in dead
    {
      if y !in Registered(loops, a) {
        assert a in vals && y in Registers(schema, classOf, refs, x, a, vals[a]);
      }
    }
  }

  /** Everything the store promises between operations. */
  ghost predicate Valid(s: RefStore)
    reads s
  {
    && s.Sound({}) && Guarded(s.schema, s.classOf, s.recs.Keys, s.loopTable)
    && Enlisted(s.classOf, s.dead, s.loopTable)
  }

  /** Udb_Update. */
  method Update(s: RefStore, x: Obj, vals: map<Attr, seq<Obj>>) returns (res: Outcome)
    requires Valid(s)
    modifies s
    ensures Valid(s) && s.classOf == old(s.classOf) && s.dead == old(s.dead) && s.refTable == old(s.refTable)
    ensures res == NoItem <==> x !in s.classOf || x in s.dead
    ensures res == ReadOnly <==> x in s.classOf && x !in s.dead && s.schema.readonly(s.classOf[x])
    ensures res == Done <==>
      x in s.classOf && x !in s.dead && !s.schema.readonly(s.classOf[x]) &&
        Acceptable(s.schema, s.classOf, s.dead, s.classOf[x], vals)
    ensures res == Done ==>
      s.value == SetValues(old(s.value), x, vals) && Replaced(old(s.recs.Keys), s.recs.Keys, x, vals, vals.Keys)
    ensures res == Done ==>
      Enrolled(s.schema, s.classOf, old(s.recs.Keys), x, vals, vals.Keys, false, old(s.loopTable), s.loopTable)
    ensures res != Done ==> s.value == old(s.value) && s.recs == old(s.recs) && s.loopTable == old(s.loopTable)
  {
    hide RefStore.Sound, RefStore.Recorded, Matched, Typed, Settled, Acceptable, Guarded, Fits, Replaced, Enrolled,
      SetValues, Enlisted;
    if x !in s.classOf || x in s.dead {
      return NoItem;
    }
    if s.schema.readonly(s.classOf[x]) {
      return ReadOnly;
    }
    if !Acceptable(s.schema, s.classOf, s.dead, s.classOf[x], vals) {
      return BadValue;
    }
    s.Parts({});
    AcceptableAttrs(s.schema, s.classOf, s.dead, s.classOf[x], vals);
    FitsUpdate(s.schema, s.classOf, s.dead, s.value, s.recs.Keys, x, vals);
    s.value := SetValues(s.value, x, vals);
    UpdateRelations(s, x, vals, false);
    MatchedUpdate(s.schema, s.classOf, s.dead, old(s.value), old(s.recs.Keys), s.recs.Keys, x, vals);
    TypedUpdate(s.schema, s.classOf, s.dead, old(s.value), x, vals);
    SettledUpdate(s.schema, s.classOf, s.dead, old(s.recs.Keys), s.recs.Keys, s.refTable, x, vals);
    GuardedUpdate(s.schema, s.classOf, old(s.recs.Keys), s.recs.Keys, x, vals, old(s.loopTable), s.loopTable);
    EnlistedUpdate(s.schema, s.classOf, s.dead, old(s.recs.Keys), x, vals, false, old(s.loopTable), s.loopTable);
    s.Assemble({});
    res := Done;
  }

  lemma AcceptableAttrs(schema: Schema, classOf: map<Obj, ClassId>, dead: set<Obj>, c: ClassId,
      vals: map<Attr, seq<Obj>>)
    requires Acceptable(schema, classOf, dead, c, vals)
    ensures forall a :: a in vals ==> a in schema.relattrs(c)
  {
  }

  /** A loop that the update closes goes through an object the update registers. */
  lemma GuardedUpdate(schema: Schema, classOf: map<Obj, ClassId>, refs: set<Ref>, now: set<Ref>, x: Obj,
      vals: map<Attr, seq<Obj>>,
      loops: map<Attr, set<Obj>>, loops': map<Attr, set<Obj>>)
    requires Guarded(schema, classOf, refs, loops) && Replaced(refs, now, x, vals, vals.Keys)
    requires Enrolled(schema, classOf, refs, x, vals, vals.Keys, false, loops, loops')
    ensures Guarded(schema, classOf, now, loops')
  {
    hide RefCycle, Meets, Replaced, Enrolled;
    forall a, c | RefCycle(schema, classOf, now, a, c)
      ensures Meets(c, Registered(loops', a))
    {
      CycleUpdate(schema, classOf, refs, now, x, vals, loops, loops', a, c);
    }
  }

  lemma CycleUpdate(schema: Schema, classOf: map<Obj, ClassId>, refs: set<Ref>, now: set<Ref>, x: Obj,
      vals: map<Attr, seq<Obj>>,
      loops: map<Attr, set<Obj>>, loops': map<Attr, set<Obj>>, a: Attr, c: seq<Obj>)
    requires Replaced(refs, now, x, vals, vals.Keys) && RefCycle(schema, classOf, now, a, c)
    requires RefCycle(schema, classOf, refs, a, c) ==> Meets(c, Registered(loops, a))
    requires Enrolled(schema, classOf, refs, x, vals, vals.Keys, false, loops, loops')
    ensures Meets(c, Registered(loops', a))
  {
    hide Registered, Flagged;
    if i :| 0 <= i < |c| && Ref(c[i], a, c[After(i, |c|)]) !in refs {
      assert Step(schema, classOf, now, a, c, i);
      assert c[i] == x && a in vals;
      var y := c[After(i, |c|)];
      assert Step(schema, classOf, now, a, c, After(i, |c|));
      assert Extends(refs, x, a, vals[a]);
      assert x in Registers(schema, classOf, refs, x, a, vals[a]) ||
        y in Registers(schema, classOf, refs, x, a, vals[a]);
    } else {
      forall i | 0 <= i < |c|
        ensures Step(schema, classOf, refs, a, c, i)
      {
        assert Step(schema, classOf, now, a, c, i);
      }
      var i :| 0 <= i < |c| && c[i] in Registered(loops, a);
      assert c[i] in Registered(loops', a);
    }
  }

  /** Udb_Create: the values are looked up before the object exists, so nothing points at it yet, not even itself. */
  method Create(s: RefStore, x: Obj, c: ClassId, vals: map<Attr, seq<Obj>>) returns (res: Outcome)
    requires Valid(s)
    modifies s
    ensures Valid(s) && s.dead == old(s.dead) && s.refTable == old(s.refTable)
    ensures res == Done <==>
      !s.schema.readonly(c) && Acceptable(s.schema, old(s.classOf), s.dead, c, vals) && x !in old(s.classOf)
    ensures res == UsedUuid ==> x in s.classOf
    ensures res == Done ==> s.classOf == old(s.classOf)[x := c]
    ensures res == Done ==>
      s.value == SetValues(old(s.value), x, vals) && Replaced(old(s.recs.Keys), s.recs.Keys, x, vals, vals.Keys)
    ensures forall a :: Registered(s.loopTable, a) == old(Registered(s.loopTable, a))
    ensures res != Done ==>
      s.classOf == old(s.classOf) && s.value == old(s.value) && s.recs == old(s.recs) && s.loopTable == old(s.loopTable)
  {
    hide RefStore.Sound, RefStore.Recorded, Matched, Typed, Settled, Acceptable, Guarded, Fits, Replaced, Enrolled,
      SetValues, Registered;
    if s.schema.readonly(c) {
      return ReadOnly;
    }
    if !Acceptable(s.schema, s.classOf, s.dead, c, vals) {
      return BadValue;
    }
    if x in s.classOf {
      return UsedUuid;
    }
    s.Parts({});
    AcceptableAttrs(s.schema, s.classOf, s.dead, c, vals);
    NewMatched(s.schema, s.classOf, s.dead, s.value, s.recs.Keys, s.refTable, x, c, vals);
    s.NewObject(x, c);
    s.value := SetValues(s.value, x, vals);
    UpdateRelations(s, x, vals, true);
    MatchedUpdate(s.schema, s.classOf, s.dead, old(s.value), old(s.recs.Keys), s.recs.Keys, x, vals);
    TypedUpdate(s.schema, s.classOf, s.dead, old(s.value), x, vals);
    SettledUpdate(s.schema, s.classOf, s.dead, old(s.recs.Keys), s.recs.Keys, s.refTable, x, vals);
    GuardedCreate(s.schema, old(s.classOf), s.dead, c, old(s.recs.Keys), s.recs.Keys, x, vals, old(s.loopTable),
      s.loopTable);
    NotEnrolled(s.schema, s.classOf, old(s.recs.Keys), x, vals, old(s.loopTable), s.loopTable);
    s.Assemble({});
    res := Done;
  }

  lemma NotEnrolled(schema: Schema, classOf: map<Obj, ClassId>, refs: set<Ref>, x: Obj, vals: map<Attr, seq<Obj>>,
      loops: map<Attr, set<Obj>>, loops': map<Attr, set<Obj>>)
    requires Enrolled(schema, classOf, refs, x, vals, vals.Keys, true, loops, loops')
    ensures forall a :: Registered(loops', a) == Registered(loops, a)
  {
  }

  /** An object without values changes nothing about the others. */
  lemma NewMatched(schema: Schema, classOf: map<Obj, ClassId>, dead: set<Obj>, value: map<Field, seq<Obj>>,
      refs: set<Ref>, refTable: set<Obj>, x: Obj, c: ClassId,
      vals: map<Attr, seq<Obj>>)
    requires Matched(schema, classOf, dead, value, refs) && Typed(schema, classOf, value) &&
      Settled(schema, classOf, dead, {}, refs, refTable)
    requires x !in classOf && dead <= classOf.Keys && Acceptable(schema, classOf, dead, c, vals)
    ensures Matched(schema, classOf[x := c], dead, value, refs) && Typed(schema, classOf[x := c], value)
    ensures Settled(schema, classOf[x := c], dead, {}, refs, refTable)
    ensures Acceptable(schema, classOf[x := c], dead, c, vals) && Fits(schema, classOf[x := c], refs, x, vals, true)
    ensures forall t :: t in refs ==> t.lhs in classOf && t.rhs in classOf
  {
    assert forall a :: ValueAt(value, x, a) == [];
    forall t | t in refs
      ensures t.lhs in classOf && t.lhs != x && t.rhs in classOf
    {
    }
  }

  /** No loop goes through an object nothing points at. */
  lemma GuardedCreate(schema: Schema, classOf: map<Obj, ClassId>, dead: set<Obj>, c: ClassId, refs: set<Ref>,
      now: set<Ref>, x: Obj, vals: map<Attr, seq<Obj>>,
      loops: map<Attr, set<Obj>>, loops': map<Attr, set<Obj>>)
    requires Guarded(schema, classOf, refs, loops) && Replaced(refs, now, x, vals, vals.Keys)
    requires x !in classOf && Acceptable(schema, classOf, dead, c, vals) && forall t :: t in refs ==>
      t.lhs in classOf && t.rhs in classOf
    requires Enrolled(schema, classOf[x := c], refs, x, vals, vals.Keys, true, loops, loops')
    ensures Guarded(schema, classOf[x := c], now, loops')
  {
    hide RefCycle, Meets;
    forall a, p | RefCycle(schema, classOf[x := c], now, a, p)
      ensures Meets(p, Registered(loops', a))
    {
      forall t | t in now
        ensures t.rhs != x && (t.lhs != x ==> t in refs)
      {
      }
      CycleCreate(schema, classOf, c, refs, now, x, a, p);
      assert Registered(loops', a) == Registered(loops, a);
    }
  }

  lemma CycleCreate(schema: Schema, classOf: map<Obj, ClassId>, c: ClassId, refs: set<Ref>, now: set<Ref>, x: Obj,
      a: Attr, p: seq<Obj>)
    requires RefCycle(schema, classOf[x := c], now, a, p) && forall t :: t in now ==>
      t.rhs != x && (t.lhs != x ==> t in refs)
    ensures RefCycle(schema, classOf, refs, a, p)
  {
    forall i | 0 <= i < |p|
      ensures Step(schema, classOf, refs, a, p, i)
    {
      var h := if i == 0 then |p| - 1 else i - 1;
      assert Step(schema, classOf[x := c], now, a, p, h) && Step(schema, classOf[x := c], now, a, p, i);
      assert After(h, |p|) == i;
      assert Ref(p[h], a, p[i]) in now;
    }
  }

  /** Udb_Delete: succeeds exactly when nothing that must go along is read-only, and then deletes exactly that. */
  method Delete(s: RefStore, x: Obj) returns (res: Outcome)
    requires Valid(s)
    modifies s
    ensures s.classOf == old(s.classOf)
    ensures res == NoItem <==> x !in s.classOf || x in old(s.dead)
    ensures res == NoItem ==>
      Valid(s) && s.dead == old(s.dead) && s.value == old(s.value) && s.recs == old(s.recs) &&
        s.loopTable == old(s.loopTable)
    ensures res == Done || res == ReadOnly || res == NoItem
    ensures res != NoItem ==> (res == Done <==> !Refused(s.schema, s.classOf, x, old(s.recs.Keys)))
    ensures res == Done ==> Valid(s) && old(s.dead) <= s.dead
    ensures res == Done ==> forall y :: y in s.dead - old(s.dead) <==>
      InClosure(s.schema, s.classOf, old(s.recs.Keys), x, y)
    ensures res == Done ==> s.recs.Keys == Survive(s.schema, s.classOf, old(s.recs.Keys), s.dead - old(s.dead))
    ensures res == Done ==> Nulled(s.schema, s.classOf, s.dead, old(s.value), s.value, s.dead - old(s.dead))
    ensures res == Done ==> forall a ::
      Registered(s.loopTable, a) == old(Registered(s.loopTable, a)) - (s.dead - old(s.dead))
  {
    hide RefStore.Sound, RefStore.Recorded, Matched, Typed, Settled, Guarded, Gone, Refused, Nulled, InClosure,
      Registered;
    if x !in s.classOf || x in s.dead {
      return NoItem;
    }
    var ok := s.DeleteObject(x, {});
    if !ok {
      return ReadOnly;
    }
    s.Parts({});
    DeletedClosure(s.schema, s.classOf, x, s.dead - old(s.dead), s.dead, old(s.recs.Keys), s.recs.Keys, old(s.value),
      s.value, old(s.loopTable), s.loopTable, s.refTable);
    GuardedDelete(s.schema, s.classOf, x, s.dead - old(s.dead), s.dead, old(s.recs.Keys), s.recs.Keys, old(s.value),
      s.value, old(s.loopTable), s.loopTable);
    res := Done;
  }

  /** What was deleted is the whole closure, and none of it read-only. */
  lemma DeletedClosure(schema: Schema, classOf: map<Obj, ClassId>, x: Obj, gone: set<Obj>, dead: set<Obj>,
      refs: set<Ref>, now: set<Ref>,
      was: map<Field, seq<Obj>>, value: map<Field, seq<Obj>>, loops: map<Attr, set<Obj>>, loops': map<Attr, set<Obj>>,
        refTable: set<Obj>)
    requires Gone(schema, classOf, x, gone, dead, refs, now, was, value, loops, loops') && x in gone && gone <= dead
    requires Settled(schema, classOf, dead, {}, now, refTable)
    ensures forall y :: y in gone <==> InClosure(schema, classOf, refs, x, y)
    ensures !Refused(schema, classOf, x, refs)
    ensures now == Survive(schema, classOf, refs, gone) && Nulled(schema, classOf, dead, was, value, gone)
    ensures forall a :: Registered(loops', a) == Registered(loops, a) - gone
  {
    hide Nulled, ActionOf, Deletable;
    forall t | t in refs && ActionOf(schema, classOf, t) == Cascade && t.rhs in gone
      ensures t.lhs in gone
    {
      assert t.lhs !in gone ==> t in now;
    }
    forall y | InClosure(schema, classOf, refs, x, y)
      ensures y in gone
    {
      var n :| Reaches(schema, classOf, refs, x, y, n);
      ClosureWithin(schema, classOf, refs, x, y, n, gone);
    }
  }

  lemma GuardedDelete(schema: Schema, classOf: map<Obj, ClassId>, x: Obj, gone: set<Obj>, dead: set<Obj>,
      refs: set<Ref>, now: set<Ref>,
      was: map<Field, seq<Obj>>, value: map<Field, seq<Obj>>, loops: map<Attr, set<Obj>>, loops': map<Attr, set<Obj>>)
    requires Guarded(schema, classOf, refs, loops) &&
      Gone(schema, classOf, x, gone, dead, refs, now, was, value, loops, loops')
    ensures Guarded(schema, classOf, now, loops')
  {
    hide Nulled, InClosure, Deletable, Flagged, Registered;
    forall a, c | RefCycle(schema, classOf, now, a, c)
      ensures Meets(c, Registered(loops', a))
    {
      forall i | 0 <= i < |c|
        ensures Step(schema, classOf, refs, a, c, i) && c[i] !in gone
      {
        assert Step(schema, classOf, now, a, c, i);
      }
      assert RefCycle(schema, classOf, refs, a, c);
      var i :| 0 <= i < |c| && c[i] in Registered(loops, a);
      assert c[i] in Registered(loops', a);
    }
  }

  // The checks before commit.

  const MAX_ERRORS := 10

  ghost predicate Blocks(schema: Schema, classOf: map<Obj, ClassId>, t: Ref, objects: set<Obj>) {
    t.rhs in objects && ActionOf(schema, classOf, t) == Block
  }

  /** Walk one object's Block list, reporting its references until there are ten. */
  method ReportBlocks(s: RefStore, o: Obj, found: seq<Ref>) returns (errors: seq<Ref>)
    requires s.Recorded() && |found| <= MAX_ERRORS
    ensures |errors| <= MAX_ERRORS && found <= errors
    ensures forall t :: t in errors ==> t in found || (t in s.recs && Blocks(s.schema, s.classOf, t, {o}))
    ensures |errors| < MAX_ERRORS ==> forall t :: t in s.recs && Blocks(s.schema, s.classOf, t, {o}) ==> t in errors
  {
    hide RefStore.Recorded, ActionOf;
    errors := found;
    var b := Back(o, Block);
    ghost var k := 0;
    BlockList(s, o, 0);
    var relation := if b in s.heads then Some(s.heads[b]) else None;
    while relation.Some? && |errors| < MAX_ERRORS
      invariant found <= errors && |errors| <= MAX_ERRORS && k <= |ListAt(s.lists, b)|
      invariant relation == NextOf(ListAt(s.lists, b), k)
      invariant forall t :: t in errors ==> t in found || (t in s.recs && Blocks(s.schema, s.classOf, t, {o}))
      invariant forall i :: 0 <= i < k ==> BlockAt(s, o, i) in errors
      decreases MAX_ERRORS - |errors|
    {
      var r := relation.value;
      BlockList(s, o, k);
      errors := errors + [Ref(s.lhs[r], s.attr[r], s.rhs[r])];
      k := k + 1;
      relation := s.next[r];
    }
    if relation == None {
      forall t | t in s.recs && Blocks(s.schema, s.classOf, t, {o})
        ensures t in errors
      {
        var i := InBlockList(s, o, t);
      }
    }
  }

  /** The reference that record i of the object's Block list stands for. */
  ghost function BlockAt(s: RefStore, o: Obj, i: nat): Ref
    reads s
  {
    var l := ListAt(s.lists, Back(o, Block));
    if i < |l| && l[i] in s.lhs && l[i] in s.rhs && l[i] in s.attr then RefOf(s.lhs, s.rhs, s.attr, l[i])
      else Ref(0, 0, 0)
  }

  /** The links of the Block list lead from its head through all its records. */
  lemma BlockList(s: RefStore, o: Obj, k: nat)
    requires s.Recorded()
    ensures var l := ListAt(s.lists, Back(o, Block));
      && HeadAt(s.heads, Back(o, Block)) == NextOf(l, 0)
      && (k < |l| ==>
        && l[k] in s.next && s.next[l[k]] == NextOf(l, k + 1) && l[k] in s.lhs && l[k] in s.rhs && l[k] in s.attr
        && BlockAt(s, o, k) == RefOf(s.lhs, s.rhs, s.attr, l[k]) && BlockAt(s, o, k) in s.recs
        && Blocks(s.schema, s.classOf, BlockAt(s, o, k), {o}))
  {
    hide FreeOk, NoDup;
    var b, l := Back(o, Block), ListAt(s.lists, Back(o, Block));
    assert Chained(b.item, l, HeadAt(s.heads, b), s.prev, s.next);
    if k < |l| {
      assert LinkedAt(b.item, l, k, s.prev, s.next) && l[k] in l;
      s.SameRecords();
      s.RecordAt(l[k]);
    }
  }

  /** Every Block reference to the object is in its list. */
  lemma InBlockList(s: RefStore, o: Obj, t: Ref) returns (i: nat)
    requires s.Recorded() && t in s.recs && Blocks(s.schema, s.classOf, t, {o})
    ensures i < |ListAt(s.lists, Back(o, Block))| && BlockAt(s, o, i) == t
  {
    hide FreeOk, NoDup, Links;
    var r, l := s.recs[t], ListAt(s.lists, Back(o, Block));
    assert r in s.lhs && RefOf(s.lhs, s.rhs, s.attr, r) == t;
    s.RecordAt(r);
    assert r in l;
    i :| 0 <= i < |l| && l[i] == r;
  }

  /** Udb_Do_Reference_Checks: errors, up to ten, if some object in the table has a Block reference. */
  method DoReferenceChecks(s: RefStore) returns (errors: seq<Ref>)
    requires s.Recorded()
    modifies s`refTable
    ensures |errors| <= MAX_ERRORS
    ensures errors == [] <==> forall t :: t in s.recs ==> !Blocks(s.schema, s.classOf, t, old(s.refTable))
    ensures forall t :: t in errors ==> t in s.recs && Blocks(s.schema, s.classOf, t, old(s.refTable))
    ensures |errors| < MAX_ERRORS ==>
      forall t :: t in s.recs && Blocks(s.schema, s.classOf, t, old(s.refTable)) ==> t in errors
  {
    hide RefStore.Recorded, ActionOf;
    errors := [];
    while |errors| < MAX_ERRORS && s.refTable != {}
      invariant |errors| <= MAX_ERRORS && s.Recorded() && s.refTable <= old(s.refTable)
      invariant forall t :: t in errors ==> t in s.recs && Blocks(s.schema, s.classOf, t, old(s.refTable))
      invariant |errors| < MAX_ERRORS ==> forall t ::
        t in s.recs && Blocks(s.schema, s.classOf, t, old(s.refTable) - s.refTable) ==> t in errors
      decreases |s.refTable|
    {
      var o :| o in s.refTable;
      s.refTable := s.refTable - {o};
      errors := ReportBlocks(s, o, errors);
    }
    assert errors != [] ==> errors[0] in errors;
  }

  /** The pointer graph of one attribute, over all objects that have it. */
  function LoopGraph(schema: Schema, classOf: map<Obj, ClassId>, value: map<Field, seq<Obj>>,
      a: Attr): LoopCheck.Graph {
    map x | x in classOf && a in schema.relattrs(classOf[x]) :: ValueAt(value, x, a)
  }

  ghost predicate LoopFree(s: RefStore, a: Attr)
    reads s`loopTable, s`classOf, s`value
  {
    forall x :: x in Registered(s.loopTable, a) ==> !LoopCheck.LoopsFrom(LoopGraph(s.schema, s.classOf, s.value, a), x)
  }

  /** Udb_Do_Loop_Checks. */
  method DoLoopChecks(s: RefStore) returns (ok: bool, attr: Attr, loop: seq<Obj>)
    requires Typed(s.schema, s.classOf, s.value)
    ensures ok <==> forall a :: LoopFree(s, a)
    ensures !ok ==> exists c ::
      LoopCheck.Cycle(LoopGraph(s.schema, s.classOf, s.value, attr), c) && loop == LoopCheck.Report(c)
  {
    hide LoopCheck.LoopsFrom, LoopCheck.Cycle, LoopCheck.Report, Typed, LoopGraph, ValueAt;
    ok, attr, loop := true, 0, [];
    var todo := s.loopTable.Keys;
    while todo != {}
      invariant todo <= s.loopTable.Keys && forall a :: a in s.loopTable && a !in todo ==> LoopFree(s, a)
      decreases |todo|
    {
      var a :| a in todo;
      todo := todo - {a};
      var graph := LoopGraph(s.schema, s.classOf, s.value, a);
      if s.schema.scalar(a) {
        ScalarGraph(s.schema, s.classOf, s.value, a);
      }
      var search := new LoopCheck.LoopSearch(graph);
      var found := search.CheckObjects(s.loopTable[a], s.schema.scalar(a));
      assert LoopFree(s, a) <==> found == None;
      if found.Some? {
        return false, a, found.value;
      }
    }
  }

  lemma ScalarGraph(schema: Schema, classOf: map<Obj, ClassId>, value: map<Field, seq<Obj>>, a: Attr)
    requires Typed(schema, classOf, value) && schema.scalar(a)
    ensures forall x :: x in LoopGraph(schema, classOf, value, a) ==> |LoopGraph(schema, classOf, value, a)[x]| <= 1
  {
    hide ValueAt;
    forall x | x in LoopGraph(schema, classOf, value, a)
      ensures |LoopGraph(schema, classOf, value, a)[x]| <= 1
    {
      assert Pointer(schema, classOf, x, a);
    }
  }

  /** From every object of a loop the search finds a loop. */
  lemma CycleIsFound(schema: Schema, classOf: map<Obj, ClassId>, dead: set<Obj>, value: map<Field, seq<Obj>>,
      refs: set<Ref>, a: Attr, c: seq<Obj>, i: nat)
    requires Matched(schema, classOf, dead, value, refs) && RefCycle(schema, classOf, refs, a, c) && i < |c|
    ensures LoopCheck.LoopsFrom(LoopGraph(schema, classOf, value, a), c[i])
  {
    hide ValueAt;
    var g := LoopGraph(schema, classOf, value, a);
    var p := c[i..] + c[..i] + [c[i]];
    forall k | 0 < k < |p|
      ensures LoopCheck.Edge(g, p[k - 1], p[k])
    {
      var h := if i + k - 1 < |c| then i + k - 1 else i + k - 1 - |c|;
      assert p[k - 1] == c[h] && p[k] == c[After(h, |c|)];
      assert Step(schema, classOf, refs, a, c, h);
      assert Ref(c[h], a, c[After(h, |c|)]) in refs;
    }
    assert LoopCheck.Walk(g, p) && p[0] == c[i] && p[0] == p[|p| - 1];
  }

  /** No reference to a deleted object, and no loop where the schema forbids them. */
  ghost predicate Consistent(s: RefStore)
    reads s
  {
    && (forall t :: t in s.recs ==> t.rhs !in s.dead)
    && (forall a, c :: !RefCycle(s.schema, s.classOf, s.recs.Keys, a, c))
  }

  /** A loop can be reached from x along references, all of which are made by live objects. */
  ghost predicate RefLoops(refs: set<Ref>, a: Attr, x: Obj) {
    exists p: seq<Obj>, j: nat :: RefWalk(refs, a, p) && p[0] == x && j < |p| - 1 && p[j] == p[|p| - 1]
  }

  ghost predicate RefWalk(refs: set<Ref>, a: Attr, p: seq<Obj>) {
    p != [] && forall i :: 0 < i < |p| ==> Ref(p[i - 1], a, p[i]) in refs
  }

  /** Without references to deleted objects the search from a live object follows the recorded references. */
  lemma SearchFollows(schema: Schema, classOf: map<Obj, ClassId>, dead: set<Obj>, value: map<Field, seq<Obj>>,
      refs: set<Ref>, a: Attr, x: Obj)
    requires Matched(schema, classOf, dead, value, refs) && x in classOf && x !in dead && forall t :: t in refs ==>
      t.rhs !in dead
    ensures LoopCheck.LoopsFrom(LoopGraph(schema, classOf, value, a), x) <==> RefLoops(refs, a, x)
  {
    hide ValueAt, Matched, LoopGraph, LoopCheck.Edge;
    var g := LoopGraph(schema, classOf, value, a);
    if LoopCheck.LoopsFrom(g, x) {
      var p: seq<Obj>, j: nat :| LoopCheck.Walk(g, p) && p[0] == x && j < |p| - 1 && p[j] == p[|p| - 1];
      WalkFollows(schema, classOf, dead, value, refs, a, p, |p| - 1);
    }
    if RefLoops(refs, a, x) {
      var p: seq<Obj>, j: nat :| RefWalk(refs, a, p) && p[0] == x && j < |p| - 1 && p[j] == p[|p| - 1];
      forall i | 0 < i < |p|
        ensures LoopCheck.Edge(g, p[i - 1], p[i])
      {
        EdgeIsRef(schema, classOf, dead, value, refs, a, p[i - 1], p[i]);
      }
      assert LoopCheck.Walk(g, p);
    }
  }

  lemma EdgeIsRef(schema: Schema, classOf: map<Obj, ClassId>, dead: set<Obj>, value: map<Field, seq<Obj>>,
      refs: set<Ref>, a: Attr, x: Obj, y: Obj)
    requires Matched(schema, classOf, dead, value, refs)
    ensures Ref(x, a, y) in refs <==> LoopCheck.Edge(LoopGraph(schema, classOf, value, a), x, y) && x !in dead
  {
    hide ValueAt;
    var t := Ref(x, a, y);
    assert t in refs <==>
      Pointer(schema, classOf, t.lhs, t.attr) && t.lhs !in dead && t.rhs in ValueAt(value, t.lhs, t.attr);
  }

  lemma {:induction false} WalkFollows(schema: Schema, classOf: map<Obj, ClassId>, dead: set<Obj>,
      value: map<Field, seq<Obj>>, refs: set<Ref>, a: Attr,
      p: seq<Obj>, n: nat)
    requires Matched(schema, classOf, dead, value, refs) && (forall t :: t in refs ==> t.rhs !in dead)
    requires LoopCheck.Walk(LoopGraph(schema, classOf, value, a), p) && p[0] !in dead && n < |p|
    ensures p[n] !in dead && forall i :: 0 < i <= n ==> Ref(p[i - 1], a, p[i]) in refs
    decreases n
  {
    hide Matched, LoopGraph, LoopCheck.Edge;
    if n > 0 {
      WalkFollows(schema, classOf, dead, value, refs, a, p, n - 1);
      EdgeIsRef(schema, classOf, dead, value, refs, a, p[n - 1], p[n]);
    }
  }

  /** What a client sees of the store, and the objects registered for the loop check. */
  datatype View = View(classOf: map<Obj, ClassId>, dead: set<Obj>, value: map<Field, seq<Obj>>, refs: set<Ref>,
    loops: map<Attr, set<Obj>>)

  ghost function ViewOf(s: RefStore): View
    reads s
  {
    View(s.classOf, s.dead, s.value, s.recs.Keys, s.loopTable)
  }

  ghost predicate Dangles(v: View) {
    exists t :: t in v.refs && t.rhs in v.dead
  }

  /** No reference to a deleted object, and no loop within reach of a registered object. */
  ghost predicate Commits(v: View) {
    !Dangles(v) && forall a, x :: x in Registered(v.loops, a) ==> !RefLoops(v.refs, a, x)
  }

  /** The reference and loop checks of Udb_Do_Commit, and its clean-up. */
  method Commit(s: RefStore) returns (ok: bool)
    requires Valid(s)
    modifies s`refTable, s`loopTable
    ensures ok <==> Commits(old(ViewOf(s)))
    ensures ok ==> Valid(s) && Consistent(s) && s.refTable == {} && s.loopTable == map[]
  {
    hide RefStore.Recorded, Matched, Typed, RefCycle, LoopFree, Guarded, Settled, ActionOf, RefLoops, Enlisted, Blocks,
      Dangles;
    s.Parts({});
    BlocksDangle(s, s.refTable);
    ghost var view := ViewOf(s);
    var errors := DoReferenceChecks(s);
    if errors != [] {
      assert errors[0] in errors && errors[0] in s.recs;
      assert Dangles(view);
      return false;
    }
    NoDangling(s.schema, s.classOf, s.dead, s.recs.Keys, old(s.refTable));
    var fine, attr, loop := DoLoopChecks(s);
    ChecksFollow(s);
    assert Commits(view) <==> forall a :: LoopFree(s, a);
    if !fine {
      return false;
    }
    forall a, c
      ensures !RefCycle(s.schema, s.classOf, s.recs.Keys, a, c)
    {
      NoCycle(s, a, c);
    }
    s.refTable := {};
    s.loopTable := map[];
    NothingToCheck(s.schema, s.classOf, s.dead, s.recs.Keys);
    s.Assemble({});
    ok := true;
  }

  /** A Block reference to an object in the table is a reference to a deleted object, and the only kind there is. */
  lemma BlocksDangle(s: RefStore, refTable: set<Obj>)
    requires Settled(s.schema, s.classOf, s.dead, {}, s.recs.Keys, refTable) && refTable <= s.dead
    ensures (exists t :: t in s.recs && Blocks(s.schema, s.classOf, t, refTable)) <==> Dangles(ViewOf(s))
  {
    hide ActionOf;
    forall t | t in s.recs
      ensures Blocks(s.schema, s.classOf, t, refTable) <==> t.rhs in s.dead
    {
    }
  }

  lemma ChecksFollow(s: RefStore)
    requires Matched(s.schema, s.classOf, s.dead, s.value, s.recs.Keys) && Enlisted(s.classOf, s.dead, s.loopTable)
    requires forall t :: t in s.recs.Keys ==> t.rhs !in s.dead
    ensures (forall a :: LoopFree(s, a)) <==> forall a, x :: x in Registered(s.loopTable, a) ==>
      !RefLoops(s.recs.Keys, a, x)
    ensures !Dangles(ViewOf(s))
  {
    hide Matched, RefLoops, LoopCheck.LoopsFrom, LoopGraph, Registered;
    forall a
      ensures LoopFree(s, a) <==> forall x :: x in Registered(s.loopTable, a) ==> !RefLoops(s.recs.Keys, a, x)
    {
      forall x | x in Registered(s.loopTable, a)
        ensures LoopCheck.LoopsFrom(LoopGraph(s.schema, s.classOf, s.value, a), x) <==> RefLoops(s.recs.Keys, a, x)
      {
        SearchFollows(s.schema, s.classOf, s.dead, s.value, s.recs.Keys, a, x);
      }
    }
    hide LoopFree;
  }

  lemma NoDangling(schema: Schema, classOf: map<Obj, ClassId>, dead: set<Obj>, refs: set<Ref>, refTable: set<Obj>)
    requires Settled(schema, classOf, dead, {}, refs, refTable) && forall t :: t in refs ==>
      !Blocks(schema, classOf, t, refTable)
    ensures forall t :: t in refs ==> t.rhs !in dead
  {
  }

  lemma NothingToCheck(schema: Schema, classOf: map<Obj, ClassId>, dead: set<Obj>, refs: set<Ref>)
    requires (forall t :: t in refs ==> t.rhs !in dead) && forall a, c :: !RefCycle(schema, classOf, refs, a, c)
    ensures Settled(schema, classOf, dead, {}, refs, {}) && Guarded(schema, classOf, refs, map[]) &&
      Enlisted(classOf, dead, map[])
  {
  }

  lemma NoCycle(s: RefStore, a: Attr, c: seq<Obj>)
    requires Matched(s.schema, s.classOf, s.dead, s.value, s.recs.Keys) &&
      Guarded(s.schema, s.classOf, s.recs.Keys, s.loopTable) && LoopFree(s, a)
    ensures !RefCycle(s.schema, s.classOf, s.recs.Keys, a, c)
  {
    hide Matched, LoopCheck.LoopsFrom, LoopGraph, Registered;
    if RefCycle(s.schema, s.classOf, s.recs.Keys, a, c) {
      assert Meets(c, Registered(s.loopTable, a));
      var i :| 0 <= i < |c| && c[i] in Registered(s.loopTable, a);
      CycleIsFound(s.schema, s.classOf, s.dead, s.value, s.recs.Keys, a, c, i);
    }
  }

  // Whole transactions.

  datatype Op =
    | OpCreate(x: Obj, c: ClassId, vals: map<Attr, seq<Obj>>)
    | OpUpdate(x: Obj, vals: map<Attr, seq<Obj>>)
    | OpDelete(x: Obj)

  /** The empty store is where every history starts. */
  method Empty(schema: Schema) returns (s: RefStore)
    ensures fresh(s) && Valid(s) && Consistent(s) && s.schema == schema &&
      ViewOf(s) == View(map[], {}, map[], {}, map[])
  {
    hide RefStore.Recorded;
    s := new RefStore(schema);
    forall a, c
      ensures !RefCycle(schema, s.classOf, s.recs.Keys, a, c)
    {
      assert c != [] ==> !Step(schema, s.classOf, s.recs.Keys, a, c, 0);
    }
  }

  ghost predicate Live(v: View, x: Obj) {
    x in v.classOf && x !in v.dead
  }

  /** The values of x are set, and its references follow them. */
  ghost predicate Assigned(v: View, w: View, x: Obj, vals: map<Attr, seq<Obj>>) {
    w.dead == v.dead && w.value == SetValues(v.value, x, vals) && Replaced(v.refs, w.refs, x, vals, vals.Keys)
  }

  /** The Cascade closure of x is gone, and nothing else but what has to go with it. */
  ghost predicate Deleted(schema: Schema, v: View, w: View, x: Obj) {
    && w.classOf == v.classOf && v.dead <= w.dead
    && (forall y :: y in w.dead - v.dead <==> InClosure(schema, v.classOf, v.refs, x, y))
    && w.refs == Survive(schema, v.classOf, v.refs, w.dead - v.dead)
    && Nulled(schema, v.classOf, w.dead, v.value, w.value, w.dead - v.dead)
    && forall a :: Registered(w.loops, a) == Registered(v.loops, a) - (w.dead - v.dead)
  }

  /** What one operation does to the store; one that is not acceptable does nothing. */
  ghost predicate OpStep(schema: Schema, v: View, op: Op, w: View) {
    match op
    case OpCreate(x, c, vals) =>
      if !schema.readonly(c) && Acceptable(schema, v.classOf, v.dead, c, vals) && x !in v.classOf
      then w.classOf == v.classOf[x := c] && Assigned(v, w, x, vals) && forall a ::
        Registered(w.loops, a) == Registered(v.loops, a)
      else w == v
    case OpUpdate(x, vals) =>
      if Live(v, x) && !schema.readonly(v.classOf[x]) && Acceptable(schema, v.classOf, v.dead, v.classOf[x], vals)
      then
        && w.classOf == v.classOf && Assigned(v, w, x, vals)
        && Enrolled(schema, v.classOf, v.refs, x, vals, vals.Keys, false, v.loops, w.loops)
      else w == v
    case OpDelete(x) =>
      if Live(v, x) then !Refused(schema, v.classOf, x, v.refs) && Deleted(schema, v, w, x) else w == v
  }

  /** The views before and after each operation of a run. */
  ghost predicate Trace(schema: Schema, ops: seq<Op>, trace: seq<View>) {
    && 0 < |trace| <= |ops| + 1
    && forall i :: 0 <= i < |trace| - 1 ==> OpStep(schema, trace[i], ops[i], trace[i + 1])
  }

  lemma TraceMore(schema: Schema, ops: seq<Op>, trace: seq<View>, w: View)
    requires Trace(schema, ops, trace) && |trace| <= |ops| && OpStep(schema, trace[|trace| - 1], ops[|trace| - 1], w)
    ensures Trace(schema, ops, trace + [w])
  {
    hide OpStep;
    forall i | 0 <= i < |trace|
      ensures OpStep(schema, (trace + [w])[i], ops[i], (trace + [w])[i + 1])
    {
    }
  }

  /** One operation; a delete is refused exactly if something that would have to go is read-only. */
  method RunOp(s: RefStore, op: Op) returns (refused: bool)
    requires Valid(s)
    modifies s
    ensures refused <==>
      op.OpDelete? && Live(old(ViewOf(s)), op.x) && Refused(s.schema, old(s.classOf), op.x, old(s.recs.Keys))
    ensures !refused ==> Valid(s) && OpStep(s.schema, old(ViewOf(s)), op, ViewOf(s))
  {
    hide Valid, Refused, InClosure, Survive, Nulled, SetValues, Replaced, Acceptable, Enrolled;
    refused := false;
    match op {
      case OpCreate(x, c, vals) =>
        var res := Create(s, x, c, vals);
        assert res != Done ==> ViewOf(s) == old(ViewOf(s));
      case OpUpdate(x, vals) =>
        var _ := Update(s, x, vals);
      case OpDelete(x) =>
        var res := Delete(s, x);
        refused := res == ReadOnly;
    }
  }

  /** Any creates, updates and deletes, up to a delete that is refused. */
  method RunOps(s: RefStore, ops: seq<Op>) returns (ran: nat, ghost trace: seq<View>)
    requires Valid(s)
    modifies s
    ensures ran <= |ops| && |trace| == ran + 1 && Trace(s.schema, ops, trace) && trace[0] == old(ViewOf(s))
    ensures ran == |ops| ==> Valid(s) && trace[ran] == ViewOf(s)
    ensures ran < |ops| ==>
      ops[ran].OpDelete? && Live(trace[ran], ops[ran].x) &&
      Refused(s.schema, trace[ran].classOf, ops[ran].x, trace[ran].refs)
  {
    hide Valid, Refused, OpStep;
    ran, trace := 0, [ViewOf(s)];
    while ran < |ops|
      invariant 0 <= ran <= |ops| && Valid(s) && |trace| == ran + 1 && trace[ran] == ViewOf(s)
      invariant Trace(s.schema, ops, trace) && trace[0] == old(ViewOf(s))
    {
      var refused := RunOp(s, ops[ran]);
      if refused {
        return;
      }
      TraceMore(s.schema, ops, trace, ViewOf(s));
      trace := trace + [ViewOf(s)];
      ran := ran + 1;
    }
  }

  /**
   A whole transaction; a refused delete forces a rollback. It commits exactly if all its operations
   went through and leave no reference to a deleted object and no loop within reach of a registered
   one; what it commits is their result, and consistent.
   */
  method Transaction(s: RefStore, ops: seq<Op>) returns (ran: nat, committed: bool, ghost trace: seq<View>)
    requires Valid(s) && Consistent(s)
    modifies s
    ensures ran <= |ops| && |trace| == ran + 1 && Trace(s.schema, ops, trace) && trace[0] == old(ViewOf(s))
    ensures committed <==> ran == |ops| && Commits(trace[ran])
    ensures committed ==> Valid(s) && Consistent(s) && ViewOf(s) == trace[ran].(loops := map[])
    ensures ran < |ops| ==>
      ops[ran].OpDelete? && Live(trace[ran], ops[ran].x) &&
      Refused(s.schema, trace[ran].classOf, ops[ran].x, trace[ran].refs)
  {
    hide Valid, Consistent, Commits, Trace, Refused;
    ran, trace := RunOps(s, ops);
    committed := false;
    if ran == |ops| {
      committed := Commit(s);
    }
  }

  /** The transaction takes the store from one view to the other. */
  ghost predicate Committed(schema: Schema, v: View, ops: seq<Op>, w: View) {
    exists trace: seq<View> ::
      Trace(schema, ops, trace) && |trace| == |ops| + 1 && trace[0] == v && Commits(trace[|ops|])
      && w == trace[|ops|].(loops := map[])
  }

  // Which loops the flags keep out.

  /** A loop, whatever the classes of its objects say about loops. */
  ghost predicate AnyCycle(refs: set<Ref>, a: Attr, c: seq<Obj>) {
    c != [] && forall i :: 0 <= i < |c| ==> Ref(c[i], a, c[After(i, |c|)]) in refs
  }

  /** Every class whose objects can be given the attribute forbids loops in it. */
  ghost predicate Uniform(schema: Schema, a: Attr) {
    forall c: ClassId :: !schema.readonly(c) && a in schema.relattrs(c) ==> schema.loops(c, a)
  }

  ghost predicate Writable(schema: Schema, classOf: map<Obj, ClassId>) {
    forall x :: x in classOf ==> !schema.readonly(classOf[x])
  }

  lemma {:induction false} WritableTrace(schema: Schema, ops: seq<Op>, trace: seq<View>, n: nat)
    requires Trace(schema, ops, trace) && Writable(schema, trace[0].classOf) && n < |trace|
    ensures Writable(schema, trace[n].classOf)
    decreases n
  {
    hide Refused, InClosure, Survive, Nulled, SetValues, Replaced, Acceptable, Enrolled, Registered;
    if n > 0 {
      WritableTrace(schema, ops, trace, n - 1);
      assert OpStep(schema, trace[n - 1], ops[n - 1], trace[n - 1 + 1]);
    }
  }

  /** Where all classes forbid loops, a consistent store has none. */
  lemma UniformNoLoop(s: RefStore, a: Attr, c: seq<Obj>)
    requires Valid(s) && Consistent(s) && Writable(s.schema, s.classOf) && Uniform(s.schema, a)
    ensures !AnyCycle(s.recs.Keys, a, c)
  {
    hide RefStore.Recorded, Typed, Settled, Guarded, Enlisted, Matched, RefCycle, AnyCycle, Writable, Uniform;
    s.Parts({});
    if AnyCycle(s.recs.Keys, a, c) {
      AllFlagged(s.schema, s.classOf, s.dead, s.value, s.recs.Keys, a, c);
    }
  }

  lemma AllFlagged(schema: Schema, classOf: map<Obj, ClassId>, dead: set<Obj>, value: map<Field, seq<Obj>>,
      refs: set<Ref>, a: Attr, c: seq<Obj>)
    requires Matched(schema, classOf, dead, value, refs) && Writable(schema, classOf) && Uniform(schema, a) &&
      AnyCycle(refs, a, c)
    ensures RefCycle(schema, classOf, refs, a, c)
  {
    hide ValueAt;
    forall i | 0 <= i < |c|
      ensures Step(schema, classOf, refs, a, c, i)
    {
      var t := Ref(c[i], a, c[After(i, |c|)]);
      assert t in refs && Pointer(schema, classOf, t.lhs, t.attr);
    }
  }

  /** Any history of transactions: what has been committed has no loop in an attribute all classes forbid loops in. */
  method History(schema: Schema, transactions: seq<seq<Op>>) returns (s: RefStore, done: nat, ghost views: seq<View>)
    ensures fresh(s) && s.schema == schema && done <= |transactions| && |views| == done + 1
    ensures views[0] == View(map[], {}, map[], {}, map[])
    ensures forall i :: 0 <= i < done ==> Committed(schema, views[i], transactions[i], views[i + 1])
    ensures done == |transactions| ==> Valid(s) && Consistent(s) && views[done] == ViewOf(s)
    ensures done == |transactions| ==> forall a, c | Uniform(schema, a) :: !AnyCycle(s.recs.Keys, a, c)
  {
    hide Valid, Consistent, Commits, Trace, Refused, Uniform, AnyCycle, Writable;
    s := Empty(schema);
    NothingWritten(schema);
    done, views := 0, [ViewOf(s)];
    while done < |transactions|
      invariant fresh(s) && s.schema == schema && done <= |transactions| && |views| == done + 1 &&
        views[done] == ViewOf(s)
      invariant views[0] == View(map[], {}, map[], {}, map[])
      invariant forall i :: 0 <= i < done ==> Committed(schema, views[i], transactions[i], views[i + 1])
      invariant Valid(s) && Consistent(s) && Writable(schema, s.classOf)
    {
      var ran, committed, trace := Transaction(s, transactions[done]);
      if !committed {
        return;
      }
      WritableTrace(schema, transactions[done], trace, ran);
      assert Committed(schema, views[done], transactions[done], ViewOf(s));
      views := views + [ViewOf(s)];
      done := done + 1;
    }
    forall a, c | Uniform(schema, a)
      ensures !AnyCycle(s.recs.Keys, a, c)
    {
      UniformNoLoop(s, a, c);
    }
  }

  lemma NothingWritten(schema: Schema)
    ensures Writable(schema, map[])
  {
  }

  /**
   Where some class that can be written does not forbid loops, a transaction commits a loop through it,
   whatever the class of the other object says: two creates and an update register nothing.
   */
  method MixedLoop(schema: Schema, a: Attr, c: ClassId, d: ClassId) returns (s: RefStore, x: Obj, y: Obj, ops: seq<Op>)
    requires !schema.readonly(c) && !schema.readonly(d) && a in schema.relattrs(c) && a in schema.relattrs(d)
    requires !schema.loops(d, a)
    ensures fresh(s) && s.schema == schema && Valid(s) && Consistent(s)
    ensures Committed(schema, View(map[], {}, map[], {}, map[]), ops, ViewOf(s))
    ensures AnyCycle(s.recs.Keys, a, [x, y]) && x in s.classOf && y in s.classOf &&
      {s.classOf[x], s.classOf[y]} == {c, d}
  {
    hide Valid, Consistent;
    s := Empty(schema);
    x, y := 0, 1;
    var cx, cy := if schema.scalar(a) then c else d, if schema.scalar(a) then d else c;
    ops := [OpCreate(x, cx, map[]), OpCreate(y, cy, map[a := [x]]), OpUpdate(x, map[a := [y]])];
    var ran, committed, trace := Transaction(s, ops);
    ThreeSteps(schema, a, cx, cy, x, y, ops, trace);
  }

  lemma ThreeSteps(schema: Schema, a: Attr, cx: ClassId, cy: ClassId, x: Obj, y: Obj, ops: seq<Op>, trace: seq<View>)
    requires x != y && !schema.readonly(cx) && !schema.readonly(cy) && a in schema.relattrs(cx) &&
      a in schema.relattrs(cy)
    requires !schema.loops(if schema.scalar(a) then cy else cx, a)
    requires ops == [OpCreate(x, cx, map[]), OpCreate(y, cy, map[a := [x]]), OpUpdate(x, map[a := [y]])]
    requires Trace(schema, ops, trace) && trace[0] == View(map[], {}, map[], {}, map[])
    requires |trace| < 4 ==> ops[|trace| - 1].OpDelete?
    ensures |trace| == 4 && Commits(trace[3]) && AnyCycle(trace[3].refs, a, [x, y])
    ensures trace[3].classOf == map[x := cx, y := cy]
  {
    hide OpStep;
    assert |trace| == 4;
    assert OpStep(schema, trace[0], ops[0], trace[0 + 1]) && OpStep(schema, trace[1], ops[1], trace[1 + 1]) &&
      OpStep(schema, trace[2], ops[2], trace[2 + 1]);
    FirstStep(schema, cx, x, trace[0], trace[1]);
    SecondStep(schema, a, cx, cy, x, y, trace[1], trace[2]);
    ThirdStep(schema, a, cx, cy, x, y, trace[2], trace[3]);
    assert forall i :: 0 <= i < 2 ==> Ref([x, y][i], a, [x, y][After(i, 2)]) in trace[3].refs;
  }

  ghost predicate NoneRegistered(loops: map<Attr, set<Obj>>) {
    forall a :: Registered(loops, a) == {}
  }

  lemma FirstStep(schema: Schema, cx: ClassId, x: Obj, v: View, w: View)
    requires !schema.readonly(cx) && v == View(map[], {}, map[], {}, map[]) &&
      OpStep(schema, v, OpCreate(x, cx, map[]), w)
    ensures w.classOf == map[x := cx] && w.dead == {} && w.refs == {} && NoneRegistered(w.loops)
  {
    var vals: map<Attr, seq<Obj>> := map[];
    assert Acceptable(schema, v.classOf, v.dead, cx, vals);
    assert Replaced(v.refs, w.refs, x, vals, vals.Keys);
    forall t: Ref
      ensures t !in w.refs
    {
      assert t.attr !in vals;
    }
  }

  lemma SecondStep(schema: Schema, a: Attr, cx: ClassId, cy: ClassId, x: Obj, y: Obj, v: View, w: View)
    requires x != y && !schema.readonly(cy) && a in schema.relattrs(cy)
    requires v.classOf == map[x := cx] && v.dead == {} && v.refs == {} && NoneRegistered(v.loops)
    requires OpStep(schema, v, OpCreate(y, cy, map[a := [x]]), w)
    ensures w.classOf == map[x := cx, y := cy] && w.dead == {} && w.refs == {Ref(y, a, x)} && NoneRegistered(w.loops)
  {
    hide SetValues;
    var vals: map<Attr, seq<Obj>> := map[a := [x]];
    assert Acceptable(schema, v.classOf, v.dead, cy, vals);
    forall t: Ref
      ensures t in w.refs <==> t == Ref(y, a, x)
    {
      assert t.attr in vals <==> t.attr == a;
    }
  }

  lemma ThirdStep(schema: Schema, a: Attr, cx: ClassId, cy: ClassId, x: Obj, y: Obj, v: View, w: View)
    requires x != y && !schema.readonly(cx) && a in schema.relattrs(cx) &&
      !schema.loops(if schema.scalar(a) then cy else cx, a)
    requires v.classOf == map[x := cx, y := cy] && v.dead == {} && v.refs == {Ref(y, a, x)} && NoneRegistered(v.loops)
    requires OpStep(schema, v, OpUpdate(x, map[a := [y]]), w)
    ensures w.classOf == v.classOf && w.dead == {} && w.refs == {Ref(x, a, y), Ref(y, a, x)} && NoneRegistered(w.loops)
  {
    hide SetValues, Extends;
    var vals: map<Attr, seq<Obj>> := map[a := [y]];
    assert Acceptable(schema, v.classOf, v.dead, cx, vals);
    forall t: Ref
      ensures t in w.refs <==> t == Ref(x, a, y) || t == Ref(y, a, x)
    {
      assert t.attr in vals <==> t.attr == a;
    }
    forall b
      ensures Registered(w.loops, b) == {}
    {
      if b == a {
        assert Registers(schema, v.classOf, v.refs, x, a, vals[a]) == {};
      }
    }
  }
}
