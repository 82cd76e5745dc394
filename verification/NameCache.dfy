/**
 The uniqueness buckets of libudb/name_cache.c. Collision rules put an object, under a key made from
 its attributes, into the strong, normal or weak set of a bucket; buckets that may break the rules
 are checked before commit.
 */
module NameCache {
  import opened Basics

  type Obj = nat

  datatype Strength = Strong | Normal | Weak

  datatype BucketId = BucketId(class_: string, key: string)

  datatype Bucket = Bucket(strong: set<Obj>, normal: set<Obj>, weak: set<Obj>)

  function Members(b: Bucket, s: Strength): set<Obj> {
    match s case Strong => b.strong case Normal => b.normal case Weak => b.weak
  }

  function WithMembers(b: Bucket, s: Strength, m: set<Obj>): Bucket {
    match s case Strong => b.(strong := m) case Normal => b.(normal := m) case Weak => b.(weak := m)
  }

  function Single(s: Strength, x: Obj): Bucket {
    WithMembers(Bucket({}, {}, {}), s, {x})
  }

  predicate Empty(b: Bucket) {
    b == Bucket({}, {}, {})
  }

  /** Two strong or two normal members, or a strong member next to any other, break the rules. */
  predicate Violates(b: Bucket) {
    |b.strong| > 1 || |b.normal| > 1 || (|b.strong| > 0 && |b.normal| > 0) || (|b.strong| > 0 && |b.weak| > 0)
  }

  /** What the schema says of a rule: its collision class, and its strength at each owner level. */
  datatype Rules = Rules(collide: string -> string, strength: (string, nat) -> Strength)

  /** One entry of an object's tables: under a rule, at an owner level, it has this key. */
  datatype Entry = Entry(table: nat, rule: string, key: string)

  function BucketOf(r: Rules, e: Entry): BucketId {
    BucketId(r.collide(e.rule), e.key)
  }

  function StrengthOf(r: Rules, e: Entry): Strength {
    r.strength(e.rule, e.table)
  }

  ghost predicate In(buckets: map<BucketId, Bucket>, id: BucketId, s: Strength, x: Obj) {
    id in buckets && x in Members(buckets[id], s)
  }

  /** Some entry puts its object in this set of this bucket. */
  ghost predicate Names(r: Rules, es: seq<Entry>, id: BucketId, s: Strength) {
    exists i :: 0 <= i < |es| && BucketOf(r, es[i]) == id && StrengthOf(r, es[i]) == s
  }

  /** The entries of es that are not in fs. */
  function Minus(es: seq<Entry>, fs: seq<Entry>): (d: seq<Entry>)
    ensures forall e :: e in d <==> e in es && e !in fs
  {
    if es == [] then []
    else
      var rest := Minus(es[..|es| - 1], fs);
      assert forall e :: e in es <==> e in es[..|es| - 1] || e == es[|es| - 1];
      if es[|es| - 1] in fs then rest else rest + [es[|es| - 1]]
  }

  lemma NamesMember(r: Rules, es: seq<Entry>, id: BucketId, s: Strength)
    ensures Names(r, es, id, s) <==> exists e :: e in es && BucketOf(r, e) == id && StrengthOf(r, e) == s
  {
    if e :| e in es && BucketOf(r, e) == id && StrengthOf(r, e) == s {
      var i :| 0 <= i < |es| && es[i] == e;
    }
  }

  lemma NamesAppend(r: Rules, es: seq<Entry>, e: Entry, id: BucketId, s: Strength)
    ensures Names(r, es + [e], id, s) <==> Names(r, es, id, s) || (BucketOf(r, e) == id && StrengthOf(r, e) == s)
  {
    if i :| 0 <= i < |es| && BucketOf(r, es[i]) == id && StrengthOf(r, es[i]) == s {
      assert (es + [e])[i] == es[i];
    }
    assert (es + [e])[|es|] == e;
  }

  ghost predicate NoneEmpty(buckets: map<BucketId, Bucket>) {
    forall id :: id in buckets ==> !Empty(buckets[id])
  }

  /** Every bucket that breaks the rules is to be checked. */
  ghost predicate Watched(buckets: map<BucketId, Bucket>, pending: set<BucketId>) {
    && pending <= buckets.Keys
    && (forall id :: id in buckets && Violates(buckets[id]) ==> id in pending)
  }

  /** Another member of the strength may break the rules: of two normal members, or of a strong one and any other. */
  ghost predicate Doubtful(b: Bucket, s: Strength) {
    s == Strong || b.strong != {} || (s == Normal && b.normal != {})
  }

  class Cache {
    const rules: Rules
    var buckets: map<BucketId, Bucket>
    var pending: set<BucketId>

    ghost predicate Valid()
      reads this
    {
      NoneEmpty(buckets) && Watched(buckets, pending)
    }

    constructor (rules: Rules)
      ensures this.rules == rules && buckets == map[] && pending == {} && Valid()
    {
      this.rules, buckets, pending := rules, map[], {};
    }

    /** Drop_Collision_Entry_If_Empty. */
    method DropIfEmpty(id: BucketId)
      requires id in buckets
      modifies this`buckets, this`pending
      ensures if Empty(old(buckets)[id]) then buckets == old(buckets) - {id} && pending == old(pending) - {id}
        else buckets == old(buckets) && pending == old(pending)
    {
      var b := buckets[id];
      if |b.strong| > 0 || |b.normal| > 0 || |b.weak| > 0 {
        return;
      }
      pending := pending - {id};
      buckets := buckets - {id};
    }

    /** Take an object out of the set an old entry names; the bucket has to be there. */
    method DropEntry(x: Obj, e: Entry) returns (ok: bool)
      requires Valid()
      modifies this`buckets, this`pending
      ensures ok <==> BucketOf(rules, e) in old(buckets)
      ensures Valid() && (!ok ==> buckets == old(buckets))
      ensures ok ==> forall id, s, y :: In(buckets, id, s, y) <==>
        In(old(buckets), id, s, y) && !(y == x && id == BucketOf(rules, e) && s == StrengthOf(rules, e))
    {
      hide Violates;
      var id, s := BucketOf(rules, e), StrengthOf(rules, e);
      if id !in buckets {
        return false;
      }
      var b := buckets[id];
      var m := Members(b, s) - {x};
      Fewer(b, s, x);
      LeavesSet(buckets, id, s, x);
      hide Members, WithMembers;
      buckets := buckets[id := WithMembers(b, s, m)];
      ghost var mid := buckets;
      if |m| == 0 {
        DropIfEmpty(id);
        EmptyHoldsNone(mid, id);
      }
      ok := true;
    }

    /** Grow_Cache_Entry: the check is scheduled by what the bucket holds already. */
    method Grow(id: BucketId, s: Strength, x: Obj)
      requires Valid() && id in buckets
      modifies this`buckets, this`pending
      ensures Valid() && buckets ==
        old(buckets)[id := WithMembers(old(buckets)[id], s, Members(old(buckets)[id], s) + {x})]
      ensures pending == old(pending) + if Doubtful(old(buckets)[id], s) then {id} else {}
    {
      var b := buckets[id];
      match s {
        case Strong =>
          pending := pending + {id};
        case Normal =>
          if |b.normal| > 0 {
            pending := pending + {id};
          } else if |b.strong| > 0 {
            pending := pending + {id};
          }
        case Weak =>
          if |b.strong| > 0 {
            pending := pending + {id};
          }
      }
      More(b, s, x);
      buckets := buckets[id := WithMembers(b, s, Members(b, s) + {x})];
    }

    /** Put an object into the set a new entry names, making the bucket if need be. */
    method AddEntry(x: Obj, e: Entry)
      requires Valid()
      modifies this`buckets, this`pending
      ensures Valid()
      ensures forall id, s, y :: In(buckets, id, s, y) <==>
        In(old(buckets), id, s, y) || (y == x && id == BucketOf(rules, e) && s == StrengthOf(rules, e))
    {
      var id, s := BucketOf(rules, e), StrengthOf(rules, e);
      if id !in buckets {
        buckets := buckets[id := Single(s, x)];
      } else {
        Grow(id, s, x);
      }
    }

    /** The first half of Update_Uniqueness_Caches: leave the sets of old entries that are not kept. */
    method DropAll(x: Obj, olds: seq<Entry>, news: seq<Entry>) returns (ok: bool)
      requires Valid()
      modifies this`buckets, this`pending
      ensures Valid() && (ok <==> Present(rules, old(buckets), x, Minus(olds, news)))
      ensures ok ==> Left(rules, old(buckets), buckets, x, Minus(olds, news))
    {
      hide Names, Violates, In;
      var i := 0;
      LeftNone(rules, buckets, x);
      while i < |olds|
        invariant 0 <= i <= |olds| && Valid() && Left(rules, old(buckets), buckets, x, Minus(olds[..i], news))
        invariant Present(rules, old(buckets), x, Minus(olds[..i], news))
      {
        var e := olds[i];
        assert olds[..i + 1][..i] == olds[..i];
        if e !in news {
          ghost var mid, d := buckets, Minus(olds[..i], news);
          assert Minus(olds[..i + 1], news) == d + [e];
          Presence(rules, old(buckets), buckets, x, d, e);
          ok := DropEntry(x, e);
          if !ok {
            PresentPrefix(rules, old(buckets), x, olds, news, i + 1);
            return;
          }
          LeftOne(rules, old(buckets), mid, buckets, x, d, e);
        }
        i := i + 1;
      }
      assert olds[..i] == olds;
      ok := true;
    }

    /** The second half: enter the sets of new entries that are not kept. */
    method AddAll(x: Obj, news: seq<Entry>, olds: seq<Entry>)
      requires Valid()
      modifies this`buckets, this`pending
      ensures Valid() && Entered(rules, old(buckets), buckets, x, Minus(news, olds))
    {
      hide Names, Violates, In;
      var i := 0;
      EnteredNone(rules, buckets, x);
      while i < |news|
        invariant 0 <= i <= |news| && Valid() && Entered(rules, old(buckets), buckets, x, Minus(news[..i], olds))
      {
        var e := news[i];
        assert news[..i + 1][..i] == news[..i];
        if e !in olds {
          ghost var mid, d := buckets, Minus(news[..i], olds);
          AddEntry(x, e);
          EnteredOne(rules, old(buckets), mid, buckets, x, d, e);
        }
        i := i + 1;
      }
      assert news[..i] == news;
    }

    /** Update_Uniqueness_Caches: all departures before all arrivals. A missing bucket aborts the server. */
    method Update(x: Obj, olds: seq<Entry>, news: seq<Entry>) returns (ok: bool)
      requires Valid()
      modifies this`buckets, this`pending
      ensures Valid() && (ok <==> Present(rules, old(buckets), x, Minus(olds, news)))
      ensures ok ==> Updated(rules, old(buckets), buckets, x, Minus(olds, news), Minus(news, olds))
    {
      hide Names, Violates, In, NoneEmpty, Watched;
      ok := DropAll(x, olds, news);
      if ok {
        AddAll(x, news, olds);
      }
    }

    /** Udb_Do_Unique_Checks: fails exactly if some bucket breaks the rules, whether scheduled or not. */
    method DoUniqueChecks() returns (bad: Option<BucketId>)
      requires Valid()
      modifies this`pending
      ensures bad == None <==> forall id :: id in buckets ==> !Violates(buckets[id])
      ensures bad.Some? ==> bad.value in buckets && Violates(buckets[bad.value])
      ensures bad == None ==> pending == {} && Valid()
    {
      while pending != {}
        invariant pending <= old(pending) && forall id :: id in old(pending) && id !in pending ==>
          !Violates(buckets[id])
        decreases |pending|
      {
        var id :| id in pending;
        pending := pending - {id};
        var b := buckets[id];
        if |b.strong| > 1 || |b.normal| > 1 || (|b.strong| > 0 && |b.normal| > 0) {
          return Some(id);
        }
        if |b.strong| > 0 {
          if |b.weak| > 0 {
            return Some(id);
          }
        }
      }
      bad := None;
    }

    /**
     Any run of updates, up to one that does not find a bucket. Every violation stays scheduled, whatever
     the updates are; and if they follow one another the objects are in exactly the sets their tables
     name all the way if and only if every one of the updates is clean.
     */
    method RunAll(updates: seq<Change>, ghost tables: map<Obj, seq<Entry>>)
      returns (done: nat, ghost states: seq<map<BucketId, Bucket>>)
      requires Valid()
      modifies this`buckets, this`pending
      ensures Valid() && done <= |updates| && Run(rules, updates[..done], states) && states[0] == old(buckets)
      ensures if done == |updates| then states[done] == buckets
        else !Present(rules, states[done], updates[done].x, Minus(updates[done].olds, updates[done].news))
      ensures Exact(rules, old(buckets), tables) && Follow(tables, updates[..done]) ==>
        (ExactAll(rules, states, tables, updates[..done]) <==> CleanAll(rules, updates[..done]))
    {
      hide NoneEmpty, Watched, Exact, Clean, Present, Updated, Run, ExactAll, CleanAll, Follow;
      done, states := 0, [buckets];
      NoUpdates(rules, updates, buckets, tables);
      while done < |updates|
        invariant done <= |updates| && Valid() && |states| == done + 1 && states[0] == old(buckets) &&
          states[done] == buckets
        invariant Run(rules, updates[..done], states)
        invariant Exact(rules, old(buckets), tables) && Follow(tables, updates[..done]) ==>
          (ExactAll(rules, states, tables, updates[..done]) <==> CleanAll(rules, updates[..done]))
      {
        var u := updates[done];
        ghost var was := buckets;
        var ok := Update(u.x, u.olds, u.news);
        if !ok {
          return;
        }
        assert updates[..done + 1] == updates[..done] + [u];
        OneUpdate(rules, updates[..done], u, states, buckets, tables);
        states := states + [buckets];
        done := done + 1;
      }
    }
  }

  /** One object's tables change. */
  datatype Change = Change(x: Obj, olds: seq<Entry>, news: seq<Entry>)

  function TableOf(tables: map<Obj, seq<Entry>>, x: Obj): seq<Entry> {
    if x in tables then tables[x] else []
  }

  /** Every object is in exactly the sets its tables name. */
  ghost predicate Exact(r: Rules, buckets: map<BucketId, Bucket>, tables: map<Obj, seq<Entry>>) {
    forall id, s, y :: In(buckets, id, s, y) <==> Names(r, TableOf(tables, y), id, s)
  }

  /** A set named by an entry that is kept and by one that is dropped is named by a new one as well. */
  ghost predicate Clean(r: Rules, olds: seq<Entry>, news: seq<Entry>) {
    forall id, s :: Names(r, Minus(olds, Minus(olds, news)), id, s) && Names(r, Minus(olds, news), id, s) ==>
      Names(r, Minus(news, olds), id, s)
  }

  /** No two of the entries name the same set. */
  ghost predicate Apart(r: Rules, es: seq<Entry>) {
    forall i, j :: 0 <= i < j < |es| ==>
      BucketOf(r, es[i]) != BucketOf(r, es[j]) || StrengthOf(r, es[i]) != StrengthOf(r, es[j])
  }

  /** The tables after a run of changes. */
  ghost function Final(tables: map<Obj, seq<Entry>>, updates: seq<Change>): map<Obj, seq<Entry>> {
    if updates == [] then tables
    else Final(tables, updates[..|updates| - 1])[updates[|updates| - 1].x := updates[|updates| - 1].news]
  }

  /** Each change starts from the tables its object has by then. */
  ghost predicate Follow(tables: map<Obj, seq<Entry>>, updates: seq<Change>) {
    forall i :: 0 <= i < |updates| ==> updates[i].olds == TableOf(Final(tables, updates[..i]), updates[i].x)
  }

  /** The buckets before and after each update, all of which found their buckets. */
  ghost predicate Run(r: Rules, updates: seq<Change>, states: seq<map<BucketId, Bucket>>) {
    && |states| == |updates| + 1
    && forall i :: 0 <= i < |updates| ==> StepAt(r, updates[i], states[i], states[i + 1])
  }

  ghost predicate StepAt(r: Rules, u: Change, was: map<BucketId, Bucket>, now: map<BucketId, Bucket>) {
    && Present(r, was, u.x, Minus(u.olds, u.news))
    && Updated(r, was, now, u.x, Minus(u.olds, u.news), Minus(u.news, u.olds))
  }

  ghost predicate ExactAll(r: Rules, states: seq<map<BucketId, Bucket>>, tables: map<Obj, seq<Entry>>,
      updates: seq<Change>) {
    && |states| == |updates| + 1
    && forall i :: 0 <= i <= |updates| ==> Exact(r, states[i], Final(tables, updates[..i]))
  }

  ghost predicate CleanAll(r: Rules, updates: seq<Change>) {
    forall i :: 0 <= i < |updates| ==> Clean(r, updates[i].olds, updates[i].news)
  }

  lemma NoUpdates(r: Rules, updates: seq<Change>, buckets: map<BucketId, Bucket>, tables: map<Obj, seq<Entry>>)
    ensures updates[..0] == [] && Run(r, [], [buckets]) && CleanAll(r, [])
    ensures ExactAll(r, [buckets], tables, []) <==> Exact(r, buckets, tables)
  {
    hide Exact;
    var none: seq<Change> := [];
    assert none[..0] == none;
  }

  lemma RunMore(r: Rules, updates: seq<Change>, u: Change, states: seq<map<BucketId, Bucket>>,
      now: map<BucketId, Bucket>)
    requires Run(r, updates, states) && StepAt(r, u, states[|updates|], now)
    ensures Run(r, updates + [u], states + [now])
  {
    hide StepAt;
    forall i | 0 <= i < |updates + [u]|
      ensures StepAt(r, (updates + [u])[i], (states + [now])[i], (states + [now])[i + 1])
    {
      if i < |updates| {
        assert StepAt(r, updates[i], states[i], states[i + 1]);
      }
    }
  }

  lemma FollowMore(tables: map<Obj, seq<Entry>>, updates: seq<Change>, u: Change)
    requires Follow(tables, updates + [u])
    ensures Follow(tables, updates) && u.olds == TableOf(Final(tables, updates), u.x)
  {
    hide Final, TableOf;
    var all := updates + [u];
    assert all[|updates|] == u && all[..|updates|] == updates;
    forall i | 0 <= i < |updates|
      ensures updates[i].olds == TableOf(Final(tables, updates[..i]), updates[i].x)
    {
      assert all[i] == updates[i] && all[..i] == updates[..i];
    }
  }

  lemma OneUpdate(r: Rules, updates: seq<Change>, u: Change, states: seq<map<BucketId, Bucket>>,
      now: map<BucketId, Bucket>, tables: map<Obj, seq<Entry>>)
    requires |states| == |updates| + 1 && Run(r, updates, states) && StepAt(r, u, states[|updates|], now)
    ensures Run(r, updates + [u], states + [now])
    ensures Follow(tables, updates + [u]) ==> Follow(tables, updates)
    ensures Follow(tables, updates + [u]) && (ExactAll(r, states, tables, updates) <==> CleanAll(r, updates)) ==>
      (ExactAll(r, states + [now], tables, updates + [u]) <==> CleanAll(r, updates + [u]))
  {
    hide Exact, Clean, Run, StepAt, Follow, ExactAll, CleanAll, Final;
    RunMore(r, updates, u, states, now);
    if Follow(tables, updates + [u]) {
      FollowMore(tables, updates, u);
      SplitExact(r, updates, u, states, now, tables);
      SplitClean(r, updates, u);
      if ExactAll(r, states, tables, updates) {
        ExactStep(r, states[|updates|], now, Final(tables, updates), u);
      }
    }
  }

  lemma SplitExact(r: Rules, updates: seq<Change>, u: Change, states: seq<map<BucketId, Bucket>>,
      now: map<BucketId, Bucket>, tables: map<Obj, seq<Entry>>)
    requires |states| == |updates| + 1
    ensures ExactAll(r, states + [now], tables, updates + [u]) <==>
      ExactAll(r, states, tables, updates) && Exact(r, now, Final(tables, updates)[u.x := u.news])
    ensures ExactAll(r, states, tables, updates) ==> Exact(r, states[|updates|], Final(tables, updates))
  {
    hide Exact;
    var all, n := updates + [u], |updates|;
    assert all[..n + 1] == all && all[..n] == updates && updates[..n] == updates;
    forall i | 0 <= i <= n
      ensures all[..i] == updates[..i] && (states + [now])[i] == states[i]
    {
    }
    if ExactAll(r, states + [now], tables, all) {
      forall i | 0 <= i <= n
        ensures Exact(r, states[i], Final(tables, updates[..i]))
      {
        assert Exact(r, (states + [now])[i], Final(tables, all[..i]));
      }
      assert Exact(r, (states + [now])[n + 1], Final(tables, all[..n + 1]));
    }
  }

  lemma SplitClean(r: Rules, updates: seq<Change>, u: Change)
    ensures CleanAll(r, updates + [u]) <==> CleanAll(r, updates) && Clean(r, u.olds, u.news)
  {
    hide Clean;
    var all := updates + [u];
    assert all[|updates|] == u && forall i :: 0 <= i < |updates| ==> all[i] == updates[i];
  }

  ghost predicate Entered(r: Rules, was: map<BucketId, Bucket>, now: map<BucketId, Bucket>, x: Obj, a: seq<Entry>) {
    forall id, s, y :: In(now, id, s, y) <==> In(was, id, s, y) || (y == x && Names(r, a, id, s))
  }

  ghost predicate Updated(r: Rules, was: map<BucketId, Bucket>, now: map<BucketId, Bucket>, x: Obj, d: seq<Entry>,
      a: seq<Entry>) {
    forall id, s, y :: In(now, id, s, y) <==>
      (In(was, id, s, y) && !(y == x && Names(r, d, id, s))) || (y == x && Names(r, a, id, s))
  }

  lemma EnteredNone(r: Rules, was: map<BucketId, Bucket>, x: Obj)
    ensures Entered(r, was, was, x, [])
  {
    hide In;
  }

  lemma EnteredOne(r: Rules, was: map<BucketId, Bucket>, mid: map<BucketId, Bucket>, now: map<BucketId, Bucket>,
      x: Obj, a: seq<Entry>, e: Entry)
    requires Entered(r, was, mid, x, a)
    requires forall id, s, y :: In(now, id, s, y) <==>
      In(mid, id, s, y) || (y == x && id == BucketOf(r, e) && s == StrengthOf(r, e))
    ensures Entered(r, was, now, x, a + [e])
  {
    hide In, Names;
    forall id, s, y
      ensures In(now, id, s, y) <==> In(was, id, s, y) || (y == x && Names(r, a + [e], id, s))
    {
      NamesAppend(r, a, e, id, s);
    }
  }

  /** The kept, dropped and added entries make up the old and the new tables. */
  lemma Split(r: Rules, olds: seq<Entry>, news: seq<Entry>, id: BucketId, s: Strength)
    ensures Names(r, olds, id, s) <==>
      Names(r, Minus(olds, Minus(olds, news)), id, s) || Names(r, Minus(olds, news), id, s)
    ensures Names(r, news, id, s) <==>
      Names(r, Minus(olds, Minus(olds, news)), id, s) || Names(r, Minus(news, olds), id, s)
  {
    hide Names;
    NamesMember(r, olds, id, s);
    NamesMember(r, news, id, s);
    NamesMember(r, Minus(olds, Minus(olds, news)), id, s);
    NamesMember(r, Minus(olds, news), id, s);
    NamesMember(r, Minus(news, olds), id, s);
  }

  /**
   After an update the object is in exactly the sets its new tables name if and only if the change is
   clean: a set it leaves for a dropped entry is lost to a kept entry that names it too.
   */
  lemma ExactIff(r: Rules, was: map<BucketId, Bucket>, now: map<BucketId, Bucket>, x: Obj, olds: seq<Entry>,
      news: seq<Entry>)
    requires forall id, s :: In(was, id, s, x) <==> Names(r, olds, id, s)
    requires Updated(r, was, now, x, Minus(olds, news), Minus(news, olds))
    ensures (forall id, s :: In(now, id, s, x) <==> Names(r, news, id, s)) <==> Clean(r, olds, news)
  {
    hide In, Names;
    forall id, s
      ensures (In(now, id, s, x) <==> Names(r, news, id, s)) <==>
        (Names(r, Minus(olds, Minus(olds, news)), id, s) && Names(r, Minus(olds, news), id, s) ==>
          Names(r, Minus(news, olds), id, s))
    {
      Split(r, olds, news, id, s);
    }
    if Clean(r, olds, news) {
      assert forall id, s :: In(now, id, s, x) <==> Names(r, news, id, s);
    } else {
      var id, s :| Names(r, Minus(olds, Minus(olds, news)), id, s) && Names(r, Minus(olds, news), id, s) &&
        !Names(r, Minus(news, olds), id, s);
      assert !(In(now, id, s, x) <==> Names(r, news, id, s));
    }
  }

  lemma ExactStep(r: Rules, was: map<BucketId, Bucket>, now: map<BucketId, Bucket>, tables: map<Obj, seq<Entry>>,
      u: Change)
    requires Exact(r, was, tables) && u.olds == TableOf(tables, u.x) && StepAt(r, u, was, now)
    ensures Exact(r, now, tables[u.x := u.news]) <==> Clean(r, u.olds, u.news)
  {
    ExactIff(r, was, now, u.x, u.olds, u.news);
    hide In, Names, Clean;
    assert TableOf(tables[u.x := u.news], u.x) == u.news;
  }

  /** Entries that name different sets all find their buckets. */
  lemma Survives(r: Rules, was: map<BucketId, Bucket>, tables: map<Obj, seq<Entry>>, x: Obj, olds: seq<Entry>,
      news: seq<Entry>)
    requires Exact(r, was, tables) && olds == TableOf(tables, x) && Apart(r, Minus(olds, news))
    ensures Present(r, was, x, Minus(olds, news))
  {
    hide In;
    var d := Minus(olds, news);
    forall j | 0 <= j < |d|
      ensures PresentAt(r, was, x, d, j)
    {
      var id, s := BucketOf(r, d[j]), StrengthOf(r, d[j]);
      assert d[j] in olds;
      NamesMember(r, olds, id, s);
      assert In(was, id, s, x);
      assert !Names(r, d[..j], id, s);
    }
  }

  /** Two rules of one collision class that give the same key: dropping one of them loses the object. */
  lemma Lost(was: map<BucketId, Bucket>, now: map<BucketId, Bucket>, x: Obj)
    requires var r := Rules(_ => "c", (_, _) => Weak);
      var olds, news := [Entry(0, "q", "k"), Entry(0, "r", "k")], [Entry(0, "q", "k")];
      && (forall id, s :: In(was, id, s, x) <==> Names(r, olds, id, s))
      && Updated(r, was, now, x, Minus(olds, news), Minus(news, olds))
    ensures Names(Rules(_ => "c", (_, _) => Weak), [Entry(0, "q", "k")], BucketId("c", "k"), Weak)
    ensures !In(now, BucketId("c", "k"), Weak, x)
  {
    var r := Rules(_ => "c", (_, _) => Weak);
    var q, e := Entry(0, "q", "k"), Entry(0, "r", "k");
    var olds, news := [q, e], [q];
    var id := BucketId("c", "k");
    NamesMember(r, news, id, Weak);
    NamesMember(r, Minus(olds, news), id, Weak);
    NamesMember(r, Minus(news, olds), id, Weak);
    assert q in news && e in Minus(olds, news);
    assert BucketOf(r, q) == id && StrengthOf(r, q) == Weak && BucketOf(r, e) == id && StrengthOf(r, e) == Weak;
  }

  /** The same two rules: dropping both, when nothing else is in the bucket, does not find it the second time. */
  lemma Aborts(was: map<BucketId, Bucket>, x: Obj)
    requires forall s, y :: In(was, BucketId("c", "k"), s, y) ==> s == Weak && y == x
    ensures !Present(Rules(_ => "c", (_, _) => Weak), was, x, Minus([Entry(0, "q", "k"), Entry(0, "r", "k")], []))
  {
    hide In;
    var r := Rules(_ => "c", (_, _) => Weak);
    var q, e := Entry(0, "q", "k"), Entry(0, "r", "k");
    assert [q, e][..1] == [q] && [q][..0] == [];
    assert Minus([q], []) == [q];
    var d := Minus([q, e], []);
    assert d == [q, e] && d[..1] == [q];
    assert [q][0] == q && Names(r, d[..1], BucketId("c", "k"), Weak);
    assert !PresentAt(r, was, x, d, 1);
  }

  /** The object is out of the sets the entries name; nothing else has changed. */
  ghost predicate Left(r: Rules, was: map<BucketId, Bucket>, now: map<BucketId, Bucket>, x: Obj, d: seq<Entry>) {
    forall id, s, y :: In(now, id, s, y) <==> In(was, id, s, y) && !(y == x && Names(r, d, id, s))
  }

  /** Each entry, when its turn comes, still finds its bucket: not all its members have left it before. */
  ghost predicate Present(r: Rules, was: map<BucketId, Bucket>, x: Obj, d: seq<Entry>) {
    forall j :: 0 <= j < |d| ==> PresentAt(r, was, x, d, j)
  }

  ghost predicate PresentAt(r: Rules, was: map<BucketId, Bucket>, x: Obj, d: seq<Entry>, j: nat)
    requires j < |d|
  {
    exists s, y :: In(was, BucketOf(r, d[j]), s, y) && !(y == x && Names(r, d[..j], BucketOf(r, d[j]), s))
  }

  lemma LeftNone(r: Rules, was: map<BucketId, Bucket>, x: Obj)
    ensures Left(r, was, was, x, [])
  {
    hide In;
  }

  lemma LeftOne(r: Rules, was: map<BucketId, Bucket>, mid: map<BucketId, Bucket>, now: map<BucketId, Bucket>, x: Obj,
      d: seq<Entry>, e: Entry)
    requires Left(r, was, mid, x, d)
    requires forall id, s, y :: In(now, id, s, y) <==>
      In(mid, id, s, y) && !(y == x && id == BucketOf(r, e) && s == StrengthOf(r, e))
    ensures Left(r, was, now, x, d + [e])
  {
    hide In, Names;
    forall id, s, y
      ensures In(now, id, s, y) <==> In(was, id, s, y) && !(y == x && Names(r, d + [e], id, s))
    {
      NamesAppend(r, d, e, id, s);
    }
  }

  /** The bucket of the next entry is there exactly if it is present in this sense. */
  lemma Presence(r: Rules, was: map<BucketId, Bucket>, now: map<BucketId, Bucket>, x: Obj, d: seq<Entry>, e: Entry)
    requires Left(r, was, now, x, d) && NoneEmpty(now) && Present(r, was, x, d)
    ensures BucketOf(r, e) in now <==> Present(r, was, x, d + [e])
    ensures BucketOf(r, e) !in now ==> !PresentAt(r, was, x, d + [e], |d|)
  {
    var id, f := BucketOf(r, e), d + [e];
    assert f[|d|] == e && f[..|d|] == d;
    if id in now {
      var s, y := SomeMember(now[id]);
      assert In(now, id, s, y);
      assert PresentAt(r, was, x, f, |d|);
      forall j | 0 <= j < |f|
        ensures PresentAt(r, was, x, f, j)
      {
        if j < |d| {
          assert PresentAt(r, was, x, d, j);
          assert f[..j] == d[..j] && f[j] == d[j];
        }
      }
    } else {
      assert !PresentAt(r, was, x, f, |d|);
    }
  }

  lemma SomeMember(b: Bucket) returns (s: Strength, y: Obj)
    requires !Empty(b)
    ensures y in Members(b, s)
  {
    if b.strong != {} {
      s := Strong;
    } else if b.normal != {} {
      s := Normal;
    } else {
      s := Weak;
    }
    y :| y in Members(b, s);
  }

  lemma {:induction false} PresentPrefix(r: Rules, was: map<BucketId, Bucket>, x: Obj, olds: seq<Entry>,
      news: seq<Entry>, i: nat)
    requires i <= |olds| && !Present(r, was, x, Minus(olds[..i], news))
    ensures !Present(r, was, x, Minus(olds, news))
    decreases |olds| - i
  {
    hide PresentAt;
    if i == |olds| {
      assert olds[..i] == olds;
    } else {
      assert olds[..i + 1][..i] == olds[..i];
      var d := Minus(olds[..i], news);
      var j :| 0 <= j < |d| && !PresentAt(r, was, x, d, j);
      PresentSame(r, was, x, d, olds[i], j);
      PresentPrefix(r, was, x, olds, news, i + 1);
    }
  }

  lemma PresentSame(r: Rules, was: map<BucketId, Bucket>, x: Obj, d: seq<Entry>, e: Entry, j: nat)
    requires j < |d|
    ensures PresentAt(r, was, x, d + [e], j) <==> PresentAt(r, was, x, d, j)
  {
    assert (d + [e])[..j] == d[..j] && (d + [e])[j] == d[j];
  }

  lemma LeavesSet(buckets: map<BucketId, Bucket>, id: BucketId, s: Strength, x: Obj)
    requires id in buckets
    ensures var now := buckets[id := WithMembers(buckets[id], s, Members(buckets[id], s) - {x})];
      forall i, t, y :: In(now, i, t, y) <==> In(buckets, i, t, y) && !(y == x && i == id && t == s)
  {
  }

  lemma EmptyHoldsNone(buckets: map<BucketId, Bucket>, id: BucketId)
    requires id in buckets
    ensures Empty(buckets[id]) ==> forall i, t, y :: In(buckets, i, t, y) <==> In(buckets - {id}, i, t, y)
  {
  }

  lemma Fewer(b: Bucket, s: Strength, x: Obj)
    ensures Violates(WithMembers(b, s, Members(b, s) - {x})) ==> Violates(b)
    ensures Members(b, s) - {x} != {} ==> !Empty(WithMembers(b, s, Members(b, s) - {x}))
  {
    Smaller(Members(b, s), x);
  }

  lemma Smaller(m: set<Obj>, x: Obj)
    ensures |m - {x}| <= |m|
  {
    if x !in m { assert m - {x} == m; }
  }

  /** Adding a member breaks the rules only in the cases Grow schedules a check for. */
  lemma More(b: Bucket, s: Strength, x: Obj)
    ensures var b' := WithMembers(b, s, Members(b, s) + {x});
      !Empty(b') && (Violates(b') && !Violates(b) ==> s == Strong || |b.strong| > 0 || (s == Normal && |b.normal| > 0))
  {
    var b' := WithMembers(b, s, Members(b, s) + {x});
    assert x in Members(b', s);
    if s == Normal && |b.normal| == 0 {
      assert b.normal + {x} == {x};
    }
  }
}
