/**
 The queries libudb/qbe.c writes, as far as it writes them, and what they select. A query is kept in
 phrases: lists of words, paths, placeholders with the values that stand for them, and sub-queries.
 What a phrase means is read off its words.
 */
module Sql {
  import opened Basics
  import Glob

  type Obj = nat

  datatype Value = Null | Int(i: int) | Str(s: string) | Ref(o: Obj) | Coll(es: seq<Value>)

  /** A variable, or an attribute of what a path leads to. */
  datatype Path = Var(n: nat) | Dot(base: Path, attr: string)

  /** A select expression: a path, the uuid of what it leads to, or the same with a variable bound to it. */
  datatype Item = Plain(p: Path) | Uuid(p: Path) | Bound(p: Path, n: nat)

  datatype Token = Text(s: string) | Name(s: string) | Field(p: Path) | Hole(v: Value) | Sub(q: Sql)

  datatype Phrase = Phrase(lead: string, ts: seq<Token>)

  datatype Sql = Sql(select: seq<Item>, from_: seq<Phrase>, where_: seq<Phrase>)

  // Databases and rows.

  /** The objects with their attributes and classes, and the order of strings. */
  datatype Db = Db(value: (Obj, string) -> Value, classOf: Obj -> string, isa: (string, string) -> bool,
    less: (string, string) -> bool)

  /** What the variables stand for. */
  type Env = map<nat, Value>

  function ValueOf(env: Env, n: nat): Value {
    if n in env then env[n] else Null
  }

  /** An attribute of a value; one that is no object has none. */
  function Attribute(db: Db, x: Value, a: string): Value {
    match x case Ref(o) => db.value(o, a) case _ => Null
  }

  function Eval(db: Db, env: Env, p: Path): Value {
    match p case Var(n) => ValueOf(env, n) case Dot(base, a) => Attribute(db, Eval(db, env, base), a)
  }

  /** An instance of the class itself or, if asked for, of any class below it. */
  predicate InClass(db: Db, x: Value, c: string, all: bool) {
    x.Ref? && if all then db.isa(db.classOf(x.o), c) else db.classOf(x.o) == c
  }

  predicate Less(db: Db, v: Value, w: Value) {
    if v.Int? && w.Int? then v.i < w.i else v.Str? && w.Str? && db.less(v.s, w.s)
  }

  /** A comparison; nothing compares with null. */
  predicate Compares(db: Db, op: string, v: Value, w: Value) {
    && v != Null && w != Null
    && if op == " = " then v == w
       else if op == " <> " then v != w
       else if op == " < " then Less(db, v, w)
       else if op == " > " then Less(db, w, v)
       else if op == " <= " then Less(db, v, w) || v == w
       else if op == " >= " then Less(db, w, v) || v == w
       else false
  }

  /** A string against a pattern in which a backslash escapes. */
  ghost predicate Likes(op: string, v: Value, w: Value) {
    && v.Str? && w.Str? && Glob.Specifiers(w.s).Some?
    && if op == " LIKE " then Glob.Like(w.s, v.s) else op == " NOT LIKE " && !Glob.Like(w.s, v.s)
  }

  predicate Includes(v: Value, w: Value) {
    v.Coll? && w.Coll? && forall e :: e in w.es ==> e in v.es
  }

  predicate Nulls(op: string, v: Value) {
    if v == Null then op == " IS NULL" else op == " IS NOT NULL"
  }

  /** The empty string, or null, or neither. */
  predicate Empties(op: string, v: Value, op': string, w: Value) {
    || (op == " = '' OR " && op' == " IS NULL)" && (v == Str("") || w == Null))
    || (op == " <> '' AND " && op' == " IS NOT NULL)" && v != Null && v != Str("") && w != Null)
  }

  // What a query selects.

  /** Does a constraint hold? */
  ghost predicate Holds(db: Db, env: Env, ts: seq<Token>)
    decreases ts, 0
  {
    if |ts| == 2 && ts[0].Field? && ts[1].Text? then Nulls(ts[1].s, Eval(db, env, ts[0].p))
    else if |ts| == 3 && ts[0].Field? && ts[1].Text? && ts[2].Hole? then
      Compares(db, ts[1].s, Eval(db, env, ts[0].p), ts[2].v)
    else if |ts| == 3 && ts[0] == Text("exists (") && ts[1].Sub? && ts[2] == Text(")") then
      Exists(db, env, ts[1])
    else if |ts| == 4 && ts[0].Field? && ts[1].Text? && ts[2].Hole? && ts[3] == Text(" ESCAPE '\\'") then
      Likes(ts[1].s, Eval(db, env, ts[0].p), ts[2].v)
    else if |ts| == 5 && ts[0] == Text("(") && ts[1].Field? && ts[2].Text? && ts[3].Field? && ts[4].Text? then
      Empties(ts[2].s, Eval(db, env, ts[1].p), ts[4].s, Eval(db, env, ts[3].p))
    else if |ts| == 5 && ts[0] == Text("CAST (") && ts[1].Field? && ts[2] == Text(" AS SET) SUPERSETEQ CAST(") &&
      ts[3].Hole? && ts[4] == Text(" AS SET)") then Includes(Eval(db, env, ts[1].p), ts[3].v)
    else false
  }

  ghost predicate Exists(db: Db, env: Env, t: Token)
    decreases t, 2
  {
    t.Sub? && Formed(t.q) && Selects(db, env, t.q)
  }

  /** Is what the source declares in its range? */
  predicate Ranges(db: Db, env: Env, ts: seq<Token>) {
    if |ts| == 4 && ts[0].Text? && ts[1].Name? && ts[2] == Text("\" ") && ts[3].Field? && ts[3].p.Var? then
      (ts[0].s == "\"" || ts[0].s == "all \"") && InClass(db, ValueOf(env, ts[3].p.n), ts[1].s, ts[0].s == "all \"")
    else if |ts| == 7 && ts[0] == Text("table(") && ts[1].Field? && ts[2] == Text(") as ") && ts[3].Field? &&
      ts[3].p.Var? &&
      ts[4] == Text("(") && ts[5].Field? && ts[5].p.Var? && ts[6] == Text(")") then
      var v := Eval(db, env, ts[1].p); v.Coll? && ValueOf(env, ts[5].p.n) in v.es
    else false
  }

  /** The variables a source declares; a table has a name besides the one for its elements. */
  function Declares(ts: seq<Token>): set<nat> {
    if |ts| == 4 && ts[3].Field? && ts[3].p.Var? then {ts[3].p.n}
    else if |ts| == 7 && ts[3].Field? && ts[3].p.Var? && ts[5].Field? && ts[5].p.Var? then {ts[3].p.n, ts[5].p.n}
    else {}
  }

  /** A bound variable stands for the object its path leads to. */
  predicate Binds(db: Db, env: Env, i: Item) {
    i.Bound? ==> ValueOf(env, i.n) != Null && ValueOf(env, i.n) == Eval(db, env, i.p)
  }

  /** An assignment that all parts agree with. */
  ghost predicate Fits(db: Db, env: Env, q: Sql)
    decreases q, 0
  {
    && (forall i :: 0 <= i < |q.select| ==> Binds(db, env, q.select[i]))
    && (forall i :: 0 <= i < |q.from_| ==> Ranges(db, env, q.from_[i].ts))
    && (forall i :: 0 <= i < |q.where_| ==> Holds(db, env, q.where_[i].ts))
  }

  function DeclaredBy(ps: seq<Phrase>): set<nat> {
    set i, n | 0 <= i < |ps| && n in Declares(ps[i].ts) :: n
  }

  function Declared(q: Sql): set<nat> {
    DeclaredBy(q.from_)
  }

  /** The assignments differ at most in these variables. */
  ghost predicate Varies(env: Env, env': Env, vars: set<nat>) {
    forall n :: n !in vars ==> ValueOf(env', n) == ValueOf(env, n)
  }

  /** The query has a row, given the variables around it. */
  ghost predicate Selects(db: Db, env: Env, q: Sql)
    decreases q, 1
  {
    exists env' :: Varies(env, env', Declared(q)) && Fits(db, env', q)
  }

  /** Each phrase has the word it follows from: a first one, and the same for all others. */
  predicate Leads(ps: seq<Phrase>, first: string, others: string) {
    forall i :: 0 <= i < |ps| ==> ps[i].lead == if i == 0 then first else others
  }

  predicate Formed(q: Sql) {
    q.select != [] && q.from_ != [] && Leads(q.from_, " from ", ", ") && Leads(q.where_, " where ", " and ")
  }

  // The variables a query mentions.

  function Root(p: Path): nat {
    match p case Var(n) => n case Dot(base, _) => Root(base)
  }

  function MentionedBy(ts: seq<Token>): set<nat>
    decreases ts, 0
  {
    if ts == [] then {} else MentionedBy(ts[..|ts| - 1]) + Mentioned(ts[|ts| - 1])
  }

  /** A sub-query hides the variables it declares. */
  function Mentioned(t: Token): set<nat>
    decreases t, 2
  {
    match t
    case Field(p) => {Root(p)}
    case Sub(q) => Mentions(q) - Declared(q)
    case _ => {}
  }

  function MentionedIn(ps: seq<Phrase>): set<nat>
    decreases ps, 1
  {
    if ps == [] then {} else MentionedIn(ps[..|ps| - 1]) + MentionedBy(ps[|ps| - 1].ts)
  }

  function MentionedItems(items: seq<Item>): set<nat> {
    if items == [] then {}
    else
      var i := items[|items| - 1];
      MentionedItems(items[..|items| - 1]) + {Root(i.p)} + if i.Bound? then {i.n} else {}
  }

  function Mentions(q: Sql): set<nat>
    decreases q, 1
  {
    MentionedItems(q.select) + MentionedIn(q.from_) + MentionedIn(q.where_)
  }

  // What a row depends on.

  /** The assignments agree on these variables. */
  ghost predicate Same(env: Env, env': Env, vars: set<nat>) {
    forall n :: n in vars ==> ValueOf(env', n) == ValueOf(env, n)
  }

  /** One assignment, with some variables taken from another. */
  function Overlay(env: Env, env': Env, vars: set<nat>): (r: Env)
    ensures forall n :: ValueOf(r, n) == if n in vars then ValueOf(env', n) else ValueOf(env, n)
  {
    map n | n in env.Keys + env'.Keys :: if n in vars then ValueOf(env', n) else ValueOf(env, n)
  }

  lemma {:induction false} EvalSame(db: Db, env: Env, env': Env, p: Path)
    requires ValueOf(env', Root(p)) == ValueOf(env, Root(p))
    ensures Eval(db, env', p) == Eval(db, env, p)
  {
    if p.Dot? {
      EvalSame(db, env, env', p.base);
    }
  }

  lemma {:induction false} MentionedAt(ts: seq<Token>, i: nat)
    requires i < |ts|
    ensures Mentioned(ts[i]) <= MentionedBy(ts)
    decreases |ts|
  {
    if i < |ts| - 1 {
      MentionedAt(ts[..|ts| - 1], i);
    }
  }

  lemma {:induction false} MentionedPhrase(ps: seq<Phrase>, i: nat)
    requires i < |ps|
    ensures MentionedBy(ps[i].ts) <= MentionedIn(ps)
    decreases |ps|
  {
    if i < |ps| - 1 {
      MentionedPhrase(ps[..|ps| - 1], i);
    }
  }

  lemma {:induction false} MentionedItem(items: seq<Item>, i: nat)
    requires i < |items|
    ensures Root(items[i].p) in MentionedItems(items) && (items[i].Bound? ==> items[i].n in MentionedItems(items))
    decreases |items|
  {
    if i < |items| - 1 {
      MentionedItem(items[..|items| - 1], i);
    }
  }

  /** The paths of a phrase lead to the same values. */
  lemma EvalsSame(db: Db, env: Env, env': Env, ts: seq<Token>)
    requires Same(env, env', MentionedBy(ts))
    ensures forall i :: 0 <= i < |ts| && ts[i].Field? ==> Eval(db, env', ts[i].p) == Eval(db, env, ts[i].p)
    ensures forall i :: 0 <= i < |ts| && ts[i].Sub? ==> Same(env, env', Mentions(ts[i].q) - Declared(ts[i].q))
  {
    forall i | 0 <= i < |ts| && ts[i].Field?
      ensures Eval(db, env', ts[i].p) == Eval(db, env, ts[i].p)
    {
      MentionedAt(ts, i);
      EvalSame(db, env, env', ts[i].p);
    }
    forall i | 0 <= i < |ts| && ts[i].Sub?
      ensures Same(env, env', Mentions(ts[i].q) - Declared(ts[i].q))
    {
      MentionedAt(ts, i);
    }
  }

  lemma {:induction false} HoldsSame(db: Db, env: Env, env': Env, ts: seq<Token>)
    requires Same(env, env', MentionedBy(ts))
    ensures Holds(db, env', ts) <==> Holds(db, env, ts)
    decreases ts, 0
  {
    EvalsSame(db, env, env', ts);
    hide MentionedBy, Mentions, Compares, Likes, Nulls, Empties, Includes, Selects, Formed, Eval;
    if |ts| == 3 && ts[1].Sub? {
      ExistsSame(db, env, env', ts[1]);
    }
  }

  lemma {:induction false} ExistsSame(db: Db, env: Env, env': Env, t: Token)
    requires t.Sub? && Same(env, env', Mentions(t.q) - Declared(t.q))
    ensures Exists(db, env', t) <==> Exists(db, env, t)
    decreases t, 2
  {
    hide Selects, Mentions, Declared;
    if Selects(db, env, t.q) {
      SelectsSame(db, env, env', t.q);
    }
    if Selects(db, env', t.q) {
      SelectsSame(db, env', env, t.q);
    }
  }

  lemma {:induction false} SelectsSame(db: Db, env: Env, env': Env, q: Sql)
    requires Same(env, env', Mentions(q) - Declared(q)) && Selects(db, env, q)
    ensures Selects(db, env', q)
    decreases q, 1
  {
    hide Fits, Mentions, Declared;
    var e :| Varies(env, e, Declared(q)) && Fits(db, e, q);
    var e' := Overlay(env', e, Declared(q));
    FitsSame(db, e, e', q);
    assert Varies(env', e', Declared(q));
  }

  lemma {:induction false} FitsSame(db: Db, env: Env, env': Env, q: Sql)
    requires Same(env, env', Mentions(q)) && Fits(db, env, q)
    ensures Fits(db, env', q)
    decreases q, 0
  {
    hide MentionedItems, MentionedIn, Holds, Ranges, Binds;
    forall i | 0 <= i < |q.select|
      ensures Binds(db, env', q.select[i])
    {
      assert Binds(db, env, q.select[i]);
      MentionedItem(q.select, i);
      BindsSame(db, env, env', q.select[i]);
    }
    forall i | 0 <= i < |q.from_|
      ensures Ranges(db, env', q.from_[i].ts)
    {
      assert Ranges(db, env, q.from_[i].ts);
      MentionedPhrase(q.from_, i);
      RangesSame(db, env, env', q.from_[i].ts);
    }
    forall i | 0 <= i < |q.where_|
      ensures Holds(db, env', q.where_[i].ts)
    {
      assert Holds(db, env, q.where_[i].ts);
      MentionedPhrase(q.where_, i);
      HoldsSame(db, env, env', q.where_[i].ts);
    }
  }

  lemma BindsSame(db: Db, env: Env, env': Env, i: Item)
    requires ValueOf(env', Root(i.p)) == ValueOf(env, Root(i.p)) &&
      (i.Bound? ==> ValueOf(env', i.n) == ValueOf(env, i.n))
    ensures Binds(db, env', i) <==> Binds(db, env, i)
  {
    EvalSame(db, env, env', i.p);
  }

  lemma RangesSame(db: Db, env: Env, env': Env, ts: seq<Token>)
    requires Same(env, env', MentionedBy(ts))
    ensures Ranges(db, env', ts) <==> Ranges(db, env, ts)
  {
    EvalsSame(db, env, env', ts);
    hide MentionedBy, Mentions;
    if |ts| == 4 && ts[3].Field? && ts[3].p.Var? {
      assert Eval(db, env', ts[3].p) == ValueOf(env', ts[3].p.n);
    }
    if |ts| == 7 && ts[5].Field? && ts[5].p.Var? {
      assert Eval(db, env', ts[5].p) == ValueOf(env', ts[5].p.n);
    }
  }

  // Queries in parts.

  function Plus(f: Sql, g: Sql): Sql {
    Sql(f.select + g.select, f.from_ + g.from_, f.where_ + g.where_)
  }

  lemma FitsPlus(db: Db, env: Env, f: Sql, g: Sql)
    ensures Fits(db, env, Plus(f, g)) <==> Fits(db, env, f) && Fits(db, env, g)
  {
    hide Holds, Ranges, Binds;
    var h := Plus(f, g);
    if Fits(db, env, h) {
      forall i | 0 <= i < |f.select| ensures Binds(db, env, f.select[i]) { assert h.select[i] == f.select[i]; }
      forall i | 0 <= i < |g.select| ensures Binds(db, env,
        g.select[i]) { assert h.select[|f.select| + i] == g.select[i]; }
      forall i | 0 <= i < |f.from_| ensures Ranges(db, env, f.from_[i].ts) { assert h.from_[i] == f.from_[i]; }
      forall i | 0 <= i < |g.from_| ensures Ranges(db, env,
        g.from_[i].ts) { assert h.from_[|f.from_| + i] == g.from_[i]; }
      forall i | 0 <= i < |f.where_| ensures Holds(db, env, f.where_[i].ts) { assert h.where_[i] == f.where_[i]; }
      forall i | 0 <= i < |g.where_| ensures Holds(db, env,
        g.where_[i].ts) { assert h.where_[|f.where_| + i] == g.where_[i]; }
    }
  }

  lemma DeclaredPlus(f: Sql, g: Sql)
    ensures Declared(Plus(f, g)) == Declared(f) + Declared(g)
  {
    hide Declares;
    var ps := f.from_ + g.from_;
    forall n
      ensures n in DeclaredBy(ps) <==> n in DeclaredBy(f.from_) || n in DeclaredBy(g.from_)
    {
      if i :| 0 <= i < |f.from_| && n in Declares(f.from_[i].ts) {
        assert ps[i] == f.from_[i];
      }
      if i :| 0 <= i < |g.from_| && n in Declares(g.from_[i].ts) {
        assert ps[|f.from_| + i] == g.from_[i];
      }
    }
  }

  /** Parts that do not touch each other's variables are satisfied one by one. */
  lemma SelectsPlus(db: Db, env: Env, f: Sql, g: Sql)
    requires Declared(f) !! Mentions(g) && Declared(g) !! Mentions(f) && Declared(f) !! Declared(g)
    ensures Selects(db, env, Plus(f, g)) <==> Selects(db, env, f) && Selects(db, env, g)
  {
    hide Fits, Mentions, Declared, Plus;
    DeclaredPlus(f, g);
    if Selects(db, env, Plus(f, g)) {
      var e :| Varies(env, e, Declared(Plus(f, g))) && Fits(db, e, Plus(f, g));
      FitsPlus(db, e, f, g);
      var e1, e2 := Overlay(env, e, Declared(f)), Overlay(env, e, Declared(g));
      FitsSame(db, e, e1, f);
      FitsSame(db, e, e2, g);
      assert Varies(env, e1, Declared(f)) && Varies(env, e2, Declared(g));
    }
    if Selects(db, env, f) && Selects(db, env, g) {
      var e1 :| Varies(env, e1, Declared(f)) && Fits(db, e1, f);
      var e2 :| Varies(env, e2, Declared(g)) && Fits(db, e2, g);
      var e := Overlay(e1, e2, Declared(g));
      FitsSame(db, e1, e, f);
      FitsSame(db, e2, e, g);
      FitsPlus(db, e, f, g);
      assert Varies(env, e, Declared(Plus(f, g)));
    }
  }

  lemma RowOf(db: Db, env: Env, q: Sql) returns (e: Env)
    requires Selects(db, env, q)
    ensures Varies(env, e, Declared(q)) && Fits(db, e, q)
  {
    hide Fits, Declared;
    e :| Varies(env, e, Declared(q)) && Fits(db, e, q);
  }

  lemma {:induction false} MentionedInPlus(a: seq<Phrase>, b: seq<Phrase>)
    ensures MentionedIn(a + b) == MentionedIn(a) + MentionedIn(b)
    decreases |b|
  {
    if b == [] {
      assert a + b == a;
    } else {
      assert (a + b)[..|a + b| - 1] == a + b[..|b| - 1];
      MentionedInPlus(a, b[..|b| - 1]);
    }
  }

  lemma {:induction false} MentionedItemsPlus(a: seq<Item>, b: seq<Item>)
    ensures MentionedItems(a + b) == MentionedItems(a) + MentionedItems(b)
    decreases |b|
  {
    if b == [] {
      assert a + b == a;
    } else {
      assert (a + b)[..|a + b| - 1] == a + b[..|b| - 1];
      MentionedItemsPlus(a, b[..|b| - 1]);
    }
  }

  lemma MentionsPlus(f: Sql, g: Sql)
    ensures Mentions(Plus(f, g)) == Mentions(f) + Mentions(g)
  {
    hide MentionedIn, MentionedItems;
    MentionedItemsPlus(f.select, g.select);
    MentionedInPlus(f.from_, g.from_);
    MentionedInPlus(f.where_, g.where_);
  }

  /** No variables of its own: a row for each assignment all constraints hold of. */
  lemma SelectsPlain(db: Db, env: Env, f: Sql)
    requires f.from_ == [] && forall i :: 0 <= i < |f.select| ==> !f.select[i].Bound?
    ensures Selects(db, env, f) <==> forall i :: 0 <= i < |f.where_| ==> Holds(db, env, f.where_[i].ts)
  {
    hide Holds, Mentions;
    assert Declared(f) == {};
    if Selects(db, env, f) {
      var e := RowOf(db, env, f);
      FitsSame(db, e, env, f);
    }
    if forall i :: 0 <= i < |f.where_| ==> Holds(db, env, f.where_[i].ts) {
      assert Varies(env, env, Declared(f)) && Fits(db, env, f);
    }
  }

  // The constraints the translation writes.

  lemma {:induction false} MentionedPaths(ts: seq<Token>, r: nat)
    requires forall i :: 0 <= i < |ts| ==> !ts[i].Sub? && (ts[i].Field? ==> Root(ts[i].p) == r)
    ensures MentionedBy(ts) <= {r}
    decreases |ts|
  {
    if ts != [] {
      MentionedPaths(ts[..|ts| - 1], r);
    }
  }

  lemma NullHolds(db: Db, env: Env, p: Path, op: string)
    ensures Holds(db, env, [Field(p), Text(op)]) <==> Nulls(op, Eval(db, env, p))
  {
    hide Eval, Nulls;
  }

  lemma EmptyHolds(db: Db, env: Env, p: Path, op: string, op': string)
    ensures Holds(db, env, [Text("("), Field(p), Text(op), Field(p), Text(op')]) <==>
      Empties(op, Eval(db, env, p), op', Eval(db, env, p))
  {
    hide Eval, Empties;
  }

  lemma CompareHolds(db: Db, env: Env, p: Path, op: string, v: Value)
    ensures Holds(db, env, [Field(p), Text(op), Hole(v)]) <==> Compares(db, op, Eval(db, env, p), v)
  {
    hide Eval, Compares;
  }

  lemma LikeHolds(db: Db, env: Env, p: Path, op: string, v: Value)
    ensures Holds(db, env, [Field(p), Text(op), Hole(v), Text(" ESCAPE '\\'")]) <==> Likes(op, Eval(db, env, p), v)
  {
    hide Eval, Likes;
  }

  lemma IncludeHolds(db: Db, env: Env, p: Path, v: Value)
    ensures Holds(db, env,
      [Text("CAST ("), Field(p), Text(" AS SET) SUPERSETEQ CAST("), Hole(v), Text(" AS SET)")]) <==>
      Includes(Eval(db, env, p), v)
  {
    hide Eval, Includes;
  }

  lemma ExistsHolds(db: Db, env: Env, q: Sql)
    ensures Holds(db, env, [Text("exists ("), Sub(q), Text(")")]) <==> Formed(q) && Selects(db, env, q)
  {
    hide Formed, Selects;
    var ts := [Text("exists ("), Sub(q), Text(")")];
    assert Holds(db, env, ts) <==> Exists(db, env, ts[1]);
  }

  lemma ExistsMentions(q: Sql)
    ensures MentionedBy([Text("exists ("), Sub(q), Text(")")]) == Mentions(q) - Declared(q)
  {
    hide Mentions, Declared;
    var a, b, c := Text("exists ("), Sub(q), Text(")");
    MentionedNext([], a);
    MentionedNext([a], b);
    MentionedNext([a, b], c);
    assert [] + [a] == [a] && [a] + [b] == [a, b] && [a, b] + [c] == [a, b, c];
  }

  lemma MentionedNext(ts: seq<Token>, t: Token)
    ensures MentionedBy(ts + [t]) == MentionedBy(ts) + Mentioned(t)
  {
    assert (ts + [t])[..|ts|] == ts;
  }

  // A variable declared in a query.

  /** The path is bound to a variable of a class: it leads to such an object, which the rest is about. */
  lemma SelectsBound(db: Db, env: Env, h: Sql, f: Sql, p: Path, k: nat, c: string, all: bool, lead: string)
    requires h.where_ == [] && |h.from_| == 1 && h.from_[0] == Phrase(lead, ClassSource(c, all, k))
    requires (exists i :: 0 <= i < |h.select| && h.select[i] == Bound(p, k))
    requires forall i :: 0 <= i < |h.select| && h.select[i].Bound? ==> h.select[i] == Bound(p, k)
    requires Root(p) != k && Root(p) !in Declared(f) && k !in Declared(f)
    ensures var v := Eval(db, env, p);
      Selects(db, env, Plus(h, f)) <==> InClass(db, v, c, all) && Selects(db, env[k := v], f)
  {
    hide Fits, Declared, Mentions;
    var v := Eval(db, env, p);
    DeclaredPlus(h, f);
    DeclaredOne(h, c, all, k);
    if Selects(db, env, Plus(h, f)) {
      var e :| Varies(env, e, Declared(Plus(h, f))) && Fits(db, e, Plus(h, f));
      FitsPlus(db, e, h, f);
      EvalSame(db, env, e, p);
      HeadFits(db, e, h, p, k, c, all);
      assert Varies(env[k := v], e, Declared(f));
    }
    if InClass(db, v, c, all) && Selects(db, env[k := v], f) {
      var e := RowOf(db, env[k := v], f);
      assert ValueOf(env[k := v], Root(p)) == ValueOf(env, Root(p)) && ValueOf(e, k) == v;
      EvalSame(db, env, e, p);
      HeadFits(db, e, h, p, k, c, all);
      FitsPlus(db, e, h, f);
      assert Varies(env, e, Declared(Plus(h, f)));
    }
  }

  /** A class and the variable that ranges over it. */
  function ClassSource(c: string, all: bool, k: nat): seq<Token> {
    [Text(if all then "all \"" else "\""), Name(c), Text("\" "), Field(Var(k))]
  }

  /** The elements of a collection, and the variable that ranges over them. */
  function ElementSource(p: Path, i: nat, j: nat): seq<Token> {
    [Text("table("), Field(p), Text(") as "), Field(Var(i)), Text("("), Field(Var(j)), Text(")")]
  }

  lemma DeclaredOne(h: Sql, c: string, all: bool, k: nat)
    requires |h.from_| == 1 && h.from_[0].ts == ClassSource(c, all, k)
    ensures Declared(h) == {k}
  {
    assert Declares(h.from_[0].ts) == {k};
  }

  lemma HeadFits(db: Db, e: Env, h: Sql, p: Path, k: nat, c: string, all: bool)
    requires h.where_ == [] && |h.from_| == 1 && h.from_[0].ts == ClassSource(c, all, k)
    requires (exists i :: 0 <= i < |h.select| && h.select[i] == Bound(p, k))
    requires forall i :: 0 <= i < |h.select| && h.select[i].Bound? ==> h.select[i] == Bound(p, k)
    ensures Fits(db, e, h) <==> ValueOf(e, k) == Eval(db, e, p) && InClass(db, ValueOf(e, k), c, all)
  {
    hide Eval;
    assert Ranges(db, e, h.from_[0].ts) <==> InClass(db, ValueOf(e, k), c, all);
    if Fits(db, e, h) {
      var i :| 0 <= i < |h.select| && h.select[i] == Bound(p, k);
      assert Binds(db, e, h.select[i]);
    }
  }

  /** The sub-query about the elements of a collection: some element is what the rest asks for. */
  lemma SelectsElement(db: Db, env: Env, h: Sql, f: Sql, p: Path, i: nat, j: nat)
    requires h == Sql([Plain(Var(j))], [Phrase(" from ", ElementSource(p, i, j))], [])
    requires Root(p) !in {i, j} + Declared(f) && j !in Declared(f) && i !in Mentions(f) && i !in Declared(f) && i != j
    ensures var v := Eval(db, env, p);
      Selects(db, env, Plus(h, f)) <==> v.Coll? && exists x :: x in v.es && Selects(db, env[j := x], f)
  {
    hide Fits, Declared, Mentions;
    var v := Eval(db, env, p);
    DeclaredPlus(h, f);
    DeclaredElement(h, p, i, j);
    if Selects(db, env, Plus(h, f)) {
      var e :| Varies(env, e, Declared(Plus(h, f))) && Fits(db, e, Plus(h, f));
      FitsPlus(db, e, h, f);
      EvalSame(db, env, e, p);
      ElementFits(db, e, h, p, i, j);
      var e' := Overlay(env[j := ValueOf(e, j)], e, Declared(f));
      FitsSame(db, e, e', f);
      assert Varies(env[j := ValueOf(e, j)], e', Declared(f));
      assert Selects(db, env[j := ValueOf(e, j)], f);
    }
    if v.Coll? && exists x :: x in v.es && Selects(db, env[j := x], f) {
      var x :| x in v.es && Selects(db, env[j := x], f);
      var e := RowOf(db, env[j := x], f);
      assert ValueOf(env[j := x], Root(p)) == ValueOf(env, Root(p)) && ValueOf(e, j) == x;
      EvalSame(db, env, e, p);
      ElementFits(db, e, h, p, i, j);
      FitsPlus(db, e, h, f);
      assert Varies(env, e, Declared(Plus(h, f)));
    }
  }

  lemma DeclaredElement(h: Sql, p: Path, i: nat, j: nat)
    requires h.from_ == [Phrase(" from ", ElementSource(p, i, j))]
    ensures Declared(h) == {i, j}
  {
    assert Declares(h.from_[0].ts) == {i, j};
  }

  lemma ElementFits(db: Db, e: Env, h: Sql, p: Path, i: nat, j: nat)
    requires h == Sql([Plain(Var(j))], [Phrase(" from ", ElementSource(p, i, j))], [])
    ensures Fits(db, e, h) <==> Eval(db, e, p).Coll? && ValueOf(e, j) in Eval(db, e, p).es
  {
    hide Eval;
    assert Ranges(db, e, h.from_[0].ts) <==> Eval(db, e, p).Coll? && ValueOf(e, j) in Eval(db, e, p).es;
  }

  // Placeholders.

  /** The values of the placeholders, in the order they are written. */
  function HolesBy(ts: seq<Token>): seq<Value>
    decreases ts, 0
  {
    if ts == [] then [] else HolesBy(ts[..|ts| - 1]) + HolesOf(ts[|ts| - 1])
  }

  function HolesOf(t: Token): seq<Value>
    decreases t, 2
  {
    match t case Hole(v) => [v] case Sub(q) => Holes(q) case _ => []
  }

  function HolesIn(ps: seq<Phrase>): seq<Value>
    decreases ps, 1
  {
    if ps == [] then [] else HolesIn(ps[..|ps| - 1]) + HolesBy(ps[|ps| - 1].ts)
  }

  function Holes(q: Sql): seq<Value>
    decreases q, 1
  {
    HolesIn(q.from_) + HolesIn(q.where_)
  }

  lemma HolesMore(ps: seq<Phrase>, p: Phrase)
    ensures HolesIn(ps + [p]) == HolesIn(ps) + HolesBy(p.ts)
  {
    assert (ps + [p])[..|ps|] == ps;
  }

  lemma HolesNext(ts: seq<Token>, t: Token)
    ensures HolesBy(ts + [t]) == HolesBy(ts) + HolesOf(t)
  {
    assert (ts + [t])[..|ts|] == ts;
  }

  // The text.

  function Digits(n: nat): string {
    if n < 10 then [['0', '1', '2', '3', '4', '5', '6', '7', '8', '9'][n]] else Digits(n / 10) + Digits(n % 10)
  }

  function Variable(n: nat): string {
    "c#" + Digits(n)
  }

  function PathText(p: Path): string {
    match p case Var(n) => Variable(n) case Dot(base, a) => PathText(base) + ".\"" + a + "\""
  }

  function ItemText(i: Item): string {
    match i
    case Plain(p) => PathText(p)
    case Uuid(p) => PathText(p) + ".uuid"
    case Bound(p, n) => PathText(p) + "[" + Variable(n) + "].uuid"
  }

  function ItemsText(items: seq<Item>): string {
    if items == [] then ""
    else if |items| == 1 then ItemText(items[0])
    else ItemsText(items[..|items| - 1]) + ", " + ItemText(items[|items| - 1])
  }

  function TokensText(ts: seq<Token>): string
    decreases ts, 0
  {
    if ts == [] then "" else TokensText(ts[..|ts| - 1]) + TokenText(ts[|ts| - 1])
  }

  function TokenText(t: Token): string
    decreases t, 2
  {
    match t
    case Text(s) => s
    case Name(s) => s
    case Field(p) => PathText(p)
    case Hole(_) => "?"
    case Sub(q) => SqlText(q)
  }

  function PhrasesText(ps: seq<Phrase>): string
    decreases ps, 1
  {
    if ps == [] then ""
    else PhrasesText(ps[..|ps| - 1]) + ps[|ps| - 1].lead + TokensText(ps[|ps| - 1].ts)
  }

  function SqlText(q: Sql): string
    decreases q, 1
  {
    "select " + ItemsText(q.select) + PhrasesText(q.from_) + PhrasesText(q.where_)
  }

  /** No attribute in the path has a quote in its name. */
  predicate Quotable(p: Path) {
    match p case Var(_) => true case Dot(base, a) => Quotable(base) && '"' !in a
  }

  lemma {:induction false} DigitsLast(n: nat)
    ensures Digits(n) != "" && '0' <= Digits(n)[|Digits(n)| - 1] <= '9'
    decreases n
  {
    if n >= 10 {
      var t := Digits(n % 10);
      assert t != "" && Digits(n)[|Digits(n)| - 1] == t[|t| - 1];
    }
  }

  /** A path can be read back from its text. */
  lemma {:induction false} PathTextInjective(p: Path, q: Path)
    requires Quotable(p) && Quotable(q) && PathText(p) == PathText(q)
    ensures p == q
    decreases p
  {
    match p {
      case Var(n) =>
        DigitsLast(n);
        match q {
          case Var(m) => VariableInjective(n, m);
          case Dot(base, a) => assert PathText(q)[|PathText(q)| - 1] == '"';
        }
      case Dot(base, a) =>
        assert PathText(p)[|PathText(p)| - 1] == '"';
        match q {
          case Var(m) => DigitsLast(m);
          case Dot(base', a') =>
            assert forall x: string, b: string :: x + ".\"" + b + "\"" == x + "." + "\"" + b + "\"";
            LastName(PathText(base) + ".", a, PathText(base') + ".", a');
            PathTextInjective(base, base');
        }
    }
  }

  lemma LastName(x: string, a: string, y: string, b: string)
    requires '"' !in a && '"' !in b && |x| > 0 && |y| > 0
    requires x + "\"" + a + "\"" == y + "\"" + b + "\""
    ensures a == b && x[..|x| - 1] == y[..|y| - 1]
  {
    var s, t := x + "\"" + a + "\"", y + "\"" + b + "\"";
    assert s[|x|] == '"' && t[|y|] == '"';
    assert forall i :: |x| < i < |s| - 1 ==> s[i] == a[i - |x| - 1];
    assert forall i :: |y| < i < |t| - 1 ==> t[i] == b[i - |y| - 1];
    assert |x| == |y|;
    assert s[|x| + 1..|s| - 1] == a && t[|y| + 1..|t| - 1] == b;
    assert s[..|x| - 1] == x[..|x| - 1] && t[..|y| - 1] == y[..|y| - 1];
  }

  /** Different variable numbers give different names. */
  lemma VariableInjective(a: nat, b: nat)
    requires Variable(a) == Variable(b)
    ensures a == b
  {
    assert Digits(a) == Variable(a)[2..] == Variable(b)[2..] == Digits(b);
    DigitsInjective(a, b);
  }

  lemma {:induction false} DigitsInjective(a: nat, b: nat)
    requires Digits(a) == Digits(b)
    ensures a == b
    decreases a
  {
    DigitsEnd(a);
    DigitsEnd(b);
    if a >= 10 && b >= 10 {
      DigitsInjective(a / 10, b / 10);
    }
  }

  lemma {:induction false} DigitsEnd(n: nat)
    ensures |Digits(n)| > 0 && (n >= 10 <==> |Digits(n)| > 1)
    ensures n >= 10 ==> Digits(n)[..|Digits(n)| - 1] == Digits(n / 10) && Digits(n)[|Digits(n)| - 1..] == Digits(n % 10)
    decreases n
  {
    if n >= 10 {
      DigitsEnd(n / 10);
      assert |Digits(n % 10)| == 1;
    }
  }
}
