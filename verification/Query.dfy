/**
 The translation of a query specification into SQL (libudb/qbe.c): the parse tree that says which
 column of the result belongs to which attribute, and the values for the placeholders.
 */
module Query {
  import opened Basics
  import Glob
  import opened Sql

  type Id = nat

  datatype Elem = IntElem | StringElem | ObjectElem(class_: string)

  datatype Domain = Scalar(elem: Elem) | Collection(elem: Elem)

  /** What the schema and the database answer: printable attributes, classes, and conversions of literals. */
  datatype Schema = Schema(
    domain: (string, string) -> Option<Domain>,
    attributes: string -> seq<string>,
    isClass: string -> bool,
    isa: (string, string) -> bool,
    convert: (Domain, string) -> Option<Value>)

  datatype Specs = Star | Each(specs: seq<Spec>)

  /** One attribute of a specification; malformed ones have been found by the list parser. */
  datatype Spec = Malformed | Spec(aname: string, op: Operator)

  datatype Operator =
    | Any
    | Qbe(all: bool, class_: string, subs: Specs)
    | Contains(list: string)
    | Equals(negated: bool, arg: Option<string>)
    | Order(sign: Sign, than: string)
    | Like(negated: bool, pattern: string)

  datatype Sign = Below | Above | UpTo | From

  /** A select expression, and the node it was written for. */
  datatype Expr = Expr(owner: Id, item: Item)

  datatype Kind = AttrNode | QbeNode

  /**
   A node of the parse tree, with the expressions written for the node itself, the path its children's
   attributes are reached by, and the number of the variable in that path if it is one.
   */
  datatype Node = Node(aname: string, kind: Kind, column: int, count: int, children: seq<Id>, items: seq<Item>,
    path: Path, selector: Option<nat>)

  /** The root of a tree whose columns are off by `skew`, as it should be; every other node is only moved. */
  function Shifted(d: Node, skew: int, n: Id): Node {
    if n == 0 then d.(column := d.column + skew, count := d.count - skew) else d
  }

  /** The columns of a node are its own expressions, then those of its children, one after the other. */
  ghost predicate Local(nodes: map<Id, Node>, select: seq<Expr>, skew: int, n: Id)
    requires n in nodes
  {
    LocalAs(nodes, select, skew, n, Shifted(nodes[n], skew, n))
  }

  ghost predicate LocalAs(nodes: map<Id, Node>, select: seq<Expr>, skew: int, n: Id, d: Node) {
    && 0 <= d.column - skew && |d.items| <= d.count && d.column - skew + d.count <= |select|
    && OwnPart(select, d.column - skew, n, d.items)
    && (forall i :: 0 <= i < |d.children| ==> n < d.children[i] && d.children[i] in nodes && InPlace(nodes, d, i))
    && (if d.children == [] then d.count == |d.items|
      else End(nodes, d.children[|d.children| - 1]) == d.column + d.count)
  }

  ghost predicate OwnPart(select: seq<Expr>, at: nat, n: Id, items: seq<Item>)
    requires at + |items| <= |select|
  {
    forall k :: 0 <= k < |items| ==> select[at + k] == Expr(n, items[k])
  }

  function End(nodes: map<Id, Node>, n: Id): int
    requires n in nodes
  {
    nodes[n].column + nodes[n].count
  }

  /** Child i starts where the one before it, or the node's own part, ends. */
  ghost predicate InPlace(nodes: map<Id, Node>, d: Node, i: nat)
    requires i < |d.children| && d.children[i] in nodes
  {
    nodes[d.children[i]].column ==
      if i == 0 then d.column + |d.items|
      else if d.children[i - 1] in nodes then End(nodes, d.children[i - 1]) else 0
  }

  /** A node whose own entry and children are as before is laid out as before. */
  lemma LocalKept(nodes: map<Id, Node>, nodes': map<Id, Node>, select: seq<Expr>, select': seq<Expr>, skew: int, n: Id)
    requires n in nodes && Local(nodes, select, skew, n) && n in nodes' && nodes'[n] == nodes[n] && select <= select'
    requires forall i :: 0 <= i < |nodes[n].children| ==>
      nodes[n].children[i] in nodes' && nodes'[nodes[n].children[i]] == nodes[nodes[n].children[i]]
    ensures Local(nodes', select', skew, n)
  {
    var d := Shifted(nodes[n], skew, n);
    assert OwnPart(select', d.column - skew, n, d.items);
    hide OwnPart;
    forall i | 0 <= i < |d.children|
      ensures InPlace(nodes', d, i)
    {
      assert InPlace(nodes, d, i);
      if i > 0 { assert d.children[i - 1] in nodes'; }
    }
  }

  /** A child that takes up what has been written since its parent's columns ended completes the parent again. */
  lemma LocalClosed(nodes: map<Id, Node>, nodes': map<Id, Node>, select: seq<Expr>, select': seq<Expr>, skew: int,
      p: Id, c: Id)
    requires p in nodes && Local(nodes, select, skew, p) && select <= select' && p < c && c in nodes'
    requires nodes[p].column + nodes[p].count == nodes'[c].column && 0 <= nodes'[c].count &&
      nodes'[c].column - skew + nodes'[c].count <= |select'|
    requires p in nodes' &&
      nodes'[p] == nodes[p].(children := nodes[p].children + [c], count := nodes[p].count + nodes'[c].count)
    requires forall i :: 0 <= i < |nodes[p].children| ==>
      nodes[p].children[i] in nodes' && nodes'[nodes[p].children[i]] == nodes[nodes[p].children[i]]
    ensures Local(nodes', select', skew, p)
  {
    ClosedAs(nodes, nodes', select, select', skew, p, c, Shifted(nodes[p], skew, p), Shifted(nodes'[p], skew, p));
  }

  lemma ClosedAs(nodes: map<Id, Node>, nodes': map<Id, Node>, select: seq<Expr>, select': seq<Expr>, skew: int, p: Id,
      c: Id, d: Node, d': Node)
    requires LocalAs(nodes, select, skew, p, d) && select <= select' && p < c && c in nodes'
    requires d.column + d.count == nodes'[c].column && 0 <= nodes'[c].count &&
      nodes'[c].column - skew + nodes'[c].count <= |select'|
    requires d' == d.(children := d.children + [c], count := d.count + nodes'[c].count)
    requires forall i :: 0 <= i < |d.children| ==>
      d.children[i] in nodes && d.children[i] in nodes' && nodes'[d.children[i]] == nodes[d.children[i]]
    ensures LocalAs(nodes', select', skew, p, d')
  {
    assert OwnPart(select', d.column - skew, p, d.items);
    hide OwnPart;
    forall i | 0 <= i < |d'.children|
      ensures p < d'.children[i] && d'.children[i] in nodes' && InPlace(nodes', d', i)
    {
      if i < |d.children| {
        assert d'.children[i] == d.children[i] && InPlace(nodes, d, i);
        if i > 0 { assert d'.children[i - 1] == d.children[i - 1] && d.children[i - 1] in nodes'; }
      } else if i > 0 {
        assert d'.children[i - 1] == d.children[i - 1] && d.children[i - 1] in nodes';
      }
    }
  }

  /** Ids are fresh upwards, and the nodes not being worked on are laid out. */
  ghost predicate Tree(nodes: map<Id, Node>, select: seq<Expr>, skew: int, next: Id, open: set<Id>) {
    && (forall n :: n in nodes ==> n < next && forall i :: 0 <= i < |nodes[n].children| ==>
      nodes[n].children[i] in nodes)
    && (forall n :: n in nodes && n !in open ==> Local(nodes, select, skew, n))
    && open <= nodes.Keys
  }

  /**
   Work on node p: everything written so far belongs to what precedes its end, and only nodes being
   worked on have it as a child.
   */
  ghost predicate At(nodes: map<Id, Node>, select: seq<Expr>, skew: int, open: set<Id>, p: Id) {
    && p in nodes && nodes[p].column + nodes[p].count == |select| + skew && 0 <= nodes[p].column + nodes[p].count - skew
    && (forall n :: n in nodes && n !in open ==> p !in nodes[n].children)
  }

  /** What working on p leaves of the tree: every other node as it was, p with more children and columns. */
  ghost predicate Grown(was: map<Id, Node>, now: map<Id, Node>, p: Id, next: Id) {
    && (forall n :: n in was ==> n in now && (n != p ==> now[n] == was[n]))
    && (forall n :: n in now && n !in was ==> n >= next)
    && (p in was ==>
      now[p] == was[p].(count := now[p].count, children := now[p].children) && was[p].children <= now[p].children)
  }

  lemma GrownTwice(was: map<Id, Node>, mid: map<Id, Node>, now: map<Id, Node>, p: Id, next: Id, next': Id)
    requires Grown(was, mid, p, next) && Grown(mid, now, p, next') && next <= next'
    ensures Grown(was, now, p, next)
  {
  }

  /** A new child of p, with its own expressions written. */
  lemma Opened(nodes: map<Id, Node>, nodes': map<Id, Node>, select: seq<Expr>, select': seq<Expr>, skew: int, next: Id,
      open: set<Id>, p: Id, d: Node)
    requires Tree(nodes, select, skew, next, open) && At(nodes, select, skew, open, p) && p < next
    requires d.column == nodes[p].column + nodes[p].count && d.children == [] && d.count == |d.items| &&
      |select'| == |select| + |d.items| && select <= select'
    requires forall k :: |select| <= k < |select'| ==> select'[k] == Expr(next, d.items[k - |select|])
    requires nodes' == nodes[p := nodes[p].(children := nodes[p].children + [next])][next := d]
    ensures Tree(nodes', select', skew, next + 1, open + {p}) && At(nodes', select', skew, open + {p}, next)
  {
    forall n | n in nodes' && n !in open + {p}
      ensures Local(nodes', select', skew, n)
    {
      if n != next {
        assert p !in nodes[n].children;
        LocalKept(nodes, nodes', select, select', skew, n);
      }
    }
  }

  /** The child is done: its columns count for p, which is laid out again. */
  lemma Finished(was: map<Id, Node>, nodes1: map<Id, Node>, nodes2: map<Id, Node>, nodes3: map<Id, Node>,
      select: seq<Expr>, select1: seq<Expr>, select2: seq<Expr>,
      skew: int, next: Id, next2: Id, open: set<Id>, p: Id, d: Node)
    requires Tree(was, select, skew, next, open) && At(was, select, skew, open, p) && p < next &&
      select <= select1 <= select2
    requires d.column == was[p].column + was[p].count && 0 <= d.count
    requires nodes1 == was[p := was[p].(children := was[p].children + [next])][next := d]
    requires Grown(nodes1, nodes2, next, next + 1) && Tree(nodes2, select2, skew, next2, open + {p}) &&
      At(nodes2, select2, skew, open + {p}, next)
    requires nodes3 == nodes2[p := nodes2[p].(count := nodes2[p].count + nodes2[next].count)] && nodes2[next].count >= 0
    ensures Tree(nodes3, select2, skew, next2, open) && At(nodes3, select2, skew, open, p) &&
      Grown(was, nodes3, p, next)
  {
    hide Local;
    assert next in nodes1 && nodes2[p] == nodes1[p] && nodes2[next].column == d.column;
    GrownClosed(was, nodes1, nodes2, nodes3, next, p, d);
    OthersLaid(was, nodes2, nodes3, select2, skew, next, next2, open, p);
    if p !in open {
      assert Local(was, select, skew, p);
      LocalClosed(was, nodes3, select, select2, skew, p, next);
      OwnChildren(nodes3, select2, skew, p);
    }
  }

  lemma GrownClosed(was: map<Id, Node>, nodes1: map<Id, Node>, nodes2: map<Id, Node>, nodes3: map<Id, Node>, next: Id,
      p: Id, d: Node)
    requires p in was && p < next && (forall n :: n in was ==> n < next)
    requires nodes1 == was[p := was[p].(children := was[p].children + [next])][next := d]
    requires Grown(nodes1, nodes2, next, next + 1) && p in nodes2 && next in nodes2
    requires nodes3 == nodes2[p := nodes2[p].(count := nodes2[p].count + nodes2[next].count)]
    ensures Grown(was, nodes3, p, next)
  {
  }

  lemma OthersLaid(was: map<Id, Node>, nodes2: map<Id, Node>, nodes3: map<Id, Node>, select2: seq<Expr>, skew: int,
      next: Id, next2: Id, open: set<Id>, p: Id)
    requires Tree(nodes2, select2, skew, next2, open + {p}) && p in nodes2 && p < next && next in nodes2
    requires nodes3 == nodes2[p := nodes2[p].(count := nodes2[p].count + nodes2[next].count)]
    requires forall n :: n in nodes2 && n !in open && n != p ==>
      if n in was then nodes2[n] == was[n] && p !in was[n].children else n >= next
    ensures forall n :: n in nodes3 && n !in open && n != p ==>
      Local(nodes3, select2, skew, n) && p !in nodes3[n].children
  {
    hide Local;
    forall n | n in nodes3 && n !in open && n != p
      ensures Local(nodes3, select2, skew, n) && p !in nodes3[n].children
    {
      assert Local(nodes2, select2, skew, n);
      NotBelow(was, nodes2, select2, skew, open, p, next, n);
      LocalKept(nodes2, nodes3, select2, select2, skew, n);
    }
  }

  /** No finished node has p as a child: not an old one, and a new one has only newer children. */
  lemma NotBelow(was: map<Id, Node>, nodes: map<Id, Node>, select: seq<Expr>, skew: int, open: set<Id>, p: Id,
      next: Id, n: Id)
    requires n in nodes && Local(nodes, select, skew, n) && n != p && p < next
    requires if n in was then nodes[n] == was[n] && p !in was[n].children else n >= next
    ensures p !in nodes[n].children
  {
  }

  lemma OwnChildren(nodes: map<Id, Node>, select: seq<Expr>, skew: int, p: Id)
    requires p in nodes && Local(nodes, select, skew, p)
    ensures p !in nodes[p].children
  {
  }

  /** What has been pushed since is what the placeholders written since stand for, in order. */
  ghost predicate Pushed(where0: seq<Phrase>, where1: seq<Phrase>, push0: seq<Value>, push1: seq<Value>) {
    push0 <= push1 && HolesIn(where1) == HolesIn(where0) + push1[|push0|..]
  }

  lemma PushedTwice(where0: seq<Phrase>, where1: seq<Phrase>, where2: seq<Phrase>, push0: seq<Value>, push1: seq<Value>,
      push2: seq<Value>)
    requires Pushed(where0, where1, push0, push1) && Pushed(where1, where2, push1, push2)
    ensures Pushed(where0, where2, push0, push2)
  {
    hide HolesIn;
    assert push2[|push0|..] == push1[|push0|..] + push2[|push1|..];
  }

  /** The expressions of a node. */
  function Exprs(n: Id, items: seq<Item>): (r: seq<Expr>)
    ensures |r| == |items| && forall i :: 0 <= i < |r| ==> r[i] == Expr(n, items[i])
  {
    seq(|items|, i requires 0 <= i < |items| => Expr(n, items[i]))
  }

  lemma ItemsOfExprs(n: Id, items: seq<Item>)
    ensures Items(Exprs(n, items)) == items
  {
  }

  function Items(select: seq<Expr>): seq<Item> {
    seq(|select|, i requires 0 <= i < |select| => select[i].item)
  }

  /** Combine_Query_Parts: the select list, then the from and where parts. */
  function Combine(select: seq<Expr>, from_: seq<Phrase>, where_: seq<Phrase>): Sql {
    Sql(Items(select), from_, where_)
  }

  // What a specification asks for, without the work of translating it.

  /** The attributes a specification names, in order. */
  function Named(schema: Schema, class_: string, specs: Specs): seq<Spec> {
    match specs
    case Star => var attrs :=
      schema.attributes(class_); seq(|attrs|, i requires 0 <= i < |attrs| => Spec(attrs[i], Any))
    case Each(list) => list
  }

  /** Is the operator legal for an attribute of this domain? */
  predicate Operable(schema: Schema, domain: Domain, op: Operator) {
    match op
    case Any => true
    case Qbe(_, cname, _) =>
      domain.elem.ObjectElem? && (cname != "" ==> schema.isClass(cname) && schema.isa(cname, domain.elem.class_))
    case Contains(list) => domain.Collection? && schema.convert(domain, list).Some?
    case Equals(_, arg) => (domain.Scalar? && Literal(arg) == "") || schema.convert(domain, Literal(arg)).Some?
    case Order(_, than) => (domain == Scalar(IntElem) || domain == Scalar(StringElem)) &&
      schema.convert(domain, than).Some?
    case Like(_, _) => domain == Scalar(StringElem)
  }

  function Literal(arg: Option<string>): string {
    if arg.Some? then arg.value else ""
  }

  /** The values a legal operator other than qbe compares with. */
  function OperandOf(schema: Schema, domain: Domain, op: Operator): seq<Value>
    requires Operable(schema, domain, op)
  {
    match op
    case Contains(list) => [schema.convert(domain, list).value]
    case Equals(_, arg) => if domain.Scalar? && Literal(arg) == "" then []
      else [schema.convert(domain, Literal(arg)).value]
    case Order(_, than) => [schema.convert(domain, than).value]
    case Like(_, pattern) => [Str(Glob.Pattern(pattern))]
    case _ => []
  }

  /** The class a nested specification is about. */
  function SubClass(schema: Schema, class_: string, spec: Spec): string
    requires spec.Spec? && spec.op.Qbe?
  {
    var domain := schema.domain(class_, spec.aname);
    if spec.op.class_ != "" then spec.op.class_
    else if domain.Some? && domain.value.elem.ObjectElem? then domain.value.elem.class_ else ""
  }

  /** What an operator other than qbe asks of the value of its attribute. */
  ghost predicate Asked(db: Db, schema: Schema, domain: Domain, v: Value, op: Operator) {
    match op
    case Any => true
    case Qbe(_, _, _) => true
    case Contains(list) => var w := schema.convert(domain, list); w.Some? && Includes(v, w.value)
    case Equals(negated, arg) =>
      if domain.Scalar? && Literal(arg) == "" then
        (v == Null || (domain.elem == StringElem && arg.Some? && v == Str(""))) != negated
      else
        var w := schema.convert(domain, Literal(arg));
        w.Some? && v != Null && w.value != Null && ((v == w.value) != negated)
    case Order(sign, than) =>
      var w := schema.convert(domain, than); w.Some? && v != Null && w.value != Null && Ordered(db, sign, v, w.value)
    case Like(negated, pattern) => v.Str? && (Glob.GlobMatch(pattern, v.s) != negated)
  }

  predicate Ordered(db: Db, sign: Sign, v: Value, w: Value) {
    match sign
    case Below => Less(db, v, w)
    case Above => Less(db, w, v)
    case UpTo => Less(db, v, w) || v == w
    case From => Less(db, w, v) || v == w
  }

  /**
   An item, or null, meets the specification of one attribute; a nested one is about the object the
   attribute refers to, or about some element of the collection.
   */
  ghost predicate MeetsSpec(db: Db, schema: Schema, x: Value, class_: string, spec: Spec)
    decreases spec
  {
    && spec.Spec? && schema.domain(class_, spec.aname).Some?
    && var domain, v := schema.domain(class_, spec.aname).value, Attribute(db, x, spec.aname);
    match spec.op
    case Qbe(all, cname, subs) =>
      var sub := SubClass(schema, class_, spec);
      if domain.Scalar? then Restricted(db, v, cname, all) && Meets(db, schema, v, sub, subs)
      else v.Coll? && exists e :: e in v.es && Restricted(db, e, cname, all) && Meets(db, schema, e, sub, subs)
    case _ => Asked(db, schema, domain, v, spec.op)
  }

  /** An object of the class, if one is named. */
  predicate Restricted(db: Db, v: Value, cname: string, all: bool) {
    cname == "" || InClass(db, v, cname, all)
  }

  ghost predicate Meets(db: Db, schema: Schema, x: Value, class_: string, specs: Specs)
    decreases specs
  {
    match specs
    case Star => true
    case Each(list) => forall i :: 0 <= i < |list| ==> MeetsSpec(db, schema, x, class_, list[i])
  }

  // What a part of a query says about the object at a path.

  ghost predicate MeansSpec(schema: Schema, f: Sql, path: Path, class_: string, spec: Spec) {
    forall db: Db, env: Env :: Selects(db, env, f) <==> MeetsSpec(db, schema, Eval(db, env, path), class_, spec)
  }

  ghost predicate MeansFirst(schema: Schema, f: Sql, path: Path, class_: string, list: seq<Spec>, n: nat)
    requires n <= |list|
  {
    forall db: Db, env: Env :: Selects(db, env, f) <==>
      forall i :: 0 <= i < n ==> MeetsSpec(db, schema, Eval(db, env, path), class_, list[i])
  }

  ghost predicate Means(schema: Schema, f: Sql, path: Path, class_: string, specs: Specs) {
    forall db: Db, env: Env :: Selects(db, env, f) <==> Meets(db, schema, Eval(db, env, path), class_, specs)
  }

  /** The part declares variables from lo up to hi, and mentions no others but r. */
  ghost predicate Closed(f: Sql, r: nat, lo: nat, hi: nat) {
    && (forall n :: n in Declared(f) ==> lo <= n < hi)
    && Mentions(f) <= Declared(f) + {r}
  }

  lemma ClosedPlus(f: Sql, g: Sql, r: nat, lo: nat, mid: nat, hi: nat)
    requires Closed(f, r, lo, mid) && Closed(g, r, mid, hi) && lo <= mid <= hi
    ensures Closed(Plus(f, g), r, lo, hi)
  {
    hide Declared, Mentions, Plus;
    DeclaredPlus(f, g);
    MentionsPlus(f, g);
  }

  /** One more attribute: the parts are satisfied one by one. */
  lemma MeansNext(schema: Schema, f: Sql, g: Sql, path: Path, class_: string, list: seq<Spec>, n: nat, lo: nat,
      mid: nat, hi: nat)
    requires n < |list| && MeansFirst(schema, f, path, class_, list, n) && MeansSpec(schema, g, path, class_, list[n])
    requires Closed(f, Root(path), lo, mid) && Closed(g, Root(path), mid, hi) && Root(path) < lo <= mid <= hi
    ensures MeansFirst(schema, Plus(f, g), path, class_, list, n + 1)
    ensures Closed(Plus(f, g), Root(path), lo, hi)
  {
    hide Declared, Mentions, Plus, MeetsSpec, Selects;
    ClosedPlus(f, g, Root(path), lo, mid, hi);
    forall db: Db, env: Env
      ensures Selects(db, env, Plus(f, g)) <==>
        forall i :: 0 <= i < n + 1 ==> MeetsSpec(db, schema, Eval(db, env, path), class_, list[i])
    {
      SelectsPlus(db, env, f, g);
    }
  }

  lemma MeansNone(schema: Schema, path: Path, class_: string, list: seq<Spec>, k: nat)
    ensures MeansFirst(schema, Sql([], [], []), path, class_, list, 0) && Closed(Sql([], [], []), Root(path), k, k)
  {
    hide MeetsSpec;
    forall db: Db, env: Env
      ensures Selects(db, env, Sql([], [], []))
    {
      SelectsPlain(db, env, Sql([], [], []));
    }
    assert Declared(Sql([], [], [])) == {};
  }

  /** The constraints a plain operator writes say what it asks. */
  ghost predicate Says(schema: Schema, ps: seq<Phrase>, path: Path, domain: Domain, op: Operator) {
    && MentionedIn(ps) <= {Root(path)}
    && forall db: Db, env: Env :: (forall i :: 0 <= i < |ps| ==> Holds(db, env, ps[i].ts)) <==>
      Asked(db, schema, domain, Eval(db, env, path), op)
  }

  lemma SaysOne(schema: Schema, lead: string, ts: seq<Token>, path: Path, domain: Domain, op: Operator)
    requires forall i :: 0 <= i < |ts| ==> !ts[i].Sub? && (ts[i].Field? ==> Root(ts[i].p) == Root(path))
    requires forall db: Db, env: Env :: Holds(db, env, ts) <==> Asked(db, schema, domain, Eval(db, env, path), op)
    ensures Says(schema, [Phrase(lead, ts)], path, domain, op)
  {
    hide Holds, Asked;
    var ps := [Phrase(lead, ts)];
    MentionedPaths(ts, Root(path));
    assert ps[..0] == [] && MentionedIn(ps[..0]) == {};
    forall db: Db, env: Env
      ensures (forall i :: 0 <= i < |ps| ==> Holds(db, env, ps[i].ts)) <==> Holds(db, env, ts)
    {
      assert ps[0].ts == ts;
    }
  }

  lemma SaysNull(schema: Schema, lead: string, path: Path, domain: Domain, negated: bool, arg: Option<string>)
    requires domain.Scalar? && Literal(arg) == "" && (domain.elem != StringElem || arg == None)
    ensures Says(schema, [Phrase(lead, [Field(path), Text(if negated then " IS NOT NULL" else " IS NULL")])], path,
      domain, Equals(negated, arg))
  {
    hide Holds, Eval, Says;
    var word := if negated then " IS NOT NULL" else " IS NULL";
    forall db: Db, env: Env
      ensures Holds(db, env, [Field(path), Text(word)]) <==>
        Asked(db, schema, domain, Eval(db, env, path), Equals(negated, arg))
    {
      NullHolds(db, env, path, word);
    }
    SaysOne(schema, lead, [Field(path), Text(word)], path, domain, Equals(negated, arg));
  }

  lemma SaysEmpty(schema: Schema, lead: string, path: Path, domain: Domain, negated: bool, arg: Option<string>)
    requires domain == Scalar(StringElem) && arg == Some("")
    ensures Says(schema, [Phrase(lead, [Text("("), Field(path), Text(if negated then " <> '' AND " else " = '' OR "),
      Field(path), Text(if negated then " IS NOT NULL)" else " IS NULL)")])], path, domain, Equals(negated, arg))
  {
    hide Holds, Eval, Says;
    var first, second := if negated then " <> '' AND " else " = '' OR ", if negated then " IS NOT NULL)"
      else " IS NULL)";
    var ts := [Text("("), Field(path), Text(first), Field(path), Text(second)];
    forall db: Db, env: Env
      ensures Holds(db, env, ts) <==> Asked(db, schema, domain, Eval(db, env, path), Equals(negated, arg))
    {
      EmptyHolds(db, env, path, first, second);
    }
    SaysOne(schema, lead, ts, path, domain, Equals(negated, arg));
  }

  lemma SaysEqual(schema: Schema, lead: string, path: Path, domain: Domain, negated: bool, arg: Option<string>,
      v: Value)
    requires !(domain.Scalar? && Literal(arg) == "") && schema.convert(domain, Literal(arg)) == Some(v)
    ensures Says(schema, [Phrase(lead, [Field(path), Text(if negated then " <> " else " = "), Hole(v)])], path, domain,
      Equals(negated, arg))
  {
    hide Holds, Eval, Says;
    var word := if negated then " <> " else " = ";
    forall db: Db, env: Env
      ensures Holds(db, env, [Field(path), Text(word), Hole(v)]) <==>
        Asked(db, schema, domain, Eval(db, env, path), Equals(negated, arg))
    {
      CompareHolds(db, env, path, word, v);
    }
    SaysOne(schema, lead, [Field(path), Text(word), Hole(v)], path, domain, Equals(negated, arg));
  }

  function SignText(sign: Sign): string {
    match sign case Below => " < " case Above => " > " case UpTo => " <= " case From => " >= "
  }

  lemma SaysOrder(schema: Schema, lead: string, path: Path, domain: Domain, sign: Sign, than: string, v: Value)
    requires schema.convert(domain, than) == Some(v)
    ensures Says(schema, [Phrase(lead, [Field(path), Text(SignText(sign)), Hole(v)])], path, domain, Order(sign, than))
  {
    hide Holds, Eval, Says, Less;
    forall db: Db, env: Env
      ensures Holds(db, env, [Field(path), Text(SignText(sign)), Hole(v)]) <==>
        Asked(db, schema, domain, Eval(db, env, path), Order(sign, than))
    {
      CompareHolds(db, env, path, SignText(sign), v);
    }
    SaysOne(schema, lead, [Field(path), Text(SignText(sign)), Hole(v)], path, domain, Order(sign, than));
  }

  lemma SaysLike(schema: Schema, lead: string, path: Path, domain: Domain, negated: bool, pattern: string)
    ensures Says(schema, [Phrase(lead, [Field(path), Text(if negated then " NOT LIKE " else " LIKE "),
      Hole(Str(Glob.Pattern(pattern))), Text(" ESCAPE '\\'")])], path, domain, Like(negated, pattern))
  {
    hide Holds, Eval, Says, Glob.Pattern, Glob.Like, Glob.GlobMatch, Glob.Specifiers;
    var word, p := if negated then " NOT LIKE " else " LIKE ", Str(Glob.Pattern(pattern));
    var ts := [Field(path), Text(word), Hole(p), Text(" ESCAPE '\\'")];
    forall db: Db, env: Env
      ensures Holds(db, env, ts) <==> Asked(db, schema, domain, Eval(db, env, path), Like(negated, pattern))
    {
      LikeHolds(db, env, path, word, p);
      var v := Eval(db, env, path);
      if v.Str? {
        Glob.PatternMeans(pattern, v.s);
      }
    }
    SaysOne(schema, lead, ts, path, domain, Like(negated, pattern));
  }

  lemma SaysContains(schema: Schema, lead: string, path: Path, domain: Domain, list: string, v: Value)
    requires schema.convert(domain, list) == Some(v)
    ensures Says(schema, [Phrase(lead, [Text("CAST ("), Field(path), Text(" AS SET) SUPERSETEQ CAST("), Hole(v),
      Text(" AS SET)")])], path, domain, Contains(list))
  {
    hide Holds, Eval, Says, Includes;
    var ts := [Text("CAST ("), Field(path), Text(" AS SET) SUPERSETEQ CAST("), Hole(v), Text(" AS SET)")];
    forall db: Db, env: Env
      ensures Holds(db, env, ts) <==> Asked(db, schema, domain, Eval(db, env, path), Contains(list))
    {
      IncludeHolds(db, env, path, v);
    }
    SaysOne(schema, lead, ts, path, domain, Contains(list));
  }

  lemma SaysAny(schema: Schema, path: Path, domain: Domain)
    ensures Says(schema, [], path, domain, Any)
  {
    hide Holds;
  }

  /** The part an attribute without a nested specification adds. */
  lemma PlainMeans(schema: Schema, f: Sql, path: Path, class_: string, aname: string, op: Operator, k: nat)
    requires !op.Qbe? && schema.domain(class_, aname).Some? && f.from_ == []
    requires f.select == [] || f.select == [Plain(Dot(path, aname))]
    requires Says(schema, f.where_, Dot(path, aname), schema.domain(class_, aname).value, op)
    ensures MeansSpec(schema, f, path, class_, Spec(aname, op)) && Closed(f, Root(path), k, k)
  {
    hide Holds, Asked, Says;
    forall db: Db, env: Env
      ensures Selects(db, env, f) <==> MeetsSpec(db, schema, Eval(db, env, path), class_, Spec(aname, op))
    {
      SelectsPlain(db, env, f);
      SaysAt(schema, f.where_, Dot(path, aname), schema.domain(class_, aname).value, op, db, env);
      hide Selects;
      assert Eval(db, env, Dot(path, aname)) == Attribute(db, Eval(db, env, path), aname);
    }
    assert Declared(f) == {};
    ItemsMention(f.select, {Root(path)});
    SaysAt(schema, f.where_, Dot(path, aname), schema.domain(class_, aname).value, op, AnyDb(), map[]);
    assert MentionedIn(f.from_) == {};
  }

  function AnyDb(): Db {
    Db((_, _) => Null, _ => "", (_, _) => false, (_, _) => false)
  }

  lemma SaysAt(schema: Schema, ps: seq<Phrase>, path: Path, domain: Domain, op: Operator, db: Db, env: Env)
    requires Says(schema, ps, path, domain, op)
    ensures MentionedIn(ps) <= {Root(path)}
    ensures (forall i :: 0 <= i < |ps| ==> Holds(db, env, ps[i].ts)) <==>
      Asked(db, schema, domain, Eval(db, env, path), op)
  {
    hide Holds, Asked;
  }

  /** The head of an object's part: its own expressions and, if its class is restricted, its variable. */
  function Head(oidOnly: bool, path: Path, aname: string, cname: string, all: bool, k: nat): Sql {
    if cname == "" then Sql(if oidOnly then [] else [Plain(Dot(path, aname)), Uuid(Dot(path, aname))], [], [])
    else Sql((if oidOnly then [] else [Plain(Var(k))]) + [Bound(Dot(path, aname), k)],
      [Phrase(", ", ClassSource(cname, all, k))], [])
  }

  lemma ObjectMeans(schema: Schema, oidOnly: bool, f: Sql, path: Path, class_: string, aname: string, all: bool,
      cname: string, subs: Specs, k: nat, hi: nat)
    requires Inner(schema, class_, Spec(aname, Qbe(all, cname, subs)))
    requires Means(schema, f, if cname == "" then Dot(path, aname) else Var(k),
      SubClass(schema, class_, Spec(aname, Qbe(all, cname, subs))), subs)
    requires Closed(f, if cname == "" then Root(path) else k, if cname == "" then k else k + 1, hi)
    requires Root(path) < k <= hi && (cname != "" ==> k < hi)
    ensures var g := Plus(Head(oidOnly, path, aname, cname, all, k), f);
      MeansSpec(schema, g, path, class_, Spec(aname, Qbe(all, cname, subs))) && Closed(g, Root(path), k, hi)
  {
    hide Meets, Selects, Plus, Fits, Mentions, Declared;
    var h, spec := Head(oidOnly, path, aname, cname, all, k), Spec(aname, Qbe(all, cname, subs));
    HeadMentions(oidOnly, path, aname, cname, all, k);
    DeclaredPlus(h, f);
    MentionsPlus(h, f);
    forall db: Db, env: Env
      ensures Selects(db, env, Plus(h, f)) <==> MeetsSpec(db, schema, Eval(db, env, path), class_, spec)
    {
      if cname == "" {
        SelectsPlus(db, env, h, f);
        SelectsPlain(db, env, h);
        assert h.where_ == [] && Selects(db, env, h);
      } else {
        assert h.select[|h.select| - 1] == Bound(Dot(path, aname), k);
        SelectsBound(db, env, h, f, Dot(path, aname), k, cname, all, ", ");
        var v := Eval(db, env, Dot(path, aname));
        assert Eval(db, env[k := v], Var(k)) == v;
      }
    }
  }

  lemma HeadMentions(oidOnly: bool, path: Path, aname: string, cname: string, all: bool, k: nat)
    ensures var h := Head(oidOnly, path, aname, cname, all, k);
      && Declared(h) == (if cname == "" then {} else {k}) && Mentions(h) <= Declared(h) + {Root(path)}
  {
    var h := Head(oidOnly, path, aname, cname, all, k);
    ItemsMention(h.select, if cname == "" then {Root(path)} else {k, Root(path)});
    assert h.where_ == [] && MentionedIn(h.where_) == {};
    hide MentionedItems, MentionedBy;
    if cname != "" {
      DeclaredOne(h, cname, all, k);
      SourceMentions(h.from_[0], {k});
      assert h.from_ == [h.from_[0]];
    } else {
      assert Declared(h) == {};
    }
  }

  lemma {:induction false} ItemsMention(items: seq<Item>, vars: set<nat>)
    requires forall i :: 0 <= i < |items| ==> Root(items[i].p) in vars && (items[i].Bound? ==> items[i].n in vars)
    ensures MentionedItems(items) <= vars
    decreases |items|
  {
    if items != [] {
      ItemsMention(items[..|items| - 1], vars);
    }
  }

  /** The head of a sub-query about the elements of a collection. */
  function ElementHead(path: Path, cname: string, all: bool, k: nat): Sql {
    Sql([Plain(Var(k + 1))] + (if cname == "" then [] else [Bound(Var(k + 1), k + 2)]),
      [Phrase(" from ", ElementSource(path, k, k + 1))] +
        if cname == "" then [] else [Phrase(", ", ClassSource(cname, all, k + 2))], [])
  }

  /** Some element of the collection is of the class, if one is named, and meets the specification. */
  ghost predicate SomeElement(db: Db, schema: Schema, v: Value, cname: string, all: bool, sub: string, subs: Specs) {
    v.Coll? && exists e :: e in v.es && Restricted(db, e, cname, all) && Meets(db, schema, e, sub, subs)
  }

  lemma ElementMeans(schema: Schema, f: Sql, path: Path, cname: string, all: bool, sub: string, subs: Specs, k: nat,
      hi: nat)
    requires Means(schema, f, Var(if cname == "" then k + 1 else k + 2), sub, subs)
    requires Closed(f, if cname == "" then k + 1 else k + 2, if cname == "" then k + 2 else k + 3, hi) && Root(path) < k
    ensures var q := Plus(ElementHead(path, cname, all, k), f);
      && (forall db: Db, env: Env :: Selects(db, env, q) <==>
        SomeElement(db, schema, Eval(db, env, path), cname, all, sub, subs))
      && Mentions(q) - Declared(q) <= {Root(path)}
  {
    hide Meets, Selects, Fits, Mentions, Declared, InClass;
    var h := Sql([Plain(Var(k + 1))], [Phrase(" from ", ElementSource(path, k, k + 1))], []);
    var b := Sql([Bound(Var(k + 1), k + 2)], [Phrase(", ", ClassSource(cname, all, k + 2))], []);
    var q := Plus(ElementHead(path, cname, all, k), f);
    var rest := if cname == "" then f else Plus(b, f);
    assert q == Plus(h, rest);
    ElementMentions(path, cname, all, k);
    DeclaredPlus(b, f);
    MentionsPlus(b, f);
    DeclaredPlus(h, rest);
    MentionsPlus(h, rest);
    forall db: Db, env: Env
      ensures Selects(db, env, q) <==> SomeElement(db, schema, Eval(db, env, path), cname, all, sub, subs)
    {
      SelectsElement(db, env, h, rest, path, k, k + 1);
      forall x
        ensures Selects(db, env[k + 1 := x], rest) <==> Restricted(db, x, cname, all) && Meets(db, schema, x, sub, subs)
      {
        var e := env[k + 1 := x];
        assert Eval(db, e, Var(k + 1)) == x;
        if cname != "" {
          assert b.select[0] == Bound(Var(k + 1), k + 2);
          SelectsBound(db, e, b, f, Var(k + 1), k + 2, cname, all, ", ");
          assert Eval(db, e[k + 2 := x], Var(k + 2)) == x;
        }
      }
    }
  }

  /** What a finished sub-query says of the collection at the path. */
  ghost predicate NestedMeans(schema: Schema, q: Sql, path: Path, cname: string, all: bool, sub: string, subs: Specs) {
    && Formed(q) && Mentions(q) - Declared(q) <= {Root(path)}
    && forall db: Db, env: Env :: Selects(db, env, q) <==>
      SomeElement(db, schema, Eval(db, env, path), cname, all, sub, subs)
  }

  lemma NestedAt(schema: Schema, q: Sql, path: Path, cname: string, all: bool, sub: string, subs: Specs, db: Db,
      env: Env)
    requires NestedMeans(schema, q, path, cname, all, sub, subs)
    ensures Formed(q) && Mentions(q) - Declared(q) <= {Root(path)}
    ensures Selects(db, env, q) <==> SomeElement(db, schema, Eval(db, env, path), cname, all, sub, subs)
  {
    hide Selects, SomeElement, Mentions, Declared, Formed;
  }

  lemma CollectionMeans(schema: Schema, f: Sql, path: Path, class_: string, aname: string, all: bool, cname: string,
      sub: string, subs: Specs, text: Sql, lo: nat, hi: nat)
    requires schema.domain(class_, aname).Some? && schema.domain(class_, aname).value.Collection?
    requires sub == SubClass(schema, class_, Spec(aname, Qbe(all, cname, subs)))
    requires f.from_ == [] && (f.select == [] || f.select == [Plain(Dot(path, aname))]) && |f.where_| == 1
    requires f.where_[0].ts == [Text("exists ("), Sub(text), Text(")")]
    requires NestedMeans(schema, text, Dot(path, aname), cname, all, sub, subs)
    ensures MeansSpec(schema, f, path, class_, Spec(aname, Qbe(all, cname, subs))) && Closed(f, Root(path), lo, hi)
  {
    hide Holds, NestedMeans, Selects, SubClass, Meets;
    forall db: Db, env: Env
      ensures Selects(db, env, f) <==>
        MeetsSpec(db, schema, Eval(db, env, path), class_, Spec(aname, Qbe(all, cname, subs)))
    {
      SelectsPlain(db, env, f);
      ExistsHolds(db, env, text);
      NestedAt(schema, text, Dot(path, aname), cname, all, sub, subs, db, env);
      assert Eval(db, env, Dot(path, aname)) == Attribute(db, Eval(db, env, path), aname);
      assert f.where_[0].ts == [Text("exists ("), Sub(text), Text(")")];
    }
    NestedAt(schema, text, Dot(path, aname), cname, all, sub, subs, AnyDb(), map[]);
    ExistsMentions(text);
    ItemsMention(f.select, {Root(path)});
    OnePhrase(f.where_);
    assert Declared(f) == {} && MentionedIn(f.from_) == {};
  }

  lemma OnePhrase(ps: seq<Phrase>)
    requires |ps| == 1
    ensures MentionedIn(ps) == MentionedBy(ps[0].ts)
  {
    assert ps[..0] == [];
  }

  /** All attributes, with nothing asked of them. */
  lemma AnyMeans(schema: Schema, f: Sql, path: Path, class_: string, list: seq<Spec>)
    requires list == Named(schema, class_, Star) && MeansFirst(schema, f, path, class_, list, |list|)
    requires forall i :: 0 <= i < |list| ==> PlainAfter(schema, class_, list[..i], list[i])
    ensures Means(schema, f, path, class_, Star)
  {
    hide Selects;
    forall db: Db, env: Env
      ensures Selects(db, env, f)
    {
      forall i | 0 <= i < |list|
        ensures MeetsSpec(db, schema, Eval(db, env, path), class_, list[i])
      {
        assert PlainAfter(schema, class_, list[..i], list[i]);
      }
    }
  }

  lemma ElementMentions(path: Path, cname: string, all: bool, k: nat)
    ensures var h := Sql([Plain(Var(k + 1))], [Phrase(" from ", ElementSource(path, k, k + 1))], []);
      Declared(h) == {k, k + 1} && Mentions(h) <= {Root(path), k, k + 1}
    ensures var b := Sql([Bound(Var(k + 1), k + 2)], [Phrase(", ", ClassSource(cname, all, k + 2))], []);
      Declared(b) == {k + 2} && Mentions(b) <= {k + 1, k + 2}
  {
    var h := Sql([Plain(Var(k + 1))], [Phrase(" from ", ElementSource(path, k, k + 1))], []);
    DeclaredElement(h, path, k, k + 1);
    SourceMentions(h.from_[0], {Root(path), k, k + 1});
    ItemsMention(h.select, {k + 1});
    var b := Sql([Bound(Var(k + 1), k + 2)], [Phrase(", ", ClassSource(cname, all, k + 2))], []);
    DeclaredOne(b, cname, all, k + 2);
    SourceMentions(b.from_[0], {k + 2});
    ItemsMention(b.select, {k + 1, k + 2});
  }

  lemma SourceMentions(p: Phrase, vars: set<nat>)
    requires forall i :: 0 <= i < |p.ts| ==> !p.ts[i].Sub? && (p.ts[i].Field? ==> Root(p.ts[i].p) in vars)
    ensures MentionedIn([p]) <= vars
  {
    PathsMention(p.ts, vars);
    assert [p][..0] == [];
  }

  lemma {:induction false} PathsMention(ts: seq<Token>, vars: set<nat>)
    requires forall i :: 0 <= i < |ts| ==> !ts[i].Sub? && (ts[i].Field? ==> Root(ts[i].p) in vars)
    ensures MentionedBy(ts) <= vars
    decreases |ts|
  {
    if ts != [] {
      PathsMention(ts[..|ts| - 1], vars);
    }
  }

  datatype Label = Label(aname: string, kind: Kind, selector: bool)

  /** A specification nested in an attribute that holds one object is part of the tree. */
  predicate Inner(schema: Schema, class_: string, spec: Spec) {
    spec.Spec? && spec.op.Qbe? && var domain := schema.domain(class_, spec.aname); domain.Some? && domain.value.Scalar?
  }

  function LabelOf(schema: Schema, class_: string, spec: Spec): Label
    requires spec.Spec?
  {
    if Inner(schema, class_, spec) then Label(spec.aname, QbeNode, spec.op.class_ != "")
      else Label(spec.aname, AttrNode, false)
  }

  /** One label for each attribute, by its first specification. */
  function Labels(schema: Schema, class_: string, list: seq<Spec>): seq<Label> {
    if list == [] then []
    else
      var labels := Labels(schema, class_, list[..|list| - 1]);
      var spec := list[|list| - 1];
      if spec == Malformed || Lookup(labels, spec.aname).Some? then labels else labels + [LabelOf(schema, class_, spec)]
  }

  function Lookup(labels: seq<Label>, aname: string): Option<Label> {
    if labels == [] then None
    else if labels[0].aname == aname then Some(labels[0]) else Lookup(labels[1..], aname)
  }

  lemma {:induction false} LookupAt(labels: seq<Label>, aname: string)
    ensures Lookup(labels, aname) == None <==> forall i :: 0 <= i < |labels| ==> labels[i].aname != aname
    ensures Lookup(labels, aname).Some? ==> exists i ::
      0 <= i < |labels| && labels[i].aname == aname && Lookup(labels, aname) == Some(labels[i])
  {
    if labels != [] && labels[0].aname != aname {
      LookupAt(labels[1..], aname);
    }
  }

  /** An attribute is asked for at most once by qbe, and one that holds an object not in two ways. */
  predicate AcceptsAfter(schema: Schema, class_: string, before: seq<Spec>, spec: Spec)
    decreases spec
  {
    && spec.Spec? && schema.domain(class_, spec.aname).Some?
    && Operable(schema, schema.domain(class_, spec.aname).value, spec.op)
    && var known := Lookup(Labels(schema, class_, before), spec.aname);
    if spec.op.Qbe? then known == None && Accepts(schema, SubClass(schema, class_, spec), spec.op.subs)
    else known.Some? ==> known.value.kind == AttrNode
  }

  predicate Accepts(schema: Schema, class_: string, specs: Specs)
    decreases specs
  {
    match specs
    case Star =>
      var list := Named(schema, class_, specs);
      forall i :: 0 <= i < |list| ==> PlainAfter(schema, class_, list[..i], list[i])
    case Each(list) => forall i :: 0 <= i < |list| ==> AcceptsAfter(schema, class_, list[..i], list[i])
  }

  predicate PlainAfter(schema: Schema, class_: string, before: seq<Spec>, spec: Spec) {
    && spec.Spec? && !spec.op.Qbe? && schema.domain(class_, spec.aname).Some?
    && Operable(schema, schema.domain(class_, spec.aname).value, spec.op)
    && var known := Lookup(Labels(schema, class_, before), spec.aname);
    known.Some? ==> known.value.kind == AttrNode
  }

  /** The values of a specification, in the order they are written. */
  function Values(schema: Schema, class_: string, list: seq<Spec>): seq<Value>
    decreases list
  {
    if list == [] then [] else Values(schema, class_, list[..|list| - 1]) + SpecValues(schema, class_, list[|list| - 1])
  }

  function SpecValues(schema: Schema, class_: string, spec: Spec): seq<Value>
    decreases spec
  {
    if spec == Malformed then []
    else match spec.op
      case Qbe(_, _, subs) => (match subs case Star => [] case Each(list) => Values(schema,
        SubClass(schema, class_, spec), list))
      case _ =>
        var domain := schema.domain(class_, spec.aname);
        if domain.Some? && Operable(schema, domain.value, spec.op) then OperandOf(schema, domain.value, spec.op) else []
  }

  function AllValues(schema: Schema, class_: string, specs: Specs): seq<Value> {
    match specs case Star => [] case Each(list) => Values(schema, class_, list)
  }

  /** The expressions of a node: what it was written as, seen from its parent's path. */
  predicate Written(oidOnly: bool, path: Path, d: Node, l: Label) {
    && d.aname == l.aname && d.kind == l.kind
    && match l.kind
       case AttrNode => d.selector == None && d.items == if oidOnly then [] else [Plain(Dot(path, l.aname))]
       case QbeNode =>
         if l.selector then
           && d.selector.Some? && d.path == Var(d.selector.value)
           && d.items == (if oidOnly then [] else [Plain(d.path)]) + [Bound(Dot(path, l.aname), d.selector.value)]
         else
           d.selector == None && d.path == Dot(path, l.aname) && d.items == if oidOnly then []
             else [Plain(d.path), Uuid(d.path)]
  }

  /** The children of p are the attributes named, each once. */
  ghost predicate Children(oidOnly: bool, nodes: map<Id, Node>, p: Id, labels: seq<Label>) {
    && p in nodes && |nodes[p].children| == |labels|
    && forall i :: 0 <= i < |labels| ==> ChildAt(oidOnly, nodes, p, i, labels[i])
  }

  ghost predicate ChildAt(oidOnly: bool, nodes: map<Id, Node>, p: Id, i: nat, l: Label)
    requires p in nodes && i < |nodes[p].children|
  {
    var c := nodes[p].children[i];
    p < c && c in nodes && Written(oidOnly, nodes[p].path, nodes[c], l)
  }

  /** The tree below p is what the specification asks for. */
  ghost predicate Mirrors(schema: Schema, oidOnly: bool, nodes: map<Id, Node>, p: Id, class_: string, specs: Specs)
    decreases specs
  {
    && Children(oidOnly, nodes, p, Labels(schema, class_, Named(schema, class_, specs)))
    && (specs.Each? ==> forall i :: 0 <= i < |specs.specs| ==>
      MirrorsBelow(schema, oidOnly, nodes, p, class_, specs.specs[i]))
  }

  ghost predicate MirrorsBelow(schema: Schema, oidOnly: bool, nodes: map<Id, Node>, p: Id, class_: string, spec: Spec)
    decreases spec
  {
    Inner(schema, class_, spec) && p in nodes ==>
      exists c :: c in nodes[p].children && p < c && c in nodes && nodes[c].aname == spec.aname
        && Mirrors(schema, oidOnly, nodes, c, SubClass(schema, class_, spec), spec.op.subs)
  }

  ghost predicate AcceptsFirst(schema: Schema, class_: string, list: seq<Spec>, n: nat)
    requires n <= |list|
  {
    forall i :: 0 <= i < n ==> AcceptsAfter(schema, class_, list[..i], list[i])
  }

  lemma AcceptsNext(schema: Schema, class_: string, list: seq<Spec>, n: nat)
    requires n < |list| && AcceptsFirst(schema, class_, list, n)
    ensures AcceptsFirst(schema, class_, list, n + 1) <==> AcceptsAfter(schema, class_, list[..n], list[n])
    ensures AcceptsFirst(schema, class_, list, |list|) ==> AcceptsFirst(schema, class_, list, n + 1)
  {
    hide AcceptsAfter;
  }

  ghost predicate MirrorsFirst(schema: Schema, oidOnly: bool, nodes: map<Id, Node>, p: Id, class_: string,
      list: seq<Spec>, n: nat)
    requires n <= |list|
  {
    forall i :: 0 <= i < n ==> MirrorsBelow(schema, oidOnly, nodes, p, class_, list[i])
  }

  /** What lies from n on decides the tree below n. */
  lemma {:induction false} MirrorsKept(schema: Schema, oidOnly: bool, nodes: map<Id, Node>, nodes': map<Id, Node>,
      n: Id, class_: string, specs: Specs)
    requires Mirrors(schema, oidOnly, nodes, n, class_, specs) &&
      (forall m :: m in nodes && m >= n ==> m in nodes' && nodes'[m] == nodes[m])
    ensures Mirrors(schema, oidOnly, nodes', n, class_, specs)
    decreases specs
  {
    var labels := Labels(schema, class_, Named(schema, class_, specs));
    hide Labels, Written, Named, Inner;
    forall i | 0 <= i < |labels|
      ensures ChildAt(oidOnly, nodes', n, i, labels[i])
    {
      assert ChildAt(oidOnly, nodes, n, i, labels[i]);
    }
    if specs.Each? {
      forall i | 0 <= i < |specs.specs|
        ensures MirrorsBelow(schema, oidOnly, nodes', n, class_, specs.specs[i])
      {
        var spec := specs.specs[i];
        assert MirrorsBelow(schema, oidOnly, nodes, n, class_, spec);
        if Inner(schema, class_, spec) && n in nodes {
          BelowKept(schema, oidOnly, nodes, nodes', n, class_, spec);
        }
      }
    }
  }

  lemma {:induction false} BelowKept(schema: Schema, oidOnly: bool, nodes: map<Id, Node>, nodes': map<Id, Node>, n: Id,
      class_: string, spec: Spec)
    requires MirrorsBelow(schema, oidOnly, nodes, n, class_, spec) && n in nodes && n in nodes' &&
      nodes[n].children <= nodes'[n].children
    requires forall m :: m in nodes && m > n ==> m in nodes' && nodes'[m] == nodes[m]
    ensures MirrorsBelow(schema, oidOnly, nodes', n, class_, spec)
    decreases spec
  {
    if Inner(schema, class_, spec) {
      hide Mirrors, Inner;
      var c :| c in nodes[n].children && n < c && c in nodes && nodes[c].aname == spec.aname
        && Mirrors(schema, oidOnly, nodes, c, SubClass(schema, class_, spec), spec.op.subs);
      MirrorsKept(schema, oidOnly, nodes, nodes', c, SubClass(schema, class_, spec), spec.op.subs);
      assert c in nodes'[n].children;
    }
  }

  /** Variables in the tree are all different, and older than the counter. */
  ghost predicate Selectors(nodes: map<Id, Node>, counter: nat) {
    && (forall n :: n in nodes && nodes[n].selector.Some? ==> nodes[n].selector.value < counter)
    && (forall m, n :: m in nodes && n in nodes && m != n && nodes[m].selector.Some? ==>
      nodes[m].selector != nodes[n].selector)
  }

  /** The variables of two nodes have different names. */
  lemma NamesDiffer(nodes: map<Id, Node>, counter: nat, m: Id, n: Id)
    requires Selectors(nodes, counter) && m in nodes && n in nodes && m != n && nodes[m].selector.Some? &&
      nodes[n].selector.Some?
    ensures Variable(nodes[m].selector.value) != Variable(nodes[n].selector.value)
  {
    if Variable(nodes[m].selector.value) == Variable(nodes[n].selector.value) {
      VariableInjective(nodes[m].selector.value, nodes[n].selector.value);
    }
  }

  ghost predicate NamesApart(nodes: map<Id, Node>) {
    forall m, n :: m in nodes && n in nodes && m != n && nodes[m].selector.Some? && nodes[n].selector.Some? ==>
      Variable(nodes[m].selector.value) != Variable(nodes[n].selector.value)
  }

  lemma {:induction false} FirstLabel(labels: seq<Label>, aname: string, j: nat)
    requires j < |labels| && labels[j].aname == aname && forall i :: 0 <= i < j ==> labels[i].aname != aname
    ensures Lookup(labels, aname) == Some(labels[j])
  {
    if j > 0 {
      FirstLabel(labels[1..], aname, j - 1);
    }
  }

  lemma LabelsStep(schema: Schema, class_: string, before: seq<Spec>, spec: Spec)
    requires spec.Spec?
    ensures var labels := Labels(schema, class_, before);
      Labels(schema, class_, before + [spec]) == if Lookup(labels, spec.aname).Some? then labels
        else labels + [LabelOf(schema, class_, spec)]
  {
    assert (before + [spec])[..|before|] == before;
  }

  /** One more child, with its label. */
  lemma ChildAdded(oidOnly: bool, was: map<Id, Node>, nodes: map<Id, Node>, p: Id, c: Id, labels: seq<Label>, l: Label)
    requires Children(oidOnly, was, p, labels) && p < c && c !in was && p in nodes && c in nodes
    requires nodes[p] == was[p].(count := nodes[p].count, children := was[p].children + [c])
    requires forall n :: n in was && n != p ==> n in nodes && nodes[n] == was[n]
    requires Written(oidOnly, was[p].path, nodes[c], l)
    ensures Children(oidOnly, nodes, p, labels + [l])
  {
    hide Written;
    forall i | 0 <= i < |labels + [l]|
      ensures ChildAt(oidOnly, nodes, p, i, (labels + [l])[i])
    {
      if i < |labels| {
        assert ChildAt(oidOnly, was, p, i, labels[i]);
      }
    }
  }

  /**
   The tree of a sub-query: the root counts `off` more than there are expressions, and the column of
   every other node is `off` behind the place of its own expressions.
   */
  ghost predicate OneOff(q: Context, off: int)
    reads q
  {
    && q.skew == off && Tree(q.nodes, q.select, off, q.next, {})
    && 0 in q.nodes && q.nodes[0].column == 0 && q.nodes[0].count == |q.select| + off
  }

  /** Where a translation stands. */
  datatype Snapshot = Snapshot(nodes: map<Id, Node>, select: seq<Expr>, from_: seq<Phrase>, where_: seq<Phrase>,
    push: seq<Value>, next: Id, counter: nat)

  ghost predicate Extends(was: Snapshot, now: Snapshot) {
    was.select <= now.select && was.from_ <= now.from_ && was.where_ <= now.where_ && was.counter <= now.counter
  }

  /** The part written in between. */
  ghost function Between(was: Snapshot, now: Snapshot): Sql
    requires Extends(was, now)
  {
    Sql(Items(now.select[|was.select|..]), now.from_[|was.from_|..], now.where_[|was.where_|..])
  }

  lemma BetweenTwice(was: Snapshot, mid: Snapshot, now: Snapshot)
    requires Extends(was, mid) && Extends(mid, now)
    ensures Extends(was, now) && Between(was, now) == Plus(Between(was, mid), Between(mid, now))
  {
    assert now.select[|was.select|..] == mid.select[|was.select|..] + now.select[|mid.select|..];
    assert now.from_[|was.from_|..] == mid.from_[|was.from_|..] + now.from_[|mid.from_|..];
    assert now.where_[|was.where_|..] == mid.where_[|was.where_|..] + now.where_[|mid.where_|..];
  }

  lemma BetweenNone(was: Snapshot)
    ensures Extends(was, was) && Between(was, was) == Sql([], [], [])
  {
  }

  lemma CombineBetween(was: Snapshot, now: Snapshot)
    requires Extends(was, now)
    ensures Combine(now.select, now.from_, now.where_) ==
      Plus(Combine(was.select, was.from_, was.where_), Between(was, now))
  {
    assert now.select == was.select + now.select[|was.select|..];
    assert now.from_ == was.from_ + now.from_[|was.from_|..];
    assert now.where_ == was.where_ + now.where_[|was.where_|..];
  }

  /** The root alone, with its own expressions written. */
  lemma RootLaid(own: int, items: seq<Item>, path: nat, counter: nat)
    requires path < counter
    ensures var nodes := map[0 := Node("", QbeNode, 0, own, [], items, Var(path), Some(path))];
      var select := Exprs(0, items);
      && Tree(nodes, select, own - |items|, 1, {}) && At(nodes, select, own - |items|, {}, 0) &&
        Selectors(nodes, counter)
  {
  }

  class Context {
    const schema: Schema
    const oidOnly: bool
    var select: seq<Expr>
    var from_: seq<Phrase>
    var where_: seq<Phrase>
    var counter: nat
    var nodes: map<Id, Node>
    var next: Id
    var pushList: seq<Value>
    var pushMax: nat
    // How far the column numbers of the tree are from positions in the select list.
    ghost const skew: int

    ghost predicate Ready(open: set<Id>)
      reads this
    {
      && Tree(nodes, select, skew, next, open) && |pushList| <= pushMax && HolesIn(from_) == []
      && Selectors(nodes, counter) && Spoken()
    }

    /** Each part starts with its own words. */
    predicate Spoken()
      reads this`from_, this`where_
    {
      from_ != [] && Leads(from_, " from ", ", ") && Leads(where_, " where ", " and ")
    }

    constructor (schema: Schema, oidOnly: bool, own: int, items: seq<Item>, path: nat, from_: seq<Phrase>,
        counter: nat, pushList: seq<Value>, pushMax: nat)
      requires |pushList| <= pushMax && HolesIn(from_) == [] && path < counter
      requires from_ != [] && Leads(from_, " from ", ", ")
      ensures this.schema == schema && this.oidOnly == oidOnly &&
        select == Exprs(0, items) && this.from_ == from_ &&
        this.counter == counter
      ensures this.pushList == pushList && this.pushMax == pushMax && where_ == [] && next == 1
      ensures nodes == map[0 := Node("", QbeNode, 0, own, [], items, Var(path), Some(path))]
      ensures skew == own - |items| && Ready({}) && At(nodes, select, skew, {}, 0)
    {
      hide Tree, At, Selectors, HolesIn, Exprs;
      this.schema, this.oidOnly, this.from_, this.counter := schema, oidOnly, from_, counter;
      select := Exprs(0, items);
      this.pushList, this.pushMax, where_, next := pushList, pushMax, [], 1;
      nodes := map[0 := Node("", QbeNode, 0, own, [], items, Var(path), Some(path))];
      skew := own - |items|;
      RootLaid(own, items, path, counter);
    }

    /** Push_Value: the array grows by half when it is full. */
    method PushValue(v: Value)
      requires |pushList| <= pushMax
      modifies this`pushList, this`pushMax
      ensures pushList == old(pushList) + [v] && |pushList| <= pushMax
    {
      if pushMax == 0 {
        pushMax := 8;
      }
      if |pushList| >= pushMax {
        pushMax := pushMax + pushMax / 2 + 1;
      }
      pushList := pushList + [v];
    }

    /** Add_Constraint. */
    method AddConstraint(ts: seq<Token>)
      modifies this`where_
      ensures where_ == old(where_) + [Phrase(if old(where_) == [] then " where " else " and ", ts)]
      ensures HolesIn(where_) == old(HolesIn(where_)) + HolesBy(ts)
      ensures old(Spoken()) ==> Spoken()
    {
      var p := Phrase(if where_ == [] then " where " else " and ", ts);
      HolesMore(where_, p);
      where_ := where_ + [p];
    }

    /** A constraint with one placeholder, whose value is pushed first. */
    method PushConstraint(ts: seq<Token>, v: Value)
      requires |pushList| <= pushMax && HolesBy(ts) == [v]
      modifies this`pushList, this`pushMax, this`where_
      ensures Pushed(old(where_), where_, old(pushList), pushList) && |pushList| <= pushMax &&
        pushList == old(pushList) + [v]
      ensures old(where_) <= where_
      ensures where_[|old(where_)|..] == [Phrase(if old(where_) == [] then " where " else " and ", ts)]
      ensures old(Spoken()) ==> Spoken()
    {
      hide HolesBy, HolesIn, Spoken;
      PushValue(v);
      AddConstraint(ts);
    }

    method TextConstraint(ts: seq<Token>)
      requires |pushList| <= pushMax && HolesBy(ts) == []
      modifies this`where_
      ensures Pushed(old(where_), where_, pushList, pushList)
      ensures old(where_) <= where_
      ensures where_[|old(where_)|..] == [Phrase(if old(where_) == [] then " where " else " and ", ts)]
      ensures old(Spoken()) ==> Spoken()
    {
      hide HolesBy, HolesIn, Spoken;
      AddConstraint(ts);
    }

    /** The operators other than qbe: Handle_Other_Operators, with any and contains. */
    method Constrain(path: Path, aname: string, domain: Domain, op: Operator) returns (ok: bool)
      requires !op.Qbe? && |pushList| <= pushMax
      modifies this`pushList, this`pushMax, this`where_
      ensures ok <==> Operable(schema, domain, op)
      ensures ok ==> Pushed(old(where_), where_, old(pushList), pushList) && |pushList| <= pushMax
      ensures ok ==> pushList == old(pushList) + OperandOf(schema, domain, op)
      ensures ok ==> old(where_) <= where_ && Says(schema, where_[|old(where_)|..], Dot(path, aname), domain, op)
      ensures old(Spoken()) ==> Spoken()
    {
      hide HolesIn, HolesBy, Pushed, Spoken, Says;
      var field := Field(Dot(path, aname));
      ghost var lead := if where_ == [] then " where " else " and ";
      match op {
        case Any =>
        case Contains(list) =>
          if !domain.Collection? {
            return false;
          }
          var v := schema.convert(domain, list);
          if v == None {
            return false;
          }
          FiveHoles(Text("CAST ("), field, Text(" AS SET) SUPERSETEQ CAST("), Hole(v.value), Text(" AS SET)"));
          SaysContains(schema, lead, Dot(path, aname), domain, list, v.value);
          PushConstraint([Text("CAST ("), field, Text(" AS SET) SUPERSETEQ CAST("), Hole(v.value), Text(" AS SET)")],
            v.value);
        case Equals(negated, arg) =>
          var strval := if arg.Some? then arg.value else "";
          if strval == "" && domain.Scalar? && (domain.elem != StringElem || arg == None) {
            TwoHoles(field, Text(if negated then " IS NOT NULL" else " IS NULL"));
            SaysNull(schema, lead, Dot(path, aname), domain, negated, arg);
            TextConstraint([field, Text(if negated then " IS NOT NULL" else " IS NULL")]);
            return true;
          }
          if strval == "" && domain == Scalar(StringElem) {
            var first, second := if negated then " <> '' AND " else " = '' OR ",
              if negated then " IS NOT NULL)" else " IS NULL)";
            FiveHoles(Text("("), field, Text(first), field, Text(second));
            SaysEmpty(schema, lead, Dot(path, aname), domain, negated, arg);
            TextConstraint([Text("("), field, Text(first), field, Text(second)]);
            return true;
          }
          var v := schema.convert(domain, strval);
          if v == None {
            return false;
          }
          ThreeHoles(field, Text(if negated then " <> " else " = "), Hole(v.value));
          SaysEqual(schema, lead, Dot(path, aname), domain, negated, arg, v.value);
          PushConstraint([field, Text(if negated then " <> " else " = "), Hole(v.value)], v.value);
        case Order(sign, than) =>
          if domain != Scalar(IntElem) && domain != Scalar(StringElem) {
            return false;
          }
          var v := schema.convert(domain, than);
          if v == None {
            return false;
          }
          ThreeHoles(field, Text(SignText(sign)), Hole(v.value));
          SaysOrder(schema, lead, Dot(path, aname), domain, sign, than, v.value);
          PushConstraint([field, Text(SignText(sign)), Hole(v.value)], v.value);
        case Like(negated, pattern) =>
          if domain != Scalar(StringElem) {
            return false;
          }
          var p := Glob.PushGlob(pattern);
          FourHoles(field, Text(if negated then " NOT LIKE " else " LIKE "), Hole(Str(p)), Text(" ESCAPE '\\'"));
          SaysLike(schema, lead, Dot(path, aname), domain, negated, pattern);
          PushConstraint([field, Text(if negated then " NOT LIKE " else " LIKE "), Hole(Str(p)), Text(" ESCAPE '\\'")],
            Str(p));
      }
      ok := true;
      if op == Any {
        NothingPushed(where_, pushList);
        SaysAny(schema, Dot(path, aname), domain);
        assert where_[|old(where_)|..] == [];
      }
    }

    lemma TwoHoles(a: Token, b: Token)
      ensures HolesBy([a, b]) == HolesOf(a) + HolesOf(b)
    {
      HolesNext([], a);
      HolesNext([a], b);
      assert [] + [a] == [a] && [a] + [b] == [a, b];
    }

    lemma ThreeHoles(a: Token, b: Token, c: Token)
      ensures HolesBy([a, b, c]) == HolesOf(a) + HolesOf(b) + HolesOf(c)
    {
      hide HolesBy;
      TwoHoles(a, b);
      HolesNext([a, b], c);
      assert [a, b] + [c] == [a, b, c];
    }

    lemma FourHoles(a: Token, b: Token, c: Token, d: Token)
      ensures HolesBy([a, b, c, d]) == HolesOf(a) + HolesOf(b) + HolesOf(c) + HolesOf(d)
    {
      hide HolesBy;
      ThreeHoles(a, b, c);
      HolesNext([a, b, c], d);
      assert [a, b, c] + [d] == [a, b, c, d];
    }

    lemma FiveHoles(a: Token, b: Token, c: Token, d: Token, e: Token)
      ensures HolesBy([a, b, c, d, e]) == HolesOf(a) + HolesOf(b) + HolesOf(c) + HolesOf(d) + HolesOf(e)
    {
      hide HolesBy;
      FourHoles(a, b, c, d);
      HolesNext([a, b, c, d], e);
      assert [a, b, c, d] + [e] == [a, b, c, d, e];
    }

    lemma NothingPushed(where0: seq<Phrase>, push0: seq<Value>)
      ensures Pushed(where0, where0, push0, push0)
    {
    }

    /** The search in Create_Sub_Node. */
    method FindChild(p: Id, aname: string) returns (c: Option<Id>, ghost j: nat)
      requires p in nodes && forall i :: 0 <= i < |nodes[p].children| ==> nodes[p].children[i] in nodes
      ensures c == None ==> forall i :: 0 <= i < |nodes[p].children| ==> nodes[nodes[p].children[i]].aname != aname
      ensures c.Some? ==> j < |nodes[p].children| && c.value == nodes[p].children[j] && nodes[c.value].aname == aname
      ensures c.Some? ==> forall i :: 0 <= i < j ==> nodes[nodes[p].children[i]].aname != aname
    {
      var i := 0;
      while i < |nodes[p].children|
        invariant 0 <= i <= |nodes[p].children|
        invariant forall j :: 0 <= j < i ==> nodes[nodes[p].children[j]].aname != aname
      {
        if nodes[nodes[p].children[i]].aname == aname {
          return Some(nodes[p].children[i]), i;
        }
        i := i + 1;
      }
      c, j := None, 0;
    }

    /** A child is found exactly for the attributes named before, and is of their kind. */
    lemma ChildFound(p: Id, labels: seq<Label>, aname: string, c: Option<Id>, j: nat)
      requires Children(oidOnly, nodes, p, labels)
      requires forall i :: 0 <= i < |nodes[p].children| ==> nodes[p].children[i] in nodes
      requires c == None ==> forall i :: 0 <= i < |nodes[p].children| ==> nodes[nodes[p].children[i]].aname != aname
      requires c.Some? ==> j < |nodes[p].children| && c.value == nodes[p].children[j] && nodes[c.value].aname == aname
      requires c.Some? ==> forall i :: 0 <= i < j ==> nodes[nodes[p].children[i]].aname != aname
      ensures c == None <==> Lookup(labels, aname) == None
      ensures c.Some? ==> Lookup(labels, aname).Some? && Lookup(labels, aname).value.kind == nodes[c.value].kind
    {
      hide Lookup;
      LookupAt(labels, aname);
      forall i | 0 <= i < |labels|
        ensures labels[i].aname == nodes[nodes[p].children[i]].aname
      {
        assert ChildAt(oidOnly, nodes, p, i, labels[i]);
      }
      if c.Some? {
        FirstLabel(labels, aname, j);
        assert ChildAt(oidOnly, nodes, p, j, labels[j]);
      }
    }

    /** Link a new child to p and write its own expressions. */
    method OpenChild(p: Id, aname: string, kind: Kind, items: seq<Item>, path: Path, selector: Option<nat>,
        ghost open: set<Id>) returns (c: Id)
      requires Ready(open) && At(nodes, select, skew, open, p)
      requires selector.Some? ==> counter == selector.value + 1 && Selectors(nodes, selector.value)
      modifies this`nodes, this`next, this`select
      ensures c == old(next) && next == c + 1
      ensures select == old(select) + Exprs(c, items)
      ensures var d := Node(aname, kind, old(nodes[p].column + nodes[p].count), |items|, [], items, path, selector);
        nodes == old(nodes)[p := old(nodes[p]).(children := old(nodes[p]).children + [c])][c := d]
      ensures Ready(open + {p}) && At(nodes, select, skew, open + {p}, c) && p < c && c !in old(nodes)
    {
      hide Local, HolesIn, Spoken, Selectors;
      c := next;
      var d := Node(aname, kind, nodes[p].column + nodes[p].count, |items|, [], items, path, selector);
      var exprs := Exprs(c, items);
      ghost var nodes0, select0 := nodes, select;
      nodes := nodes[p := nodes[p].(children := nodes[p].children + [c])][c := d];
      select := select + exprs;
      next := next + 1;
      Opened(nodes0, nodes, select0, select, skew, c, open, p, d);
      NewSelector(nodes0, p, c, d);
    }

    lemma NewSelector(was: map<Id, Node>, p: Id, c: Id, d: Node)
      requires p in was && c !in was && Selectors(was, counter)
      requires d.selector.Some? ==> counter == d.selector.value + 1 && Selectors(was, d.selector.value)
      ensures Selectors(was[p := was[p].(children := was[p].children + [c])][c := d], counter)
    {
    }

    /** The child's columns are added to its parent's count. */
    method CloseChild(p: Id, c: Id, ghost was: map<Id, Node>, ghost nodes1: map<Id, Node>, ghost select0: seq<Expr>,
        ghost select1: seq<Expr>, ghost open: set<Id>, ghost d: Node)
      requires Tree(was, select0, skew, c, open) && At(was, select0, skew, open, p) && p < c &&
        select0 <= select1 <= select
      requires d.column == was[p].column + was[p].count && 0 <= d.count
      requires nodes1 == was[p := was[p].(children := was[p].children + [c])][c := d] && Grown(nodes1, nodes, c, c + 1)
      requires Ready(open + {p}) && At(nodes, select, skew, open + {p}, c) && p in nodes && c in nodes
      modifies this`nodes
      ensures Ready(open) && At(nodes, select, skew, open, p) && Grown(was, nodes, p, c)
      ensures p in nodes && nodes == old(nodes)[p := nodes[p]] &&
        nodes[p] == was[p].(count := nodes[p].count, children := was[p].children + [c])
    {
      hide Local;
      NotNegative(c, open + {p}, was);
      ghost var nodes2 := nodes;
      assert nodes2[p] == nodes1[p];
      hide Grown, Selectors, HolesIn, Spoken;
      nodes := nodes[p := nodes[p].(count := nodes[p].count + nodes[c].count)];
      Finished(was, nodes1, nodes2, nodes, select0, select1, select, skew, c, next, open, p, d);
      SelectorsKept(nodes2, nodes, p);
    }

    lemma SelectorsKept(nodes2: map<Id, Node>, nodes3: map<Id, Node>, p: Id)
      requires Selectors(nodes2, counter) && p in nodes2 && p in nodes3 && nodes3 == nodes2[p := nodes3[p]] &&
        nodes3[p].selector == nodes2[p].selector
      ensures Selectors(nodes3, counter)
    {
    }

    ghost function Snap(): Snapshot
      reads this
    {
      Snapshot(nodes, select, from_, where_, pushList, next, counter)
    }

    /** What a step of the translation does: the tree grows under p, the select list and the push list at their ends. */
    ghost predicate Steps(was: Snapshot, p: Id, path: Path, open: set<Id>)
      reads this
    {
      && Ready(open) && At(nodes, select, skew, open, p) && Grown(was.nodes, nodes, p, was.next) && was.next <= next
      && Extends(was, Snap()) && Pushed(was.where_, where_, was.push, pushList)
      && p in nodes && nodes[p].path == path && Closed(Between(was, Snap()), Root(path), was.counter, counter)
    }

    /** Add_Expression for an attribute without a nested specification. */
    method AddPlain(p: Id, path: Path, class_: string, aname: string, op: Operator, ghost before: seq<Spec>,
        ghost open: set<Id>) returns (ok: bool)
      requires !op.Qbe? && Ready(open) && At(nodes, select, skew, open, p)
      requires p in nodes && nodes[p].path == path && Root(path) < counter &&
        Children(oidOnly, nodes, p, Labels(schema, class_, before))
      modifies this
      ensures ok <==> PlainAfter(schema, class_, before, Spec(aname, op))
      ensures ok ==>
        Steps(old(Snap()), p, path, open) && pushList == old(pushList) + SpecValues(schema, class_, Spec(aname, op))
      ensures ok ==> Children(oidOnly, nodes, p, Labels(schema, class_, before + [Spec(aname, op)]))
      ensures ok ==> MeansSpec(schema, Between(old(Snap()), Snap()), path, class_, Spec(aname, op))
    {
      hide Local, Tree, At, Grown, Pushed, HolesIn, Selectors, Labels, Lookup, Children, Operable, OperandOf, Spoken,
        Says, MeansSpec, Closed, SpecValues;
      ghost var start := Snap();
      var domain := schema.domain(class_, aname);
      if domain == None {
        return false;
      }
      ghost var labels := Labels(schema, class_, before);
      ChildrenThere(p, open);
      var found, j := FindChild(p, aname);
      ChildFound(p, labels, aname, found, j);
      LabelsStep(schema, class_, before, Spec(aname, op));
      if found.Some? {
        if nodes[found.value].kind != AttrNode {
          return false;
        }
        ok := Constrain(path, aname, domain.value, op);
        GrownNone(nodes, p, next);
        if ok {
          PlainPart(start, path, class_, aname, op);
        }
        return;
      }
      ghost var was, select0 := nodes, select;
      var c := OpenChild(p, aname, AttrNode, if oidOnly then []
        else [Plain(Dot(path, aname))], Dot(path, aname), None, open);
      ghost var nodes1, select1, d := nodes, select, nodes[c];
      ok := Constrain(path, aname, domain.value, op);
      if !ok {
        return;
      }
      GrownNone(nodes, c, c + 1);
      CloseChild(p, c, was, nodes1, select0, select1, open, d);
      ChildAdded(oidOnly, was, nodes, p, c, labels, Label(aname, AttrNode, false));
      PlainPart(start, path, class_, aname, op);
    }

    lemma PlainPart(start: Snapshot, path: Path, class_: string, aname: string, op: Operator)
      requires !op.Qbe? && schema.domain(class_, aname).Some? &&
        Operable(schema, schema.domain(class_, aname).value, op)
      requires start.from_ == from_ && start.counter == counter && start.where_ <= where_
      requires start.select <= select && (select == start.select ||
        (|select| == |start.select| + 1 && select[|start.select|].item == Plain(Dot(path, aname))))
      requires Says(schema, where_[|start.where_|..], Dot(path, aname), schema.domain(class_, aname).value, op)
      ensures Extends(start, Snap()) && MeansSpec(schema, Between(start, Snap()), path, class_, Spec(aname, op))
      ensures Closed(Between(start, Snap()), Root(path), start.counter, counter)
      ensures SpecValues(schema, class_, Spec(aname, op)) == OperandOf(schema, schema.domain(class_, aname).value, op)
    {
      hide Says, MeansSpec, Closed, Operable;
      PlainMeans(schema, Between(start, Snap()), path, class_, aname, op, counter);
    }

    lemma ChildrenThere(p: Id, open: set<Id>)
      requires Ready(open) && At(nodes, select, skew, open, p)
      ensures p in nodes && p < next && forall i :: 0 <= i < |nodes[p].children| ==> nodes[p].children[i] in nodes
    {
      hide Local;
    }

    lemma GrownNone(was: map<Id, Node>, p: Id, next0: Id)
      ensures Grown(was, was, p, next0)
    {
    }

    /** Construct_Query. */
    method ConstructQuery(p: Id, path: Path, class_: string, specs: Specs, ghost open: set<Id>) returns (ok: bool)
      requires Ready(open) && At(nodes, select, skew, open, p) && p in nodes && nodes[p].path == path &&
        Root(path) < counter && nodes[p].children == []
      modifies this
      ensures ok <==> Accepts(schema, class_, specs)
      ensures ok ==> Steps(old(Snap()), p, path, open) && pushList == old(pushList) + AllValues(schema, class_, specs)
      ensures ok ==> Mirrors(schema, oidOnly, nodes, p, class_, specs)
      ensures ok ==> Means(schema, Between(old(Snap()), Snap()), path, class_, specs)
      decreases specs, 1
    {
      hide Ready, Closed, Selects, MeetsSpec;
      match specs {
        case Star => ok := ConstructStar(p, path, class_, open);
        case Each(list) => ok := ConstructEach(p, path, class_, list, open);
      }
    }

    /** All printable attributes of the class. */
    method ConstructStar(p: Id, path: Path, class_: string, ghost open: set<Id>) returns (ok: bool)
      requires Ready(open) && At(nodes, select, skew, open, p) && p in nodes && nodes[p].path == path &&
        Root(path) < counter && nodes[p].children == []
      modifies this
      ensures ok <==> Accepts(schema, class_, Star)
      ensures ok ==> Steps(old(Snap()), p, path, open) && pushList == old(pushList)
      ensures ok ==> Children(oidOnly, nodes, p, Labels(schema, class_, Named(schema, class_, Star)))
      ensures ok ==> Means(schema, Between(old(Snap()), Snap()), path, class_, Star)
    {
      hide Local, Tree, At, Grown, Pushed, HolesIn, Selectors, PlainAfter, Operable, OperandOf, Spoken, Closed,
        MeansFirst, MeansSpec, Means, Between;
      GrownNone(nodes, p, next);
      NothingPushed(where_, pushList);
      ghost var was, list := Snap(), Named(schema, class_, Star);
      var attrs := schema.attributes(class_);
      assert Labels(schema, class_, list[..0]) == [];
      hide Labels, Children;
      NoChildren(p);
      BetweenNone(was);
      MeansNone(schema, path, class_, list, counter);
      var i := 0;
      while i < |attrs|
        invariant 0 <= i <= |attrs| == |list| && Steps(was, p, path, open) && pushList == was.push
        invariant MeansFirst(schema, Between(was, Snap()), path, class_, list, i)
        invariant Children(oidOnly, nodes, p, Labels(schema, class_, list[..i]))
        invariant forall j :: 0 <= j < i ==> PlainAfter(schema, class_, list[..j], list[j])
      {
        ghost var mid := Snap();
        assert list[i] == Spec(attrs[i], Any) && list[..i + 1] == list[..i] + [list[i]];
        ok := AddPlain(p, path, class_, attrs[i], Any, list[..i], open);
        if !ok {
          return;
        }
        AnyValues(class_, attrs[i]);
        Further(was, mid, path, class_, list, i);
        StepsTwice(was, mid, p, path, open);
        i := i + 1;
      }
      assert list[..i] == list;
      AnyMeans(schema, Between(was, Snap()), path, class_, list);
      ok := true;
    }

    /** The parts written so far and the next one. */
    lemma Further(was: Snapshot, mid: Snapshot, path: Path, class_: string, list: seq<Spec>, n: nat)
      requires Extends(was, mid) && Extends(mid, Snap()) && n < |list| && Root(path) < was.counter
      requires MeansFirst(schema, Between(was, mid), path, class_, list, n)
      requires MeansSpec(schema, Between(mid, Snap()), path, class_, list[n])
      requires Closed(Between(was, mid), Root(path), was.counter, mid.counter)
      requires Closed(Between(mid, Snap()), Root(path), mid.counter, counter)
      ensures Extends(was, Snap()) && MeansFirst(schema, Between(was, Snap()), path, class_, list, n + 1)
      ensures Closed(Between(was, Snap()), Root(path), was.counter, counter)
    {
      hide MeansFirst, MeansSpec, Closed;
      BetweenTwice(was, mid, Snap());
      MeansNext(schema, Between(was, mid), Between(mid, Snap()), path, class_, list, n, was.counter, mid.counter,
        counter);
    }

    lemma NoChildren(p: Id)
      requires p in nodes && nodes[p].children == []
      ensures Children(oidOnly, nodes, p, [])
    {
    }

    lemma AnyValues(class_: string, aname: string)
      ensures SpecValues(schema, class_, Spec(aname, Any)) == []
    {
    }

    method ConstructEach(p: Id, path: Path, class_: string, list: seq<Spec>, ghost open: set<Id>) returns (ok: bool)
      requires Ready(open) && At(nodes, select, skew, open, p) && p in nodes && nodes[p].path == path &&
        Root(path) < counter && nodes[p].children == []
      modifies this
      ensures ok <==> AcceptsFirst(schema, class_, list, |list|)
      ensures ok ==> Steps(old(Snap()), p, path, open) && pushList == old(pushList) + Values(schema, class_, list)
      ensures ok ==> Children(oidOnly, nodes, p, Labels(schema, class_, list))
      ensures ok ==> MirrorsFirst(schema, oidOnly, nodes, p, class_, list, |list|)
      ensures ok ==> MeansFirst(schema, Between(old(Snap()), Snap()), path, class_, list, |list|)
      decreases list, 0
    {
      hide Local, Tree, At, Grown, Pushed, HolesIn, Selectors, AcceptsAfter, MirrorsBelow, SpecValues, Spoken, Closed,
        MeansFirst, MeansSpec, Between;
      GrownNone(nodes, p, next);
      NothingPushed(where_, pushList);
      ghost var was := Snap();
      assert Labels(schema, class_, list[..0]) == [] && Values(schema, class_, list[..0]) == [];
      assert AcceptsFirst(schema, class_, list, 0) && MirrorsFirst(schema, oidOnly, nodes, p, class_, list, 0);
      hide Labels, Children, Values, AcceptsFirst, MirrorsFirst;
      NoChildren(p);
      BetweenNone(was);
      MeansNone(schema, path, class_, list, counter);
      var i := 0;
      while i < |list|
        invariant 0 <= i <= |list| && Steps(was, p, path, open) &&
          pushList == was.push + Values(schema, class_, list[..i])
        invariant MeansFirst(schema, Between(was, Snap()), path, class_, list, i)
        invariant Children(oidOnly, nodes, p, Labels(schema, class_, list[..i]))
        invariant AcceptsFirst(schema, class_, list, i) && MirrorsFirst(schema, oidOnly, nodes, p, class_, list, i)
      {
        ghost var mid := Snap();
        assert list[..i + 1] == list[..i] + [list[i]];
        ValuesStep(class_, list[..i], list[i]);
        AcceptsNext(schema, class_, list, i);
        ok := AddExpression(p, path, class_, list[i], list[..i], open);
        if !ok {
          return;
        }
        StillBelow(mid, p, class_, list, i);
        Further(was, mid, path, class_, list, i);
        StepsTwice(was, mid, p, path, open);
        i := i + 1;
      }
      assert list[..i] == list;
      ok := true;
    }

    lemma ValuesStep(class_: string, list: seq<Spec>, spec: Spec)
      ensures Values(schema, class_, list + [spec]) == Values(schema, class_, list) + SpecValues(schema, class_, spec)
    {
      assert (list + [spec])[..|list|] == list;
    }

    /** Adding to p leaves the trees below its earlier children. */
    lemma StillBelow(mid: Snapshot, p: Id, class_: string, list: seq<Spec>, i: nat)
      requires Grown(mid.nodes, nodes, p, mid.next) && p in mid.nodes && p in nodes && i < |list|
      requires MirrorsFirst(schema, oidOnly, mid.nodes, p, class_, list, i) &&
        MirrorsBelow(schema, oidOnly, nodes, p, class_, list[i])
      ensures MirrorsFirst(schema, oidOnly, nodes, p, class_, list, i + 1)
    {
      hide MirrorsBelow;
      forall j | 0 <= j < i
        ensures MirrorsBelow(schema, oidOnly, nodes, p, class_, list[j])
      {
        BelowKept(schema, oidOnly, mid.nodes, nodes, p, class_, list[j]);
      }
    }

    lemma StepsTwice(was: Snapshot, mid: Snapshot, p: Id, path: Path, open: set<Id>)
      requires Grown(was.nodes, mid.nodes, p, was.next) && was.next <= mid.next && Extends(was, mid)
      requires Pushed(was.where_, mid.where_, was.push, mid.push) && Steps(mid, p, path, open)
      requires Closed(Between(was, mid), Root(path), was.counter, mid.counter)
      ensures Steps(was, p, path, open)
    {
      hide Local, Tree, At, Grown, Pushed, HolesIn, Selectors, Spoken, Closed;
      GrownTwice(was.nodes, mid.nodes, nodes, p, was.next, mid.next);
      PushedTwice(was.where_, mid.where_, where_, was.push, mid.push, pushList);
      BetweenTwice(was, mid, Snap());
      ClosedPlus(Between(was, mid), Between(mid, Snap()), Root(path), was.counter, mid.counter, counter);
    }

    /** Add_Expression. */
    method AddExpression(p: Id, path: Path, class_: string, spec: Spec, ghost before: seq<Spec>,
        ghost open: set<Id>) returns (ok: bool)
      requires Ready(open) && At(nodes, select, skew, open, p)
      requires p in nodes && nodes[p].path == path && Root(path) < counter &&
        Children(oidOnly, nodes, p, Labels(schema, class_, before))
      modifies this
      ensures ok <==> AcceptsAfter(schema, class_, before, spec)
      ensures ok ==> Steps(old(Snap()), p, path, open) && pushList == old(pushList) + SpecValues(schema, class_, spec)
      ensures ok ==>
        Children(oidOnly, nodes, p, Labels(schema, class_, before + [spec])) &&
        MirrorsBelow(schema, oidOnly, nodes, p, class_, spec)
      ensures ok ==> MeansSpec(schema, Between(old(Snap()), Snap()), path, class_, spec)
      decreases spec, 0
    {
      hide Local, Tree, At, Grown, Pushed, HolesIn, Selectors, Labels, Lookup, Children, Operable, OperandOf, Spoken,
        Closed, MeansSpec, Between;
      match spec {
        case Malformed => return false;
        case Spec(aname, op) =>
          match op {
            case Qbe(all, cname, subs) =>
              ok := AddQbe(p, path, class_, aname, all, cname, subs, before, open);
            case _ =>
              ok := AddPlain(p, path, class_, aname, op, before, open);
          }
      }
    }

    /** Add_Expression for the qbe operator: a subtree for an object, a sub-query for a collection of objects. */
    method AddQbe(p: Id, path: Path, class_: string, aname: string, all: bool, cname: string, subs: Specs,
        ghost before: seq<Spec>, ghost open: set<Id>) returns (ok: bool)
      requires Ready(open) && At(nodes, select, skew, open, p)
      requires p in nodes && nodes[p].path == path && Root(path) < counter &&
        Children(oidOnly, nodes, p, Labels(schema, class_, before))
      modifies this
      ensures ok <==> AcceptsAfter(schema, class_, before, Spec(aname, Qbe(all, cname, subs)))
      ensures ok ==>
        Steps(old(Snap()), p, path, open) &&
        pushList == old(pushList) + SpecValues(schema, class_, Spec(aname, Qbe(all, cname, subs)))
      ensures ok ==> Children(oidOnly, nodes, p, Labels(schema, class_, before + [Spec(aname, Qbe(all, cname, subs))]))
      ensures ok ==> MirrorsBelow(schema, oidOnly, nodes, p, class_, Spec(aname, Qbe(all, cname, subs)))
      ensures ok ==> MeansSpec(schema, Between(old(Snap()), Snap()), path, class_, Spec(aname, Qbe(all, cname, subs)))
      decreases subs, 3
    {
      hide Local, Tree, At, Grown, Pushed, HolesIn, Selectors, Labels, Lookup, Children, Mirrors, Accepts, Values,
        Spoken, Closed, MeansSpec, Between;
      var domain := schema.domain(class_, aname);
      if domain == None || !domain.value.elem.ObjectElem? {
        return false;
      }
      var needSelector := cname != "";
      if needSelector && !(schema.isClass(cname) && schema.isa(cname, domain.value.elem.class_)) {
        return false;
      }
      var sub := if needSelector then cname else domain.value.elem.class_;
      ghost var labels, spec := Labels(schema, class_, before), Spec(aname, Qbe(all, cname, subs));
      ChildrenThere(p, open);
      var found, j := FindChild(p, aname);
      ChildFound(p, labels, aname, found, j);
      LabelsStep(schema, class_, before, spec);
      if found.Some? {
        return false;
      }
      if domain.value.Scalar? {
        ghost var c;
        ok, c := AddObject(p, path, class_, aname, all, cname, sub, subs, labels, open);
      } else {
        ok := AddCollection(p, path, class_, aname, all, cname, sub, subs, labels, open);
      }
    }

    method AddObject(p: Id, path: Path, class_: string, aname: string, all: bool, cname: string, sub: string,
        subs: Specs,
        ghost labels: seq<Label>, ghost open: set<Id>)
      returns (ok: bool, ghost c: Id)
      requires Ready(open) && At(nodes, select, skew, open, p)
      requires p in nodes && nodes[p].path == path && Root(path) < counter && Children(oidOnly, nodes, p, labels)
      requires Inner(schema, class_, Spec(aname, Qbe(all, cname, subs)))
      requires sub == SubClass(schema, class_, Spec(aname, Qbe(all, cname, subs)))
      modifies this
      ensures ok <==> Accepts(schema, sub, subs)
      ensures ok ==> Steps(old(Snap()), p, path, open) && pushList == old(pushList) + AllValues(schema, sub, subs)
      ensures ok ==> Children(oidOnly, nodes, p, labels + [Label(aname, QbeNode, cname != "")])
      ensures ok ==>
        c in nodes[p].children && p < c && c in nodes && nodes[c].aname == aname &&
        Mirrors(schema, oidOnly, nodes, c, sub, subs)
      ensures ok ==> MeansSpec(schema, Between(old(Snap()), Snap()), path, class_, Spec(aname, Qbe(all, cname, subs)))
      decreases subs, 2
    {
      hide Local, Tree, At, Grown, Pushed, HolesIn, Selectors, Children, Mirrors, Accepts, Values, Written, Spoken,
        Closed, MeansSpec, Means, Between, Inner;
      ghost var was, select0, start := nodes, select, Snap();
      var n, newPath := OpenObject(p, path, aname, all, cname, open);
      c := n;
      ghost var nodes1, select1, d, mid := nodes, select, nodes[n], Snap();
      ok := ConstructQuery(n, newPath, sub, subs, open + {p});
      if !ok {
        return;
      }
      KeptBy(nodes1, p, n);
      ghost var nodes2, last := nodes, Snap();
      CloseChild(p, n, was, nodes1, select0, select1, open, d);
      MirrorsKept(schema, oidOnly, nodes2, nodes, n, sub, subs);
      SameWritten(path, nodes1[n], nodes[n], Label(aname, QbeNode, cname != ""));
      ChildAdded(oidOnly, was, nodes, p, n, labels, Label(aname, QbeNode, cname != ""));
      SameParts(start, mid, last);
      ObjectMeans(schema, oidOnly, Between(mid, last), path, class_, aname, all, cname, subs, start.counter, counter);
    }

    /** The part is the same whatever the tree looks like. */
    lemma SameParts(start: Snapshot, mid: Snapshot, last: Snapshot)
      requires Extends(start, mid) && Extends(mid, last)
      requires last.select == select && last.from_ == from_ && last.where_ == where_ && last.counter == counter
      ensures Extends(start, Snap()) && Between(start, Snap()) == Plus(Between(start, mid), Between(mid, last))
    {
      BetweenTwice(start, mid, last);
    }

    lemma SameWritten(path: Path, d: Node, d': Node, l: Label)
      requires Written(oidOnly, path, d, l) && d' == d.(count := d'.count, children := d'.children)
      ensures Written(oidOnly, path, d', l) && d'.aname == l.aname
    {
    }

    /** The node of an object, with a variable of its own if the object's class is restricted. */
    method OpenObject(p: Id, path: Path, aname: string, all: bool, cname: string, ghost open: set<Id>)
      returns (c: Id, newPath: Path)
      requires Ready(open) && At(nodes, select, skew, open, p) && Root(path) < counter
      requires p in nodes
      modifies this`nodes, this`next, this`select, this`counter, this`from_
      ensures c == old(next) && next == c + 1 && counter == old(counter) + if cname == "" then 0 else 1
      ensures p < c && c !in old(nodes) && c in nodes &&
        nodes == old(nodes)[p := old(nodes[p]).(children := old(nodes[p]).children + [c])][c := nodes[c]]
      ensures nodes[c].column == old(nodes[p].column + nodes[p].count) && nodes[c].count >= 0 &&
        nodes[c].children == [] && nodes[c].path == newPath
      ensures newPath == if cname == "" then Dot(path, aname) else Var(old(counter))
      ensures Written(oidOnly, path, nodes[c], Label(aname, QbeNode, cname != ""))
      ensures Ready(open + {p}) && At(nodes, select, skew, open + {p}, c) && Root(newPath) < counter
      ensures Extends(old(Snap()), Snap()) &&
        Between(old(Snap()), Snap()) == Head(oidOnly, path, aname, cname, all, old(counter))
    {
      hide Local, Tree, At, HolesIn, Selectors, Exprs, Between, Head, Spoken;
      ghost var start := Snap();
      var selector, needSelector := counter, cname != "";
      newPath := if needSelector then Var(selector) else Dot(path, aname);
      var number := if needSelector then Some(counter) else None;
      MoreCounter();
      if needSelector {
        counter := counter + 1;
      }
      var uuid := if needSelector then Bound(Dot(path, aname), selector) else Uuid(newPath);
      var items := if !oidOnly then [Plain(newPath), uuid] else if needSelector then [uuid] else [];
      c := OpenChild(p, aname, QbeNode, items, newPath, number, open);
      if needSelector {
        AddSource(cname, all, selector);
      }
      HeadPart(start, path, aname, cname, all, c, items);
    }

    /** One more variable, ranging over a class. */
    method AddSource(cname: string, all: bool, k: nat)
      requires Spoken()
      modifies this`from_
      ensures from_ == old(from_) + [Phrase(", ", ClassSource(cname, all, k))]
      ensures Spoken() && HolesIn(from_) == old(HolesIn(from_))
    {
      hide HolesIn;
      FromText(cname, all, k);
      from_ := from_ + [Phrase(", ", ClassSource(cname, all, k))];
    }

    lemma HeadPart(start: Snapshot, path: Path, aname: string, cname: string, all: bool, c: Id, items: seq<Item>)
      requires items == (if oidOnly then []
        else [Plain(if cname == "" then Dot(path, aname) else Var(start.counter))]) +
        (if cname != "" then [Bound(Dot(path, aname), start.counter)] else if oidOnly then []
          else [Uuid(Dot(path, aname))])
      requires select == start.select + Exprs(c, items) && where_ == start.where_ && start.counter <= counter
      requires from_ == if cname == "" then start.from_
        else start.from_ + [Phrase(", ", ClassSource(cname, all, start.counter))]
      ensures Extends(start, Snap()) && Between(start, Snap()) == Head(oidOnly, path, aname, cname, all, start.counter)
    {
      assert Items(select[|start.select|..]) == items;
      assert from_[|start.from_|..] == if cname == "" then []
        else [Phrase(", ", ClassSource(cname, all, start.counter))];
    }

    lemma MoreCounter()
      requires Selectors(nodes, counter)
      ensures Selectors(nodes, counter + 1)
    {
    }

    lemma FromText(c: string, all: bool, k: nat)
      ensures HolesIn(from_ + [Phrase(", ", ClassSource(c, all, k))]) == HolesIn(from_)
    {
      HolesMore(from_, Phrase(", ", ClassSource(c, all, k)));
      FourHoles(Text(if all then "all \"" else "\""), Name(c), Text("\" "), Field(Var(k)));
    }

    lemma KeptBy(nodes1: map<Id, Node>, p: Id, c: Id)
      requires Grown(nodes1, nodes, c, c + 1) && p in nodes1 && c in nodes1
      ensures p in nodes && c in nodes && nodes[c] == nodes1[c].(count := nodes[c].count, children := nodes[c].children)
      ensures forall n :: n in nodes1 && n != c ==> n in nodes && nodes[n] == nodes1[n]
    {
    }

    method AddCollection(p: Id, path: Path, class_: string, aname: string, all: bool, cname: string, sub: string,
        subs: Specs, ghost labels: seq<Label>, ghost open: set<Id>)
      returns (ok: bool)
      requires Ready(open) && At(nodes, select, skew, open, p)
      requires p in nodes && nodes[p].path == path && Root(path) < counter && Children(oidOnly, nodes, p, labels)
      requires schema.domain(class_, aname).Some? && schema.domain(class_, aname).value.Collection?
      requires sub == SubClass(schema, class_, Spec(aname, Qbe(all, cname, subs)))
      modifies this
      ensures ok <==> Accepts(schema, sub, subs)
      ensures ok ==> Steps(old(Snap()), p, path, open) && pushList == old(pushList) + AllValues(schema, sub, subs)
      ensures ok ==> Children(oidOnly, nodes, p, labels + [Label(aname, AttrNode, false)])
      ensures ok ==> MeansSpec(schema, Between(old(Snap()), Snap()), path, class_, Spec(aname, Qbe(all, cname, subs)))
      decreases subs, 2, 1
    {
      hide Local, Tree, At, Grown, Pushed, HolesIn, HolesBy, Selectors, Children, Accepts, Values, Spoken, Closed,
        MeansSpec, Between, OneOff, Mirrors, Combine, SubClass, Holes, Exprs, NestedMeans;
      ghost var was, select0, start := nodes, select, Snap();
      var c := OpenChild(p, aname, AttrNode, if oidOnly then []
        else [Plain(Dot(path, aname))], Dot(path, aname), None, open);
      ghost var nodes1, select1, d := nodes, select, nodes[c];
      var text, query;
      ok, text, query := Nested(Dot(path, aname), all, cname, sub, subs);
      if !ok {
        return;
      }
      ThreeHoles(Text("exists ("), Sub(text), Text(")"));
      AddConstraint([Text("exists ("), Sub(text), Text(")")]);
      PushedExactly(old(where_), where_, old(pushList), pushList);
      GrownNone(nodes, c, c + 1);
      CloseChild(p, c, was, nodes1, select0, select1, open, d);
      ChildAdded(oidOnly, was, nodes, p, c, labels, Label(aname, AttrNode, false));
      CollectionPart(start, path, class_, aname, all, cname, sub, subs, text);
    }

    lemma CollectionPart(start: Snapshot, path: Path, class_: string, aname: string, all: bool, cname: string,
        sub: string, subs: Specs, text: Sql)
      requires schema.domain(class_, aname).Some? && schema.domain(class_, aname).value.Collection?
      requires sub == SubClass(schema, class_, Spec(aname, Qbe(all, cname, subs)))
      requires start.from_ == from_ && start.counter <= counter && start.where_ < where_
      requires where_[|start.where_|..] ==
        [Phrase(where_[|start.where_|].lead, [Text("exists ("), Sub(text), Text(")")])]
      requires start.select <= select && (select == start.select ||
        (|select| == |start.select| + 1 && select[|start.select|].item == Plain(Dot(path, aname))))
      requires NestedMeans(schema, text, Dot(path, aname), cname, all, sub, subs)
      ensures Extends(start, Snap()) && Closed(Between(start, Snap()), Root(path), start.counter, counter)
      ensures MeansSpec(schema, Between(start, Snap()), path, class_, Spec(aname, Qbe(all, cname, subs)))
    {
      hide NestedMeans, SubClass;
      CollectionMeans(schema, Between(start, Snap()), path, class_, aname, all, cname, sub, subs, text, start.counter,
        counter);
    }

    lemma PushedExactly(where0: seq<Phrase>, where1: seq<Phrase>, push0: seq<Value>, push1: seq<Value>)
      requires push0 <= push1 && HolesIn(where1) == HolesIn(where0) + push1[|push0|..]
      ensures Pushed(where0, where1, push0, push1)
    {
    }

    /** Nested_QBE_Context: a query of its own, which shares the push list and the variable counter. */
    method Nested(path: Path, all: bool, cname: string, sub: string, subs: Specs)
      returns (ok: bool, text: Sql, query: Context)
      requires |pushList| <= pushMax && Selectors(nodes, counter) && Root(path) < counter
      modifies this`pushList, this`pushMax, this`counter
      ensures ok <==> Accepts(schema, sub, subs)
      ensures ok ==>
        pushList == old(pushList) + AllValues(schema, sub, subs) && |pushList| <= pushMax &&
        Holes(text) == AllValues(schema, sub, subs)
      ensures ok ==> old(counter) <= counter && Selectors(nodes, counter)
      ensures ok ==> OneOff(query, if cname != "" then -1 else 1) && Mirrors(schema, true, query.nodes, 0, sub, subs)
      ensures ok ==>
        text == Combine(query.select, query.from_, query.where_) &&
        |query.nodes[0].items| == if cname != "" then 2 else 1
      ensures ok ==> NestedMeans(schema, text, path, cname, all, sub, subs)
      decreases subs, 2, 0
    {
      hide Local, Tree, At, Grown, HolesIn, Selectors, Accepts, Values, Mirrors, Means, Closed, NestedMeans, Between,
        Spoken, Exprs;
      var needSelector, start := cname != "", counter;
      var var1, var2, var3 := counter, counter + 1, counter + 2;
      var select := [Plain(Var(var2))] + if needSelector then [Bound(Var(var2), var3)] else [];
      var from_ := [Phrase(" from ", ElementSource(path, var1, var2))] +
        if needSelector then [Phrase(", ", ClassSource(cname, all, var3))] else [];
      SourceHoles(path, var1, var2, cname, all, var3);
      var nested := new Context(schema, true, if needSelector then 1 else 2, select,
        if needSelector then var3 else var2, from_, counter + (if needSelector then 3 else 2), pushList, pushMax);
      query := nested;
      ItemsOfExprs(0, select);
      ghost var was := nested.Snap();
      ok := nested.ConstructQuery(0, Var(if needSelector then var3 else var2), sub, subs, {});
      text := Sql([], [], []);
      if ok {
        RootKept(nested, was);
        nested.NestedHoles(pushList);
        text := Combine(nested.select, nested.from_, nested.where_);
        nested.NestedPart(was, path, cname, all, sub, subs, start);
        MuchCounter(nested.counter);
      }
      counter, pushList, pushMax := nested.counter, nested.pushList, nested.pushMax;
    }

    lemma NestedPart(was: Snapshot, path: Path, cname: string, all: bool, sub: string, subs: Specs, k: nat)
      requires Combine(was.select, was.from_, was.where_) == ElementHead(path, cname, all, k) && Root(path) < k
      requires Extends(was, Snap()) && Spoken() && select != []
      requires was.counter == if cname == "" then k + 2 else k + 3
      requires Means(schema, Between(was, Snap()), Var(if cname == "" then k + 1 else k + 2), sub, subs)
      requires Closed(Between(was, Snap()), if cname == "" then k + 1 else k + 2, was.counter, counter)
      ensures NestedMeans(schema, Combine(select, from_, where_), path, cname, all, sub, subs)
    {
      hide Means, Closed, SomeElement, Selects, Mentions, Declared;
      CombineBetween(was, Snap());
      ElementMeans(schema, Between(was, Snap()), path, cname, all, sub, subs, k, counter);
    }

    lemma MuchCounter(k: nat)
      requires Selectors(nodes, counter) && counter <= k
      ensures Selectors(nodes, k)
    {
    }

    lemma SourceHoles(path: Path, i: nat, j: nat, c: string, all: bool, k: nat)
      ensures HolesIn([Phrase(" from ", ElementSource(path, i, j))] + []) == []
      ensures HolesIn([Phrase(" from ", ElementSource(path, i, j))] + [Phrase(", ", ClassSource(c, all, k))]) == []
    {
      var p, q := Phrase(" from ", ElementSource(path, i, j)), Phrase(", ", ClassSource(c, all, k));
      FiveHoles(Text("table("), Field(path), Text(") as "), Field(Var(i)), Text("("));
      var five := [Text("table("), Field(path), Text(") as "), Field(Var(i)), Text("(")];
      HolesNext(five, Field(Var(j)));
      HolesNext(five + [Field(Var(j))], Text(")"));
      assert five + [Field(Var(j))] + [Text(")")] == p.ts;
      FourHoles(Text(if all then "all \"" else "\""), Name(c), Text("\" "), Field(Var(k)));
      hide HolesBy;
      HolesMore([], p);
      HolesMore([p], q);
      assert [] + [p] == [p] && [p] + [] == [p];
    }

    lemma NestedHoles(push0: seq<Value>)
      requires Pushed([], where_, push0, pushList) && HolesIn(from_) == []
      ensures push0 <= pushList && Holes(Combine(select, from_, where_)) == pushList[|push0|..]
    {
      assert HolesIn([]) == [] && [] + pushList[|push0|..] == pushList[|push0|..];
    }

    lemma NotNegative(c: Id, open: set<Id>, was: map<Id, Node>)
      requires Tree(nodes, select, skew, next, open) && c in nodes && c !in open && c > 0
      ensures nodes[c].count >= 0
    {
      assert Local(nodes, select, skew, c);
    }
  }

  // What the finished translation promises.

  /** n is m or lies below it. */
  ghost predicate Under(nodes: map<Id, Node>, m: Id, n: Id, depth: nat)
    decreases depth
  {
    if depth == 0 then m == n
    else m in nodes && exists i :: 0 <= i < |nodes[m].children| && Under(nodes, nodes[m].children[i], n, depth - 1)
  }

  /** Every expression in a node's columns was written for the node or one below it. */
  lemma {:induction false} Owners(nodes: map<Id, Node>, select: seq<Expr>, next: Id, n: Id, k: nat) returns (depth: nat)
    requires Tree(nodes, select, 0, next, {}) && n in nodes && nodes[n].column <= k < nodes[n].column + nodes[n].count
    ensures k < |select| && Under(nodes, n, select[k].owner, depth)
    decreases next - n
  {
    hide Local, Under;
    assert Local(nodes, select, 0, n);
    if k < nodes[n].column + |nodes[n].items| {
      OwnColumn(nodes, select, n, k);
      depth := 0;
    } else {
      var c := BelowAt(nodes, select, n, k);
      depth := Owners(nodes, select, next, c, k);
      UnderChild(nodes, n, c, select[k].owner, depth);
      depth := depth + 1;
    }
  }

  /** The node an expression was written for has it among its own columns. */
  lemma {:induction false} WrittenFor(nodes: map<Id, Node>, select: seq<Expr>, next: Id, n: Id, k: nat)
    requires Tree(nodes, select, 0, next, {}) && n in nodes && nodes[n].column <= k < nodes[n].column + nodes[n].count
    ensures k < |select| && var m := select[k].owner; m in nodes && nodes[m].column <= k < End(nodes, m)
    decreases next - n
  {
    hide Local, Under;
    assert Local(nodes, select, 0, n);
    if k < nodes[n].column + |nodes[n].items| {
      OwnColumn(nodes, select, n, k);
    } else {
      var c := BelowAt(nodes, select, n, k);
      WrittenFor(nodes, select, next, c, k);
    }
  }

  lemma ChildFacts(nodes: map<Id, Node>, select: seq<Expr>, next: Id, n: Id, m: nat)
    requires Tree(nodes, select, 0, next, {}) && n in nodes && m < |nodes[n].children|
    ensures nodes[n].children[m] in nodes && nodes[nodes[n].children[m]].count >= 0
    ensures m > 0 ==> nodes[n].children[m - 1] in nodes
    ensures nodes[nodes[n].children[m]].column == if m == 0 then nodes[n].column + |nodes[n].items|
      else End(nodes, nodes[n].children[m - 1])
    ensures m == |nodes[n].children| - 1 ==> End(nodes, nodes[n].children[m]) == End(nodes, n)
  {
    hide Local;
    assert Local(nodes, select, 0, n);
    LaidChild(nodes, select, n, m);
    var c := nodes[n].children[m];
    assert Local(nodes, select, 0, c);
    LaidCount(nodes, select, c);
  }

  lemma LaidChild(nodes: map<Id, Node>, select: seq<Expr>, n: Id, m: nat)
    requires n in nodes && Local(nodes, select, 0, n) && m < |nodes[n].children|
    ensures nodes[n].children[m] in nodes && (m > 0 ==> nodes[n].children[m - 1] in nodes)
    ensures nodes[nodes[n].children[m]].column == if m == 0 then nodes[n].column + |nodes[n].items|
      else End(nodes, nodes[n].children[m - 1])
    ensures m == |nodes[n].children| - 1 ==> End(nodes, nodes[n].children[m]) == End(nodes, n)
  {
    var d := Shifted(nodes[n], 0, n);
    assert d == nodes[n] && InPlace(nodes, d, m);
    if m > 0 {
      assert d.children[m - 1] in nodes;
    }
  }

  lemma LaidCount(nodes: map<Id, Node>, select: seq<Expr>, n: Id)
    requires n in nodes && Local(nodes, select, 0, n)
    ensures nodes[n].count >= 0
  {
  }

  /** The columns of a child are within those of its parent. */
  lemma {:induction false} ChildInside(nodes: map<Id, Node>, select: seq<Expr>, next: Id, n: Id, i: nat, m: nat)
    requires Tree(nodes, select, 0, next, {}) && n in nodes && i <= m < |nodes[n].children|
    ensures nodes[n].children[i] in nodes && nodes[n].children[m] in nodes
    ensures nodes[n].column <= nodes[nodes[n].children[i]].column &&
      End(nodes, nodes[n].children[i]) <= End(nodes, nodes[n].children[m])
    decreases m
  {
    hide Tree;
    ChildFacts(nodes, select, next, n, m);
    if m > 0 {
      ChildFacts(nodes, select, next, n, m - 1);
      ChildInside(nodes, select, next, n, if i < m then i else m - 1, m - 1);
    }
  }

  /** Whatever lies below a node has its columns within those of the node. */
  lemma {:induction false} UnderInside(nodes: map<Id, Node>, select: seq<Expr>, next: Id, n: Id, m: Id, depth: nat)
    requires Tree(nodes, select, 0, next, {}) && n in nodes && Under(nodes, n, m, depth)
    ensures m in nodes && nodes[n].column <= nodes[m].column && End(nodes, m) <= End(nodes, n)
    decreases depth
  {
    hide Tree;
    if depth > 0 {
      var i :| 0 <= i < |nodes[n].children| && Under(nodes, nodes[n].children[i], m, depth - 1);
      ChildInside(nodes, select, next, n, i, |nodes[n].children| - 1);
      ChildFacts(nodes, select, next, n, |nodes[n].children| - 1);
      UnderInside(nodes, select, next, nodes[n].children[i], m, depth - 1);
    }
  }

  /** An expression is in the columns of a node exactly if it was written for the node or one below it. */
  lemma ColumnsAre(nodes: map<Id, Node>, select: seq<Expr>, next: Id, n: Id, k: nat)
    requires Tree(nodes, select, 0, next, {}) && n in nodes && k < |select|
    requires 0 in nodes && nodes[0].column == 0 && nodes[0].count == |select|
    ensures nodes[n].column <= k < End(nodes, n) <==> exists depth :: Under(nodes, n, select[k].owner, depth)
  {
    hide Tree, Under;
    if nodes[n].column <= k < End(nodes, n) {
      var depth := Owners(nodes, select, next, n, k);
    }
    if depth :| Under(nodes, n, select[k].owner, depth) {
      UnderInside(nodes, select, next, n, select[k].owner, depth);
      WrittenFor(nodes, select, next, 0, k);
    }
  }

  lemma OwnColumn(nodes: map<Id, Node>, select: seq<Expr>, n: Id, k: nat)
    requires n in nodes && Local(nodes, select, 0, n) && nodes[n].column <= k < nodes[n].column + |nodes[n].items|
    ensures k < |select| && Under(nodes, n, select[k].owner, 0)
  {
    assert select[nodes[n].column + (k - nodes[n].column)] == Expr(n, nodes[n].items[k - nodes[n].column]);
  }

  lemma BelowAt(nodes: map<Id, Node>, select: seq<Expr>, n: Id, k: nat) returns (c: Id)
    requires n in nodes && Local(nodes, select, 0, n) &&
      nodes[n].column + |nodes[n].items| <= k < nodes[n].column + nodes[n].count
    ensures c in nodes && n < c && c in nodes[n].children && nodes[c].column <= k < nodes[c].column + nodes[c].count
  {
    var i := Child(nodes, select, n, k, |nodes[n].children|);
    c := nodes[n].children[i];
  }

  lemma UnderChild(nodes: map<Id, Node>, m: Id, c: Id, n: Id, depth: nat)
    requires m in nodes && c in nodes[m].children && Under(nodes, c, n, depth)
    ensures Under(nodes, m, n, depth + 1)
  {
    var i :| 0 <= i < |nodes[m].children| && nodes[m].children[i] == c;
  }

  /** The child whose columns hold position k. */
  lemma {:induction false} Child(nodes: map<Id, Node>, select: seq<Expr>, n: Id, k: nat, m: nat) returns (i: nat)
    requires n in nodes && Local(nodes, select, 0, n) && 0 < m <= |nodes[n].children| &&
      nodes[n].column + |nodes[n].items| <= k
    requires k < End(nodes, nodes[n].children[m - 1])
    ensures i < |nodes[n].children| && nodes[nodes[n].children[i]].column <= k < End(nodes, nodes[n].children[i])
  {
    var d := nodes[n];
    assert InPlace(nodes, d, m - 1);
    if nodes[d.children[m - 1]].column <= k {
      i := m - 1;
    } else {
      i := Child(nodes, select, n, k, m - 1);
    }
  }

  /**
   New_QBE_Context: an accepted specification gives a tree in which every node's column is the place
   of its own expression in the select list and its count that of its whole subtree, and a query whose
   placeholders stand for the pushed values in order.
   */
  method Translate(schema: Schema, existsOnly: bool, all: bool, deleted: bool, oidOnly: bool, cname: string,
      specs: Specs)
    returns (ok: bool, q: Context, sql: Sql, text: string)
    ensures fresh(q) && q.schema == schema && q.oidOnly == (oidOnly || existsOnly)
    ensures ok <==> schema.isClass(cname) && Accepts(schema, cname, specs)
    ensures ok ==>
      Tree(q.nodes, q.select, 0, q.next, {}) && 0 in q.nodes && q.nodes[0].column == 0 && q.nodes[0].count == |q.select|
    ensures ok ==> Mirrors(schema, q.oidOnly, q.nodes, 0, cname, specs) && NamesApart(q.nodes)
    ensures ok ==>
      sql == Combine(q.select, q.from_, q.where_) && Holes(sql) == q.pushList == AllValues(schema, cname, specs)
    ensures ok ==> forall db: Db, o: Obj :: Finds(db, sql, o) <==>
      Wanted(db, o, cname, all, deleted) && Meets(db, schema, Ref(o), cname, specs)
    ensures ok ==> text == if existsOnly then "select 1 from class unameit_item where exists(" + SqlText(sql) + ")"
      else SqlText(sql)
  {
    hide Local, Tree, At, Grown, HolesIn, Accepts, Mirrors, Values, Selectors, NamesApart, Pushed, Context.Spoken,
      Closed,
      Means, Between, Finds, Wanted, Meets;
    q := Begin(schema, all, deleted, oidOnly || existsOnly, cname);
    ok, sql, text := false, Sql([], [], []), "";
    if !schema.isClass(cname) {
      return;
    }
    ghost var where1, was := q.where_, q.Snap();
    ok := q.ConstructQuery(0, Var(0), cname, specs, {});
    if ok {
      PushedTwice([], where1, q.where_, [], [], q.pushList);
      RootKept(q, was);
      q.NestedHoles([]);
      sql := Combine(q.select, q.from_, q.where_);
      forall db: Db, o: Obj
        ensures Finds(db, sql, o) <==> Wanted(db, o, cname, all, deleted) && Meets(db, schema, Ref(o), cname, specs)
      {
        Found(q, was, cname, all, deleted, specs, db, o);
      }
      text := SqlText(sql);
      if existsOnly {
        text := "select 1 from class unameit_item where exists(" + text + ")";
      }
      AllApart(q.nodes, q.counter);
    }
  }

  /** The context of a query before its specification is looked at. */
  method Begin(schema: Schema, all: bool, deleted: bool, oidOnly: bool, cname: string) returns (q: Context)
    ensures fresh(q) && q.schema == schema && q.oidOnly == oidOnly && q.skew == 0 && q.pushList == []
    ensures q.Ready({}) && At(q.nodes, q.select, 0, {}, 0) && 0 in q.nodes && Pushed([], q.where_, [], [])
    ensures q.nodes[0].children == [] && q.nodes[0].column == 0 && q.nodes[0].path == Var(0)
    ensures q.counter == 1 && Combine(q.select, q.from_, q.where_) == Beginning(oidOnly, cname, all, deleted)
  {
    var items := [Plain(Var(0))] + if oidOnly then [] else [Uuid(Var(0))];
    var from_ := [Phrase(" from ", ClassSource(cname, all, 0))];
    FirstSource(cname, all);
    q := new Context(schema, oidOnly, if oidOnly then 1 else 2, items, 0, from_, 1, [], 0);
    assert Items(q.select) == items;
    hide Local, Tree, At, HolesIn, Selectors, Pushed, Context.Spoken;
    q.NothingPushed([], []);
    if !deleted {
      q.TwoHoles(Field(Dot(Var(0), "deleted")), Text(" IS NULL"));
      q.TextConstraint([Field(Dot(Var(0), "deleted")), Text(" IS NULL")]);
    }
  }

  /** The query before its specification is looked at. */
  function Beginning(oidOnly: bool, cname: string, all: bool, deleted: bool): Sql {
    Sql([Plain(Var(0))] + (if oidOnly then [] else [Uuid(Var(0))]), [Phrase(" from ", ClassSource(cname, all, 0))],
      if deleted then [] else [Phrase(" where ", [Field(Dot(Var(0), "deleted")), Text(" IS NULL")])])
  }

  /** The query finds an item: it has a row with the item for its first variable. */
  ghost predicate Finds(db: Db, q: Sql, o: Obj) {
    Formed(q) && exists env: Env :: ValueOf(env, 0) == Ref(o) && Fits(db, env, q)
  }

  /** An item of the class, not deleted unless deleted ones are asked for too. */
  predicate Wanted(db: Db, o: Obj, cname: string, all: bool, deleted: bool) {
    InClass(db, Ref(o), cname, all) && (deleted || db.value(o, "deleted") == Null)
  }

  /** The query finds exactly the wanted items that meet the specification. */
  lemma Found(q: Context, was: Snapshot, cname: string, all: bool, deleted: bool, specs: Specs, db: Db, o: Obj)
    requires Combine(was.select, was.from_, was.where_) == Beginning(q.oidOnly, cname, all, deleted)
    requires Extends(was, q.Snap()) && q.Spoken() && was.counter == 1
    requires Means(q.schema, Between(was, q.Snap()), Var(0), cname, specs)
    requires Closed(Between(was, q.Snap()), 0, 1, q.counter)
    ensures Finds(db, Combine(q.select, q.from_, q.where_), o) <==>
      Wanted(db, o, cname, all, deleted) && Meets(db, q.schema, Ref(o), cname, specs)
  {
    hide Meets, Mentions, Declared, Fits, Wanted, Beginning, Combine, Plus;
    var f, h := Between(was, q.Snap()), Beginning(q.oidOnly, cname, all, deleted);
    var sql := Combine(q.select, q.from_, q.where_);
    CombineBetween(was, q.Snap());
    FormedContext(q, was, q.oidOnly, cname, all, deleted);
    if Finds(db, sql, o) {
      var e: Env :| ValueOf(e, 0) == Ref(o) && Fits(db, e, sql);
      FitsPlus(db, e, h, f);
      BeginningFits(db, e, q.oidOnly, cname, all, deleted, o);
      assert Varies(e, e, Declared(f)) && Selects(db, e, f) && Eval(db, e, Var(0)) == Ref(o);
    }
    if Wanted(db, o, cname, all, deleted) && Meets(db, q.schema, Ref(o), cname, specs) {
      var env: Env := map[0 := Ref(o)];
      assert Eval(db, env, Var(0)) == Ref(o) && Selects(db, env, f);
      var e := RowOf(db, env, f);
      assert ValueOf(e, 0) == Ref(o);
      BeginningFits(db, e, q.oidOnly, cname, all, deleted, o);
      FitsPlus(db, e, h, f);
    }
  }

  lemma FormedContext(q: Context, was: Snapshot, oidOnly: bool, cname: string, all: bool, deleted: bool)
    requires Combine(was.select, was.from_, was.where_) == Beginning(oidOnly, cname, all, deleted)
    requires Extends(was, q.Snap()) && q.Spoken()
    ensures Formed(Combine(q.select, q.from_, q.where_))
  {
    var h := Beginning(oidOnly, cname, all, deleted);
    assert h.select[0] == Plain(Var(0)) && Items(was.select) == h.select && |Items(was.select)| == |was.select|;
  }

  lemma BeginningFits(db: Db, e: Env, oidOnly: bool, cname: string, all: bool, deleted: bool, o: Obj)
    requires ValueOf(e, 0) == Ref(o)
    ensures Fits(db, e, Beginning(oidOnly, cname, all, deleted)) <==> Wanted(db, o, cname, all, deleted)
  {
    hide InClass, Holds;
    var h := Beginning(oidOnly, cname, all, deleted);
    assert Ranges(db, e, h.from_[0].ts) <==> InClass(db, Ref(o), cname, all);
    if !deleted {
      NullHolds(db, e, Dot(Var(0), "deleted"), " IS NULL");
      assert Eval(db, e, Dot(Var(0), "deleted")) == db.value(o, "deleted");
      assert h.where_[0].ts == [Field(Dot(Var(0), "deleted")), Text(" IS NULL")];
    }
    forall i | 0 <= i < |h.select|
      ensures Binds(db, e, h.select[i])
    {
    }
  }

  lemma FirstSource(c: string, all: bool)
    ensures HolesIn([Phrase(" from ", ClassSource(c, all, 0))]) == []
  {
    var ts := ClassSource(c, all, 0);
    HolesNext([], ts[0]);
    HolesNext([ts[0]], ts[1]);
    HolesNext([ts[0], ts[1]], ts[2]);
    HolesNext([ts[0], ts[1], ts[2]], ts[3]);
    assert [] + [ts[0]] == [ts[0]] && [ts[0]] + [ts[1]] == [ts[0], ts[1]];
    assert [ts[0], ts[1]] + [ts[2]] == [ts[0], ts[1], ts[2]] && [ts[0], ts[1], ts[2]] + [ts[3]] == ts;
    HolesMore([], Phrase(" from ", ts));
    assert [] + [Phrase(" from ", ts)] == [Phrase(" from ", ts)];
  }

  lemma AllApart(nodes: map<Id, Node>, counter: nat)
    requires Selectors(nodes, counter)
    ensures NamesApart(nodes)
  {
    forall m, n | m in nodes && n in nodes && m != n && nodes[m].selector.Some? && nodes[n].selector.Some?
      ensures Variable(nodes[m].selector.value) != Variable(nodes[n].selector.value)
    {
      NamesDiffer(nodes, counter, m, n);
    }
  }

  /** In a sub-query's tree the expressions of a node are `off` places before its column. */
  lemma PlaceOff(q: Context, off: int, n: Id, i: nat)
    requires OneOff(q, off) && n in q.nodes && n != 0 && i < |q.nodes[n].items|
    ensures 0 <= q.nodes[n].column - off + i < |q.select| &&
      q.select[q.nodes[n].column - off + i] == Expr(n, q.nodes[n].items[i])
  {
    hide Local;
    assert Local(q.nodes, q.select, off, n);
    LaidPlace(q.nodes, q.select, off, n, i);
  }

  lemma LaidPlace(nodes: map<Id, Node>, select: seq<Expr>, off: int, n: Id, i: nat)
    requires n in nodes && n != 0 && Local(nodes, select, off, n) && i < |nodes[n].items|
    ensures 0 <= nodes[n].column - off + i < |select| && select[nodes[n].column - off + i] == Expr(n, nodes[n].items[i])
  {
    assert OwnPart(select, nodes[n].column - off, n, nodes[n].items);
  }

  /**
   A sub-query about one restricted attribute: the root's count and the attribute's column, against the
   number of expressions and the place of the attribute's own one.
   */
  method NestedCounts(needSelector: bool) returns (count: int, exprs: nat, column: int, place: nat)
    ensures if needSelector then count == 2 && exprs == 3 && column == 1 && place == 2
      else count == 3 && exprs == 2 && column == 2 && place == 1
  {
    var schema := Schema((c, a) => if c == "c" && a == "a" then Some(Scalar(ObjectElem("d")))
      else None, _ => [], _ => true, (_, _) => true, (_, _) => None);
    var specs := Each([Spec("a", Qbe(false, "d", Each([])))]);
    var from_ := [Phrase(" from ", ClassSource("b", false, 0))];
    FirstSource("b", false);
    var q := new Context(schema, true, 1, [Plain(Var(0))], 0, from_, 1, [], 0);
    ExampleAccepted(schema, specs);
    hide Accepts, Mirrors, HolesIn, Tree;
    var ok, text, sub := q.Nested(Dot(Var(0), "s"), false, if needSelector then "c" else "", "c", specs);
    var off := if needSelector then -1 else 1;
    ExampleLaid(sub, off, schema, specs);
    count, exprs := sub.nodes[0].count, |sub.select|;
    column, place := sub.nodes[sub.nodes[0].children[0]].column, sub.nodes[sub.nodes[0].children[0]].column - off;
  }

  ghost predicate Example(schema: Schema, specs: Specs) {
    && specs == Each([Spec("a", Qbe(false, "d", Each([])))])
    && schema.domain("c", "a") == Some(Scalar(ObjectElem("d"))) && schema.isClass("d") && schema.isa("d", "d")
  }

  lemma ExampleAccepted(schema: Schema, specs: Specs)
    requires Example(schema, specs)
    ensures Accepts(schema, "c", specs)
  {
    var list := specs.specs;
    assert list[..0] == [];
    assert Accepts(schema, "d", Each([]));
    assert AcceptsAfter(schema, "c", [], list[0]);
  }

  lemma ExampleLaid(q: Context, off: int, schema: Schema, specs: Specs)
    requires Example(schema, specs) && OneOff(q, off) && Mirrors(schema, true, q.nodes, 0, "c", specs) &&
      |q.nodes[0].items| == (if off == 1 then 1 else 2)
    requires off == 1 || off == -1
    ensures |q.nodes[0].children| == 1 && var c := q.nodes[0].children[0];
      && c in q.nodes && q.nodes[c].column == off + |q.nodes[0].items| &&
        q.nodes[0].count == off + |q.nodes[0].items| + 1
      && |q.select| == |q.nodes[0].items| + 1 && q.select[q.nodes[c].column - off].owner == c
  {
    hide Mirrors, Tree;
    var c := ExampleChild(q.nodes, schema, specs);
    ExampleColumns(q, off, c);
  }

  lemma ExampleChild(nodes: map<Id, Node>, schema: Schema, specs: Specs) returns (c: Id)
    requires Example(schema, specs) && Mirrors(schema, true, nodes, 0, "c", specs)
    ensures 0 in nodes && nodes[0].children == [c] && c in nodes && c > 0 && nodes[c].children == [] &&
      |nodes[c].items| == 1
  {
    hide Labels, Mirrors;
    var spec := specs.specs[0];
    ExampleParts(nodes, schema, specs);
    assert ChildAt(true, nodes, 0, 0, [Label("a", QbeNode, true)][0]);
    c := nodes[0].children[0];
    assert Inner(schema, "c", spec) && SubClass(schema, "c", spec) == "d";
    var d :| d in nodes[0].children && d in nodes && Mirrors(schema, true, nodes, d, "d", Each([]));
    NoSpecs(nodes, schema, d);
  }

  lemma ExampleParts(nodes: map<Id, Node>, schema: Schema, specs: Specs)
    requires Example(schema, specs) && Mirrors(schema, true, nodes, 0, "c", specs)
    ensures Children(true, nodes, 0, [Label("a", QbeNode, true)])
    ensures MirrorsBelow(schema, true, nodes, 0, "c", specs.specs[0])
  {
    ExampleLabels(schema, specs);
    hide Labels, MirrorsBelow, Children;
  }

  lemma NoSpecs(nodes: map<Id, Node>, schema: Schema, n: Id)
    requires Mirrors(schema, true, nodes, n, "d", Each([]))
    ensures n in nodes && nodes[n].children == []
  {
    assert Labels(schema, "d", []) == [];
  }

  lemma ExampleLabels(schema: Schema, specs: Specs)
    requires Example(schema, specs)
    ensures Labels(schema, "c", Named(schema, "c", specs)) == [Label("a", QbeNode, true)]
  {
    var list := specs.specs;
    assert list[..0] == [] && Labels(schema, "c", []) == [];
  }

  lemma ExampleColumns(q: Context, off: int, c: Id)
    requires OneOff(q, off) && q.nodes[0].children == [c] && c in q.nodes && c != 0 && q.nodes[c].children == [] &&
      |q.nodes[c].items| == 1
    ensures q.nodes[c].column == off + |q.nodes[0].items| && q.nodes[0].count == off + |q.nodes[0].items| + 1
    ensures |q.select| == |q.nodes[0].items| + 1 && q.select[q.nodes[c].column - off].owner == c
  {
    PlaceOff(q, off, c, 0);
    assert Local(q.nodes, q.select, off, 0) && Local(q.nodes, q.select, off, c);
    assert InPlace(q.nodes, Shifted(q.nodes[0], off, 0), 0);
  }

  lemma RootKept(q: Context, was: Snapshot)
    requires At(q.nodes, q.select, q.skew, {}, 0) && Grown(was.nodes, q.nodes, 0, was.next) && 0 in was.nodes &&
      was.nodes[0].column == 0
    ensures q.nodes[0].column == 0 && q.nodes[0].count == |q.select| + q.skew && q.nodes[0].items == was.nodes[0].items
  {
  }
}
