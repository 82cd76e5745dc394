/**
 The depth-first loop search of libudb/relation.c. A table of verified objects is kept across
 searches; a search that comes back to an object on its path reports the loop it closes.
 */
module LoopCheck {
  import opened Basics

  type Obj = nat

  /** Pointer values of one attribute; an object without a value is not in the map. */
  type Graph = map<Obj, seq<Obj>>

  predicate Edge(g: Graph, a: Obj, b: Obj) {
    a in g && b in g[a]
  }

  ghost predicate Walk(g: Graph, p: seq<Obj>) {
    p != [] && forall i :: 0 < i < |p| ==> Edge(g, p[i - 1], p[i])
  }

  ghost predicate NoDup(s: seq<Obj>) {
    forall i, j :: 0 <= i < j < |s| ==> s[i] != s[j]
  }

  /** A simple cycle: distinct objects, each pointing at the next and the last at the first. */
  ghost predicate Cycle(g: Graph, c: seq<Obj>) {
    Walk(g, c) && NoDup(c) && Edge(g, c[|c| - 1], c[0])
  }

  /** A loop can be reached: a walk from here that comes back to an object it has been at. */
  ghost predicate LoopsFrom(g: Graph, x: Obj) {
    exists p: seq<Obj>, j: nat :: Walk(g, p) && p[0] == x && j < |p| - 1 && p[j] == p[|p| - 1]
  }

  /** The objects verified so far, each after everything it points at. */
  ghost predicate Ordered(g: Graph, order: seq<Obj>) {
    forall i, b :: 0 <= i < |order| && Edge(g, order[i], b) ==> b in order[..i]
  }

  /** All objects a search can meet. */
  ghost predicate Closed(g: Graph, all: set<Obj>) {
    forall a, b :: Edge(g, a, b) ==> b in all
  }

  function Reverse(s: seq<Obj>): (r: seq<Obj>)
    ensures |r| == |s|
  {
    if s == [] then [] else [s[|s| - 1]] + Reverse(s[..|s| - 1])
  }

  /** The list reported for a cycle: its first object, then the others from the last one back. */
  function Report(c: seq<Obj>): seq<Obj>
    requires c != []
  {
    [c[0]] + Reverse(c[1..])
  }

  /** Reading the report backwards, and starting from its head, is the cycle again. */
  lemma {:induction false} ReverseTwice(s: seq<Obj>)
    ensures Reverse(Reverse(s)) == s
  {
    if s != [] {
      var t, last := s[..|s| - 1], s[|s| - 1];
      ReverseTwice(t);
      ReverseFront(last, Reverse(t));
    }
  }

  lemma {:induction false} ReverseFront(x: Obj, s: seq<Obj>)
    ensures Reverse([x] + s) == Reverse(s) + [x]
  {
    if s == [] {
      assert [x] + s == [x];
      assert Reverse([x]) == [x] + Reverse([]) == [x];
    } else {
      var t := s[..|s| - 1];
      ReverseFront(x, t);
      assert ([x] + s)[..|s|] == [x] + t;
    }
  }

  lemma ReportTwice(c: seq<Obj>)
    requires c != []
    ensures Report(Report(c)) == c
  {
    ReverseTwice(c[1..]);
    assert Report(c)[1..] == Reverse(c[1..]);
  }

  /** From a verified object every walk goes down the order, so no walk repeats an object. */
  lemma {:induction false} DownHill(g: Graph, order: seq<Obj>, p: seq<Obj>, k: nat)
    requires Ordered(g, order) && Walk(g, p) && k < |order| && order[k] == p[0]
    ensures forall j :: 0 < j < |p| ==> p[j] in order[..k]
    decreases |p|
  {
    if |p| > 1 {
      assert Edge(g, order[k], p[1]);
      var m :| 0 <= m < k && order[m] == p[1];
      var q := p[1..];
      forall i | 0 < i < |q|
        ensures Edge(g, q[i - 1], q[i])
      {
        assert q[i] == p[i + 1] && q[i - 1] == p[i];
      }
      DownHill(g, order, q, m);
      forall j | 0 < j < |p|
        ensures p[j] in order[..k]
      {
        if j > 1 { assert q[j - 1] == p[j] && p[j] in order[..m]; }
      }
    }
  }

  lemma NoLoopFrom(g: Graph, order: seq<Obj>, x: Obj)
    requires Ordered(g, order) && NoDup(order) && x in order
    ensures !LoopsFrom(g, x)
  {
    if LoopsFrom(g, x) {
      var p: seq<Obj>, j: nat :| Walk(g, p) && p[0] == x && j < |p| - 1 && p[j] == p[|p| - 1];
      var q := p[j..];
      forall i | 0 < i < |q|
        ensures Edge(g, q[i - 1], q[i])
      {
        assert q[i] == p[i + j] && q[i - 1] == p[i + j - 1];
      }
      var k :| 0 <= k < |order| && order[k] == x;
      DownHill(g, order, p, k);
      var m :| 0 <= m < |order| && order[m] == p[j];
      assert q[|q| - 1] == p[|p| - 1];
      DownHill(g, order, q, m);
    }
  }

  ghost predicate Trail(g: Graph, trail: seq<Obj>) {
    Walk(g, trail) && NoDup(trail)
  }

  lemma Longer(g: Graph, trail: seq<Obj>, next: Obj)
    requires Trail(g, trail) && Edge(g, trail[|trail| - 1], next) && next !in trail
    ensures Trail(g, trail + [next])
  {
    var t := trail + [next];
    forall i | 0 < i < |t|
      ensures Edge(g, t[i - 1], t[i])
    {
      if i < |trail| { assert t[i] == trail[i] && t[i - 1] == trail[i - 1]; }
    }
  }

  /** An object all of whose successors are verified may be verified. */
  lemma Verifiable(g: Graph, order: seq<Obj>, x: Obj)
    requires Ordered(g, order) && NoDup(order) && x !in order && forall b :: Edge(g, x, b) ==> b in order
    ensures Ordered(g, order + [x]) && NoDup(order + [x])
    ensures forall y :: y in order + [x] <==> y in order || y == x
  {
    var o := order + [x];
    forall i, b | 0 <= i < |o| && Edge(g, o[i], b)
      ensures b in o[..i]
    {
      assert o[..i] == if i < |order| then order[..i] else order;
    }
  }

  /** What a search that stands at the end of `trail` reports: the path to the loop, and the part of the loop below. */
  ghost predicate Found(g: Graph, trail: seq<Obj>, full: seq<Obj>, j: nat, leaf: Obj, loop: seq<Obj>) {
    && trail != [] && trail <= full && Trail(g, full)
    && j < |full| && leaf == full[j] && Edge(g, full[|full| - 1], full[j])
    && loop == [full[j]] + Reverse(full[if j < |trail| then |trail| else j + 1..])
  }

  lemma FoundHere(g: Graph, trail: seq<Obj>, next: Obj) returns (j: nat)
    requires Trail(g, trail) && Edge(g, trail[|trail| - 1], next) && next in trail
    ensures Found(g, trail, trail, j, next, [next])
  {
    j :| 0 <= j < |trail| && trail[j] == next;
    assert trail[|trail|..] == [];
  }

  /** Unwinding one step: the object is recorded while the loop's first object is still on the path. */
  lemma Unwind(g: Graph, trail: seq<Obj>, next: Obj, full: seq<Obj>, j: nat, leaf: Obj, loop: seq<Obj>)
    requires trail != [] && Found(g, trail + [next], full, j, leaf, loop)
    ensures Found(g, trail, full, j, leaf, if leaf in trail then loop + [next] else loop)
  {
    var n := |trail|;
    assert full[n] == (trail + [next])[n] == next;
    assert trail == full[..n];
    OnTrail(full, n, j);
    hide NoDup, Walk, Edge;
    if j < n {
      assert full[n..] == [next] + full[n + 1..];
      ReverseFront(next, full[n + 1..]);
    }
  }

  lemma OnTrail(full: seq<Obj>, n: nat, j: nat)
    requires NoDup(full) && j < |full| && n <= |full|
    ensures full[j] in full[..n] <==> j < n
  {
  }

  /** A finished search reports one simple cycle, backwards. */
  lemma Finished(g: Graph, x: Obj, full: seq<Obj>, j: nat, leaf: Obj, loop: seq<Obj>) returns (c: seq<Obj>)
    requires Found(g, [x], full, j, leaf, loop)
    ensures c != [] && Cycle(g, c) && loop == Report(c) && LoopsFrom(g, x)
  {
    c := full[j..];
    assert c[0] == full[j] && c[1..] == full[j + 1..] && c[|c| - 1] == full[|full| - 1];
    forall i | 0 < i < |c|
      ensures Edge(g, c[i - 1], c[i])
    {
      assert c[i] == full[i + j] && c[i - 1] == full[i + j - 1];
    }
    assert [x][0] == full[0];
    var p := full + [leaf];
    forall i | 0 < i < |p|
      ensures Edge(g, p[i - 1], p[i])
    {
      if i < |full| { assert p[i] == full[i] && p[i - 1] == full[i - 1]; }
    }
    assert Walk(g, p) && p[0] == x && j < |p| - 1 && p[j] == p[|p| - 1];
  }

  class LoopSearch {
    const graph: Graph
    var verified: set<Obj>
    var path: set<Obj>
    ghost var trail: seq<Obj>
    ghost var order: seq<Obj>

    ghost predicate Ready()
      reads this
    {
      && Ordered(graph, order) && NoDup(order) && (forall x :: x in verified <==> x in order)
      && Trail(graph, trail) && (forall x :: x in path <==> x in trail)
    }

    constructor (graph: Graph)
      ensures this.graph == graph && verified == {} && order == [] && path == {} && trail == []
    {
      this.graph := graph;
      verified, order, path, trail := {}, [], {}, [];
    }

    method Verify(x: Obj)
      requires Ready() && x !in verified && forall b :: Edge(graph, x, b) ==> b in verified
      modifies this`verified, this`order
      ensures Ready() && verified == old(verified) + {x}
    {
      Verifiable(graph, order, x);
      verified := verified + {x};
      order := order + [x];
    }

    /** Collection_Loop_Leaf. */
    method CollectionLoopLeaf(x: Obj, ghost all: set<Obj>)
      returns (leaf: Option<Obj>, loop: seq<Obj>, ghost full: seq<Obj>, ghost j: nat)
      requires trail != [] && trail[|trail| - 1] == x && Ready() && Closed(graph, all)
      modifies this`verified, this`path, this`trail, this`order
      ensures Ready() && trail == old(trail) && path == old(path) && old(verified) <= verified
      ensures leaf == None ==> x in verified && (verified - old(verified)) * path <= {x}
      ensures leaf.Some? ==> Found(graph, trail, full, j, leaf.value, loop)
      decreases all - path
    {
      hide Ordered, NoDup, Trail, Found;
      assert x in trail;
      leaf, loop, full, j := None, [], [], 0;
      if x in verified {
        return;
      }
      if x !in graph {
        Verify(x);
        return;
      }
      var col := graph[x];
      var i := 0;
      while i < |col|
        invariant 0 <= i <= |col| && Ready() && trail == old(trail) && path == old(path) && old(verified) <= verified
        invariant x !in verified && (verified - old(verified)) * path == {}
        invariant leaf == None && forall k :: 0 <= k < i ==> col[k] in verified
      {
        var next := col[i];
        assert Edge(graph, x, next);
        if next in path {
          loop := [next];
          leaf := Some(next);
          full := trail;
          j := FoundHere(graph, trail, next);
          return;
        }
        Longer(graph, trail, next);
        path := path + {next};
        trail := trail + [next];
        assert old(trail) == trail[..|trail| - 1];
        leaf, loop, full, j := CollectionLoopLeaf(next, all);
        path := path - {next};
        trail := trail[..|trail| - 1];
        assert trail == old(trail) && path == old(path);
        if leaf.Some? {
          Unwind(graph, trail, next, full, j, leaf.value, loop);
          if leaf.value in path {
            loop := loop + [next];
          }
          return;
        }
        i := i + 1;
      }
      Verify(x);
    }

    /** Scalar_Loop_Leaf, for attributes that hold at most one object. */
    method ScalarLoopLeaf(x: Obj, ghost all: set<Obj>)
      returns (leaf: Option<Obj>, loop: seq<Obj>, ghost full: seq<Obj>, ghost j: nat)
      requires trail != [] && trail[|trail| - 1] == x && Ready() && Closed(graph, all)
      requires forall y :: y in graph ==> |graph[y]| <= 1
      modifies this`verified, this`path, this`trail, this`order
      ensures Ready() && trail == old(trail) && path == old(path) && old(verified) <= verified
      ensures leaf == None ==> x in verified && (verified - old(verified)) * path <= {x}
      ensures leaf.Some? ==> Found(graph, trail, full, j, leaf.value, loop)
      decreases all - path
    {
      hide Ordered, NoDup, Trail, Found;
      assert x in trail;
      leaf, loop, full, j := None, [], [], 0;
      if x in verified {
        return;
      }
      if x !in graph || graph[x] == [] {
        Verify(x);
        return;
      }
      var next := graph[x][0];
      assert Edge(graph, x, next);
      if next in path {
        loop := [next];
        full := trail;
        j := FoundHere(graph, trail, next);
        return Some(next), loop, full, j;
      }
      Longer(graph, trail, next);
      path := path + {next};
      trail := trail + [next];
      assert old(trail) == trail[..|trail| - 1];
      leaf, loop, full, j := ScalarLoopLeaf(next, all);
      path := path - {next};
      trail := trail[..|trail| - 1];
      assert trail == old(trail) && path == old(path);
      if leaf.Some? {
        Unwind(graph, trail, next, full, j, leaf.value, loop);
        if leaf.value in path {
          loop := loop + [next];
        }
        return;
      }
      Verify(x);
    }

    /** One attribute's part of Udb_Do_Loop_Checks: search from every registered object in turn. */
    method CheckObjects(objects: set<Obj>, scalar: bool) returns (loop: Option<seq<Obj>>)
      requires verified == {} && order == []
      requires scalar ==> forall y :: y in graph ==> |graph[y]| <= 1
      modifies this
      ensures loop == None <==> forall x :: x in objects ==> !LoopsFrom(graph, x)
      ensures loop.Some? ==> exists c :: Cycle(graph, c) && loop.value == Report(c)
    {
      hide LoopsFrom, Found, Cycle, Ordered, Trail;
      ghost var all := Everything();
      Fresh();
      var todo := objects;
      while todo != {}
        invariant todo <= objects && forall x :: x in objects - todo ==> x in verified
        invariant Ordered(graph, order) && NoDup(order) && forall x :: x in verified <==> x in order
        decreases |todo|
      {
        var x :| x in todo;
        path := {x};
        trail := [x];
        assert Trail(graph, trail) by { Alone(x); }
        var leaf, list;
        ghost var full, j;
        if scalar {
          leaf, list, full, j := ScalarLoopLeaf(x, all);
        } else {
          leaf, list, full, j := CollectionLoopLeaf(x, all);
        }
        if leaf.Some? {
          ghost var c := Finished(graph, x, full, j, leaf.value, list);
          assert Cycle(graph, c) && list == Report(c);
          return Some(list);
        }
        todo := todo - {x};
      }
      forall x | x in objects
        ensures !LoopsFrom(graph, x)
      {
        NoLoopFrom(graph, order, x);
      }
      loop := None;
    }

    lemma Alone(x: Obj)
      ensures Trail(graph, [x])
    {
    }

    lemma Fresh()
      ensures Ordered(graph, [])
    {
    }

    lemma Everything() returns (all: set<Obj>)
      ensures Closed(graph, all)
    {
      all := set a, b | a in graph && b in graph[a] :: b;
    }
  }
}
