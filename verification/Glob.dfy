/**
 The translation of a glob into an SQL LIKE pattern with escape backslash (Push_Glob in libudb/qbe.c).
 */
module Glob {
  import opened Basics

  /** Does the glob match? A star stands for any string, a question mark for one character, and a
      backslash takes the next character literally; a trailing one stands for itself. */
  predicate GlobMatch(g: string, s: string)
    decreases |g|, |s|
  {
    if g == "" then s == ""
    else if g[0] == '*' then GlobMatch(g[1..], s) || (s != "" && GlobMatch(g, s[1..]))
    else if g[0] == '?' then s != "" && GlobMatch(g[1..], s[1..])
    else if g[0] == '\\' then
      if |g| == 1 then s == "\\" else s != "" && s[0] == g[1] && GlobMatch(g[2..], s[1..])
    else s != "" && s[0] == g[0] && GlobMatch(g[1..], s[1..])
  }

  // LIKE, as subclause 8.5 of ISO/IEC 9075:1992 has it: the pattern is a sequence of substring
  // specifiers, and a string matches if it can be cut into one piece for each.

  datatype Specifier = Any | One | Exactly(c: char)

  /** The specifiers of a pattern, if every escape is legal. */
  function Specifiers(p: string): Option<seq<Specifier>> {
    if p == "" then Some([])
    else if p[0] == '\\' then
      if |p| >= 2 && (p[1] == '%' || p[1] == '_' || p[1] == '\\') then Prepend(Exactly(p[1]), Specifiers(p[2..]))
        else None
    else if p[0] == '%' then Prepend(Any, Specifiers(p[1..]))
    else if p[0] == '_' then Prepend(One, Specifiers(p[1..]))
    else Prepend(Exactly(p[0]), Specifiers(p[1..]))
  }

  function Prepend(x: Specifier, xs: Option<seq<Specifier>>): Option<seq<Specifier>> {
    if xs.Some? then Some([x] + xs.value) else None
  }

  predicate Fits(x: Specifier, piece: string) {
    match x case Any => true case One => |piece| == 1 case Exactly(c) => piece == [c]
  }

  /** The string cut into one piece for each specifier. */
  ghost predicate Cut(xs: seq<Specifier>, s: string, pieces: seq<string>) {
    |pieces| == |xs| && Join(pieces) == s && forall i :: 0 <= i < |xs| ==> Fits(xs[i], pieces[i])
  }

  function Join(pieces: seq<string>): string {
    if pieces == [] then "" else pieces[0] + Join(pieces[1..])
  }

  ghost predicate Cuts(xs: seq<Specifier>, s: string) {
    exists pieces :: Cut(xs, s, pieces)
  }

  ghost predicate Like(p: string, s: string) {
    Specifiers(p).Some? && Cuts(Specifiers(p).value, s)
  }

  // The glob's own specifiers.

  function GlobSpecifiers(g: string): seq<Specifier> {
    if g == "" then []
    else if g[0] == '*' then [Any] + GlobSpecifiers(g[1..])
    else if g[0] == '?' then [One] + GlobSpecifiers(g[1..])
    else if g[0] == '\\' then
      if |g| == 1 then [Exactly('\\')] else [Exactly(g[1])] + GlobSpecifiers(g[2..])
    else [Exactly(g[0])] + GlobSpecifiers(g[1..])
  }

  lemma {:induction false} GlobCuts(g: string, s: string)
    ensures GlobMatch(g, s) <==> Cuts(GlobSpecifiers(g), s)
    decreases |g|, |s|
  {
    if g == "" {
      assert s == "" ==> Cut([], s, []);
      assert GlobSpecifiers(g) == [];
      forall pieces | Cut([], s, pieces)
        ensures s == ""
      {
        assert pieces == [];
      }
    } else {
      var rest := if g[0] == '\\' && |g| > 1 then g[2..] else g[1..];
      var x := GlobSpecifiers(g)[0];
      assert GlobSpecifiers(g) == [x] + GlobSpecifiers(rest);
      if x == Any {
        GlobCuts(rest, s);
        if s != "" { GlobCuts(g, s[1..]); }
        AnyCut(GlobSpecifiers(rest), s);
      } else {
        if s != "" { GlobCuts(rest, s[1..]); }
        OneCut(x, GlobSpecifiers(rest), s);
      }
    }
  }

  /** A star either stops here, or takes one more character. */
  lemma AnyCut(xs: seq<Specifier>, s: string)
    ensures Cuts([Any] + xs, s) <==> Cuts(xs, s) || (s != "" && Cuts([Any] + xs, s[1..]))
  {
    if pieces :| Cut(xs, s, pieces) {
      CutFront(Any, xs, "", s, pieces);
    }
    if s != "" {
      if pieces :| Cut([Any] + xs, s[1..], pieces) {
        CutRest(Any, xs, s[1..], pieces);
        CutFront(Any, xs, s[..1] + pieces[0], s, pieces[1..]);
      }
    }
    if pieces :| Cut([Any] + xs, s, pieces) {
      CutRest(Any, xs, s, pieces);
      if pieces[0] == "" {
        assert Cut(xs, s, pieces[1..]);
      } else {
        CutFront(Any, xs, pieces[0][1..], s[1..], pieces[1..]);
      }
    }
  }

  /** Any other specifier takes exactly one character. */
  lemma OneCut(x: Specifier, xs: seq<Specifier>, s: string)
    requires x != Any
    ensures Cuts([x] + xs, s) <==> s != "" && Fits(x, s[..1]) && Cuts(xs, s[1..])
  {
    if s != "" && Fits(x, s[..1]) {
      if pieces :| Cut(xs, s[1..], pieces) {
        CutFront(x, xs, s[..1], s, pieces);
      }
    }
    if pieces :| Cut([x] + xs, s, pieces) {
      CutRest(x, xs, s, pieces);
      assert pieces[0] == s[..1] && s[1..] == Join(pieces[1..]);
    }
  }

  lemma CutFront(x: Specifier, xs: seq<Specifier>, piece: string, s: string, pieces: seq<string>)
    requires Fits(x, piece) && |piece| <= |s| && s[..|piece|] == piece && Cut(xs, s[|piece|..], pieces)
    ensures Cut([x] + xs, s, [piece] + pieces)
  {
    assert ([piece] + pieces)[1..] == pieces;
  }

  lemma CutRest(x: Specifier, xs: seq<Specifier>, s: string, pieces: seq<string>)
    requires Cut([x] + xs, s, pieces)
    ensures |pieces| > 0 && Fits(x, pieces[0]) && |pieces[0]| <= |s| && s[..|pieces[0]|] == pieces[0] &&
      Cut(xs, s[|pieces[0]|..], pieces[1..])
  {
    assert ([x] + xs)[0] == x;
    forall i | 0 <= i < |xs|
      ensures Fits(xs[i], pieces[1..][i])
    {
      assert ([x] + xs)[i + 1] == xs[i];
    }
  }

  // The pattern that says the same.

  /** A specifier as it is written in a pattern. */
  function Spell(x: Specifier): string {
    match x
    case Any => "%"
    case One => "_"
    case Exactly(c) => if c == '%' || c == '_' || c == '\\' then ['\\', c] else [c]
  }

  function Spelled(xs: seq<Specifier>): string {
    if xs == [] then "" else Spell(xs[0]) + Spelled(xs[1..])
  }

  /** The pattern of a glob. */
  function Pattern(g: string): string {
    Spelled(GlobSpecifiers(g))
  }

  /** Every sequence of specifiers is read back from its spelling. */
  lemma {:induction false} SpelledBack(xs: seq<Specifier>)
    ensures Specifiers(Spelled(xs)) == Some(xs)
  {
    if xs != [] {
      SpelledBack(xs[1..]);
      ReadFirst(xs[0], Spelled(xs[1..]));
      hide Specifiers, Spell;
      assert xs == [xs[0]] + xs[1..];
    }
  }

  lemma {:induction false} ReadFirst(x: Specifier, q: string)
    ensures Specifiers(Spell(x) + q) == Prepend(x, Specifiers(q))
  {
    var p := Spell(x) + q;
    if |Spell(x)| == 1 {
      assert p[0] == Spell(x)[0] && p[1..] == q;
    } else {
      assert p[0] == '\\' && p[1] == Spell(x)[1] && p[2..] == q;
    }
  }

  /** The pattern is legal, and LIKE means by it what the glob means. */
  lemma PatternMeans(g: string, s: string)
    ensures Specifiers(Pattern(g)).Some? && (GlobMatch(g, s) <==> Like(Pattern(g), s))
  {
    hide Cuts;
    SpelledBack(GlobSpecifiers(g));
    GlobCuts(g, s);
  }

  /** What is left of the glob when the loop stands at i. */
  function Pending(g: string, i: nat, backslashed: bool): string
    requires i <= |g| && (backslashed ==> i > 0)
  {
    if backslashed then g[i - 1..] else g[i..]
  }

  /** Push_Glob: the pattern is legal, and LIKE means by it what the glob means. */
  method PushGlob(g: string) returns (p: string)
    ensures p == Pattern(g) && Specifiers(p).Some?
    ensures forall s :: GlobMatch(g, s) <==> Like(p, s)
  {
    hide Specifiers, Pattern, Pending, GlobMatch, Like;
    p := "";
    var i, backslashed := 0, false;
    FirstTurn(g);
    while i < |g|
      invariant 0 <= i <= |g| && (backslashed ==> i > 0 && g[i - 1] == '\\')
      invariant Pattern(g) == p + Pattern(Pending(g, i, backslashed))
    {
      var out := "";
      ghost var was := backslashed;
      match g[i] {
        case '_' =>
          out := "\\_";
          backslashed := false;
        case '*' =>
          out := if backslashed then "*" else "%";
          backslashed := false;
        case '%' =>
          out := "\\%";
          backslashed := false;
        case '?' =>
          out := if backslashed then "?" else "_";
          backslashed := false;
        case '\\' =>
          if backslashed {
            out := "\\\\";
          }
          backslashed := !backslashed;
        case _ =>
          out := [g[i]];
          backslashed := false;
      }
      Turn(g, i, was, out, backslashed);
      p := p + out;
      i := i + 1;
    }
    LastTurn(g, backslashed);
    if backslashed {
      p := p + "\\\\";
    } else {
      assert p + "" == p;
    }
    assert p == Pattern(g);
    forall s
      ensures Specifiers(p).Some? && (GlobMatch(g, s) <==> Like(p, s))
    {
      PatternMeans(g, s);
    }
    PatternMeans(g, "");
  }

  lemma FirstTurn(g: string)
    ensures Pattern(g) == "" + Pattern(Pending(g, 0, false))
  {
    assert g[0..] == g;
  }

  /** One turn of the loop writes the specifier it has read, if it has read one. */
  lemma Turn(g: string, i: nat, backslashed: bool, out: string, backslashed': bool)
    requires i < |g| && (backslashed ==> i > 0 && g[i - 1] == '\\')
    requires backslashed' == (g[i] == '\\' && !backslashed)
    requires out ==
      if g[i] == '_' then "\\_" else if g[i] == '%' then "\\%"
      else if g[i] == '*' then (if backslashed then "*" else "%")
      else if g[i] == '?' then (if backslashed then "?" else "_")
      else if g[i] == '\\' then (if backslashed then "\\\\" else "")
      else [g[i]]
    ensures Pattern(Pending(g, i, backslashed)) == out + Pattern(Pending(g, i + 1, backslashed'))
  {
    var h := Pending(g, i, backslashed);
    assert g[i..][1..] == g[i + 1..] && (backslashed ==> g[i - 1..][2..] == g[i + 1..]);
    if !backslashed' {
      var rest := Pending(g, i + 1, false);
      var x := GlobSpecifiers(h)[0];
      assert GlobSpecifiers(h) == [x] + GlobSpecifiers(rest);
      assert out == Spell(x);
    }
  }

  /** A backslash at the end stands for itself. */
  lemma LastTurn(g: string, backslashed: bool)
    requires backslashed ==> |g| > 0 && g[|g| - 1] == '\\'
    ensures Pattern(Pending(g, |g|, backslashed)) == if backslashed then "\\\\" else ""
  {
    if backslashed {
      assert g[|g| - 1..] == "\\" && GlobSpecifiers("\\") == [Exactly('\\')];
      assert Spelled([Exactly('\\')]) == Spell(Exactly('\\')) + Spelled([]);
    } else {
      assert g[|g|..] == "";
    }
  }
}
