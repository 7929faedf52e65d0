/** The grammar of route texts: which texts are routes, what a wildcard segment declares, and how unnamed wildcards
    are numbered. */
module PatternGrammar {
  import opened Text
  import opened RouteTree
  import opened Patterns
  import opened PatternProofs
  import opened PathParsing

  // ---------------------------------------------------------------- whole texts

  predicate AllRuns(parts: seq<string>) {
    forall p :: p in parts ==> IsRun(p)
  }

  /** A route is a slash, or runs with a slash before each, with or without a slash behind. */
  lemma RouteGrammar(path: string)
    ensures IsRoute(path) <==>
            path == "/" || exists parts ::
              parts != [] && AllRuns(parts) && (path == Join(parts) || path == Join(parts) + "/")
  {
    if IsRoute(path) && path != "/" {
      RouteIsJoin(path);
      SegmentsAreRuns(path);
      var parts := Segments(path);
      var end := if path[|path| - 1] == '/' then "/" else "";
      JoinNeedsParts(parts, path);
      assert Join(parts) + "" == Join(parts);
      assert AllRuns(parts);
    }
    forall parts | parts != [] && AllRuns(parts) && (path == Join(parts) || path == Join(parts) + "/")
      ensures IsRoute(path)
    {
      JoinIsRoute(parts);
      SlashBehind(Join(parts));
    }
  }

  lemma SlashBehind(path: string)
    requires IsSubRoutePrefix(path)
    ensures IsRoute(path) && IsRoute(path + "/")
  {
    var whole := path + "/";
    assert forall i :: 0 <= i < |path| ==> whole[i] == path[i];
  }

  /** A prefix for sub-routes is the same without a slash behind. */
  lemma PrefixGrammar(path: string)
    ensures IsSubRoutePrefix(path) <==> exists parts :: parts != [] && AllRuns(parts) && path == Join(parts)
  {
    if IsSubRoutePrefix(path) {
      RouteIsJoin(path);
      SegmentsAreRuns(path);
      assert Join(Segments(path)) + "" == Join(Segments(path)) == path;
      JoinNeedsParts(Segments(path), path);
      assert AllRuns(Segments(path));
    }
    forall parts | parts != [] && AllRuns(parts) && path == Join(parts) ensures IsSubRoutePrefix(path) {
      JoinIsRoute(parts);
    }
  }

  // ---------------------------------------------------------------- wildcard segments

  /** `prefix{body}` or `prefix{body:name}`. */
  predicate Spells(part: string, prefix: string, body: string, name: string) {
    && AllUrl(prefix) && AllWord(name)
    && part == prefix + "{" + (if name == "" then body else body + ":" + name) + "}"
  }

  lemma BracesGrammar(part: string, prefix: string, text: string)
    ensures Braces(part) == Some((prefix, text)) <==> AllUrl(prefix) && part == prefix + "{" + text + "}"
  {
    if AllUrl(prefix) && part == prefix + "{" + text + "}" {
      BracesOf(prefix, text);
    }
  }

  lemma NameGrammar(text: string, body: string, name: string)
    requires body <= text
    ensures NameAfter(text, body) == Some(name)
            <==> AllWord(name) && text == if name == "" then body else body + ":" + name
  {
    if text != body {
      assert text == body + text[|body|..];
      var more := text[|body| + 1..];
      assert text[|body|..] == [text[|body|]] + more;
      assert text == body + [text[|body|]] + more;
      if name != "" && text == body + ":" + name {
        assert text[|body|] == ':' && more == name;
      }
    }
  }

  /** A catch-all segment is `prefix{**}` or `prefix{**:name}`, and says so in one way only. */
  lemma CatchAllGrammar(part: string, prefix: string, name: string)
    ensures MatchCatchAll(part) == Some((prefix, name)) <==> Spells(part, prefix, "**", name)
  {
    hide Braces, NameAfter, AllUrl, AllWord;
    var text := if name == "" then "**" else "**" + ":" + name;
    BracesGrammar(part, prefix, text);
    match Braces(part)
    case None =>
    case Some((a, b)) =>
      BracesGrammar(part, a, b);
      if "**" <= b {
        NameGrammar(b, "**", name);
      }
  }

  /** A parameter segment is `prefix{pattern}` or `prefix{pattern:name}` with no colon in the pattern. */
  lemma ParamGrammar(part: string, prefix: string, name: string, pattern: string)
    ensures MatchParam(part) == Some((prefix, name, pattern))
            <==> ':' !in pattern && Spells(part, prefix, pattern, name)
  {
    hide Braces, NameAfter, AllUrl, AllWord;
    var text := if name == "" then pattern else pattern + ":" + name;
    BracesGrammar(part, prefix, text);
    match Braces(part)
    case None =>
    case Some((a, b)) =>
      BracesGrammar(part, a, b);
      var found := b[..IndexOf(b, ':').GetOr(|b|)];
      FirstColon(b);
      NameGrammar(b, found, name);
      if b == text && ':' !in pattern {
        ColonAfter(b, pattern, name);
      }
  }

  lemma FirstColon(b: string)
    ensures var found := b[..IndexOf(b, ':').GetOr(|b|)]; ':' !in found && found <= b
  {
  }

  lemma ColonAfter(b: string, pattern: string, name: string)
    requires ':' !in pattern && b == if name == "" then pattern else pattern + ":" + name
    ensures b[..IndexOf(b, ':').GetOr(|b|)] == pattern
  {
    if name == "" {
      FirstUnique(b, ':', |b|);
    } else {
      assert b[..|pattern|] == pattern && b[|pattern|] == ':';
      FirstUnique(b, ':', |pattern|);
    }
  }

  // ---------------------------------------------------------------- what a route declares

  /** The expression a parameter is compiled from. */
  function Expression(p: Param): string
    requires p.ParamSeg?
  {
    if p.pattern == "" then DEFAULT_PATTERN else p.pattern
  }

  /** A segment that is neither static nor a wildcard whose expression compiles. */
  predicate BadSegment(part: string, compiles: Compiler) {
    && !IsStaticPart(part)
    && (ParamOf(part).Some? ==> ParamOf(part).value.ParamSeg? && !compiles(Expression(ParamOf(part).value)))
  }

  predicate SomeBad(parts: seq<string>, compiles: Compiler) {
    exists k :: 0 <= k < |parts| && BadSegment(parts[k], compiles)
  }

  lemma {:induction false} PiecesRefuse(parts: seq<string>, i: nat, compiles: Compiler)
    ensures Pieces(parts, i, compiles) == None <==> SomeBad(parts, compiles)
    decreases parts
  {
    if parts != [] {
      PieceRefuses(parts[0], i, compiles);
      PiecesRefuse(parts[1..], NextNumber(parts[0], i), compiles);
      hide BadSegment, PieceOf, NextNumber;
      if k :| 0 <= k < |parts| - 1 && BadSegment(parts[1..][k], compiles) {
        assert BadSegment(parts[k + 1], compiles);
      }
      if k :| 0 <= k < |parts| && BadSegment(parts[k], compiles) {
        assert k > 0 ==> BadSegment(parts[1..][k - 1], compiles);
      }
    }
  }

  lemma PieceRefuses(part: string, i: nat, compiles: Compiler)
    ensures PieceOf(part, i, compiles) == None <==> BadSegment(part, compiles)
  {
    hide IsStaticPart, ParamOf, Decimal;
  }

  /** A text is refused exactly when it is no route or one of its segments is bad. */
  lemma ParseRefuses(path: string, compiles: Compiler)
    ensures Parse(path, compiles) == None <==> !IsRoute(path) || SomeBad(Segments(path), compiles)
  {
    hide SomeBad;
    PiecesRefuse(Segments(path), 1, compiles);
  }

  // ---------------------------------------------------------------- numbering

  /** The wildcard segments among the first `k`. */
  function WildsBefore(parts: seq<string>, k: nat): nat
    requires k <= |parts|
  {
    if k == 0 then 0 else WildsBefore(parts, k - 1) + if IsStaticPart(parts[k - 1]) then 0 else 1
  }

  /** Those without a name. */
  function UnnamedBefore(parts: seq<string>, k: nat): nat
    requires k <= |parts|
  {
    if k == 0 then 0 else UnnamedBefore(parts, k - 1) + if Unnamed(parts[k - 1]) then 1 else 0
  }

  predicate Unnamed(part: string) {
    !IsStaticPart(part) && ParamOf(part).Some? && ParamOf(part).value.name == ""
  }

  /** A declared wildcard with a name and an expression for those left out. */
  predicate Completes(q: Param, p: Param, number: nat) {
    && q.prefix == p.prefix
    && q.name == (if p.name == "" then Decimal(number) else p.name)
    && (q.ParamSeg? <==> p.ParamSeg?)
    && (p.ParamSeg? && q.ParamSeg? ==> q.pattern == Expression(p))
  }

  lemma CountFirst(parts: seq<string>, k: nat)
    requires 0 < k <= |parts|
    ensures WildsBefore(parts, k) == WildsBefore(parts[1..], k - 1) + if IsStaticPart(parts[0]) then 0 else 1
    ensures UnnamedBefore(parts, k) == UnnamedBefore(parts[1..], k - 1) + if Unnamed(parts[0]) then 1 else 0
  {
    hide IsStaticPart, Unnamed;
    if k > 1 {
      CountFirst(parts, k - 1);
    }
  }

  lemma {:induction false} PiecesNumber(parts: seq<string>, i: nat, k: nat, compiles: Compiler)
    requires Pieces(parts, i, compiles).Some? && k < |parts| && !IsStaticPart(parts[k])
    ensures var (q, j) := (ParamsOf(Pieces(parts, i, compiles).value), WildsBefore(parts, k));
            ParamOf(parts[k]).Some? && j < |q| && Completes(q[j], ParamOf(parts[k]).value, i + UnnamedBefore(parts, k))
    decreases parts
  {
    hide IsStaticPart, ParamOf, Completes, PieceOf, NextNumber, Unnamed, Calced, Full, WildsBefore, UnnamedBefore;
    PieceCompletes(parts[0], i, compiles);
    var p, n := PieceOf(parts[0], i, compiles).value, NextNumber(parts[0], i);
    var more := Pieces(parts[1..], n, compiles).value;
    assert Pieces(parts, i, compiles) == Some([p] + more);
    hide Pieces, ParamsOf;
    Cons(p, more);
    NoneBefore(parts);
    if k > 0 {
      CountFirst(parts, k);
      PiecesNumber(parts[1..], n, k - 1, compiles);
      Later(Pushed(p), ParamsOf(more), WildsBefore(parts[1..], k - 1));
    }
  }

  lemma NoneBefore(parts: seq<string>)
    ensures WildsBefore(parts, 0) == UnnamedBefore(parts, 0) == 0
  {
  }

  lemma Later(a: seq<Param>, b: seq<Param>, j: nat)
    requires j < |b|
    ensures (a + b)[|a| + j] == b[j]
  {
  }

  lemma PieceCompletes(part: string, i: nat, compiles: Compiler)
    requires PieceOf(part, i, compiles).Some?
    ensures var p := PieceOf(part, i, compiles).value;
            && (p.Wildly? <==> !IsStaticPart(part))
            && (p.Wildly? ==> ParamOf(part).Some? && Completes(p.param, ParamOf(part).value, i))
    ensures NextNumber(part, i) == i + if Unnamed(part) then 1 else 0
  {
    hide IsStaticPart, ParamOf, Decimal;
  }

  lemma {:induction false} PiecesCount(parts: seq<string>, i: nat, compiles: Compiler)
    requires Pieces(parts, i, compiles).Some?
    ensures |ParamsOf(Pieces(parts, i, compiles).value)| == WildsBefore(parts, |parts|)
    decreases parts
  {
    if parts != [] {
      PieceCompletes(parts[0], i, compiles);
      CountFirst(parts, |parts|);
      PiecesCount(parts[1..], NextNumber(parts[0], i), compiles);
    }
  }

  /** The queue of an accepted route holds its wildcard segments, in order and nothing else, as declared; those
      without a name are numbered from 1 on, in order. */
  lemma RouteDeclares(path: string, compiles: Compiler, k: nat)
    requires Parse(path, compiles).Some? && k < |Segments(path)| && !IsStaticPart(Segments(path)[k])
    ensures var (parts, q) := (Segments(path), Parse(path, compiles).value.params);
            && |q| == WildsBefore(parts, |parts|) && WildsBefore(parts, k) < |q| && ParamOf(parts[k]).Some?
            && Completes(q[WildsBefore(parts, k)], ParamOf(parts[k]).value, 1 + UnnamedBefore(parts, k))
  {
    hide Pieces, Segments, IsStaticPart, ParamOf, Completes;
    PiecesCount(Segments(path), 1, compiles);
    PiecesNumber(Segments(path), 1, k, compiles);
  }

  /** The number a text of digits stands for. */
  function NumberOf(s: string): nat {
    if s == "" then 0
    else
      var c := s[|s| - 1];
      10 * NumberOf(s[..|s| - 1]) + if '0' <= c <= '9' then (c - '0') as nat else 0
  }

  lemma {:induction false} DecimalIsNumber(n: nat)
    ensures NumberOf(Decimal(n)) == n
  {
    var digits := "0123456789";
    assert forall d :: 0 <= d < 10 ==> digits[d] == '0' + d as char;
    if n >= 10 {
      DecimalIsNumber(n / 10);
      var s := Decimal(n);
      assert s[..|s| - 1] == Decimal(n / 10);
    } else {
      assert [digits[n]][..0] == "";
    }
  }
}
