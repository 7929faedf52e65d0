/** The shape of parsed routes and the parse/print round trip. */
module PatternProofs {
  import opened Text
  import opened RouteTree
  import opened RouteInsertion
  import opened Patterns

  // ---------------------------------------------------------------- one segment

  lemma BracesOf(prefix: string, body: string)
    requires AllUrl(prefix)
    ensures Braces(prefix + "{" + body + "}") == Some((prefix, body))
    ensures !IsStaticPart(prefix + "{" + body + "}")
  {
    var part := prefix + "{" + body + "}";
    var k := |prefix|;
    assert part[..k] == prefix && part[k] == '{';
    FirstUnique(part, '{', k);
    assert part[k + 1..|part| - 1] == body;
  }

  /** A named parameter as the parser leaves it. */
  predicate Complete(p: Param) {
    && AllUrl(p.prefix) && AllWord(p.name) && p.name != ""
    && (p.ParamSeg? ==> ':' !in p.pattern && p.pattern !in {"", "**"} && '/' !in p.pattern)
  }

  lemma CompletedIsComplete(part: string, i: nat)
    requires ParamOf(part).Some? && '/' !in part
    ensures Complete(Completed(ParamOf(part).value, i))
  {
    WildFacts(part);
    DefaultFacts();
    hide ParamOf, Braces, Decimal, WordChar, UrlChar, DEFAULT_PATTERN;
    if ParamOf(part).value.ParamSeg? {
      PatternFacts(part);
    }
  }

  lemma DefaultFacts()
    ensures ':' !in DEFAULT_PATTERN && '/' !in DEFAULT_PATTERN && DEFAULT_PATTERN != "" && DEFAULT_PATTERN != "**"
  {
    assert DEFAULT_PATTERN[0] == '[';
  }

  lemma WildFacts(part: string)
    requires ParamOf(part).Some?
    ensures AllUrl(ParamOf(part).value.prefix) && AllWord(ParamOf(part).value.name)
  {
    hide IndexOf;
  }

  lemma PatternFacts(part: string)
    requires ParamOf(part).Some? && ParamOf(part).value.ParamSeg? && '/' !in part
    ensures var pattern := ParamOf(part).value.pattern; ':' !in pattern && '/' !in pattern && pattern != "**"
  {
    var (prefix, body) := Braces(part).value;
    var j := IndexOf(body, ':').GetOr(|body|);
    assert body[..|body|] == body;
    assert '/' !in body by { assert forall c :: c in body ==> c in part; }
    assert forall c :: c in body[..j] ==> c in body;
    if "**" <= body {
      assert NameAfter(body, "**") == None;
    }
  }

  /** Printing a completed parameter and reading it back gives the same parameter. */
  lemma FormatRoundTrip(p: Param, j: nat)
    requires Complete(p)
    ensures ParamOf(Format(p)) == Some(p) && Completed(p, j) == p
    ensures !IsStaticPart(Format(p)) && IsRun(Format(p))
  {
    var pattern := if p.ParamSeg? then p.pattern else "**";
    FormatIsRun(p.prefix, pattern, p.name);
    if p.ParamSeg? {
      ReadParam(p.prefix, p.pattern, p.name);
    } else {
      ReadCatchAll(p.prefix, p.name);
    }
  }

  lemma FormatIsRun(prefix: string, pattern: string, name: string)
    requires AllUrl(prefix) && '/' !in pattern && AllWord(name)
    ensures var s := prefix + "{" + (pattern + ":" + name) + "}"; IsRun(s) && !IsStaticPart(s)
  {
    assert '/' !in prefix && '/' !in name;
    assert '/' !in pattern + ":" + name;
    BracesOf(prefix, pattern + ":" + name);
  }

  lemma ReadCatchAll(prefix: string, name: string)
    requires AllUrl(prefix) && AllWord(name) && name != ""
    ensures ParamOf(prefix + "{" + ("**" + ":" + name) + "}") == Some(CatchAllSeg(prefix, name))
  {
    NamedBody("**", name);
    BracesOf(prefix, "**" + ":" + name);
  }

  lemma ReadParam(prefix: string, pattern: string, name: string)
    requires AllUrl(prefix) && AllWord(name) && name != "" && ':' !in pattern && pattern !in {"", "**"}
    ensures ParamOf(prefix + "{" + (pattern + ":" + name) + "}") == Some(ParamSeg(prefix, name, pattern))
  {
    var body := pattern + ":" + name;
    NamedBody(pattern, name);
    BracesOf(prefix, body);
    if "**" <= body {
      StarsThenColon(body, pattern);
    }
  }

  lemma NamedBody(pattern: string, name: string)
    requires AllWord(name) && name != "" && ':' !in pattern
    ensures var body := pattern + ":" + name;
            && pattern <= body && |pattern| < |body| && body[|pattern|] == ':' && NameAfter(body, pattern) == Some(name)
            && IndexOf(body, ':') == Some(|pattern|) && body[..|pattern|] == pattern
  {
    var body := pattern + ":" + name;
    assert body[..|pattern|] == pattern && body[|pattern| + 1..] == name;
    FirstUnique(body, ':', |pattern|);
  }

  lemma StarsThenColon(body: string, pattern: string)
    requires "**" <= body && pattern <= body && ':' !in pattern && pattern !in {"", "**"}
    requires |pattern| < |body| && body[|pattern|] == ':'
    ensures NameAfter(body, "**") == None
  {
    assert body[..2] == "**" && body[0] == '*' && body[1] == '*';
    assert pattern == body[..|pattern|] && |pattern| != 1;
    assert |pattern| == 2 ==> pattern == "**";
    assert body[2] == pattern[2] && pattern[2] in pattern;
  }

  lemma PieceRoundTrip(part: string, i: nat, j: nat, compiles: Compiler)
    requires IsRun(part) && PieceOf(part, i, compiles).Some?
    ensures var p := PieceOf(part, i, compiles).value;
            && IsRun(FullText(p)) && NextNumber(FullText(p), j) == j
            && PieceOf(FullText(p), j, compiles) == Some(p)
            && IsWhole(p)
  {
    var p := PieceOf(part, i, compiles).value;
    if p.Wildly? {
      CompletedIsComplete(part, i);
      FormatRoundTrip(p.param, j);
    }
  }

  // ---------------------------------------------------------------- whole routes

  predicate IsWhole(p: Piece) {
    if p.Wildly? then Complete(p.param) else p.text != "" && AllUrl(p.text)
  }

  predicate Whole(ps: seq<Piece>) {
    forall p :: p in ps ==> IsWhole(p)
  }

  function FullTexts(ps: seq<Piece>): seq<string> {
    seq(|ps|, i requires 0 <= i < |ps| => FullText(ps[i]))
  }

  /** The printed pieces are runs, joined, and are read back from any number on. */
  predicate Printed(ps: seq<Piece>, j: nat, compiles: Compiler) {
    && (forall t :: t in FullTexts(ps) ==> IsRun(t))
    && Full(ps) == Join(FullTexts(ps))
    && Pieces(FullTexts(ps), j, compiles) == Some(ps)
  }

  lemma PrintedCons(p: Piece, more: seq<Piece>, j: nat, compiles: Compiler)
    requires IsRun(FullText(p)) && PieceOf(FullText(p), j, compiles) == Some(p) && NextNumber(FullText(p), j) == j
    requires Printed(more, j, compiles)
    ensures Printed([p] + more, j, compiles)
  {
    hide IsRun, PieceOf, FullText, NextNumber;
    var ps, texts := [p] + more, FullTexts(more);
    assert FullTexts(ps) == [FullText(p)] + texts;
    assert ps[1..] == more && ([FullText(p)] + texts)[1..] == texts;
  }

  lemma {:induction false} PiecesRoundTrip(parts: seq<string>, i: nat, j: nat, compiles: Compiler)
    requires (forall p :: p in parts ==> IsRun(p)) && Pieces(parts, i, compiles).Some?
    ensures var ps := Pieces(parts, i, compiles).value; |ps| == |parts| && Whole(ps) && Printed(ps, j, compiles)
    decreases parts
  {
    hide IsRun, PieceOf, FullText, NextNumber, IsWhole, Printed;
    if parts == [] {
      PrintedNone(j, compiles);
    } else {
      assert parts[0] in parts;
      var p := PieceOf(parts[0], i, compiles).value;
      var more := Pieces(parts[1..], NextNumber(parts[0], i), compiles).value;
      assert Pieces(parts, i, compiles) == Some([p] + more);
      PieceRoundTrip(parts[0], i, j, compiles);
      PiecesRoundTrip(parts[1..], NextNumber(parts[0], i), j, compiles);
      PrintedCons(p, more, j, compiles);
      assert forall x :: x in [p] + more ==> x == p || x in more;
    }
  }

  lemma PrintedNone(j: nat, compiles: Compiler)
    ensures Printed([], j, compiles)
  {
  }

  /** Parsing the printed form of an accepted route gives the same wildcards, the same text and the same
      printed form; only a final slash is lost. */
  lemma RoundTrip(path: string, compiles: Compiler)
    requires Parse(path, compiles).Some? && path != "/"
    ensures var p := Parse(path, compiles).value;
            Parse(p.full, compiles) ==
            Some(p.(calced := if path[|path| - 1] == '/' then p.calced[..|p.calced| - 1] else p.calced))
  {
    var parts := Segments(path);
    SegmentsAreRuns(path);
    RouteIsJoin(path);
    var ps := Pieces(parts, 1, compiles).value;
    PiecesRoundTrip(parts, 1, 1, compiles);
    JoinNeedsParts(parts, path);
    ReparseFull(ps, compiles);
    var c := Calced(ps);
    assert (c + "/")[..|c|] == c && c + "" == c;
  }

  lemma JoinNeedsParts(parts: seq<string>, path: string)
    requires path == Join(parts) + "/" || path == Join(parts) + ""
    requires path != "/" && path != ""
    ensures parts != []
  {
    assert Join([]) + "/" == "/" && Join([]) + "" == "";
  }

  lemma ReparseFull(ps: seq<Piece>, compiles: Compiler)
    requires ps != [] && (forall t :: t in FullTexts(ps) ==> IsRun(t)) && Full(ps) == Join(FullTexts(ps))
    requires Pieces(FullTexts(ps), 1, compiles) == Some(ps)
    ensures Parse(Full(ps), compiles) == Some(Parsed(Calced(ps), Full(ps), ParamsOf(ps)))
  {
    var texts := FullTexts(ps);
    SegmentsOfJoin(texts, "");
    assert Join(texts) + "" == Join(texts) && texts + [] == texts;
    JoinIsRoute(texts);
    assert Calced(ps) + "" == Calced(ps);
  }

  lemma {:induction false} JoinIsRoute(parts: seq<string>)
    requires parts != [] && forall p :: p in parts ==> IsRun(p)
    ensures IsSubRoutePrefix(Join(parts))
  {
    var p, more := parts[0], Join(parts[1..]);
    assert p in parts;
    if parts[1..] != [] {
      JoinIsRoute(parts[1..]);
    } else {
      assert more == "";
    }
    OneMorePart(p, more);
  }

  lemma OneMorePart(p: string, more: string)
    requires IsRun(p) && (more == "" || IsSubRoutePrefix(more))
    ensures IsSubRoutePrefix("/" + p + more)
  {
    var whole := "/" + p + more;
    assert forall k :: 1 <= k <= |p| ==> whole[k] == p[k - 1] && p[k - 1] in p;
    assert forall k :: |p| < k < |whole| ==> whole[k] == more[k - |p| - 1];
    if more == "" {
      assert whole[|whole| - 1] == p[|p| - 1];
    } else {
      assert whole[|whole| - 1] == more[|more| - 1];
    }
  }

  // ---------------------------------------------------------------- the shape of `calced`

  lemma WildsHead(tail: string)
    ensures Wilds([PARAM_CHAR] + tail) == 1 + Wilds(tail)
  {
    assert ([PARAM_CHAR] + tail)[1..] == tail;
  }

  lemma CalcTextShape(p: Piece, tail: string)
    requires if p.Wildly? then Complete(p.param) else p.text != "" && AllUrl(p.text)
    requires tail == "" || tail[0] == '/'
    requires SegmentEnds(tail)
    ensures var s := "/" + CalcText(p) + tail;
            SegmentEnds(s) && Wilds(s) == (if p.Wildly? then 1 else 0) + Wilds(tail)
  {
    var a := "/" + if p.Wildly? then p.param.prefix else p.text;
    assert PARAM_CHAR !in a;
    var b := if p.Wildly? then [PARAM_CHAR] + tail else tail;
    assert "/" + CalcText(p) + tail == a + b;
    hide Wilds, Toks, Complete, AllUrl, CalcText, WordChar, SegmentEnds;
    ToksLit(a, b, []);
    WildsHead(tail);
    MarkEnds(tail);
    EndsBehind(a, b);
  }

  lemma MarkEnds(tail: string)
    requires (tail == "" || tail[0] == '/') && SegmentEnds(tail)
    ensures SegmentEnds([PARAM_CHAR] + tail)
  {
    var s := [PARAM_CHAR] + tail;
    assert forall i :: 0 < i < |s| ==> s[i] == tail[i - 1];
  }

  lemma EndsBehind(a: string, b: string)
    requires PARAM_CHAR !in a && SegmentEnds(b)
    ensures SegmentEnds(a + b)
  {
    var s := a + b;
    assert forall i :: 0 <= i < |a| ==> s[i] == a[i];
    assert forall i :: |a| <= i < |s| ==> s[i] == b[i - |a|];
  }

  lemma {:induction false} CalcedShape(ps: seq<Piece>, tail: string)
    requires Whole(ps) && tail in {"", "/"}
    ensures SegmentEnds(Calced(ps) + tail) && Wilds(Calced(ps) + tail) == |ParamsOf(ps)|
    ensures ps != [] ==> Calced(ps) != "" && Calced(ps)[0] == '/'
    decreases ps
  {
    if ps == [] {
      assert Calced(ps) + tail == tail;
    } else {
      var more := Calced(ps[1..]) + tail;
      assert ps[0] in ps;
      CalcedShape(ps[1..], tail);
      CalcTextShape(ps[0], more);
      assert Calced(ps) + tail == "/" + CalcText(ps[0]) + more;
    }
  }

  /** What the tree needs of a parsed route: one parameter for every ':', which ends its segment. */
  lemma ParsedShape(path: string, compiles: Compiler)
    requires Parse(path, compiles).Some?
    ensures var p := Parse(path, compiles).value;
            && p.calced != "" && p.calced[0] == '/'
            && SegmentEnds(p.calced) && Wilds(p.calced) == |p.params|
  {
    var parts := Segments(path);
    SegmentsAreRuns(path);
    PiecesRoundTrip(parts, 1, 1, compiles);
    var ps := Pieces(parts, 1, compiles).value;
    CalcedShape(ps, if path[|path| - 1] == '/' then "/" else "");
    RouteIsJoin(path);
  }

  // ---------------------------------------------------------------- static routes

  /** A route without wildcards. */
  predicate StaticRoute(path: string) {
    IsRoute(path) && forall part :: part in Segments(path) ==> IsStaticPart(part)
  }

  lemma {:induction false} StaticPieces(parts: seq<string>, i: nat, compiles: Compiler)
    requires forall part :: part in parts ==> IsStaticPart(part)
    ensures Pieces(parts, i, compiles).Some?
    ensures var ps := Pieces(parts, i, compiles).value; Calced(ps) == Join(parts) && ParamsOf(ps) == []
    decreases parts
  {
    if parts != [] {
      assert parts[0] in parts;
      StaticPieces(parts[1..], i, compiles);
    }
  }

  /** A static route is parsed as itself. */
  lemma StaticParse(path: string, compiles: Compiler)
    requires StaticRoute(path)
    ensures Parse(path, compiles).Some?
    ensures Parse(path, compiles).value.calced == path && Parse(path, compiles).value.params == []
    ensures PARAM_CHAR !in path
  {
    StaticPieces(Segments(path), 1, compiles);
    RouteIsJoin(path);
    ParsedShape(path, compiles);
    NoWilds(path);
  }

  lemma {:induction false} NoWilds(path: string)
    ensures Wilds(path) == 0 <==> PARAM_CHAR !in path
  {
    if path != "" {
      NoWilds(path[1..]);
    }
  }
}
