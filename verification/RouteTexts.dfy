/** What a route text means for requests: the texts of its wildcards in place of its braces. */
module RouteTexts {
  import opened Text
  import opened RouteTree
  import opened RouteInsertion
  import opened Patterns
  import opened PatternProofs
  import opened PathParsing
  import opened Lookup
  import opened LookupProofs
  import opened RouteMap
  import opened Router
  import opened Declarations

  /** The request a route text asks for: what stands outside braces is copied, and each brace, up to the end of its
      segment, is replaced with the next text. */
  function Scan(text: string, fills: seq<string>): string
    decreases |text|
  {
    if text == "" then ""
    else if text[0] != '{' then [text[0]] + Scan(text[1..], fills)
    else if fills == [] then ""
    else fills[0] + Scan(text[UntilSlash(text)..], fills[1..])
  }

  /** A calculated path with texts for its marks. */
  function Paste(path: string, fills: seq<string>): string {
    if path == "" then ""
    else if path[0] != PARAM_CHAR then [path[0]] + Paste(path[1..], fills)
    else if fills == [] then ""
    else fills[0] + Paste(path[1..], fills[1..])
  }

  /** No catch-all but as the very last thing of the route. */
  predicate CatchAllLast(path: string, q: seq<Param>) {
    forall j :: 0 <= j < |q| && q[j].CatchAllSeg? ==> j == |q| - 1 && path != "" && path[|path| - 1] == PARAM_CHAR
  }

  lemma {:induction false} PasteToks(path: string, q: seq<Param>, fills: seq<string>)
    requires Wilds(path) == |q| == |fills| && CatchAllLast(path, q)
    ensures Fill(Toks(path, q), fills) == Paste(path, fills)
    ensures WildToks(Toks(path, q)) == |q|
    decreases path
  {
    if path != "" {
      var more := path[1..];
      assert more != "" ==> more[|more| - 1] == path[|path| - 1];
      if path[0] != PARAM_CHAR {
        assert q != [] ==> more != "";
        PasteToks(more, q, fills);
      } else if q[0].CatchAllSeg? {
        OneWild(more);
        assert fills[0] + "" == fills[0];
      } else {
        assert forall j :: 0 <= j < |q| - 1 ==> q[1..][j] == q[j + 1];
        PasteToks(more, q[1..], fills[1..]);
      }
    }
  }

  lemma OneWild(more: string)
    requires Wilds(more) == 0 && (more != "" ==> more[|more| - 1] == PARAM_CHAR)
    ensures more == ""
  {
    NoWilds(more);
  }

  // ---------------------------------------------------------------- segment by segment

  lemma {:induction false} ScanCopies(a: string, more: string, fills: seq<string>)
    requires '{' !in a
    ensures Scan(a + more, fills) == a + Scan(more, fills)
    decreases a
  {
    if a == "" {
      assert a + more == more;
    } else {
      assert (a + more)[0] == a[0] && (a + more)[1..] == a[1..] + more;
      ScanCopies(a[1..], more, fills);
      assert a == [a[0]] + a[1..];
    }
  }

  lemma {:induction false} PasteCopies(a: string, more: string, fills: seq<string>)
    requires PARAM_CHAR !in a
    ensures Paste(a + more, fills) == a + Paste(more, fills)
    decreases a
  {
    if a == "" {
      assert a + more == more;
    } else {
      assert (a + more)[0] == a[0] && (a + more)[1..] == a[1..] + more;
      PasteCopies(a[1..], more, fills);
      assert a == [a[0]] + a[1..];
    }
  }

  /** A brace that ends its segment takes one text. */
  lemma ScanBrace(brace: string, more: string, fills: seq<string>)
    requires brace != "" && brace[0] == '{' && '/' !in brace && (more == "" || more[0] == '/') && fills != []
    ensures Scan(brace + more, fills) == fills[0] + Scan(more, fills[1..])
  {
    var text := brace + more;
    assert text[..|brace|] == brace && text[|brace|..] == more;
    UntilSlashUnique(text, |brace|);
  }

  lemma PasteMark(more: string, fills: seq<string>)
    requires fills != []
    ensures Paste([PARAM_CHAR] + more, fills) == fills[0] + Paste(more, fills[1..])
  {
    assert ([PARAM_CHAR] + more)[1..] == more;
  }

  lemma UrlText(s: string)
    requires AllUrl(s)
    ensures '{' !in s && PARAM_CHAR !in s && '/' !in s
  {
  }

  /** A wildcard segment is its prefix and a brace, and the prefix is what the parser found. */
  lemma WildPart(part: string, i: nat, compiles: Compiler) returns (prefix: string, brace: string)
    requires IsRun(part) && PieceOf(part, i, compiles).Some? && PieceOf(part, i, compiles).value.Wildly?
    ensures part == prefix + brace && AllUrl(prefix) && brace != "" && brace[0] == '{' && '/' !in brace
    ensures PieceOf(part, i, compiles).value.param.prefix == prefix
  {
    PrefixOfPiece(part, i, compiles);
    hide PieceOf, Braces;
    var (a, body) := Braces(part).value;
    BracesText(part);
    prefix, brace := a, "{" + body + "}";
    BraceRun(prefix, body, part);
  }

  lemma PrefixOfPiece(part: string, i: nat, compiles: Compiler)
    requires PieceOf(part, i, compiles).Some? && PieceOf(part, i, compiles).value.Wildly?
    ensures Braces(part).Some? && PieceOf(part, i, compiles).value.param.prefix == Braces(part).value.0
  {
    hide NameAfter, IsStaticPart, Decimal, Braces;
  }

  lemma BracesText(part: string)
    requires Braces(part).Some?
    ensures var (a, body) := Braces(part).value; part == a + "{" + body + "}" && AllUrl(a)
  {
  }

  lemma BraceRun(a: string, body: string, part: string)
    requires part == a + "{" + body + "}" && IsRun(part)
    ensures var brace := "{" + body + "}"; part == a + brace && brace != "" && brace[0] == '{' && '/' !in brace
  {
    var brace := "{" + body + "}";
    assert part == a + brace;
    assert forall c :: c in brace ==> c in part;
  }

  /** The calculated path of the segments stands for the same requests as their texts. */
  lemma {:induction false} PartsScan(parts: seq<string>, i: nat, compiles: Compiler, end: string, fills: seq<string>)
    requires (forall p :: p in parts ==> IsRun(p)) && Pieces(parts, i, compiles).Some? && end in {"", "/"}
    requires |ParamsOf(Pieces(parts, i, compiles).value)| == |fills|
    ensures Paste(Calced(Pieces(parts, i, compiles).value) + end, fills) == Scan(Join(parts) + end, fills)
    decreases parts
  {
    hide IsRun, PieceOf, NextNumber, Scan, Paste, CalcText;
    var ps := Pieces(parts, i, compiles).value;
    if parts == [] {
      assert "" + end == end;
      EndScans(end, fills);
    } else {
      assert parts[0] in parts;
      var p := PieceOf(parts[0], i, compiles).value;
      var more := Pieces(parts[1..], NextNumber(parts[0], i), compiles).value;
      assert ps == [p] + more;
      hide Pieces, Calced, Join, ParamsOf;
      Cons(p, more);
      JoinHead(parts[1..], end);
      JoinUnfold(parts, end);
      MarkedUnfold(CalcText(p), Calced(more), end);
      PartsScan(parts[1..], NextNumber(parts[0], i), compiles, end, if p.Wildly? then fills[1..] else fills);
      SegmentScans(parts[0], i, compiles, Join(parts[1..]) + end, Calced(more) + end, fills);
    }
  }

  lemma EndScans(end: string, fills: seq<string>)
    requires end in {"", "/"}
    ensures Paste(end, fills) == Scan(end, fills)
  {
  }

  lemma MarkedUnfold(a: string, b: string, end: string)
    ensures "/" + a + b + end == "/" + (a + (b + end))
  {
  }

  lemma SegmentScans(part: string, i: nat, compiles: Compiler, text: string, marked: string, fills: seq<string>)
    requires IsRun(part) && PieceOf(part, i, compiles).Some? && (text == "" || text[0] == '/')
    requires var wild := PieceOf(part, i, compiles).value.Wildly?;
             && (wild ==> fills != [])
             && Paste(marked, if wild then fills[1..] else fills) == Scan(text, if wild then fills[1..] else fills)
    ensures var p := PieceOf(part, i, compiles).value;
            Paste("/" + (CalcText(p) + marked), fills) == Scan("/" + (part + text), fills)
  {
    hide Scan, Paste, PieceOf, CalcText;
    var p := PieceOf(part, i, compiles).value;
    ScanCopies("/", part + text, fills);
    PasteCopies("/", CalcText(p) + marked, fills);
    if p.Plainly? {
      StaticText(part, i, compiles);
      UrlText(part);
      ScanCopies(part, text, fills);
      PasteCopies(part, marked, fills);
    } else {
      var prefix, brace := WildPart(part, i, compiles);
      WildText(p);
      UrlText(prefix);
      ScanBrace(brace, text, fills);
      PasteMark(marked, fills);
      Behind(prefix, brace, text);
      Behind(prefix, [PARAM_CHAR], marked);
      ScanCopies(prefix, brace + text, fills);
      PasteCopies(prefix, [PARAM_CHAR] + marked, fills);
    }
  }

  lemma Behind(a: string, b: string, c: string)
    ensures a + b + c == a + (b + c)
  {
  }

  lemma StaticText(part: string, i: nat, compiles: Compiler)
    requires PieceOf(part, i, compiles).Some? && PieceOf(part, i, compiles).value.Plainly?
    ensures AllUrl(part) && CalcText(PieceOf(part, i, compiles).value) == part
  {
  }

  lemma WildText(p: Piece)
    requires p.Wildly?
    ensures CalcText(p) == p.param.prefix + [PARAM_CHAR]
  {
  }

  // ---------------------------------------------------------------- whole routes

  /** A route stands for the requests that its text asks for, its final slash included. */
  lemma RouteTextFills(e: Entry, compiles: Compiler, fills: seq<string>)
    requires Parse(e.path, compiles).Some?
    requires var p := Parse(e.path, compiles).value; CatchAllLast(p.calced, p.params) && |fills| == |p.params|
    ensures Fill(Pattern(e, compiles), fills) == Scan(e.path, fills)
    ensures WildToks(Pattern(e, compiles)) == |fills|
  {
    var (path, p) := (e.path, Parse(e.path, compiles).value);
    var end := if path[|path| - 1] == '/' then "/" else "";
    ParsedShape(path, compiles);
    PasteToks(p.calced, p.params, fills);
    SegmentsAreRuns(path);
    RouteIsJoin(path);
    PartsScan(Segments(path), 1, compiles, end, fills);
  }

  lemma {:induction false} FitsCount(t: Route, f: seq<string>, acc: Matcher)
    requires Fits(t, f, acc)
    ensures |f| == WildToks(t)
  {
    if t != [] {
      FitsCount(t[1..], if t[0].Ch? then f else f[1..], acc);
    }
  }

  /** An accepted declaration is served for the requests its route text asks for, at its own controller, if it
      repeats the parameters it shares with what was filed before it. */
  lemma RouteTextIsServed(f: Forest, rs: seq<Decl>, prefix: string, compiles: Compiler, k: nat,
                          fills: seq<string>, params: Params, acc: Matcher)
    requires Grown(f, rs, prefix, compiles) && k < |rs| && AcceptedAt(rs, k, prefix, compiles)
    requires SpelledAt(FiledBefore(rs, k, prefix, compiles), Asked(rs[k], prefix), compiles)
    requires var p := Parse(prefix + rs[k].path, compiles).value; CatchAllLast(p.calced, p.params)
    requires Fits(Pattern(Asked(rs[k], prefix), compiles), fills, acc)
    ensures Serve(f, rs[k].mtd, Scan(prefix + rs[k].path, fills), params, acc)
            == Found(Some(rs[k].ctrl), Bind(Pattern(Asked(rs[k], prefix), compiles), fills, acc, params), false)
  {
    var e := Asked(rs[k], prefix);
    var p := Parse(e.path, compiles).value;
    DeclaredAlone(f, rs, prefix, compiles, k, fills, params, acc);
    FitsCount(Pattern(e, compiles), fills, acc);
    ParsedShape(e.path, compiles);
    PasteToks(p.calced, p.params, seq(|p.params|, _ => ""));
    RouteTextFills(e, compiles, fills);
  }
}
