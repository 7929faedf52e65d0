/** Route patterns: `split`, the parser of `PathParser::parsePathSegment` and the printer of its parameters. */
module Patterns {
  import opened Text
  import opened RouteTree

  /** Does a user's regular expression compile? A deterministic oracle. */
  type Compiler = string -> bool

  // ---------------------------------------------------------------- character classes and fixed patterns

  predicate WordChar(c: char) {
    'a' <= c <= 'z' || 'A' <= c <= 'Z' || '0' <= c <= '9' || c == '_'
  }

  predicate UrlChar(c: char) {
    WordChar(c) || c == '.' || c == '-'
  }

  predicate AllWord(s: string) {
    forall i :: 0 <= i < |s| ==> WordChar(s[i])
  }

  predicate AllUrl(s: string) {
    forall i :: 0 <= i < |s| ==> UrlChar(s[i])
  }

  /** URL_ROUTE_PATTERN, `(^(/[^/]+)+/?$)|(^/$)`. */
  predicate IsRoute(path: string) {
    path == "/" || (|path| >= 2 && path[0] == '/' && NoDoubleSlash(path))
  }

  predicate NoDoubleSlash(path: string) {
    forall i :: 0 <= i < |path| - 1 && path[i] == '/' ==> path[i + 1] != '/'
  }

  /** URL_SUBROUTE_PREFIX_PATTERN, `^(/[^/]+)+$`. */
  predicate IsSubRoutePrefix(path: string) {
    IsRoute(path) && path[|path| - 1] != '/'
  }

  /** URL_STATIC_PART_PATTERN. */
  predicate IsStaticPart(part: string) {
    part != "" && AllUrl(part)
  }

  const DEFAULT_PATTERN := "[\\w\\.\\-_]*"

  /** `prefix{body}` with a prefix of URL characters, as in both wildcard patterns. */
  function Braces(part: string): (r: Option<(string, string)>)
    ensures r.Some? ==> part == r.value.0 + "{" + r.value.1 + "}" && AllUrl(r.value.0)
  {
    match IndexOf(part, '{')
    case None => None
    case Some(k) =>
      if AllUrl(part[..k]) && |part| >= k + 2 && part[|part| - 1] == '}' then
        assert part == part[..k] + "{" + part[k + 1..|part| - 1] + "}";
        Some((part[..k], part[k + 1..|part| - 1]))
      else None
  }

  /** The name group of a body `pattern:name` or `pattern`; no result when the text does not match. */
  function NameAfter(body: string, pattern: string): Option<string>
    requires pattern <= body
  {
    if body == pattern then Some("")
    else
      var name := body[|pattern| + 1..];
      if body[|pattern|] == ':' && name != "" && AllWord(name) then Some(name) else None
  }

  function Decimal(n: nat): (s: string)
    ensures s != "" && AllWord(s)
  {
    if n < 10 then ["0123456789"[n]] else Decimal(n / 10) + ["0123456789"[n % 10]]
  }

  // ---------------------------------------------------------------- split

  /** The maximal nonempty slash-free runs of a text, in order. */
  function Segments(s: string): seq<string>
    decreases |s|
  {
    if s == "" then []
    else if s[0] == '/' then Segments(s[1..])
    else
      var k := UntilSlash(s);
      [s[..k]] + Segments(s[k..])
  }

  method Split(text: string) returns (out: seq<string>)
    ensures out == Segments(text)
  {
    out := [];
    var tmp := text;
    while true
      invariant out + Segments(tmp) == Segments(text)
      decreases |tmp|
    {
      var pos := FindUntilSlash(tmp);
      if pos == |tmp| {
        if |tmp| > 0 {
          assert tmp[..pos] == tmp && Segments(tmp[pos..]) == [];
          out := out + [tmp];
        }
        break;
      } else if pos != 0 {
        var sub := tmp[..pos];
        assert Segments(tmp[pos..]) == Segments(tmp[pos + 1..]) by { assert tmp[pos..][1..] == tmp[pos + 1..]; }
        assert Segments(tmp) == [sub] + Segments(tmp[pos + 1..]);
        tmp := tmp[pos + 1..];
        out := out + [sub];
      } else {
        tmp := tmp[1..];
      }
    }
  }

  predicate IsRun(s: string) {
    s != "" && '/' !in s
  }

  /** The path with one slash before each part. */
  function Join(parts: seq<string>): string {
    if parts == [] then "" else "/" + parts[0] + Join(parts[1..])
  }

  lemma {:induction false} SegmentsAreRuns(s: string)
    ensures forall p :: p in Segments(s) ==> IsRun(p)
    decreases |s|
  {
    if s != "" {
      if s[0] == '/' {
        SegmentsAreRuns(s[1..]);
      } else {
        SegmentsAreRuns(s[UntilSlash(s)..]);
      }
    }
  }

  lemma {:induction false} SegmentsOfJoin(parts: seq<string>, tail: string)
    requires forall p :: p in parts ==> IsRun(p)
    requires tail == "" || tail[0] == '/'
    ensures Segments(Join(parts) + tail) == parts + Segments(tail)
    decreases parts
  {
    hide Segments, Join;
    JoinUnfold(parts, tail);
    if parts == [] {
      assert parts + Segments(tail) == Segments(tail);
    } else {
      assert parts[0] in parts;
      JoinHead(parts[1..], tail);
      SegmentsOfJoin(parts[1..], tail);
      FirstSegment(parts[0], Join(parts[1..]) + tail);
      assert parts + Segments(tail) == [parts[0]] + (parts[1..] + Segments(tail));
    }
  }

  lemma JoinUnfold(parts: seq<string>, tail: string)
    ensures parts == [] ==> Join(parts) + tail == tail
    ensures parts != [] ==> Join(parts) + tail == "/" + (parts[0] + (Join(parts[1..]) + tail))
  {
  }

  lemma JoinHead(parts: seq<string>, tail: string)
    requires tail == "" || tail[0] == '/'
    ensures var more := Join(parts) + tail; more == "" || more[0] == '/'
  {
  }

  lemma FirstSegment(p: string, more: string)
    requires IsRun(p) && (more == "" || more[0] == '/')
    ensures Segments("/" + (p + more)) == [p] + Segments(more)
  {
    var s := "/" + (p + more);
    assert s[1..] == p + more && (p + more)[0] == p[0] && p[0] in p;
    assert (p + more)[..|p|] == p && (p + more)[|p|..] == more;
    UntilSlashUnique(p + more, |p|);
    assert Segments(s) == Segments(p + more);
  }

  /** A route is its segments joined, with an optional final slash. */
  lemma {:induction false} RouteIsJoin(path: string)
    requires path != "" && path[0] == '/' && NoDoubleSlash(path)
    ensures path == Join(Segments(path)) + if path[|path| - 1] == '/' then "/" else ""
    decreases |path|
  {
    if |path| > 1 {
      assert path[1] != '/';
      var seg, more := SegmentsStep(path);
      JoinStep(path, seg, more);
      if more != "" {
        RouteIsJoin(more);
      }
    }
  }

  lemma SegmentsStep(path: string) returns (seg: string, more: string)
    requires |path| > 1 && path[0] == '/' && path[1] != '/' && NoDoubleSlash(path)
    ensures && path == "/" + (seg + more) && IsRun(seg)
            && Segments(path) == [seg] + Segments(more)
            && |more| < |path| && (more != "" ==> more[0] == '/' && NoDoubleSlash(more))
  {
    var rest := path[1..];
    var k := UntilSlash(rest);
    seg, more := rest[..k], rest[k..];
    assert rest == seg + more && path == "/" + (seg + more);
    FirstSegment(seg, more);
    assert forall i :: 0 <= i < |more| ==> more[i] == path[1 + k + i];
  }

  lemma JoinStep(path: string, seg: string, more: string)
    requires path == "/" + (seg + more)
    ensures more == "" ==> path == Join([seg])
    ensures forall parts, tail :: more == Join(parts) + tail ==> path == Join([seg] + parts) + tail
    ensures more != "" ==> path[|path| - 1] == more[|more| - 1]
    ensures more == "" && IsRun(seg) ==> path[|path| - 1] != '/'
  {
    assert Join([seg]) == "/" + seg + "";
    forall parts, tail | more == Join(parts) + tail ensures path == Join([seg] + parts) + tail {
      assert ([seg] + parts)[1..] == parts;
    }
  }

  // ---------------------------------------------------------------- pieces

  datatype Piece = Plainly(text: string) | Wildly(param: Param)

  /** URL_MATCHALL_PATTERN with its groups `prefix` and `name`. */
  function MatchCatchAll(part: string): Option<(string, string)> {
    match Braces(part)
    case None => None
    case Some((prefix, body)) =>
      match if "**" <= body then NameAfter(body, "**") else None
      case None => None
      case Some(name) => Some((prefix, name))
  }

  /** URL_REGEX_PATTERN with its groups `prefix`, `name` and `pattern`. */
  function MatchParam(part: string): Option<(string, string, string)> {
    match Braces(part)
    case None => None
    case Some((prefix, body)) =>
      var pattern := body[..IndexOf(body, ':').GetOr(|body|)];
      match NameAfter(body, pattern)
      case None => None
      case Some(name) => Some((prefix, name, pattern))
  }

  function ParamOf(part: string): Option<Param> {
    match MatchCatchAll(part)
    case Some((prefix, name)) => Some(CatchAllSeg(prefix, name))
    case None =>
      match MatchParam(part)
      case Some((prefix, name, pattern)) => Some(ParamSeg(prefix, name, pattern))
      case None => None
  }

  /** Missing names become numbers, missing patterns the default. */
  function Completed(p: Param, i: nat): Param {
    var q := if p.name == "" then p.(name := Decimal(i)) else p;
    if q.ParamSeg? && q.pattern == "" then q.(pattern := DEFAULT_PATTERN) else q
  }

  function PieceOf(part: string, i: nat, compiles: Compiler): Option<Piece> {
    if IsStaticPart(part) then Some(Plainly(part))
    else
      match ParamOf(part)
      case None => None
      case Some(p) =>
        var q := Completed(p, i);
        if q.ParamSeg? && !compiles(q.pattern) then None else Some(Wildly(q))
  }

  /** The counter for unnamed wildcards after a segment. */
  function NextNumber(part: string, i: nat): nat {
    if !IsStaticPart(part) && ParamOf(part).Some? && ParamOf(part).value.name == "" then i + 1 else i
  }

  function Pieces(parts: seq<string>, i: nat, compiles: Compiler): Option<seq<Piece>> {
    if parts == [] then Some([])
    else
      match (PieceOf(parts[0], i, compiles), Pieces(parts[1..], NextNumber(parts[0], i), compiles))
      case (Some(p), Some(ps)) => Some([p] + ps)
      case _ => None
  }

  /** `formatter<Param>`. */
  function Format(p: Param): string {
    match p
    case CatchAllSeg(prefix, name) => prefix + "{" + ("**" + ":" + name) + "}"
    case ParamSeg(prefix, name, pattern) => prefix + "{" + (pattern + ":" + name) + "}"
  }

  function CalcText(p: Piece): string {
    if p.Plainly? then p.text else p.param.prefix + [PARAM_CHAR]
  }

  function FullText(p: Piece): string {
    if p.Plainly? then p.text else Format(p.param)
  }

  function Calced(ps: seq<Piece>): string {
    if ps == [] then "" else "/" + CalcText(ps[0]) + Calced(ps[1..])
  }

  function Full(ps: seq<Piece>): string {
    if ps == [] then "" else "/" + FullText(ps[0]) + Full(ps[1..])
  }

  function ParamsOf(ps: seq<Piece>): seq<Param> {
    if ps == [] then []
    else (if ps[0].Wildly? then [ps[0].param] else []) + ParamsOf(ps[1..])
  }

  datatype Parsed = Parsed(calced: string, full: string, params: seq<Param>)

  function Parse(path: string, compiles: Compiler): Option<Parsed> {
    if !IsRoute(path) then None
    else
      match Pieces(Segments(path), 1, compiles)
      case None => None
      case Some(ps) =>
        Some(Parsed(Calced(ps) + (if path[|path| - 1] == '/' then "/" else ""), Full(ps), ParamsOf(ps)))
  }
}
