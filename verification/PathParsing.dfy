/** The parser object of the router, filled in place and proved against `Patterns.Parse`. */
module PathParsing {
  import opened Text
  import opened RouteTree
  import opened Patterns

  // ---------------------------------------------------------------- parsing

  class PathParser {
    var params: seq<Param>
    var calced: string
    var actualFullPath: string

    constructor ()
      ensures params == [] && calced == "" && actualFullPath == ""
    {
      params, calced, actualFullPath := [], "", "";
    }

    /** `PathParser::parsePathSegment`: every segment is looked at, even after one has failed. */
    method ParsePathSegment(path: string, compiles: Compiler) returns (ok: bool)
      modifies this
      ensures ok == Parse(path, compiles).Some?
      ensures ok ==> var p := Parse(path, compiles).value;
                     params == old(params) + p.params && calced == p.calced && actualFullPath == p.full
      ensures !ok ==> calced == old(calced) && actualFullPath == old(actualFullPath)
    {
      if !IsRoute(path) {
        return false;
      }
      var parts := Patterns.Split(path);
      var short, full;
      ok, short, full := ReadSegments(parts, compiles);
      if !ok {
        return;
      }
      if path[|path| - 1] == '/' {
        short := short + "/";
      }
      calced, actualFullPath := short, full;
    }

    /** The loop over the segments, which pushes the parameters it finds. */
    method ReadSegments(parts: seq<string>, compiles: Compiler) returns (ok: bool, short: string, full: string)
      modifies this`params
      ensures ok == Pieces(parts, 1, compiles).Some?
      ensures ok ==> var ps := Pieces(parts, 1, compiles).value;
                     short == Calced(ps) && full == Full(ps) && params == old(params) + ParamsOf(ps)
    {
      var i: nat := 1;
      ok, short, full := true, "", "";
      ghost var all := Pieces(parts, 1, compiles);
      for k := 0 to |parts|
        invariant !ok ==> all == None
        invariant ok ==> Remains(all, Pieces(parts[k..], i, compiles), short, full, old(params), params)
      {
        assert parts[k..][0] == parts[k] && parts[k..][1..] == parts[k + 1..];
        if ok {
          RemainsStep(all, parts[k..], i, compiles, short, full, old(params), params);
        }
        var piece;
        piece, i := ReadSegment(parts[k], i, compiles);
        if piece == None {
          ok := false;
        } else {
          short, full := short + "/" + CalcText(piece.value), full + "/" + FullText(piece.value);
          params := params + Pushed(piece.value);
        }
      }
      assert parts[|parts|..] == [];
      assert short + Calced([]) == short && full + Full([]) == full && params + ParamsOf([]) == params;
    }
  }

  function Pushed(p: Piece): seq<Param> {
    if p.Wildly? then [p.param] else []
  }

  /** One segment: static text, a catch-all or a parameter; missing names are numbered on the way. */
  method ReadSegment(part: string, i0: nat, compiles: Compiler) returns (piece: Option<Piece>, i: nat)
    ensures piece == PieceOf(part, i0, compiles) && i == NextNumber(part, i0)
  {
    hide MatchCatchAll, MatchParam, IsStaticPart, Decimal;
    i := i0;
    if IsStaticPart(part) {
      return Some(Plainly(part)), i;
    }
    var catchAll := MatchCatchAll(part);
    if catchAll.Some? {
      var (prefix, name) := catchAll.value;
      if |name| == 0 {
        name := Decimal(i);
        i := i + 1;
      }
      return Some(Wildly(CatchAllSeg(prefix, name))), i;
    }
    var param := MatchParam(part);
    if param.Some? {
      var (prefix, name, pattern) := param.value;
      if |name| == 0 {
        name := Decimal(i);
        i := i + 1;
      }
      if |pattern| == 0 {
        pattern := DEFAULT_PATTERN;
      }
      if compiles(pattern) {
        return Some(Wildly(ParamSeg(prefix, name, pattern))), i;
      }
    }
    return None, i;
  }

  /** After some segments `rest` is still to come, and the texts gathered so far precede its texts. */
  ghost predicate Remains(all: Option<seq<Piece>>, rest: Option<seq<Piece>>, short: string, full: string,
                          before: seq<Param>, params: seq<Param>) {
    && all.Some? == rest.Some?
    && (all.Some? ==>
        && Calced(all.value) == short + Calced(rest.value)
        && Full(all.value) == full + Full(rest.value)
        && before + ParamsOf(all.value) == params + ParamsOf(rest.value))
  }

  lemma RemainsStep(all: Option<seq<Piece>>, parts: seq<string>, i: nat, compiles: Compiler, short: string,
                    full: string, before: seq<Param>, params: seq<Param>)
    requires parts != [] && Remains(all, Pieces(parts, i, compiles), short, full, before, params)
    ensures var piece := PieceOf(parts[0], i, compiles);
            if piece == None then all == None else
            Remains(all, Pieces(parts[1..], NextNumber(parts[0], i), compiles),
                    short + "/" + CalcText(piece.value), full + "/" + FullText(piece.value), before,
                    params + Pushed(piece.value))
  {
    if all == None {
      return;
    }
    var p := PieceOf(parts[0], i, compiles).value;
    var ps := Pieces(parts[1..], NextNumber(parts[0], i), compiles).value;
    assert Pieces(parts, i, compiles) == Some([p] + ps);
    Cons(p, ps);
    Regroup(short, CalcText(p), Calced(ps));
    Regroup(full, FullText(p), Full(ps));
    assert params + (Pushed(p) + ParamsOf(ps)) == (params + Pushed(p)) + ParamsOf(ps);
  }

  lemma Cons(p: Piece, ps: seq<Piece>)
    ensures Calced([p] + ps) == "/" + CalcText(p) + Calced(ps)
    ensures Full([p] + ps) == "/" + FullText(p) + Full(ps)
    ensures ParamsOf([p] + ps) == Pushed(p) + ParamsOf(ps)
  {
    assert ([p] + ps)[0] == p && ([p] + ps)[1..] == ps;
  }

  lemma Regroup(a: string, b: string, c: string)
    ensures a + ("/" + b + c) == (a + "/" + b) + c
  {
  }
}
