/** Mounting static routes under a prefix with parameters. */
module ParameterMounts {
  import opened Text
  import opened RouteTree
  import opened RouteInsertion
  import opened RouteFiling
  import opened Patterns
  import opened PatternProofs
  import opened PathParsing
  import opened Lookup
  import opened LookupProofs
  import opened RouteMap
  import opened StaticRoutes
  import opened Router
  import opened RouteOrders
  import opened Mounts

  /** A prefix whose wildcards are parameters. */
  predicate ParameterPrefix(prefix: string, compiles: Compiler) {
    IsSubRoutePrefix(prefix) && Parse(prefix, compiles).Some? && AllParameters(Parse(prefix, compiles).value.params)
  }

  predicate AllParameters(q: seq<Param>) {
    forall j :: 0 <= j < |q| ==> q[j].ParamSeg?
  }

  /** The pattern of the prefix. */
  function PrefixPattern(prefix: string, compiles: Compiler): Route
    requires ParameterPrefix(prefix, compiles)
  {
    var p := Parse(prefix, compiles).value;
    Toks(p.calced, p.params)
  }

  // ---------------------------------------------------------------- parsing

  lemma {:induction false} PiecesThenStatic(parts: seq<string>, more: seq<string>, i: nat, compiles: Compiler)
    requires forall part :: part in more ==> IsStaticPart(part)
    ensures var (ps, all) := (Pieces(parts, i, compiles), Pieces(parts + more, i, compiles));
            && ps.Some? == all.Some?
            && (ps.Some? ==>
                  Calced(all.value) == Calced(ps.value) + Join(more) && ParamsOf(all.value) == ParamsOf(ps.value))
    decreases parts
  {
    hide IsStaticPart, PieceOf, NextNumber, Join;
    if parts == [] {
      assert parts + more == more;
      StaticPieces(more, i, compiles);
      assert "" + Join(more) == Join(more);
    } else {
      assert (parts + more)[1..] == parts[1..] + more;
      PiecesThenStatic(parts[1..], more, NextNumber(parts[0], i), compiles);
      if Pieces(parts, i, compiles).Some? {
        var p := PieceOf(parts[0], i, compiles).value;
        var ps := Pieces(parts[1..], NextNumber(parts[0], i), compiles).value;
        var all := Pieces(parts[1..] + more, NextNumber(parts[0], i), compiles).value;
        assert Pieces(parts, i, compiles) == Some([p] + ps) && Pieces(parts + more, i, compiles) == Some([p] + all);
        hide Pieces, Calced, ParamsOf, CalcText, Pushed;
        Cons(p, ps);
        Cons(p, all);
        Reassociate("/" + CalcText(p), Calced(ps), Join(more));
      }
    }
  }

  /** A static route behind the prefix. */
  lemma MountedParse(prefix: string, r: string, compiles: Compiler)
    requires ParameterPrefix(prefix, compiles) && StaticRoute(r)
    ensures Parse(prefix + r, compiles).Some?
    ensures var (p, all) := (Parse(prefix, compiles).value, Parse(prefix + r, compiles).value);
            all.calced == p.calced + r && all.params == p.params
  {
    hide Segments, Pieces, Calced, ParamsOf, Full, Join, IsStaticPart;
    PrefixedSegments(prefix, r);
    PiecesThenStatic(Segments(prefix), Segments(r), 1, compiles);
    RouteIsJoin(r);
    var whole, ps := prefix + r, Pieces(Segments(prefix), 1, compiles).value;
    assert whole[|whole| - 1] == r[|r| - 1];
    var end := if r[|r| - 1] == '/' then "/" else "";
    assert Calced(ps) + "" == Calced(ps);
    assert Calced(ps) + Join(Segments(r)) + end == Calced(ps) + (Join(Segments(r)) + end);
  }

  // ---------------------------------------------------------------- patterns behind the prefix

  /** The pattern of a path, one character on. */
  lemma ToksStep(path: string, q: seq<Param>) returns (more: seq<Param>)
    requires path != "" && Wilds(path) <= |q| && AllParameters(q)
    ensures more == (if path[0] == PARAM_CHAR then q[1..] else q) && Wilds(path[1..]) <= |more| && AllParameters(more)
    ensures Toks(path, q) != [] && Toks(path, q)[0] == if path[0] == PARAM_CHAR then TokenOf(q[0]) else Ch(path[0])
    ensures Toks(path, q) == [Toks(path, q)[0]] + Toks(path[1..], more) && Same(path[0], Toks(path, q)[0])
    ensures Toks(path, q)[0].Par? <==> path[0] == PARAM_CHAR
    ensures !Toks(path, q)[0].All?
  {
    more := if path[0] == PARAM_CHAR then q[1..] else q;
  }

  lemma {:induction false} ToksBehind(path: string, r: string, q: seq<Param>)
    requires Wilds(path) <= |q| && AllParameters(q) && PARAM_CHAR !in r
    ensures Toks(path + r, q) == Toks(path, q) + Lit(r)
    decreases path
  {
    if path == "" {
      ToksLit(r, "", q);
      assert r + "" == r == path + r && Lit(r) + [] == Lit(r) && [] + Lit(r) == Lit(r);
    } else {
      OneOff(path, r);
      var more := ToksStep(path, q);
      ToksBehind(path[1..], r, more);
      assert Toks(path + r, q) == [Toks(path, q)[0]] + Toks((path + r)[1..], more);
      hide Toks, Lit, Wilds;
      Reassociate([Toks(path, q)[0]], Toks(path[1..], more), Lit(r));
    }
  }

  lemma Reassociate<T>(a: seq<T>, b: seq<T>, c: seq<T>)
    ensures a + (b + c) == a + b + c
  {
  }

  lemma {:induction false} ConflictBehind(path: string, r: string, q: seq<Param>, t: Route)
    requires Wilds(path) <= |q| && AllParameters(q)
    ensures Conflict(path + r, Toks(path, q) + t) == Conflict(r, t)
    decreases path
  {
    if path == "" {
      assert path + r == r && [] + t == t;
    } else {
      var more := ToksStep(path, q);
      hide Toks, Wilds;
      OneOff(path, r);
      OneOff(Toks(path, q), t);
      OneOff([Toks(path, q)[0]], Toks(path[1..], more));
      ConflictBehind(path[1..], r, more, t);
    }
  }

  lemma {:induction false} AlongBehind(path: string, r: string, q: seq<Param>, t: Route, q': seq<Param>)
    requires Wilds(path) <= |q| && AllParameters(q)
    ensures Along(path + r, Toks(path, q) + t, q') == Toks(path, q) + Along(r, t, q')
    decreases path
  {
    hide Along, Agreement;
    if path == "" {
      assert path + r == r && [] + t == t;
    } else {
      var more := ToksStep(path, q);
      hide Toks, Wilds;
      OneOff(path, r);
      OneOff(Toks(path, q), t);
      OneOff([Toks(path, q)[0]], Toks(path[1..], more));
      AgreementStep(path + r, Toks(path, q) + t, q');
      AlongBehind(path[1..], r, more, t, q');
      Reassociate([Toks(path, q)[0]], Toks(path[1..], more), Along(r, t, q'));
    }
  }

  /** Along other static text a static text is filed as itself. */
  lemma {:induction false} AlongStatic(r: string, s: string, q: seq<Param>)
    requires PARAM_CHAR !in r
    ensures Along(r, Lit(s), q) == Lit(r)
    decreases r
  {
    if r == "" || s == "" || r[0] != s[0] {
      Apart(r, Lit(s), q);
      ToksLit(r, "", q);
      assert r + "" == r && Lit(r) + [] == Lit(r);
    } else {
      assert Lit(s)[1..] == Lit(s[1..]);
      AgreementStep(r, Lit(s), q);
      AlongStatic(r[1..], s[1..], q);
      assert Lit(r) == [Ch(r[0])] + Lit(r[1..]);
    }
  }

  lemma BehindInjective(t: Route, r: string, s: string)
    ensures t + Lit(r) == t + Lit(s) <==> r == s
  {
    if t + Lit(r) == t + Lit(s) {
      assert (t + Lit(r))[|t|..] == Lit(r) && (t + Lit(s))[|t|..] == Lit(s);
      LitInjective(r, s);
    }
  }

  // ---------------------------------------------------------------- the mounted map

  /** `m` holds the static routes of `table` behind the pattern `t`, and nothing else. */
  ghost predicate HoldsBehind(t: Route, table: map<string, Controller>, m: Table) {
    && (forall s :: Get(m, t + Lit(s)) == Get(table, s))
    && forall u :: u in m ==> exists s :: u == t + Lit(s)
  }

  lemma MountedAccepts(prefix: string, table: map<string, Controller>, m: Table, e: Entry, compiles: Compiler)
    requires ParameterPrefix(prefix, compiles) && StaticRoute(e.path)
             && HoldsBehind(PrefixPattern(prefix, compiles), table, m)
    ensures Accepts(m, e.(path := prefix + e.path), compiles) <==> e.path !in table
  {
    hide ParameterPrefix, StaticRoute, Conflict;
    var (t, r) := (PrefixPattern(prefix, compiles), e.path);
    var c, q := PrefixParts(prefix, e.path, compiles);
    if r in table {
      assert Get(m, t + Lit(r)) == Get(table, r);
      ConflictBehind(c, r, q, Lit(r));
      LitConflict(r);
    } else {
      forall u | u in m ensures !Conflict(c + r, u) {
        var s :| u == t + Lit(s);
        assert Get(m, t + Lit(s)) == Get(table, s);
        ConflictBehind(c, r, q, Lit(s));
        if Conflict(r, Lit(s)) {
          StaticConflict(r, s);
        }
      }
    }
  }

  lemma PrefixParts(prefix: string, r: string, compiles: Compiler) returns (c: string, q: seq<Param>)
    requires ParameterPrefix(prefix, compiles) && StaticRoute(r)
    ensures PrefixPattern(prefix, compiles) == Toks(c, q) && Wilds(c) == |q| && AllParameters(q) && SegmentEnds(c)
    ensures Parse(prefix + r, compiles).Some?
    ensures Parse(prefix + r, compiles).value.calced == c + r && Parse(prefix + r, compiles).value.params == q
    ensures PARAM_CHAR !in r && r != "" && r[0] == '/'
  {
    var p := Parse(prefix, compiles).value;
    c, q := p.calced, p.params;
    ParsedShape(prefix, compiles);
    MountedParse(prefix, r, compiles);
    StaticParse(r, compiles);
  }

  lemma LitConflict(r: string)
    requires PARAM_CHAR !in r
    ensures Conflict(r, Lit(r))
  {
    NoWilds(r);
    SelfConflict(r, []);
    ToksLit(r, "", []);
    assert r + "" == r && Toks(r, []) == Lit(r);
  }

  lemma MountedFiling(prefix: string, table: map<string, Controller>, m: Table, e: Entry, compiles: Compiler)
    requires ParameterPrefix(prefix, compiles) && StaticRoute(e.path)
             && HoldsBehind(PrefixPattern(prefix, compiles), table, m)
    ensures Parse(prefix + e.path, compiles).Some?
    ensures FiledEntry(m, e.(path := prefix + e.path), compiles) == PrefixPattern(prefix, compiles) + Lit(e.path)
  {
    hide ParameterPrefix, StaticRoute, Along, Shared;
    var (t, r) := (PrefixPattern(prefix, compiles), e.path);
    var c, q := PrefixParts(prefix, e.path, compiles);
    ToksBehind(c, r, q);
    forall u | Deepest(m, c + r, u) ensures Along(c + r, u, q) == t + Lit(r) {
      var s :| u == t + Lit(s);
      AlongBehind(c, r, q, Lit(s), q);
      AlongStatic(r, s, q);
    }
  }

  lemma MountedAddition(prefix: string, table: map<string, Controller>, m: Table, e: Entry, compiles: Compiler)
    requires ParameterPrefix(prefix, compiles) && StaticRoute(e.path)
             && HoldsBehind(PrefixPattern(prefix, compiles), table, m)
    ensures HoldsBehind(PrefixPattern(prefix, compiles), if e.path in table then table else table[e.path := e.ctrl],
                        FiledAdd(m, e.(path := prefix + e.path), compiles))
  {
    hide ParameterPrefix, StaticRoute, Accepts, FiledEntry, PrefixPattern, Parse;
    MountedAccepts(prefix, table, m, e, compiles);
    MountedFiling(prefix, table, m, e, compiles);
    var t := PrefixPattern(prefix, compiles);
    if e.path !in table {
      forall s ensures Get(m[t + Lit(e.path) := e.ctrl], t + Lit(s)) == Get(table[e.path := e.ctrl], s) {
        BehindInjective(t, e.path, s);
        assert Get(m, t + Lit(s)) == Get(table, s);
      }
    }
  }

  /** The map of a static builder mounted under the prefix. */
  lemma {:induction false} MountedMap(prefix: string, es: seq<Entry>, compiles: Compiler)
    requires ParameterPrefix(prefix, compiles) && forall e :: e in es ==> StaticRoute(e.path)
    ensures HoldsBehind(PrefixPattern(prefix, compiles), StaticTable(es), FiledOf(UnderPrefix(prefix, es), compiles))
    decreases es
  {
    hide ParameterPrefix, StaticRoute, HoldsBehind, FiledAdd, PrefixPattern;
    if es == [] {
      NothingBehind(PrefixPattern(prefix, compiles), compiles);
    } else {
      var less, e := es[..|es| - 1], es[|es| - 1];
      assert e in es;
      MountedMap(prefix, less, compiles);
      MountedAddition(prefix, StaticTable(less), FiledOf(UnderPrefix(prefix, less), compiles), e, compiles);
      var under := UnderPrefix(prefix, es);
      assert under[..|es| - 1] == UnderPrefix(prefix, less);
    }
  }

  lemma NothingBehind(t: Route, compiles: Compiler)
    ensures HoldsBehind(t, StaticTable([]), FiledOf([], compiles)) && UnderPrefix("", []) == []
    ensures forall prefix :: UnderPrefix(prefix, []) == []
  {
  }

  // ---------------------------------------------------------------- the service behind the prefix

  lemma OneOff<T>(a: seq<T>, b: seq<T>)
    requires a != []
    ensures (a + b)[0] == a[0] && (a + b)[1..] == a[1..] + b
  {
  }

  lemma {:induction false} FillBehind(t: Route, fills: seq<string>, s: string, acc: Matcher, m: Params)
    requires Fits(t, fills, acc)
    ensures Fits(t + Lit(s), fills, acc) && Fill(t + Lit(s), fills) == Fill(t, fills) + s
    ensures Bind(t + Lit(s), fills, acc, m) == Bind(t, fills, acc, m)
    decreases t
  {
    if t == [] {
      LastText(s, acc, m);
    } else {
      OneOff(t, Lit(s));
      hide Lit, Emplace;
      var more := if t[0].Ch? then fills else fills[1..];
      var m1 := match t[0]
        case Ch(_) => m
        case Par(name, p) => Emplace(m, name, fills[0])
        case All(name) => Emplace(m, name, fills[0]);
      FillBehind(t[1..], more, s, acc, m1);
      Reassociate(if t[0].Ch? then [t[0].c] else fills[0], Fill(t[1..], more), s);
    }
  }

  lemma LastText(s: string, acc: Matcher, m: Params)
    ensures [] + Lit(s) == Lit(s) && "" + s == s
    ensures Fits(Lit(s), [], acc) && Fill(Lit(s), []) == s && Bind(Lit(s), [], acc, m) == m
  {
    FillLit(s, [], [], acc, m);
    assert Lit(s) + [] == Lit(s) && s + "" == s;
  }

  lemma OneChar(c: char)
    ensures Lit([c]) == [Ch(c)]
  {
  }

  /** A request behind a filled prefix is explained only by its own rest. */
  lemma {:induction false} OnlyRest(c: string, q: seq<Param>, fills: seq<string>, s: string, g: seq<string>,
                                    junk: string, p: string, acc: Matcher)
    requires Wilds(c) <= |q| && AllParameters(q) && SegmentEnds(c) && Fits(Toks(c, q), fills, acc)
    requires s != "" && s[0] == '/' && p != "" && p[0] == '/'
    requires Explains(Toks(c, q) + Lit(s), g, junk, Fill(Toks(c, q), fills) + p, acc)
    ensures s == p
    decreases c
  {
    var t, request := Toks(c, q), Fill(Toks(c, q), fills) + p;
    if c == "" {
      assert t + Lit(s) == Lit(s) + [] && request == p;
      ExplainsDropLit(s, [], g, junk, p, acc);
    } else {
      SegmentEndsSuffix(c, 1);
      var more := ToksStep(c, q);
      var t1 := Toks(c[1..], more);
      OneOff(t, Lit(s));
      OneOff([t[0]], t1);
      hide Toks, Wilds, Explains, Lit, SegmentEnds;
      if c[0] == PARAM_CHAR {
        BehindParameter(c, q, fills, s, p, acc);
        MoreExplained(FreshRoot(), t + Lit(s), g, junk, request, acc);
        OnlyRest(c[1..], more, fills[1..], s, g[1..], junk, p, acc);
      } else {
        OneChar(c[0]);
        Reassociate([t[0]], t1, Lit(s));
        ExplainsDropLit([c[0]], t1 + Lit(s), g, junk, request, acc);
        Reassociate([c[0]], Fill(t1, fills), p);
        OneOff([c[0]], Fill(t1, fills) + p);
        OnlyRest(c[1..], more, fills, s, g, junk, p, acc);
      }
    }
  }

  /** After a parameter of the prefix comes a slash, in the pattern and in the request. */
  lemma BehindParameter(c: string, q: seq<Param>, fills: seq<string>, s: string, p: string, acc: Matcher)
    requires c != "" && c[0] == PARAM_CHAR && Wilds(c) <= |q| && AllParameters(q) && SegmentEnds(c)
    requires s != "" && s[0] == '/' && p != "" && p[0] == '/' && Fits(Toks(c, q), fills, acc)
    ensures var (t, t1) := (Toks(c, q), Toks(c[1..], q[1..]));
            && t == [t[0]] + t1 && t[0].Par? && |t + Lit(s)| > 1 && (t + Lit(s))[1] == Ch('/')
            && fills != [] && Fits(t1, fills[1..], acc)
            && var request := Fill(t, fills) + p;
            UntilSlash(request) == |fills[0]| && request[|fills[0]|..] == Fill(t1, fills[1..]) + p
  {
    PatternBehind(c, q, s);
    hide Toks, SegmentEnds, Wilds, Lit;
    var (t, t1) := (Toks(c, q), Toks(c[1..], q[1..]));
    var rest := Fill(t1, fills[1..]);
    assert t[1..] == t1 && Fill(t, fills) == fills[0] + rest;
    if t1 != [] {
      FitsNonEmpty(t1, fills[1..], acc);
    }
    RequestBehind(fills[0], rest, p);
  }

  lemma PatternBehind(c: string, q: seq<Param>, s: string)
    requires c != "" && c[0] == PARAM_CHAR && Wilds(c) <= |q| && AllParameters(q) && SegmentEnds(c)
    requires s != "" && s[0] == '/'
    ensures var (t, t1) := (Toks(c, q), Toks(c[1..], q[1..]));
            && t == [t[0]] + t1 && t[0].Par? && |t + Lit(s)| > 1 && (t + Lit(s))[1] == Ch('/')
            && (t1 != [] ==> t1[0] == Ch('/'))
  {
    if c[1..] != "" {
      assert c[1] == '/';
      ToksNonEmpty(c[1..], q[1..]);
    }
  }

  lemma RequestBehind(a: string, rest: string, p: string)
    requires '/' !in a && p != "" && p[0] == '/' && (rest != "" ==> rest[0] == '/')
    ensures var request := a + rest + p; UntilSlash(request) == |a| && request[|a|..] == rest + p
  {
    var request := a + rest + p;
    assert request == a + (rest + p);
    assert request[..|a|] == a && request[|a|..] == rest + p;
    UntilSlashUnique(request, |a|);
  }

  lemma TreeBehind(prefix: string, es: seq<Entry>, fills: seq<string>, p: string, compiles: Compiler, params: Params,
                   acc: Matcher)
    requires ParameterPrefix(prefix, compiles) && (forall e :: e in es ==> StaticRoute(e.path))
    requires Fits(PrefixPattern(prefix, compiles), fills, acc) && p != "" && p[0] == '/'
    ensures var t := PrefixPattern(prefix, compiles);
            var a := Forward(TreeOf(UnderPrefix(prefix, es), compiles), Fill(t, fills) + p, params, acc);
            && a.ctrl == Get(StaticTable(es), p)
            && (a.ctrl.Some? ==> a.params == Bind(t, fills, acc, params))
  {
    hide ParameterPrefix, Reg, TreeOf, FiledOf, StaticTable, Forward, Explains, Fill, Fits, Bind, UnderPrefix,
         PrefixPattern, StaticRoute;
    var (t, under) := (PrefixPattern(prefix, compiles), UnderPrefix(prefix, es));
    var n, m := TreeOf(under, compiles), FiledOf(under, compiles);
    MountedMap(prefix, es, compiles);
    TreeIsFiled(under, compiles);
    FillBehind(t, fills, p, acc, params);
    assert Reg(n, t + Lit(p)) == Get(m, t + Lit(p)) == Get(StaticTable(es), p);
    EmptyRoot(t + Lit(p));
    EmptyServes(Fill(t, fills) + p, params, acc);
    if p in StaticTable(es) {
      Completeness(n, t + Lit(p), fills, params, acc);
    } else if Forward(n, Fill(t, fills) + p, params, acc).ctrl.Some? {
      var u, g, junk := Soundness(n, Fill(t, fills) + p, params, acc);
      assert Reg(n, u) == Get(m, u);
      var s :| u == t + Lit(s);
      assert Get(m, t + Lit(s)) == Get(StaticTable(es), s);
      TableIsStatic(es, s);
      StaticStart(s);
      var c, q := PrefixParts(prefix, s, compiles);
      OnlyRest(c, q, fills, s, g, junk, p, acc);
    }
  }

  lemma StaticStart(s: string)
    requires StaticRoute(s)
    ensures s != "" && s[0] == '/'
  {
  }

  lemma {:induction false} TableIsStatic(es: seq<Entry>, s: string)
    requires s in StaticTable(es)
    ensures StaticRoute(s)
    decreases es
  {
    if es != [] && s in StaticTable(es[..|es| - 1]) {
      TableIsStatic(es[..|es| - 1], s);
    }
  }

  /** Mounting static routes under a prefix with parameters: a request that fills the prefix and goes on with p is
      answered as p is by the builder alone, with the parameters of the prefix bound. */
  lemma ParameterMounting(f: Forest, g: Forest, sub: seq<Decl>, prefix: string, compiles: Compiler, mtd: HttpMethod,
                          fills: seq<string>, p: string, params: Params, acc: Matcher)
    requires ParameterPrefix(prefix, compiles) && StaticDecls(sub)
    requires Grown(f, sub, "", compiles) && Grown(g, Mount([], prefix, sub), "", compiles)
    requires Fits(PrefixPattern(prefix, compiles), fills, acc) && p != "" && p[0] == '/'
    ensures var t := PrefixPattern(prefix, compiles);
            var (a, b) := (Serve(g, mtd, Fill(t, fills) + p, params, acc), Serve(f, mtd, p, params, acc));
            && a.ctrl == b.ctrl && b.params == params
            && (a.ctrl.Some? ==> a.params == Bind(t, fills, acc, params))
  {
    assert IsSubRoutePrefix(prefix);
    MountedAll(prefix, sub);
    hide ParameterPrefix, EntriesOf, StaticDecls, Grown, Serve, Forward, TreeOf, StaticTable, Prefixed, UnderPrefix,
         Fill, Fits, Bind, PrefixPattern;
    var t, es := PrefixPattern(prefix, compiles), EntriesOf(sub, "", mtd);
    MethodIsolation(f, sub, "", compiles, mtd, p, params, acc);
    MethodIsolation(g, Prefixed(prefix, sub), "", compiles, mtd, Fill(t, fills) + p, params, acc);
    EntriesUnder(sub, prefix, mtd);
    EntriesStatic(sub, mtd, compiles);
    LookupIsTable(es, compiles, p, params, acc);
    TreeBehind(prefix, es, fills, p, compiles, params, acc);
  }

  predicate StaticDecls(rs: seq<Decl>) {
    forall r :: r in rs ==> StaticRoute(r.path)
  }

  lemma {:induction false} EntriesStatic(rs: seq<Decl>, mtd: HttpMethod, compiles: Compiler)
    requires StaticDecls(rs)
    ensures forall e :: e in EntriesOf(rs, "", mtd) ==> StaticRoute(e.path)
    ensures StaticEntries(EntriesOf(rs, "", mtd), compiles)
  {
    hide StaticRoute;
    if rs != [] {
      EntriesStatic(rs[..|rs| - 1], mtd, compiles);
      var r := rs[|rs| - 1];
      assert r in rs && "" + r.path == r.path;
    }
  }
}
