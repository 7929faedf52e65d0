/** The order of the routes: the service is a function of the filed patterns, and which orders file alike. */
module RouteOrders {
  import opened Text
  import opened RouteTree
  import opened RouteInsertion
  import opened Patterns
  import opened PatternProofs
  import opened Lookup
  import opened LookupProofs
  import opened RouteMap
  import opened SharedParameters
  import opened Router

  // ---------------------------------------------------------------- equal maps

  /** Histories that file the same patterns give the same answers, whatever else happened in them. */
  lemma SameMapServes(es: seq<Entry>, es': seq<Entry>, compiles: Compiler, request: string, params: Params,
                      acc: Matcher)
    requires FiledOf(es, compiles) == FiledOf(es', compiles)
    ensures SameAnswer(Forward(TreeOf(es, compiles), request, params, acc),
                       Forward(TreeOf(es', compiles), request, params, acc))
  {
    hide FiledOf, TreeOf, Agrees, Forward;
    TreeIsFiled(es, compiles);
    TreeIsFiled(es', compiles);
    SameTableServes(TreeOf(es, compiles), TreeOf(es', compiles), FiledOf(es, compiles), request, params, acc);
  }

  /** The same for whole routers. */
  lemma SameMapsServe(f: Forest, rs: seq<Decl>, prefix: string, f': Forest, rs': seq<Decl>, prefix': string,
                      compiles: Compiler, mtd: HttpMethod, request: string, params: Params, acc: Matcher)
    requires Grown(f, rs, prefix, compiles) && Grown(f', rs', prefix', compiles)
    requires FiledOf(EntriesOf(rs, prefix, mtd), compiles) == FiledOf(EntriesOf(rs', prefix', mtd), compiles)
    ensures SameAnswer(Serve(f, mtd, request, params, acc), Serve(f', mtd, request, params, acc))
  {
    MethodIsolation(f, rs, prefix, compiles, mtd, request, params, acc);
    MethodIsolation(f', rs', prefix', compiles, mtd, request, params, acc);
    SameMapServes(EntriesOf(rs, prefix, mtd), EntriesOf(rs', prefix', mtd), compiles, request, params, acc);
  }

  // ---------------------------------------------------------------- orders

  /** No route collides with the pattern of another one. */
  predicate ConflictFree(es: seq<Entry>, compiles: Compiler) {
    forall i, j :: 0 <= i < |es| && 0 <= j < |es| && i != j ==> NoClash(es[i], es[j], compiles)
  }

  predicate NoClash(e: Entry, e': Entry, compiles: Compiler) {
    Parse(e.path, compiles).Some? && Parse(e'.path, compiles).Some?
    ==> !Conflict(Parse(e.path, compiles).value.calced, Pattern(e', compiles))
  }

  /** A path collides with the pattern it spells. */
  lemma {:induction false} SelfConflict(path: string, q: seq<Param>)
    requires Wilds(path) <= |q|
    ensures Conflict(path, Toks(path, q))
  {
    if path != "" {
      ToksNonEmpty(path, q);
      if path[0] != PARAM_CHAR {
        SelfConflict(path[1..], q);
      } else if q[0].ParamSeg? {
        SelfConflict(path[1..], q[1..]);
      }
    }
  }

  /** `c` is declared for the pattern `t`. */
  predicate Declares(es: seq<Entry>, t: Route, c: Controller, compiles: Compiler) {
    exists e :: e in es && e.ctrl == c && Parse(e.path, compiles).Some? && Pattern(e, compiles) == t
  }

  /** Without collisions the map of spelled routes holds what is declared, and all of it. */
  lemma {:induction false} SpelledTable(es: seq<Entry>, t: Route, c: Controller, compiles: Compiler)
    requires ConflictFree(es, compiles)
    ensures Get(TableOf(es, compiles), t) == Some(c) <==> Declares(es, t, c, compiles)
    decreases es
  {
    hide ConflictFree, Conflict, Parse, Pattern, TableOf;
    if es == [] {
      NothingSpelled(compiles);
    } else {
      var n := |es| - 1;
      var less, e := es[..n], es[n];
      FewerConflictFree(es, compiles);
      SpelledTable(less, t, c, compiles);
      LastDeclares(es, t, c, compiles);
      LastStep(es, n, compiles);
      assert es[..n + 1] == es;
      var m := TableOf(less, compiles);
      if Parse(e.path, compiles).Some? {
        forall u | u in m ensures !Conflict(Parse(e.path, compiles).value.calced, u) {
          SpelledTable(less, u, m[u], compiles);
          var e' :| e' in less && e'.ctrl == m[u] && Parse(e'.path, compiles).Some? && Pattern(e', compiles) == u;
          LastClashes(es, e', compiles);
        }
        assert Accepts(m, e, compiles);
        if t == Pattern(e, compiles) && Declares(less, t, c, compiles) {
          var e' :| e' in less && e'.ctrl == c && Parse(e'.path, compiles).Some? && Pattern(e', compiles) == t;
          LastClashes(es, e', compiles);
          SpelledConflict(e, compiles);
          assert false;
        }
      }
    }
  }

  lemma NothingSpelled(compiles: Compiler)
    ensures TableOf([], compiles) == map[]
  {
  }

  lemma FewerConflictFree(es: seq<Entry>, compiles: Compiler)
    requires es != [] && ConflictFree(es, compiles)
    ensures ConflictFree(es[..|es| - 1], compiles)
  {
    var less := es[..|es| - 1];
    forall i, j | 0 <= i < |less| && 0 <= j < |less| && i != j ensures NoClash(less[i], less[j], compiles) {
      assert NoClash(es[i], es[j], compiles);
    }
  }

  lemma LastClashes(es: seq<Entry>, e': Entry, compiles: Compiler)
    requires es != [] && ConflictFree(es, compiles) && e' in es[..|es| - 1]
    ensures NoClash(es[|es| - 1], e', compiles)
  {
    var j :| 0 <= j < |es| - 1 && es[j] == e';
  }

  lemma SpelledConflict(e: Entry, compiles: Compiler)
    requires Parse(e.path, compiles).Some?
    ensures Conflict(Parse(e.path, compiles).value.calced, Pattern(e, compiles))
  {
    ParsedShape(e.path, compiles);
    var p := Parse(e.path, compiles).value;
    SelfConflict(p.calced, p.params);
  }

  lemma LastDeclares(es: seq<Entry>, t: Route, c: Controller, compiles: Compiler)
    requires es != []
    ensures var (less, e) := (es[..|es| - 1], es[|es| - 1]);
            Declares(es, t, c, compiles) <==>
            Declares(less, t, c, compiles) || (e.ctrl == c && Parse(e.path, compiles).Some?
              && Pattern(e, compiles) == t)
  {
    hide Parse, Pattern;
    assert es == es[..|es| - 1] + [es[|es| - 1]];
  }

  /** Two orders of routes that collide nowhere, and repeat in both what they share, file alike and give the same
      answers. */
  lemma AnyOrder(es: seq<Entry>, es': seq<Entry>, compiles: Compiler, request: string, params: Params, acc: Matcher)
    requires (forall e :: e in es <==> e in es') && ConflictFree(es, compiles) && ConflictFree(es', compiles)
    requires AsSpelled(es, compiles) && AsSpelled(es', compiles)
    ensures FiledOf(es, compiles) == FiledOf(es', compiles)
    ensures SameAnswer(Forward(TreeOf(es, compiles), request, params, acc),
                       Forward(TreeOf(es', compiles), request, params, acc))
  {
    TreeIsMap(es, compiles);
    TreeIsMap(es', compiles);
    hide ConflictFree, TableOf, Parse, Pattern, AsSpelled, FiledOf, TreeOf, Forward;
    var m, m' := TableOf(es, compiles), TableOf(es', compiles);
    forall t ensures Get(m, t) == Get(m', t) {
      if t in m {
        SpelledTable(es, t, m[t], compiles);
        SpelledTable(es', t, m[t], compiles);
      } else if t in m' {
        SpelledTable(es, t, m'[t], compiles);
        SpelledTable(es', t, m'[t], compiles);
      }
    }
    SameGets(m, m');
    SameMapServes(es, es', compiles, request, params, acc);
  }

  /** Repeating must hold in both orders: of "/{p:x}/a" and "/{p:x}/b/{r:y}" the second is filed as spelled when it
      comes first, and not when it comes second. */
  lemma OrderMatters(p: string, r: string, compiles: Compiler)
    requires Declarable("x", p, compiles) && Declarable("y", r, compiles)
    ensures var t := [Ch('/'), Par("x", p)] + Lit("/b/") + [Par("y", r)];
            && Get(FiledOf([First(p), Third(p, r)], compiles), t) == None
            && Get(FiledOf([Third(p, r), First(p)], compiles), t) == Some(3)
  {
    ThirdParse(p, r, compiles);
    ThirdSpelled(p, r, compiles);
    hide Declarable, Third, First, Reg, AddRoute, TreeOf, FiledOf, Parse, Pattern;
    var t := Pattern(Third(p, r), compiles);
    SharedParameterMistypes(p, r, compiles);
    var es := [First(p), Third(p, r)];
    LastStep(es, 1, compiles);
    assert es[..1] == [First(p)] && es[..2] == es;
    TreeIsFiled(es, compiles);
    assert Reg(TreeOf(es, compiles), t) == Get(FiledOf(es, compiles), t);
    var es' := [Third(p, r), First(p)];
    assert es'[..0] == [] && es'[..2] == es';
    NothingFiledFirst(Third(p, r), compiles);
    FiledStays(es', 0, 2, compiles);
  }

  lemma ThirdSpelled(p: string, r: string, compiles: Compiler)
    requires Declarable("x", p, compiles) && Declarable("y", r, compiles) && Parse(Third(p, r).path, compiles).Some?
    ensures Pattern(Third(p, r), compiles) == [Ch('/'), Par("x", p)] + Lit("/b/") + [Par("y", r)]
    ensures Third(p, r).ctrl == 3
  {
    ThirdParse(p, r, compiles);
    var q := [Var("x", p), Var("y", r)];
    assert Pattern(Third(p, r), compiles) == Toks("/:/b/:", q);
    ThirdWhole(Var("x", p), Var("y", r));
  }

  lemma ThirdWhole(x: Param, y: Param)
    requires x.ParamSeg? && y.ParamSeg?
    ensures Toks("/:/b/:", [x, y]) == [Ch('/'), TokenOf(x)] + Lit("/b/") + [TokenOf(y)]
  {
    assert "/:/b/:"[1..] == ":/b/:" && ":/b/:"[1..] == "/b/:" && "/b/:" == "/b/" + ":" && [x, y][1..] == [y];
    ToksLit("/b/", ":", [y]);
    assert Toks(":", [y]) == [TokenOf(y)];
    assert Toks(":/b/:", [x, y]) == [TokenOf(x)] + Toks("/b/:", [y]);
    assert Toks("/:/b/:", [x, y]) == [Ch('/')] + Toks(":/b/:", [x, y]);
    hide Toks, Lit;
    assert [Ch('/')] + ([TokenOf(x)] + (Lit("/b/") + [TokenOf(y)]))
           == [Ch('/'), TokenOf(x)] + Lit("/b/") + [TokenOf(y)];
  }

  /** An empty map accepts every route and files it as spelled. */
  lemma NothingFiledFirst(e: Entry, compiles: Compiler)
    requires Parse(e.path, compiles).Some?
    ensures Accepts(FiledOf([], compiles), e, compiles)
    ensures FiledEntry(FiledOf([], compiles), e, compiles) == Pattern(e, compiles)
  {
    assert FiledOf([], compiles) == map[];
  }
}
