/** Routers of static routes only: the tree is the finite map from paths to controllers. */
module StaticRoutes {
  import opened Text
  import opened RouteTree
  import opened RouteInsertion
  import opened RouteConflicts
  import opened Patterns
  import opened PatternProofs
  import opened Lookup
  import opened LookupProofs
  import opened RouteMap
  import opened StaticTrees

  /** Static routes and texts the parser rejects. */
  predicate StaticEntries(es: seq<Entry>, compiles: Compiler) {
    forall e :: e in es ==> StaticRoute(e.path) || Parse(e.path, compiles) == None
  }

  /** The first controller given for each static path. */
  function StaticTable(es: seq<Entry>): map<string, Controller> {
    if es == [] then map[]
    else
      var m, e := StaticTable(es[..|es| - 1]), es[|es| - 1];
      if StaticRoute(e.path) && e.path !in m then m[e.path := e.ctrl] else m
  }

  /** The tree of a table: nothing but its paths, and compressed. */
  ghost predicate Holds(n: Node, m: map<string, Controller>) {
    && Valid(n) && (forall r :: Reg(n, Lit(r)) == Get(m, r))
    && (m == map[] <==> n == FreshRoot())
    && (n != FreshRoot() ==> Static(n) && Compact(n) && Handles(n) == |m|)
  }

  /** Only texts are registered in a static tree. */
  lemma {:induction false} StaticKey(n: Node, t: Route) returns (s: string)
    requires Plain(n) && Static(n) && Reg(n, t).Some?
    ensures t == Lit(s)
    decreases n
  {
    hide Plain, Static, Reg, RegBelow, Head, Lit;
    RegHead(n, t);
    HeadPlain(n);
    var r := t[|Head(n)|..];
    RegSplit(n, r);
    if r == [] {
      s := n.path;
    } else {
      var kid := StaticBelow(n, r);
      var s' := StaticKey(kid, r);
      s := n.path + s';
      LitConcat(n.path, s');
    }
  }

  lemma LitConcat(a: string, b: string)
    ensures Lit(a + b) == Lit(a) + Lit(b)
  {
  }

  lemma StaticBelow(n: Node, r: Route) returns (kid: Node)
    requires Plain(n) && Static(n) && r != [] && RegBelow(n, r).Some?
    ensures kid in n.children && Plain(kid) && Static(kid) && Reg(kid, r).Some?
  {
    BelowOrdinary(n, r);
    kid := n.children[IndexOf(Firsts(n.children), r[0]).value];
  }

  lemma {:induction false} StaticConflict(path: string, s: string)
    requires PARAM_CHAR !in path && Conflict(path, Lit(s))
    ensures path == s
    decreases path
  {
    if path != "" && s != "" {
      assert Lit(s)[0] == Ch(s[0]) && Lit(s)[1..] == Lit(s[1..]);
      StaticConflict(path[1..], s[1..]);
      assert path == [path[0]] + path[1..] && s == [s[0]] + s[1..];
    }
  }

  lemma LitInjective(a: string, b: string)
    requires Lit(a) == Lit(b)
    ensures a == b
  {
    LitPrefix(a, b);
    LitPrefix(b, a);
  }

  /** One static addition. */
  lemma StaticAddition(n: Node, m: map<string, Controller>, e: Entry, compiles: Compiler)
    requires Holds(n, m) && StaticRoute(e.path)
    ensures var o := AddRoute(n, e, compiles);
            && o.ok == (e.path !in m)
            && Holds(o.tree, if o.ok then m[e.path := e.ctrl] else m)
  {
    hide Parse, StaticRoute, Plain, Static, Compact, Handles, Reg, Insert, InsertChild, Conflict, Toks, Trail, Tail,
         Wilds;
    var path, c := e.path, e.ctrl;
    StaticParse(path, compiles);
    ParsedShape(path, compiles);
    RootCases(n);
    var o := AddRoute(n, e, compiles);
    assert o == InsertRoot(n, path, [], c);
    StaticPattern(n, path);
    if n == FreshRoot() {
      EmptyRoot(Lit(path));
      StaticLeaf(n, path, [], c);
    } else {
      StaticInsert(n, path, [], c);
      StaticRejects(n, path, c);
    }
    RootEffect(n, path, [], c, []);
    var m' := if o.ok then m[path := c] else m;
    forall r ensures Reg(o.tree, Lit(r)) == Get(m', r) {
      RootEffect(n, path, [], c, Lit(r));
      if Lit(r) == Lit(path) { LitInjective(r, path); }
    }
  }

  lemma RootCases(n: Node)
    requires Valid(n)
    ensures n != FreshRoot() ==> Plain(n) && n.path != "" && n.path[0] == '/'
  {
  }

  /** A static path is registered as itself. */
  lemma StaticPattern(n: Node, path: string)
    requires Valid(n) && path != "" && path[0] == '/' && PARAM_CHAR !in path
    ensures RootPattern(n, path, []) == Lit(path) && Wilds(path) == 0
  {
    NoWilds(path);
    ToksLit(path, "", []);
    assert path + "" == path && Toks(path, []) == Lit(path);
    if n != FreshRoot() {
      WalkDividesWilds(n, path);
      EffectiveIsRequested(n, path, []);
    }
  }

  /** A static route is rejected only where it is already registered. */
  lemma StaticRejects(n: Node, path: string, c: Controller)
    requires Plain(n) && Static(n) && path != "" && path[0] == n.path[0] && PARAM_CHAR !in path && Wilds(path) == 0
    ensures !Insert(n, path, [], c).ok ==> Reg(n, Lit(path)).Some?
  {
    if !Insert(n, path, [], c).ok {
      var t := RejectedHasConflict(n, path, [], c);
      var s := StaticKey(n, t);
      StaticConflict(path, s);
    }
  }

  /** After any sequence of static additions the tree holds the table. */
  lemma {:induction false} TreeHoldsTable(es: seq<Entry>, compiles: Compiler)
    requires StaticEntries(es, compiles)
    ensures Holds(TreeOf(es, compiles), StaticTable(es))
  {
    if es == [] {
      forall r ensures Reg(FreshRoot(), Lit(r)) == None {
        EmptyRoot(Lit(r));
      }
    } else {
      var es', e := es[..|es| - 1], es[|es| - 1];
      TreeHoldsTable(es', compiles);
      if StaticRoute(e.path) {
        StaticAddition(TreeOf(es', compiles), StaticTable(es'), e, compiles);
      }
    }
  }

  /** Static refinement: lookups return the table's controllers and bind nothing, and an addition fails exactly
      for a path already there or one the parser rejects. */
  lemma StaticRefinement(es: seq<Entry>, e: Entry, compiles: Compiler, request: string, params: Params, acc: Matcher)
    requires StaticEntries(es + [e], compiles)
    ensures var f := Forward(TreeOf(es, compiles), request, params, acc);
            f.ctrl == Get(StaticTable(es), request) && f.params == params
    ensures AddRoute(TreeOf(es, compiles), e, compiles).ok == (StaticRoute(e.path) && e.path !in StaticTable(es))
  {
    hide Parse, StaticRoute, AddRoute, Plain, Static, Compact, Handles, Reg, Forward, TreeOf, StaticTable;
    assert forall x :: x in es ==> x in es + [e];
    assert e in es + [e];
    var n := TreeOf(es, compiles);
    TreeHoldsTable(es, compiles);
    if n != FreshRoot() {
      RootCases(n);
      StaticForward(n, request, params, acc);
    } else {
      EmptyRoot(Lit(request));
      NothingServed(request, params, acc);
    }
    if StaticRoute(e.path) {
      StaticAddition(n, StaticTable(es), e, compiles);
    } else {
      Unparsed(n, e, compiles);
    }
  }

  lemma NothingServed(request: string, params: Params, acc: Matcher)
    ensures Forward(FreshRoot(), request, params, acc) == Found(None, params, false)
  {
  }

  lemma Unparsed(n: Node, e: Entry, compiles: Compiler)
    requires Parse(e.path, compiles) == None
    ensures !AddRoute(n, e, compiles).ok
  {
  }

  /** With n accepted routes the tree has at most 2n - 1 nodes. */
  lemma StaticSize(es: seq<Entry>, compiles: Compiler)
    requires StaticEntries(es, compiles) && StaticTable(es) != map[]
    ensures Size(TreeOf(es, compiles)) <= 2 * |StaticTable(es)| - 1
  {
    TreeHoldsTable(es, compiles);
    CompressionBound(TreeOf(es, compiles));
  }

  /** A request that only lacks the final slash of a route is refused with the hint. */
  lemma StaticTrailingSlash(es: seq<Entry>, compiles: Compiler, r: string, params: Params, acc: Matcher)
    requires StaticEntries(es, compiles) && r !in StaticTable(es) && r + "/" in StaticTable(es)
    ensures Forward(TreeOf(es, compiles), r, params, acc) == Found(None, params, true)
  {
    TreeHoldsTable(es, compiles);
    assert Reg(TreeOf(es, compiles), Lit(r)) == Get(StaticTable(es), r);
    assert Reg(TreeOf(es, compiles), Lit(r + "/")) == Get(StaticTable(es), r + "/");
    TrailingSlash(TreeOf(es, compiles), r, params, acc);
  }

  // ---------------------------------------------------------------- order

  predicate DistinctPaths(es: seq<Entry>) {
    forall i, j :: 0 <= i < j < |es| ==> es[i].path != es[j].path
  }

  lemma {:induction false} TableEntries(es: seq<Entry>, r: string, c: Controller)
    requires DistinctPaths(es)
    ensures Get(StaticTable(es), r) == Some(c) <==> StaticRoute(r) && Entry(r, c) in es
    ensures r in StaticTable(es) ==> exists d :: Entry(r, d) in es
  {
    if es != [] {
      var es', e := es[..|es| - 1], es[|es| - 1];
      assert es == es' + [e];
      TableEntries(es', r, c);
      TableEntries(es', e.path, e.ctrl);
      assert forall d :: Entry(e.path, d) !in es';
    }
  }

  /** Lookups do not depend on the order in which routes with distinct paths were added. */
  lemma OrderIrrelevant(es: seq<Entry>, es': seq<Entry>, compiles: Compiler, request: string, params: Params,
                        acc: Matcher)
    requires StaticEntries(es, compiles) && StaticEntries(es', compiles)
    requires DistinctPaths(es) && DistinctPaths(es') && forall e :: e in es <==> e in es'
    ensures SameService(Forward(TreeOf(es, compiles), request, params, acc), Forward(TreeOf(es', compiles), request,
            params, acc))
  {
    LookupIsTable(es, compiles, request, params, acc);
    LookupIsTable(es', compiles, request, params, acc);
    if request in StaticTable(es) {
      TableEntries(es, request, StaticTable(es)[request]);
      TableEntries(es', request, StaticTable(es)[request]);
    } else if request in StaticTable(es') {
      TableEntries(es, request, StaticTable(es')[request]);
      TableEntries(es', request, StaticTable(es')[request]);
    }
  }

  lemma LookupIsTable(es: seq<Entry>, compiles: Compiler, request: string, params: Params, acc: Matcher)
    requires StaticEntries(es, compiles)
    ensures var f := Forward(TreeOf(es, compiles), request, params, acc);
            f.ctrl == Get(StaticTable(es), request) && f.params == params
  {
    assert Parse("", compiles) == None;
    StaticRefinement(es, Entry("", 0), compiles, request, params, acc);
  }
}
