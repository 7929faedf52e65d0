/** The router over all methods: declarations, one tree per method, sorting, lookup and mounting. */
module Router {
  import opened Text
  import opened RouteTree
  import opened RouteConflicts
  import opened Patterns
  import opened PatternProofs
  import opened Lookup
  import opened LookupProofs
  import opened RouteMap

  datatype HttpMethod = GET | HEAD | POST | PUT | DELETE | OPTIONS | CONNECT | TRACE | PATCH

  /** A declared route: method, path, controller. */
  datatype Decl = Decl(mtd: HttpMethod, path: string, ctrl: Controller)

  type Forest = seq<(HttpMethod, Node)>

  /** The additions one method's tree receives, in order. */
  function EntriesOf(rs: seq<Decl>, prefix: string, mtd: HttpMethod): seq<Entry> {
    if rs == [] then []
    else
      var es, r := EntriesOf(rs[..|rs| - 1], prefix, mtd), rs[|rs| - 1];
      if r.mtd == mtd then es + [Entry(prefix + r.path, r.ctrl)] else es
  }

  /** `Router::forward`: the first tree of the request's method decides. */
  function Serve(f: Forest, mtd: HttpMethod, path: string, params: Params, acc: Matcher): Found {
    if f == [] then Found(None, params, false)
    else if f[0].0 == mtd then Forward(f[0].1, path, params, acc)
    else Serve(f[1..], mtd, path, params, acc)
  }

  /** At most one tree for a method. */
  predicate OneTreeEach<T>(f: seq<(HttpMethod, T)>) {
    forall i, j :: 0 <= i < j < |f| ==> f[i].0 != f[j].0
  }

  /** The forest of the declarations `rs`: each method's own additions and nothing else. */
  ghost predicate Grown(f: Forest, rs: seq<Decl>, prefix: string, compiles: Compiler) {
    && OneTreeEach(f)
    && (forall i :: 0 <= i < |f| ==> f[i].1 == TreeOf(EntriesOf(rs, prefix, f[i].0), compiles))
    && (forall mtd :: EntriesOf(rs, prefix, mtd) != [] ==> exists i :: 0 <= i < |f| && f[i].0 == mtd)
  }

  /** Whether every declaration was accepted by its tree when its turn came. */
  ghost predicate AllAccepted(rs: seq<Decl>, prefix: string, compiles: Compiler) {
    forall k :: 0 <= k < |rs| ==> AcceptedAt(rs, k, prefix, compiles)
  }

  predicate AcceptedAt(rs: seq<Decl>, k: nat, prefix: string, compiles: Compiler)
    requires k < |rs|
  {
    AddRoute(TreeOf(EntriesOf(rs[..k], prefix, rs[k].mtd), compiles), Entry(prefix + rs[k].path, rs[k].ctrl),
      compiles).ok
  }

  // ---------------------------------------------------------------- method isolation and sorting

  lemma EmptyServes(path: string, params: Params, acc: Matcher)
    ensures Forward(FreshRoot(), path, params, acc) == Found(None, params, false)
  {
  }

  lemma {:induction false} ServeFinds(f: Forest, i: nat, mtd: HttpMethod, path: string, params: Params, acc: Matcher)
    requires OneTreeEach(f) && i < |f| && f[i].0 == mtd
    ensures Serve(f, mtd, path, params, acc) == Forward(f[i].1, path, params, acc)
  {
    if i > 0 {
      assert forall j :: 0 <= j < |f| - 1 ==> f[1..][j] == f[j + 1];
      ServeFinds(f[1..], i - 1, mtd, path, params, acc);
    }
  }

  lemma {:induction false} ServeMisses(f: Forest, mtd: HttpMethod, path: string, params: Params, acc: Matcher)
    requires forall i :: 0 <= i < |f| ==> f[i].0 != mtd
    ensures Serve(f, mtd, path, params, acc) == Found(None, params, false)
  {
    if f != [] {
      ServeMisses(f[1..], mtd, path, params, acc);
    }
  }

  /** A request is served by the routes of its own method alone, in whatever order the trees stand. */
  lemma MethodIsolation(f: Forest, rs: seq<Decl>, prefix: string, compiles: Compiler,
                        mtd: HttpMethod, path: string, params: Params, acc: Matcher)
    requires Grown(f, rs, prefix, compiles)
    ensures Serve(f, mtd, path, params, acc) == Forward(TreeOf(EntriesOf(rs, prefix, mtd), compiles), path, params, acc)
  {
    if i :| 0 <= i < |f| && f[i].0 == mtd {
      ServeFinds(f, i, mtd, path, params, acc);
    } else {
      ServeMisses(f, mtd, path, params, acc);
      assert EntriesOf(rs, prefix, mtd) == [];
      EmptyServes(path, params, acc);
    }
  }

  // ---------------------------------------------------------------- the router against its declarations

  /** Completeness for the whole router: a request made by filling the pattern of a registered route of its
      method reaches that route's controller with exactly those bindings. */
  lemma RouterComplete(f: Forest, rs: seq<Decl>, prefix: string, compiles: Compiler, mtd: HttpMethod,
                       t: Route, fills: seq<string>, params: Params, acc: Matcher)
    requires Grown(f, rs, prefix, compiles)
    requires t in FiledOf(EntriesOf(rs, prefix, mtd), compiles) && Fits(t, fills, acc)
    ensures Serve(f, mtd, Fill(t, fills), params, acc)
            == Found(Some(FiledOf(EntriesOf(rs, prefix, mtd), compiles)[t]), Bind(t, fills, acc, params), false)
  {
    var es := EntriesOf(rs, prefix, mtd);
    TreeIsFiled(es, compiles);
    MethodIsolation(f, rs, prefix, compiles, mtd, Fill(t, fills), params, acc);
    assert Reg(TreeOf(es, compiles), t) == Get(FiledOf(es, compiles), t);
    if TreeOf(es, compiles) == FreshRoot() {
      EmptyRoot(t);
    }
    Completeness(TreeOf(es, compiles), t, fills, params, acc);
  }

  /** Soundness for the whole router: a served request is explained by a filed pattern of its method, and that
      pattern begins every other one that explains the request. */
  lemma RouterSound(f: Forest, rs: seq<Decl>, prefix: string, compiles: Compiler, mtd: HttpMethod,
                    request: string, params: Params, acc: Matcher)
      returns (t: Route, fills: seq<string>, junk: string)
    requires Grown(f, rs, prefix, compiles)
    requires Serve(f, mtd, request, params, acc).ctrl.Some?
    ensures t in FiledOf(EntriesOf(rs, prefix, mtd), compiles)
    ensures Serve(f, mtd, request, params, acc)
            == Found(Some(FiledOf(EntriesOf(rs, prefix, mtd), compiles)[t]), Bind(t, fills, acc, params), false)
    ensures Explains(t, fills, junk, request, acc)
    ensures "" !in fills ==> Fits(t, fills, acc) && request == Fill(t, fills)
    ensures forall u, g, j ::
              u in FiledOf(EntriesOf(rs, prefix, mtd), compiles) && Explains(u, g, j, request, acc) ==> t <= u
  {
    var es := EntriesOf(rs, prefix, mtd);
    TreeIsFiled(es, compiles);
    MethodIsolation(f, rs, prefix, compiles, mtd, request, params, acc);
    var root := TreeOf(es, compiles);
    EmptyServes(request, params, acc);
    t, fills, junk := Soundness(root, request, params, acc);
    ServedWithoutHint(root, request, params, acc);
    assert forall u :: u in FiledOf(es, compiles) ==> Reg(root, u).Some?;
    assert Reg(root, t) == Get(FiledOf(es, compiles), t);
    if "" !in fills {
      LooseIsFit(t, fills, acc);
      assert fills != [] ==> fills[|fills| - 1] in fills;
      assert junk == "";
      assert Fill(t, fills) + "" == Fill(t, fills);
    }
  }

  /** Exactly the requests that some registered pattern of the method explains are served. */
  lemma RouterServes(f: Forest, rs: seq<Decl>, prefix: string, compiles: Compiler, mtd: HttpMethod,
                     request: string, params: Params, acc: Matcher)
    requires Grown(f, rs, prefix, compiles)
    ensures Serve(f, mtd, request, params, acc).ctrl.Some? <==>
            exists t, fills, junk ::
              t in FiledOf(EntriesOf(rs, prefix, mtd), compiles) && Explains(t, fills, junk, request, acc)
  {
    var es := EntriesOf(rs, prefix, mtd);
    var root, m := TreeOf(es, compiles), FiledOf(es, compiles);
    TreeIsFiled(es, compiles);
    MethodIsolation(f, rs, prefix, compiles, mtd, request, params, acc);
    if Serve(f, mtd, request, params, acc).ctrl.Some? {
      var t, fills, junk := RouterSound(f, rs, prefix, compiles, mtd, request, params, acc);
    }
    forall t, fills, junk | t in m && Explains(t, fills, junk, request, acc)
      ensures Serve(f, mtd, request, params, acc).ctrl.Some?
    {
      assert Reg(root, t) == Get(m, t);
      EmptyRoot(t);
      ExplainedIsServed(root, t, fills, junk, request, params, acc);
    }
  }

  /** Every accepted addition, whatever the others are, is served where it is filed, at its own controller. */
  lemma EntryIsServed(f: Forest, rs: seq<Decl>, prefix: string, compiles: Compiler, mtd: HttpMethod,
                      k: nat, fills: seq<string>, params: Params, acc: Matcher)
    requires Grown(f, rs, prefix, compiles) && AcceptedEntry(EntriesOf(rs, prefix, mtd), k, compiles)
    requires Fits(FiledAt(EntriesOf(rs, prefix, mtd), k, compiles), fills, acc)
    ensures var (e, t) := (EntriesOf(rs, prefix, mtd)[k], FiledAt(EntriesOf(rs, prefix, mtd), k, compiles));
            Serve(f, mtd, Fill(t, fills), params, acc) == Found(Some(e.ctrl), Bind(t, fills, acc, params), false)
  {
    hide AddRoute, TreeOf, FiledOf, Fits, Serve, EntriesOf, Grown, Agrees, Accepts, Bind, FiledEntry;
    var es := EntriesOf(rs, prefix, mtd);
    FiledStays(es, k, |es|, compiles);
    assert es[..|es|] == es;
    RouterComplete(f, rs, prefix, compiles, mtd, FiledAt(es, k, compiles), fills, params, acc);
  }

  /** The addition at position `k` was accepted, as the map of filed routes tells. */
  ghost predicate AcceptedEntry(es: seq<Entry>, k: nat, compiles: Compiler) {
    k < |es| && Accepts(FiledOf(es[..k], compiles), es[k], compiles)
  }

  /** That is, its `addRoute` returned true. */
  lemma AcceptedIsOk(es: seq<Entry>, k: nat, compiles: Compiler)
    requires k < |es|
    ensures AcceptedEntry(es, k, compiles) <==> AddRoute(TreeOf(es[..k], compiles), es[k], compiles).ok
  {
    TreeIsFiled(es[..k], compiles);
    AcceptsAgree(TreeOf(es[..k], compiles), FiledOf(es[..k], compiles), es[k], compiles);
  }

  /** Where the addition at position `k` was filed. */
  ghost function FiledAt(es: seq<Entry>, k: nat, compiles: Compiler): Route
    requires AcceptedEntry(es, k, compiles)
  {
    FiledEntry(FiledOf(es[..k], compiles), es[k], compiles)
  }

  /** No request is an instance of two routes of a method, nor of one in two ways. */
  lemma RouterUnambiguous(es: seq<Entry>, compiles: Compiler, t: Route, f: seq<string>, t': Route, f': seq<string>,
                          acc: Matcher)
    requires t in FiledOf(es, compiles) && t' in FiledOf(es, compiles)
    requires Fits(t, f, acc) && Fits(t', f', acc) && Fill(t, f) == Fill(t', f')
    ensures t == t' && f == f'
  {
    TreeIsFiled(es, compiles);
    var root := TreeOf(es, compiles);
    assert Reg(root, t) == Get(FiledOf(es, compiles), t) && Reg(root, t') == Get(FiledOf(es, compiles), t');
    EmptyRoot(t);
    Unambiguous(root, t, f, t', f', acc);
  }

  /** A failed addition changes the controller and the bindings of no request, after any history. */
  lemma FailedAdditionServes(es: seq<Entry>, e: Entry, compiles: Compiler, request: string, params: Params,
                             acc: Matcher)
    requires !AddRoute(TreeOf(es, compiles), e, compiles).ok
    ensures SameService(Forward(TreeOf(es + [e], compiles), request, params, acc),
                        Forward(TreeOf(es, compiles), request, params, acc))
  {
    assert (es + [e])[..|es|] == es;
    var root := TreeOf(es, compiles);
    TreeIsValid(es, compiles);
    match Parse(e.path, compiles)
    case None =>
    case Some(p) =>
      ParsedShape(e.path, compiles);
      if root != FreshRoot() {
        FailedInsertServes(root, p.calced, p.params, e.ctrl, request, params, acc);
      }
  }

  /** Two trees of one map give the same answers: the answer is a function of the map. */
  lemma SameTableServes(n: Node, n': Node, m: Table, request: string, params: Params, acc: Matcher)
    requires Agrees(n, m) && Agrees(n', m)
    ensures SameAnswer(Forward(n, request, params, acc), Forward(n', request, params, acc))
  {
    hide Reg, Forward, Plain;
    forall t ensures Reg(n, t) == Reg(n', t) {
      assert Reg(n, t) == Get(m, t) && Reg(n', t) == Get(m, t);
    }
    FreshAlike(n, n');
    if n != FreshRoot() {
      SamePatternsServe(n, n', request, params, acc);
    }
  }

  lemma FreshAlike(n: Node, n': Node)
    requires Valid(n) && Valid(n') && forall t :: Reg(n, t) == Reg(n', t)
    ensures n == FreshRoot() <==> n' == FreshRoot()
  {
    if n == FreshRoot() && n' != FreshRoot() {
      var t := SomeRoute(n');
      EmptyRoot(t);
    } else if n' == FreshRoot() && n != FreshRoot() {
      var t := SomeRoute(n);
      EmptyRoot(t);
    }
  }

  lemma {:induction false} ServedWithoutHint(n: Node, request: string, params: Params, acc: Matcher)
    requires Forward(n, request, params, acc).ctrl.Some?
    ensures !Forward(n, request, params, acc).tsr
    decreases n, 1
  {
    if |request| > |n.path| && n.path <= request {
      var rest := request[|n.path|..];
      if !n.wild {
        ServedWithoutHint(Indice(n, rest[0]).value, rest, params, acc);
      } else {
        WildWithoutHint(n.children[0], rest, params, acc);
      }
    }
  }

  lemma {:induction false} WildWithoutHint(w: Node, rest: string, params: Params, acc: Matcher)
    requires rest != "" && ForwardWild(w, rest, params, acc).ctrl.Some?
    ensures !ForwardWild(w, rest, params, acc).tsr
    decreases w, 2
  {
    if w.kind == PARAM {
      var slash := UntilSlash(rest);
      var bound := if Match(acc, w.re, rest[..slash]) then Emplace(params, w.name, rest[..slash]) else params;
      if w.children != [] && slash < |rest| && !(slash == 0 && w.handle.Some?) {
        ServedWithoutHint(w.children[0], rest[slash..], bound, acc);
      }
    } else if w.kind != CATCH_ALL {
      ServedWithoutHint(w, rest, params, acc);
    }
  }
}
