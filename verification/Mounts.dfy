/** Mounting a builder under a static prefix: the mounted trees are the builder's own with a longer root path. */
module Mounts {
  import opened Text
  import opened RouteTree
  import opened RouteInsertion
  import opened Patterns
  import opened PatternProofs
  import opened PathParsing
  import opened Lookup
  import opened LookupProofs
  import opened RouteMap
  import opened Router

  /** `RouterBuilder::add(prefix, subRoutes)`. */
  function Mount(rs: seq<Decl>, prefix: string, sub: seq<Decl>): seq<Decl> {
    if IsSubRoutePrefix(prefix) then rs + Prefixed(prefix, sub) else rs
  }

  function Prefixed(prefix: string, sub: seq<Decl>): seq<Decl> {
    seq(|sub|, i requires 0 <= i < |sub| => sub[i].(path := prefix + sub[i].path))
  }

  /** A prefix without wildcards. */
  predicate StaticPrefix(prefix: string) {
    StaticRoute(prefix) && IsSubRoutePrefix(prefix)
  }

  /** The tree of a mounted builder. */
  function Lift(a: string, n: Node): Node {
    if n == FreshRoot() then n else n.(path := a + n.path)
  }

  // ---------------------------------------------------------------- insertion under a prefix

  lemma CommonPrefixLifts(a: string, x: string, y: string)
    ensures CommonPrefix(a + x, a + y) == |a| + CommonPrefix(x, y)
  {
    var i := CommonPrefix(x, y);
    assert (a + x)[..|a| + i] == a + x[..i] && (a + y)[..|a| + i] == a + y[..i];
    CommonPrefixUnique(a + x, a + y, |a| + i);
  }

  lemma AttachLifts(n: Node, x: string, path: string, q: seq<Param>, c: Controller)
    requires path != "" && Wilds(path) <= |q|
    ensures var o := Attach(n, path, q, c); Attach(n.(path := x), path, q, c) == o.(tree := o.tree.(path := x))
    ensures Attach(n, path, q, c).tree.path == n.path
  {
  }

  lemma SplitLifts(n: Node, a: string, i: nat)
    requires i < |n.path|
    ensures SplitAt(n.(path := a + n.path), |a| + i) == SplitAt(n, i).(path := a + n.path[..i])
    ensures SplitAt(n, i).path == n.path[..i]
  {
    assert (a + n.path)[..|a| + i] == a + n.path[..i] && (a + n.path)[|a| + i..] == n.path[i..];
  }

  lemma NextLifts(n: Node, x: string, path: string)
    requires path != ""
    ensures Next(n.(path := x), path) == Next(n, path)
  {
  }

  lemma InsertLifts(n: Node, a: string, path: string, q: seq<Param>, c: Controller)
    requires PARAM_CHAR !in a && Wilds(path) <= |q|
    ensures Wilds(a + path) == Wilds(path)
    ensures var o := Insert(n, path, q, c);
            Insert(n.(path := a + n.path), a + path, q, c) == o.(tree := o.tree.(path := a + o.tree.path))
  {
    hide CommonPrefix, InsertChild, Attach, Wilds, Next, SplitAt, Toks;
    ToksLit(a, path, q);
    CommonPrefixLifts(a, path, n.path);
    var i := CommonPrefix(path, n.path);
    WildsSuffix(path, i);
    assert (a + path)[|a| + i..] == path[i..];
    var high := n.(path := a + n.path);
    if i < |n.path| {
      SplitLifts(n, a, i);
      if i < |path| {
        AttachLifts(SplitAt(n, i), a + n.path[..i], path[i..], q, c);
      }
    } else if i < |path| {
      assert Next(high, path[i..]) == Next(n, path[i..]) by { NextLifts(n, a + n.path, path[i..]); }
      AttachLifts(n, a + n.path, path[i..], q, c);
    }
  }

  lemma FirstLifts(a: string, path: string, q: seq<Param>, c: Controller)
    requires PARAM_CHAR !in a && Wilds(path) <= |q| && path != "" && path[0] != PARAM_CHAR
    ensures Wilds(a + path) == Wilds(path)
    ensures var o := InsertChild(FreshRoot(), path, q, c);
            InsertChild(FreshRoot(), a + path, q, c) == o.(tree := o.tree.(path := a + o.tree.path))
  {
    hide Toks, Wilds, Lit;
    ToksLit(a, path, q);
    var whole := a + path;
    match IndexOf(path, PARAM_CHAR)
    case None =>
      FirstUnique(whole, PARAM_CHAR, |whole|);
    case Some(pos) =>
      assert whole[..|a| + pos] == a + path[..pos] && whole[|a| + pos..] == path[pos..];
      FirstUnique(whole, PARAM_CHAR, |a| + pos);
  }

  // ---------------------------------------------------------------- parsing under a prefix

  lemma {:induction false} StaticPiecesFirst(parts: seq<string>, more: seq<string>, i: nat, compiles: Compiler)
    requires forall part :: part in parts ==> IsStaticPart(part)
    ensures var (ps, all) := (Pieces(more, i, compiles), Pieces(parts + more, i, compiles));
            && ps.Some? == all.Some?
            && (ps.Some? ==>
                  Calced(all.value) == Join(parts) + Calced(ps.value) && ParamsOf(all.value) == ParamsOf(ps.value))
    decreases parts
  {
    if parts == [] {
      assert parts + more == more;
    } else {
      assert parts[0] in parts;
      assert (parts + more)[1..] == parts[1..] + more;
      StaticPiece(parts[0], i, compiles);
      hide IsStaticPart, PieceOf, NextNumber, Calced, ParamsOf;
      StaticPiecesFirst(parts[1..], more, i, compiles);
      if Pieces(more, i, compiles).Some? {
        var ps := Pieces(parts[1..] + more, i, compiles).value;
        Cons(Plainly(parts[0]), ps);
        StaticText(parts[0], Join(parts[1..]), Calced(Pieces(more, i, compiles).value));
      }
    }
  }

  lemma StaticText(part: string, a: string, b: string)
    ensures "/" + CalcText(Plainly(part)) + (a + b) == "/" + part + a + b
    ensures Pushed(Plainly(part)) == []
  {
  }

  lemma StaticPiece(part: string, i: nat, compiles: Compiler)
    requires IsStaticPart(part)
    ensures PieceOf(part, i, compiles) == Some(Plainly(part)) && NextNumber(part, i) == i
  {
  }

  lemma PrefixedSegments(prefix: string, path: string)
    requires IsSubRoutePrefix(prefix) && path != "" && path[0] == '/'
    ensures IsRoute(prefix + path) == IsRoute(path) && Segments(prefix + path) == Segments(prefix) + Segments(path)
    ensures prefix == Join(Segments(prefix))
  {
    var whole := prefix + path;
    assert forall i :: 0 <= i < |prefix| ==> whole[i] == prefix[i];
    assert forall i :: 0 <= i < |path| ==> whole[|prefix| + i] == path[i];
    assert NoDoubleSlash(path) ==> NoDoubleSlash(whole);
    if NoDoubleSlash(whole) {
      forall i | 0 <= i < |path| - 1 && path[i] == '/' ensures path[i + 1] != '/' {
        assert whole[|prefix| + i] == '/' && whole[|prefix| + i + 1] == path[i + 1];
      }
    }
    RouteIsJoin(prefix);
    SegmentsAreRuns(prefix);
    assert prefix == Join(Segments(prefix));
    SegmentsOfJoin(Segments(prefix), path);
  }

  lemma PrefixedRoute(prefix: string, path: string)
    requires StaticPrefix(prefix) && path != "" && path[0] == '/'
    ensures IsRoute(prefix + path) == IsRoute(path) && Segments(prefix + path) == Segments(prefix) + Segments(path)
    ensures prefix == Join(Segments(prefix)) && PARAM_CHAR !in prefix
  {
    PrefixedSegments(prefix, path);
    StaticParse(prefix, _ => true);
  }

  /** A prefix only lengthens the calculated path. */
  lemma PrefixedParse(prefix: string, path: string, compiles: Compiler)
    requires StaticPrefix(prefix) && path != "" && path[0] == '/'
    ensures Parse(prefix + path, compiles).Some? == Parse(path, compiles).Some?
    ensures Parse(path, compiles).Some? ==>
              var (p, all) := (Parse(path, compiles).value, Parse(prefix + path, compiles).value);
              all.calced == prefix + p.calced && all.params == p.params
  {
    hide IsRoute, Segments, Pieces, Calced, ParamsOf, Full, IsStaticPart, IsSubRoutePrefix;
    PrefixedRoute(prefix, path);
    StaticPiecesFirst(Segments(prefix), Segments(path), 1, compiles);
    var whole := prefix + path;
    assert whole[|whole| - 1] == path[|path| - 1];
  }

  // ---------------------------------------------------------------- trees under a prefix

  predicate Slashed(es: seq<Entry>) {
    forall e :: e in es ==> e.path != "" && e.path[0] == '/'
  }

  /** An addition under the prefix gives the same answer and the same tree with a longer root. */
  lemma AdditionLifts(root: Node, prefix: string, e: Entry, compiles: Compiler)
    requires Valid(root) && StaticPrefix(prefix) && e.path != "" && e.path[0] == '/'
    ensures var o := AddRoute(root, e, compiles);
            AddRoute(Lift(prefix, root), e.(path := prefix + e.path), compiles) == o.(tree := Lift(prefix, o.tree))
  {
    PrefixedRoute(prefix, e.path);
    PrefixedParse(prefix, e.path, compiles);
    match Parse(e.path, compiles)
    case None =>
    case Some(p) =>
      ParsedShape(e.path, compiles);
      ParsedShape(prefix + e.path, compiles);
      RootGrows(root, p.calced, p.params, e.ctrl);
      if root == FreshRoot() {
        FirstLifts(prefix, p.calced, p.params, e.ctrl);
      } else {
        InsertLifts(root, prefix, p.calced, p.params, e.ctrl);
      }
  }

  lemma RootGrows(root: Node, path: string, q: seq<Param>, c: Controller)
    requires Valid(root) && path != "" && path[0] == '/' && SegmentEnds(path) && Wilds(path) <= |q|
    ensures InsertRoot(root, path, q, c).tree != FreshRoot()
  {
    if root == FreshRoot() {
      FreshBranch(root, path, q, c, []);
    } else {
      InsertEffect(root, path, q, c, []);
    }
  }

  function UnderPrefix(prefix: string, es: seq<Entry>): seq<Entry> {
    seq(|es|, i requires 0 <= i < |es| => es[i].(path := prefix + es[i].path))
  }

  /** The tree of a history under a prefix. */
  lemma {:induction false} TreeLifts(es: seq<Entry>, prefix: string, compiles: Compiler)
    requires StaticPrefix(prefix) && Slashed(es)
    ensures TreeOf(UnderPrefix(prefix, es), compiles) == Lift(prefix, TreeOf(es, compiles))
  {
    hide StaticPrefix, AddRoute, Valid;
    if es != [] {
      var less, e := es[..|es| - 1], es[|es| - 1];
      assert e in es;
      TreeLifts(less, prefix, compiles);
      TreeIsValid(less, compiles);
      AdditionLifts(TreeOf(less, compiles), prefix, e, compiles);
      assert UnderPrefix(prefix, es)[..|es| - 1] == UnderPrefix(prefix, less);
    }
  }

  /** The mounted tree holds each pattern behind the prefix, and nothing else. */
  lemma MountedPatterns(n: Node, prefix: string, t: Route)
    requires Valid(n)
    ensures Reg(Lift(prefix, n), Lit(prefix) + t) == Reg(n, t)
    ensures Reg(Lift(prefix, n), t).Some? ==> Lit(prefix) <= t
  {
    if n == FreshRoot() {
      EmptyRoot(t);
      EmptyRoot(Lit(prefix) + t);
    } else {
      var high := Lift(prefix, n);
      HeadLifts(n, prefix);
      assert Head(high) == Lit(prefix) + Head(n);
      if Head(n) <= t {
        var r := t[|Head(n)|..];
        assert t == Head(n) + r && Lit(prefix) + t == Head(high) + r;
        RegSplit(n, r);
        RegSplit(high, r);
      }
      SameAfter(Lit(prefix), Head(n), t);
      if Reg(high, t).Some? {
        RegHead(high, t);
      }
    }
  }

  lemma SameAfter(a: Route, h: Route, t: Route)
    ensures a + h <= a + t <==> h <= t
  {
    if h <= t {
      assert a + t == a + h + t[|h|..];
    } else if |h| <= |t| {
      var k :| 0 <= k < |h| && h[k] != t[k];
      assert (a + h)[|a| + k] != (a + t)[|a| + k];
    }
  }

  lemma HeadLifts(n: Node, a: string)
    requires Plain(n)
    ensures Head(n.(path := a + n.path)) == Lit(a) + Head(n)
  {
    HeadPlain(n);
    assert Lit(a + n.path) == Lit(a) + Lit(n.path);
  }

  // ---------------------------------------------------------------- mounting

  lemma {:induction false} EntriesUnder(sub: seq<Decl>, prefix: string, mtd: HttpMethod)
    ensures EntriesOf(Prefixed(prefix, sub), "", mtd) == UnderPrefix(prefix, EntriesOf(sub, "", mtd))
    ensures (forall r :: r in sub ==> r.path != "" && r.path[0] == '/') ==> Slashed(EntriesOf(sub, "", mtd))
  {
    if sub == [] {
      assert Prefixed(prefix, sub) == [];
    } else {
      var less, r := sub[..|sub| - 1], sub[|sub| - 1];
      assert r in sub;
      EntriesUnder(less, prefix, mtd);
      assert Prefixed(prefix, sub)[..|sub| - 1] == Prefixed(prefix, less);
      assert "" + r.path == r.path && "" + (prefix + r.path) == prefix + r.path;
      assert forall es, e :: UnderPrefix(prefix, es + [e]) == UnderPrefix(prefix, es) + [e.(path := prefix + e.path)];
    }
  }

  /** A request under the prefix is served by the mounted tree as the rest of it is by the builder's own. */
  lemma LiftServes(n: Node, prefix: string, p: string, params: Params, acc: Matcher)
    requires prefix != ""
    ensures SameService(Forward(Lift(prefix, n), prefix + p, params, acc), Forward(n, p, params, acc))
  {
    if n == FreshRoot() {
      EmptyServes(p, params, acc);
      EmptyServes(prefix + p, params, acc);
    } else {
      var high := Lift(prefix, n);
      assert high.path[|prefix|..] == n.path && high.(path := n.path) == n;
      LowServes(high, prefix, p, params, acc);
    }
  }

  /** Mounting a builder into an empty one under a static prefix, wildcard routes and rejected ones included:
      prefix + p is served as p was. */
  lemma Mounting(f: Forest, g: Forest, sub: seq<Decl>, prefix: string, compiles: Compiler,
                 mtd: HttpMethod, p: string, params: Params, acc: Matcher)
    requires StaticPrefix(prefix) && forall r :: r in sub ==> r.path != "" && r.path[0] == '/'
    requires Grown(f, sub, "", compiles) && Grown(g, Mount([], prefix, sub), "", compiles)
    ensures SameService(Serve(g, mtd, prefix + p, params, acc), Serve(f, mtd, p, params, acc))
  {
    hide EntriesOf, Grown, Serve, Forward, TreeOf, Prefixed, UnderPrefix;
    assert prefix != "" && Mount([], prefix, sub) == Prefixed(prefix, sub) by { MountedAll(prefix, sub); }
    hide StaticPrefix;
    var es := EntriesOf(sub, "", mtd);
    MethodIsolation(f, sub, "", compiles, mtd, p, params, acc);
    MethodIsolation(g, Prefixed(prefix, sub), "", compiles, mtd, prefix + p, params, acc);
    EntriesUnder(sub, prefix, mtd);
    TreeLifts(es, prefix, compiles);
    LiftServes(TreeOf(es, compiles), prefix, p, params, acc);
  }

  lemma MountedAll(prefix: string, sub: seq<Decl>)
    requires IsSubRoutePrefix(prefix)
    ensures prefix != "" && Mount([], prefix, sub) == Prefixed(prefix, sub)
  {
    assert [] + Prefixed(prefix, sub) == Prefixed(prefix, sub);
  }

  // ---------------------------------------------------------------- any route texts

  /** `m'` holds the patterns of `m` behind the prefix, and nothing else. */
  ghost predicate Behind(prefix: string, m: Table, m': Table) {
    && (forall t :: Get(m', Lit(prefix) + t) == Get(m, t))
    && forall t :: t in m' ==> Lit(prefix) <= t
  }

  lemma LiftIsValid(n: Node, prefix: string)
    requires Valid(n) && StaticPrefix(prefix)
    ensures Valid(Lift(prefix, n))
  {
    PrefixedRoute(prefix, "/");
    if n != FreshRoot() {
      assert (prefix + n.path)[0] == '/';
      LiftIsPlain(n, prefix);
    }
  }

  lemma LiftIsPlain(n: Node, a: string)
    requires Plain(n) && PARAM_CHAR !in a
    ensures Plain(n.(path := a + n.path))
  {
  }

  lemma LiftAgrees(n: Node, m: Table, m': Table, prefix: string)
    requires Agrees(n, m) && Behind(prefix, m, m') && StaticPrefix(prefix)
    ensures Agrees(Lift(prefix, n), m')
  {
    hide Reg, Plain, Valid, StaticPrefix, Lift;
    LiftIsValid(n, prefix);
    forall t ensures Reg(Lift(prefix, n), t) == Get(m', t) {
      MountedPatterns(n, prefix, t);
      if Lit(prefix) <= t {
        var r := t[|Lit(prefix)|..];
        assert t == Lit(prefix) + r;
        MountedPatterns(n, prefix, r);
        assert Get(m', t) == Get(m, r);
      }
    }
  }

  lemma AgreesBehind(n: Node, m: Table, m': Table, prefix: string)
    requires Agrees(n, m) && Agrees(Lift(prefix, n), m')
    ensures Behind(prefix, m, m')
  {
    hide Plain, Valid, Lift;
    forall t ensures Get(m', Lit(prefix) + t) == Get(m, t) && (t in m' ==> Lit(prefix) <= t) {
      MountedPatterns(n, prefix, t);
      assert Reg(Lift(prefix, n), t) == Get(m', t);
    }
  }

  /** A route text begins with a slash, or is refused behind the prefix too. */
  ghost predicate Mountable(prefix: string, m': Table, e: Entry, compiles: Compiler) {
    (e.path != "" && e.path[0] == '/') || !Accepts(m', e.(path := prefix + e.path), compiles)
  }

  /** One addition on both sides: the maps stay behind one another exactly when it is mountable. */
  lemma StepMounts(n: Node, m: Table, m': Table, prefix: string, e: Entry, compiles: Compiler)
    requires Agrees(n, m) && Behind(prefix, m, m') && StaticPrefix(prefix)
    ensures Behind(prefix, FiledAdd(m, e, compiles), FiledAdd(m', e.(path := prefix + e.path), compiles))
            <==> Mountable(prefix, m', e, compiles)
  {
    var e' := e.(path := prefix + e.path);
    LiftAgrees(n, m, m', prefix);
    if e.path != "" && e.path[0] == '/' {
      hide Agrees, Behind, FiledAdd, Lift, AddRoute, StaticPrefix;
      ValidOf(n, m);
      AdditionLifts(n, prefix, e, compiles);
      FiledStep(n, m, e, compiles);
      FiledStep(Lift(prefix, n), m', e', compiles);
      AgreesBehind(AddRoute(n, e, compiles).tree, FiledAdd(m, e, compiles), FiledAdd(m', e', compiles), prefix);
    } else {
      assert Parse(e.path, compiles) == None;
      assert FiledAdd(m, e, compiles) == m;
      hide Agrees, Parse, FiledEntry, Lift, StaticPrefix;
      if Accepts(m', e', compiles) {
        FreeAtFiling(Lift(prefix, n), m', e', compiles);
        NotBehind(prefix, m, m', FiledEntry(m', e', compiles), e.ctrl);
      }
    }
  }

  lemma ValidOf(n: Node, m: Table)
    requires Agrees(n, m)
    ensures Valid(n)
  {
  }

  lemma NotBehind(prefix: string, m: Table, m': Table, key: Route, c: Controller)
    requires Behind(prefix, m, m') && key !in m'
    ensures !Behind(prefix, m, m'[key := c])
  {
    var more := m'[key := c];
    assert key in more && Get(more, key) == Some(c) && Get(m', key) == None;
    if Lit(prefix) <= key {
      var t := key[|Lit(prefix)|..];
      assert key == Lit(prefix) + t;
      assert Get(m', Lit(prefix) + t) == Get(m, t);
      assert Get(more, Lit(prefix) + t) != Get(m, t);
    }
  }

  ghost predicate MountableAt(prefix: string, es: seq<Entry>, k: nat, compiles: Compiler)
    requires k < |es|
  {
    Mountable(prefix, FiledOf(UnderPrefix(prefix, es[..k]), compiles), es[k], compiles)
  }

  ghost predicate BehindAt(prefix: string, es: seq<Entry>, k: nat, compiles: Compiler)
    requires k <= |es|
  {
    Behind(prefix, FiledOf(es[..k], compiles), FiledOf(UnderPrefix(prefix, es[..k]), compiles))
  }

  lemma MountStep(prefix: string, es: seq<Entry>, k: nat, compiles: Compiler)
    requires StaticPrefix(prefix) && k < |es| && BehindAt(prefix, es, k, compiles)
    ensures BehindAt(prefix, es, k + 1, compiles) <==> MountableAt(prefix, es, k, compiles)
  {
    hide StaticPrefix, Behind, Mountable, FiledAdd, FiledOf, Agrees;
    TreeIsFiled(es[..k], compiles);
    StepMounts(TreeOf(es[..k], compiles), FiledOf(es[..k], compiles), FiledOf(UnderPrefix(prefix, es[..k]), compiles),
               prefix, es[k], compiles);
    FiledLast(es, k, compiles);
    var under := UnderPrefix(prefix, es);
    assert under[..k] == UnderPrefix(prefix, es[..k]) && under[..k + 1] == UnderPrefix(prefix, es[..k + 1]);
    FiledLast(under, k, compiles);
  }

  lemma {:induction false} MountsUpTo(prefix: string, es: seq<Entry>, k: nat, compiles: Compiler)
    requires StaticPrefix(prefix) && k <= |es| && forall j :: 0 <= j < k ==> MountableAt(prefix, es, j, compiles)
    ensures BehindAt(prefix, es, k, compiles)
    decreases k
  {
    if k == 0 {
      NothingMounted(prefix, es, compiles);
    } else {
      MountsUpTo(prefix, es, k - 1, compiles);
      MountStep(prefix, es, k - 1, compiles);
    }
  }

  lemma NothingMounted(prefix: string, es: seq<Entry>, compiles: Compiler)
    ensures BehindAt(prefix, es, 0, compiles)
  {
    assert es[..0] == [] && UnderPrefix(prefix, []) == [];
  }

  /** All along a history the mounted map is the builder's behind the prefix, if and only if every text that does
      not begin with a slash is refused behind the prefix too. */
  lemma MountsExactly(prefix: string, es: seq<Entry>, compiles: Compiler)
    requires StaticPrefix(prefix)
    ensures (forall k :: 0 <= k <= |es| ==> BehindAt(prefix, es, k, compiles))
            <==> (forall k :: 0 <= k < |es| ==> MountableAt(prefix, es, k, compiles))
  {
    hide BehindAt, MountableAt, StaticPrefix;
    if forall k :: 0 <= k < |es| ==> MountableAt(prefix, es, k, compiles) {
      forall k | 0 <= k <= |es| ensures BehindAt(prefix, es, k, compiles) {
        MountsUpTo(prefix, es, k, compiles);
      }
    } else if forall k :: 0 <= k <= |es| ==> BehindAt(prefix, es, k, compiles) {
      forall k | 0 <= k < |es| ensures MountableAt(prefix, es, k, compiles) {
        assert BehindAt(prefix, es, k, compiles) && BehindAt(prefix, es, k + 1, compiles);
        MountStep(prefix, es, k, compiles);
      }
    }
  }

  /** Then the mounted builder answers prefix + p as the builder alone answers p. */
  lemma MountedAnswers(f: Forest, g: Forest, sub: seq<Decl>, prefix: string, compiles: Compiler,
                       mtd: HttpMethod, p: string, params: Params, acc: Matcher)
    requires StaticPrefix(prefix) && Grown(f, sub, "", compiles) && Grown(g, Mount([], prefix, sub), "", compiles)
    requires var es := EntriesOf(sub, "", mtd); forall k :: 0 <= k < |es| ==> MountableAt(prefix, es, k, compiles)
    ensures SameAnswer(Serve(g, mtd, prefix + p, params, acc), Serve(f, mtd, p, params, acc))
  {
    MountedAll(prefix, sub);
    hide EntriesOf, Grown, Serve, Forward, TreeOf, Prefixed, UnderPrefix, StaticPrefix, MountableAt, FiledOf, Agrees,
         Behind;
    var es := EntriesOf(sub, "", mtd);
    var under, n := UnderPrefix(prefix, es), TreeOf(es, compiles);
    MethodIsolation(f, sub, "", compiles, mtd, p, params, acc);
    MethodIsolation(g, Prefixed(prefix, sub), "", compiles, mtd, prefix + p, params, acc);
    EntriesUnder(sub, prefix, mtd);
    MountsUpTo(prefix, es, |es|, compiles);
    assert es[..|es|] == es;
    TreeIsFiled(es, compiles);
    TreeIsFiled(under, compiles);
    LiftAgrees(n, FiledOf(es, compiles), FiledOf(under, compiles), prefix);
    SameTableServes(Lift(prefix, n), TreeOf(under, compiles), FiledOf(under, compiles), prefix + p, params, acc);
    LiftServes(n, prefix, p, params, acc);
  }

  /** Without the condition mounting changes the service: "b" is no route, but "/a" followed by it is one. */
  lemma MountedTextBecomesRoute(c: Controller, compiles: Compiler)
    ensures StaticPrefix("/a") && !MountableAt("/a", [Entry("b", c)], 0, compiles)
    ensures !AddRoute(FreshRoot(), Entry("b", c), compiles).ok
            && AddRoute(FreshRoot(), Entry("/a" + "b", c), compiles).ok
  {
    OneSegment("a");
    OneSegment("ab");
    assert "/" + "a" == "/a" && "/" + "ab" == "/ab" && "/a" + "b" == "/ab";
    assert Parse("b", compiles) == None;
    hide StaticRoute, IsSubRoutePrefix, Parse, FiledOf, Accepts;
    StaticParse("/ab", compiles);
    assert [Entry("b", c)][..0] == [] && UnderPrefix("/a", []) == [];
    FirstIsAccepted(Entry("/ab", c), compiles);
  }

  lemma OneSegment(p: string)
    requires IsStaticPart(p)
    ensures StaticRoute("/" + p) && IsSubRoutePrefix("/" + p)
  {
    assert IsRun(p) && '/' !in p;
    FirstSegment(p, "");
    assert "/" + (p + "") == "/" + p && [p] + [] == [p];
    OneMorePart(p, "");
    assert "/" + p + "" == "/" + p;
  }

  lemma FirstIsAccepted(e: Entry, compiles: Compiler)
    requires Parse(e.path, compiles).Some?
    ensures Accepts(FiledOf([], compiles), e, compiles) && AddRoute(FreshRoot(), e, compiles).ok
  {
    assert FiledOf([], compiles) == map[];
  }
}
