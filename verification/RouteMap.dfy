/** Histories of `addRoute` calls against finite maps from patterns to controllers. */
module RouteMap {
  import opened Text
  import opened RouteTree
  import opened RouteInsertion
  import opened RouteConflicts
  import opened RouteFiling
  import opened Patterns
  import opened PatternProofs

  datatype Entry = Entry(path: string, ctrl: Controller)

  /** `RawTree::addRoute`. */
  function AddRoute(root: Node, e: Entry, compiles: Compiler): Outcome {
    match Parse(e.path, compiles)
    case None => Outcome(root, false, [])
    case Some(p) => ParsedShape(e.path, compiles); InsertRoot(root, p.calced, p.params, e.ctrl)
  }

  /** The tree after a sequence of additions, failing ones included. */
  function TreeOf(es: seq<Entry>, compiles: Compiler): Node {
    if es == [] then FreshRoot()
    else AddRoute(TreeOf(es[..|es| - 1], compiles), es[|es| - 1], compiles).tree
  }

  // ---------------------------------------------------------------- the map

  type Table = map<Route, Controller>

  function Get<K, V>(m: map<K, V>, k: K): Option<V> {
    if k in m then Some(m[k]) else None
  }

  /** A route is accepted when it parses and collides with no earlier pattern. */
  ghost predicate Accepts(m: Table, e: Entry, compiles: Compiler) {
    && Parse(e.path, compiles).Some?
    && forall t :: t in m ==> !Conflict(Parse(e.path, compiles).value.calced, t)
  }

  /** The pattern a route spells; a catch-all drops what follows it. */
  function Pattern(e: Entry, compiles: Compiler): Route
    requires Parse(e.path, compiles).Some?
  {
    var p := Parse(e.path, compiles).value;
    Toks(p.calced, p.params)
  }

  /** The routes as spelled. */
  ghost function TableAdd(m: Table, e: Entry, compiles: Compiler): Table {
    if Accepts(m, e, compiles) then m[Pattern(e, compiles) := e.ctrl] else m
  }

  ghost function TableOf(es: seq<Entry>, compiles: Compiler): Table {
    if es == [] then map[]
    else TableAdd(TableOf(es[..|es| - 1], compiles), es[|es| - 1], compiles)
  }

  /** No pattern of the map shares more parameters with `path` than `t`. */
  ghost predicate Deepest(m: Table, path: string, t: Route) {
    t in m && forall u :: u in m ==> |Shared(path, u)| <= |Shared(path, t)|
  }

  /** The pattern under which an accepted route is found. */
  ghost function FiledPattern(m: Table, path: string, q: seq<Param>): Route {
    if exists t :: Deepest(m, path, t) then
      var t :| Deepest(m, path, t);
      Along(path, t, q)
    else Toks(path, q)
  }

  ghost function FiledEntry(m: Table, e: Entry, compiles: Compiler): Route
    requires Parse(e.path, compiles).Some?
  {
    var p := Parse(e.path, compiles).value;
    FiledPattern(m, p.calced, p.params)
  }

  /** The routes as filed. */
  ghost function FiledAdd(m: Table, e: Entry, compiles: Compiler): Table {
    if Accepts(m, e, compiles) then m[FiledEntry(m, e, compiles) := e.ctrl] else m
  }

  ghost function FiledOf(es: seq<Entry>, compiles: Compiler): Table {
    if es == [] then map[]
    else FiledAdd(FiledOf(es[..|es| - 1], compiles), es[|es| - 1], compiles)
  }

  /** A route repeats, in a cycle, the parameters that it shares with the map. */
  ghost predicate SpelledAt(m: Table, e: Entry, compiles: Compiler)
    requires Parse(e.path, compiles).Some?
  {
    var p := Parse(e.path, compiles).value;
    forall t :: Deepest(m, p.calced, t) ==> Repeats(p.params, Shared(p.calced, t))
  }

  /** Every accepted route repeats the parameters it shares with earlier ones. */
  ghost predicate AsSpelled(es: seq<Entry>, compiles: Compiler) {
    forall k :: 0 <= k < |es| ==> SpelledStep(es, k, compiles)
  }

  ghost predicate SpelledStep(es: seq<Entry>, k: nat, compiles: Compiler)
    requires k < |es|
  {
    var m := TableOf(es[..k], compiles);
    Accepts(m, es[k], compiles) ==> SpelledAt(m, es[k], compiles)
  }

  /** The pattern shares no parameter with the map and no wildcard of it follows a catch-all. */
  ghost predicate OwnWildcards(m: Table, e: Entry, compiles: Compiler)
    requires Parse(e.path, compiles).Some?
  {
    var p := Parse(e.path, compiles).value;
    && (forall t :: t in m ==> Shared(p.calced, t) == [])
    && WildToks(Pattern(e, compiles)) == |p.params|
  }

  /** No assertion of `addRoute` fails: every accepted route leaves an empty queue. */
  predicate Asserted(es: seq<Entry>, compiles: Compiler) {
    forall k :: 0 <= k < |es| ==> AssertedAt(es, k, compiles)
  }

  predicate AssertedAt(es: seq<Entry>, k: nat, compiles: Compiler)
    requires k < |es|
  {
    var o := AddRoute(TreeOf(es[..k], compiles), es[k], compiles);
    o.ok ==> o.rest == []
  }

  ghost predicate Agrees(root: Node, m: Table) {
    Valid(root) && forall t :: Reg(root, t) == Get(m, t)
  }

  // ---------------------------------------------------------------- one addition

  lemma EmptyRoot(t: Route)
    ensures Reg(FreshRoot(), t) == None
  {
  }

  /** The root insertion: shape, registered patterns, and the queue, for every pattern `t`. */
  lemma RootEffect(root: Node, path: string, q: seq<Param>, c: Controller, t: Route)
    requires Valid(root) && path != "" && path[0] == '/' && SegmentEnds(path) && Wilds(path) <= |q|
    ensures var o, e := InsertRoot(root, path, q, c), RootPattern(root, path, q);
            && Valid(o.tree)
            && (o.ok ==> Reg(root, e) == None)
            && Reg(o.tree, t) == (if o.ok && t == e then Some(c) else Reg(root, t))
  {
    if root == FreshRoot() {
      EmptyRoot(t);
      EmptyRoot(Toks(path, q));
      FreshBranch(root, path, q, c, t);
    } else {
      InsertEffect(root, path, q, c, t);
    }
  }

  /** The pattern under which a route is registered if it is accepted. */
  function RootPattern(root: Node, path: string, q: seq<Param>): Route {
    if root == FreshRoot() then Toks(path, q) else Effective(root, path, q)
  }

  /** Every sequence of additions leaves a valid tree. */
  lemma {:induction false} TreeIsValid(es: seq<Entry>, compiles: Compiler)
    ensures Valid(TreeOf(es, compiles))
  {
    if es != [] {
      TreeIsValid(es[..|es| - 1], compiles);
      AdditionEffect(TreeOf(es[..|es| - 1], compiles), es[|es| - 1], compiles, []);
    }
  }

  /** An addition registers at most one pattern; a failed one changes none. */
  lemma AdditionEffect(root: Node, e: Entry, compiles: Compiler, t: Route)
    requires Valid(root)
    ensures var o := AddRoute(root, e, compiles);
            && Valid(o.tree)
            && (!o.ok ==> Reg(o.tree, t) == Reg(root, t))
            && (o.ok ==>
                && Parse(e.path, compiles).Some?
                && var p := Parse(e.path, compiles).value;
                var eff := RootPattern(root, p.calced, p.params);
                && Reg(root, eff) == None
                && Reg(o.tree, t) == if t == eff then Some(e.ctrl) else Reg(root, t))
  {
    match Parse(e.path, compiles)
    case None =>
    case Some(p) =>
      ParsedShape(e.path, compiles);
      RootEffect(root, p.calced, p.params, e.ctrl, t);
  }

  /** The tree accepts exactly what the map accepts. */
  lemma AcceptsAgree(root: Node, m: Table, e: Entry, compiles: Compiler)
    requires Agrees(root, m)
    ensures AddRoute(root, e, compiles).ok == Accepts(m, e, compiles)
  {
    match Parse(e.path, compiles)
    case None =>
    case Some(p) =>
      ParsedShape(e.path, compiles);
      if root == FreshRoot() {
        forall t | t in m ensures false {
          EmptyRoot(t);
        }
      } else if AddRoute(root, e, compiles).ok {
        forall t | t in m ensures !Conflict(p.calced, t) {
          AcceptedIsConflictFree(root, p.calced, p.params, e.ctrl, t);
        }
      } else {
        var t := RejectedHasConflict(root, p.calced, p.params, e.ctrl);
      }
  }

  // ---------------------------------------------------------------- the queue

  /** The walk meets a parameter exactly when the path shares one with a registered pattern. */
  lemma WalkedIsShared(root: Node, m: Table, path: string)
    requires Agrees(root, m) && root != FreshRoot() && path != "" && path[0] == '/' && SegmentEnds(path)
    ensures (forall t :: t in m ==> Shared(path, t) == []) <==> WildToks(Trail(root, path)) == 0
  {
    hide Reg, Plain, Trail, Shared, SegmentEnds, WildToks;
    RootSite(root);
    var u := WalkIsFollowed(root, path);
    forall t | t in m ensures WildToks(Trail(root, path)) == 0 ==> Shared(path, t) == [] {
      WalkFollows(root, path, t, []);
    }
  }

  lemma RootSite(root: Node)
    requires Valid(root) && root != FreshRoot()
    ensures Plain(root) && Site(root) && root.path != "" && root.path[0] == '/'
  {
  }

  lemma NothingFiled(m: Table)
    requires Agrees(FreshRoot(), m)
    ensures m == map[]
  {
    forall t | t in m ensures false {
      EmptyRoot(t);
    }
  }

  /** What is left of the queue below the root, and what was read of it. */
  lemma Leftover(root: Node, path: string, q: seq<Param>, c: Controller)
    requires Plain(root) && path != "" && path[0] == root.path[0] && SegmentEnds(path) && Wilds(path) == |q|
    requires Insert(root, path, q, c).ok
    ensures var used := |q| - |Insert(root, path, q, c).rest|;
            && 0 <= used <= |q| - WildToks(Trail(root, path)) && Insert(root, path, q, c).rest == q[used..]
            && WildToks(Effective(root, path, q)) == WildToks(Trail(root, path)) + used
            && (WildToks(Trail(root, path)) == 0 ==> used == WildToks(Toks(path, q)))
  {
    hide Plain, Trail, Tail, Insert, Toks, SegmentEnds, Wilds, WildToks;
    QueueConservation(root, path, q, c);
    WalkDividesWilds(root, path);
    WildToksConcat(Trail(root, path), Toks(Tail(root, path), q));
    if WildToks(Trail(root, path)) == 0 {
      EffectiveIsRequested(root, path, q);
    }
  }

  /** The queue of an accepted route runs empty exactly when the route has its own wildcards; else its end is left. */
  lemma QueueEmpties(root: Node, m: Table, e: Entry, compiles: Compiler)
    requires Agrees(root, m) && Accepts(m, e, compiles)
    ensures AddRoute(root, e, compiles).rest == [] <==> OwnWildcards(m, e, compiles)
    ensures var (rest, q) := (AddRoute(root, e, compiles).rest, Parse(e.path, compiles).value.params);
            |rest| <= |q| && rest == q[|q| - |rest|..]
  {
    hide Plain, Reg, Trail, Tail, Insert, InsertChild, Parse, Toks, SegmentEnds, Wilds, WildToks, Shared;
    AcceptsAgree(root, m, e, compiles);
    ParsedShape(e.path, compiles);
    var p := Parse(e.path, compiles).value;
    if root == FreshRoot() {
      NothingFiled(m);
      FreshBranch(root, p.calced, p.params, e.ctrl, []);
    } else {
      RootSite(root);
      RootInsert(root, e, compiles);
      Leftover(root, p.calced, p.params, e.ctrl);
      WalkedIsShared(root, m, p.calced);
    }
  }

  lemma RootInsert(root: Node, e: Entry, compiles: Compiler)
    requires Plain(root) && Parse(e.path, compiles).Some?
    ensures var p := Parse(e.path, compiles).value;
            Wilds(p.calced) == |p.params| && AddRoute(root, e, compiles) == Insert(root, p.calced, p.params, e.ctrl)
  {
    ParsedShape(e.path, compiles);
  }

  // ---------------------------------------------------------------- where a route is filed

  /** The tree files a route where the map says: along every pattern that shares most with it. */
  lemma Filing(root: Node, m: Table, path: string, q: seq<Param>)
    requires Agrees(root, m) && path != "" && path[0] == '/' && SegmentEnds(path)
    ensures RootPattern(root, path, q) == FiledPattern(m, path, q)
    ensures forall t :: Deepest(m, path, t) ==> RootPattern(root, path, q) == Along(path, t, q)
    ensures (exists t :: Deepest(m, path, t)) || RootPattern(root, path, q) == Toks(path, q)
  {
    hide Reg, Plain, Trail, Tail, Along, Toks, Shared, SegmentEnds, WildToks;
    if root == FreshRoot() {
      NothingFiled(m);
    } else {
      RootSite(root);
      var u := WalkIsFollowed(root, path);
      forall t | t in m ensures |Shared(path, t)| <= |Shared(path, u)| {
        WalkFollows(root, path, t, q);
      }
      assert Deepest(m, path, u);
      forall t | Deepest(m, path, t) ensures RootPattern(root, path, q) == Along(path, t, q) {
        WalkFollows(root, path, t, q);
      }
    }
  }

  /** The queue keeps a wildcard for every shared parameter, and those after a catch-all. */
  lemma QueueLeft(root: Node, m: Table, e: Entry, compiles: Compiler, t: Route)
    requires Agrees(root, m) && Accepts(m, e, compiles) && Deepest(m, Parse(e.path, compiles).value.calced, t)
    ensures var p := Parse(e.path, compiles).value;
            |AddRoute(root, e, compiles).rest| + WildToks(FiledPattern(m, p.calced, p.params))
            == |p.params| + |Shared(p.calced, t)|
  {
    hide Reg, Plain, Trail, Tail, Insert, InsertChild, Parse, Toks, SegmentEnds, Wilds, WildToks, Shared, Along;
    var p := Parse(e.path, compiles).value;
    ParsedShape(e.path, compiles);
    Filing(root, m, p.calced, p.params);
    AcceptsAgree(root, m, e, compiles);
    if root == FreshRoot() {
      NothingFiled(m);
    } else {
      RootSite(root);
      RootInsert(root, e, compiles);
      Leftover(root, p.calced, p.params, e.ctrl);
      var u := WalkIsFollowed(root, p.calced);
      assert Reg(root, t) == Get(m, t) && Reg(root, u) == Get(m, u);
      WalkFollows(root, p.calced, t, p.params);
    }
  }

  /** A route is filed as spelled exactly when it repeats the parameters it shares. */
  lemma FiledAsSpelled(root: Node, m: Table, e: Entry, compiles: Compiler)
    requires Agrees(root, m) && Parse(e.path, compiles).Some?
    ensures var p := Parse(e.path, compiles).value;
            RootPattern(root, p.calced, p.params) == Pattern(e, compiles) <==> SpelledAt(m, e, compiles)
  {
    hide Reg, Plain, Along, Toks, Shared, SegmentEnds, Parse, RootPattern, Repeats, Valid;
    ParsedShape(e.path, compiles);
    var p := Parse(e.path, compiles).value;
    Filing(root, m, p.calced, p.params);
    forall t | Deepest(m, p.calced, t)
      ensures Along(p.calced, t, p.params) == Toks(p.calced, p.params) <==> Repeats(p.params, Shared(p.calced, t))
    {
      SpelledAlong(p.calced, t, p.params);
    }
  }

  lemma FiledEntrySpelled(root: Node, m: Table, e: Entry, compiles: Compiler)
    requires Agrees(root, m) && Parse(e.path, compiles).Some?
    ensures FiledEntry(m, e, compiles) == Pattern(e, compiles) <==> SpelledAt(m, e, compiles)
  {
    hide Reg, Parse, RootPattern, FiledPattern, Valid;
    ParsedShape(e.path, compiles);
    var p := Parse(e.path, compiles).value;
    Filing(root, m, p.calced, p.params);
    FiledAsSpelled(root, m, e, compiles);
  }

  /** One addition to the map of filed routes. */
  lemma FiledStep(root: Node, m: Table, e: Entry, compiles: Compiler)
    requires Agrees(root, m)
    ensures Agrees(AddRoute(root, e, compiles).tree, FiledAdd(m, e, compiles))
  {
    hide Parse, Reg, AddRoute, RootPattern, FiledPattern, Valid;
    AcceptsAgree(root, m, e, compiles);
    AdditionEffect(root, e, compiles, []);
    if Accepts(m, e, compiles) {
      ParsedShape(e.path, compiles);
      var p := Parse(e.path, compiles).value;
      Filing(root, m, p.calced, p.params);
    }
    forall t ensures Reg(AddRoute(root, e, compiles).tree, t) == Get(FiledAdd(m, e, compiles), t) {
      AdditionEffect(root, e, compiles, t);
    }
  }

  /** One addition to the map of spelled routes: exact if and only if the route repeats what it shares. */
  lemma SpelledStepIsExact(root: Node, m: Table, e: Entry, compiles: Compiler)
    requires Agrees(root, m)
    ensures Agrees(AddRoute(root, e, compiles).tree, TableAdd(m, e, compiles))
            <==> (Accepts(m, e, compiles) ==> SpelledAt(m, e, compiles))
  {
    hide Parse, Reg, AddRoute, RootPattern, Pattern, SpelledAt, Valid;
    AcceptsAgree(root, m, e, compiles);
    AdditionEffect(root, e, compiles, []);
    if Accepts(m, e, compiles) {
      FiledAsSpelled(root, m, e, compiles);
      var p := Parse(e.path, compiles).value;
      var filed := RootPattern(root, p.calced, p.params);
      AdditionEffect(root, e, compiles, filed);
      assert Get(m, filed) == None;
    }
    if Accepts(m, e, compiles) ==> SpelledAt(m, e, compiles) {
      forall t ensures Reg(AddRoute(root, e, compiles).tree, t) == Get(TableAdd(m, e, compiles), t) {
        AdditionEffect(root, e, compiles, t);
      }
    }
  }

  // ---------------------------------------------------------------- whole histories

  /** After every history the tree is the finite map of the routes as filed. */
  lemma {:induction false} TreeIsFiled(es: seq<Entry>, compiles: Compiler)
    ensures Agrees(TreeOf(es, compiles), FiledOf(es, compiles))
  {
    if es == [] {
      forall t ensures Reg(FreshRoot(), t) == None {
        EmptyRoot(t);
      }
    } else {
      TreeIsFiled(es[..|es| - 1], compiles);
      FiledStep(TreeOf(es[..|es| - 1], compiles), FiledOf(es[..|es| - 1], compiles), es[|es| - 1], compiles);
    }
  }

  /** Two maps that agree with a tree are one. */
  lemma SameTable(root: Node, m: Table, m': Table)
    requires Agrees(root, m) && Agrees(root, m')
    ensures m == m'
  {
    forall t ensures Get(m, t) == Get(m', t) {
      assert Reg(root, t) == Get(m, t);
    }
    SameGets(m, m');
  }

  lemma SameGets(m: Table, m': Table)
    requires forall t :: Get(m, t) == Get(m', t)
    ensures m == m'
  {
    assert forall t :: t in m <==> Get(m, t).Some?;
    assert forall t :: t in m' <==> Get(m', t).Some?;
  }

  lemma LastStep(es: seq<Entry>, k: nat, compiles: Compiler)
    requires k < |es|
    ensures TreeOf(es[..k + 1], compiles) == AddRoute(TreeOf(es[..k], compiles), es[k], compiles).tree
    ensures TableOf(es[..k + 1], compiles) == TableAdd(TableOf(es[..k], compiles), es[k], compiles)
  {
    assert es[..k + 1][..k] == es[..k];
  }

  lemma {:induction false} SpelledAgrees(es: seq<Entry>, k: nat, compiles: Compiler)
    requires k <= |es| && forall j :: 0 <= j < k ==> SpelledStep(es, j, compiles)
    ensures Agrees(TreeOf(es[..k], compiles), TableOf(es[..k], compiles))
    decreases k
  {
    if k == 0 {
      TreeIsFiled([], compiles);
    } else {
      SpelledAgrees(es, k - 1, compiles);
      LastStep(es, k - 1, compiles);
      assert SpelledStep(es, k - 1, compiles);
      SpelledStepIsExact(TreeOf(es[..k - 1], compiles), TableOf(es[..k - 1], compiles), es[k - 1], compiles);
    }
  }

  /** The tree is the finite map of the routes as spelled, all along a history, if and only if every accepted
      route repeats the parameters it shares with earlier ones. */
  lemma TreeIsMap(es: seq<Entry>, compiles: Compiler)
    ensures (forall k :: 0 <= k <= |es| ==> Agrees(TreeOf(es[..k], compiles), TableOf(es[..k], compiles)))
            <==> AsSpelled(es, compiles)
    ensures AsSpelled(es, compiles) ==> TableOf(es, compiles) == FiledOf(es, compiles)
  {
    hide Agrees, TreeOf, TableOf, SpelledAt, Accepts, AddRoute, FiledOf;
    if AsSpelled(es, compiles) {
      forall k | 0 <= k <= |es| ensures Agrees(TreeOf(es[..k], compiles), TableOf(es[..k], compiles)) {
        SpelledAgrees(es, k, compiles);
      }
      assert es[..|es|] == es;
      TreeIsFiled(es, compiles);
      SameTable(TreeOf(es, compiles), TableOf(es, compiles), FiledOf(es, compiles));
    } else {
      var k :| 0 <= k < |es| && !SpelledStep(es, k, compiles);
      LastStep(es, k, compiles);
      if Agrees(TreeOf(es[..k], compiles), TableOf(es[..k], compiles)) {
        SpelledStepIsExact(TreeOf(es[..k], compiles), TableOf(es[..k], compiles), es[k], compiles);
        assert !Agrees(TreeOf(es[..k + 1], compiles), TableOf(es[..k + 1], compiles));
      }
    }
  }

  /** Routes with their own wildcards are filed as spelled, so the code's own contract suffices. */
  lemma {:induction false} AssertedIsSpelled(es: seq<Entry>, k: nat, compiles: Compiler)
    requires Asserted(es, compiles) && k <= |es|
    ensures forall j :: 0 <= j < k ==> SpelledStep(es, j, compiles)
    decreases k
  {
    hide Agrees, TreeOf, TableOf, Accepts, AddRoute, SpelledAt, OwnWildcards;
    if k > 0 {
      var j := k - 1;
      AssertedIsSpelled(es, j, compiles);
      SpelledAgrees(es, j, compiles);
      assert AssertedAt(es, j, compiles);
      OwnIsSpelled(TreeOf(es[..j], compiles), TableOf(es[..j], compiles), es[j], compiles);
    }
  }

  lemma OwnIsSpelled(root: Node, m: Table, e: Entry, compiles: Compiler)
    requires Agrees(root, m) && (AddRoute(root, e, compiles).ok ==> AddRoute(root, e, compiles).rest == [])
    ensures Accepts(m, e, compiles) ==> SpelledAt(m, e, compiles)
  {
    hide Agrees, AddRoute, Parse, Shared, Pattern, Toks, WildToks;
    AcceptsAgree(root, m, e, compiles);
    if Accepts(m, e, compiles) {
      QueueEmpties(root, m, e, compiles);
    }
  }

  /** An accepted route is filed where nothing was filed before. */
  lemma FreeAtFiling(root: Node, m: Table, e: Entry, compiles: Compiler)
    requires Agrees(root, m) && Accepts(m, e, compiles)
    ensures FiledEntry(m, e, compiles) !in m
  {
    hide Reg, AddRoute, RootPattern, FiledPattern, Valid, Parse;
    AcceptsAgree(root, m, e, compiles);
    ParsedShape(e.path, compiles);
    var p := Parse(e.path, compiles).value;
    Filing(root, m, p.calced, p.params);
    AdditionEffect(root, e, compiles, []);
    assert Reg(root, FiledEntry(m, e, compiles)) == Get(m, FiledEntry(m, e, compiles));
  }

  /** An accepted route stays where it is filed, with its controller, whatever is added later. */
  lemma {:induction false} FiledStays(es: seq<Entry>, k: nat, n: nat, compiles: Compiler)
    requires k < n <= |es| && Accepts(FiledOf(es[..k], compiles), es[k], compiles)
    ensures Get(FiledOf(es[..n], compiles), FiledEntry(FiledOf(es[..k], compiles), es[k], compiles)) == Some(es[k].ctrl)
    decreases n
  {
    hide Agrees, TreeOf, FiledOf, Accepts, FiledEntry, Parse;
    var m, e := FiledOf(es[..n - 1], compiles), es[n - 1];
    FiledLast(es, n - 1, compiles);
    if k < n - 1 {
      FiledStays(es, k, n - 1, compiles);
      if Accepts(m, e, compiles) {
        TreeIsFiled(es[..n - 1], compiles);
        FreeAtFiling(TreeOf(es[..n - 1], compiles), m, e, compiles);
      }
    }
  }

  lemma FiledLast(es: seq<Entry>, k: nat, compiles: Compiler)
    requires k < |es|
    ensures FiledOf(es[..k + 1], compiles) == FiledAdd(FiledOf(es[..k], compiles), es[k], compiles)
  {
    assert es[..k + 1][..k] == es[..k];
  }
}
