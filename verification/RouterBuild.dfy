/** `Router::buildTree`: the mutable builder with one linked tree per method, frozen into the router's forest. */
module RouterBuild {
  import opened Text
  import opened RouteTree
  import opened Patterns
  import opened RouteMap
  import opened RawTrees
  import opened Router

  // ---------------------------------------------------------------- sorting

  function Rank(mtd: HttpMethod): nat {
    match mtd
    case GET => 0
    case POST => 1
    case DELETE => 2
    case PUT => 3
    case OPTIONS => 4
    case _ => 5
  }

  /** The methods that come first, in this order; all others come behind them. */
  const DISPATCH: seq<HttpMethod> := [GET, POST, DELETE, PUT, OPTIONS]

  /** `a` may stand before `b`. */
  predicate Before(a: HttpMethod, b: HttpMethod) {
    b in DISPATCH ==> a in DISPATCH && IndexOf(DISPATCH, a).value <= IndexOf(DISPATCH, b).value
  }

  lemma RankDispatches(a: HttpMethod, b: HttpMethod)
    ensures Rank(a) <= Rank(b) <==> Before(a, b)
  {
    RankIsPlace(a);
    RankIsPlace(b);
  }

  lemma RankIsPlace(m: HttpMethod)
    ensures Rank(m) == IndexOf(DISPATCH, m).GetOr(5) && (m in DISPATCH ==> Rank(m) < 5)
  {
    FirstUnique(DISPATCH, m, Rank(m));
  }

  /** Positions in the order of their ranks. */
  predicate Ascending(ranks: seq<nat>, order: seq<nat>) {
    && (forall i :: 0 <= i < |order| ==> order[i] < |ranks|)
    && (forall i, j :: 0 <= i < j < |order| ==> ranks[order[i]] <= ranks[order[j]])
  }

  function Place(ranks: seq<nat>, x: nat, order: seq<nat>): seq<nat>
    requires x < |ranks| && Ascending(ranks, order)
  {
    if order == [] || ranks[x] < ranks[order[0]] then [x] + order
    else [order[0]] + Place(ranks, x, order[1..])
  }

  lemma {:induction false} PlaceKeeps(ranks: seq<nat>, x: nat, order: seq<nat>)
    requires x < |ranks| && Ascending(ranks, order)
    ensures var g := Place(ranks, x, order);
            |g| == |order| + 1 && Ascending(ranks, g) && forall a :: a in g <==> a == x || a in order
  {
    if order != [] && ranks[x] >= ranks[order[0]] {
      var more := Place(ranks, x, order[1..]);
      PlaceKeeps(ranks, x, order[1..]);
      assert order == [order[0]] + order[1..];
      forall j | 0 <= j < |more| ensures ranks[order[0]] <= ranks[more[j]] {
        assert more[j] in more;
      }
    }
  }

  lemma {:induction false} PlaceDistinct(ranks: seq<nat>, x: nat, order: seq<nat>)
    requires x < |ranks| && Ascending(ranks, order) && Distinct(order) && x !in order
    ensures Distinct(Place(ranks, x, order))
  {
    if order != [] && ranks[x] >= ranks[order[0]] {
      var more := Place(ranks, x, order[1..]);
      PlaceDistinct(ranks, x, order[1..]);
      PlaceKeeps(ranks, x, order[1..]);
      assert forall j :: 0 <= j < |more| ==> more[j] in more;
      assert order[0] !in order[1..];
    }
  }

  /** The order `std::sort` may leave; among equal ranks it is not specified, and nothing below depends on it. */
  function SortedOrder(ranks: seq<nat>, n: nat): (order: seq<nat>)
    requires n <= |ranks|
    ensures |order| == n && Ascending(ranks, order) && Distinct(order)
    ensures forall a :: a in order <==> 0 <= a < n
  {
    if n == 0 then []
    else
      PlaceKeeps(ranks, n - 1, SortedOrder(ranks, n - 1));
      PlaceDistinct(ranks, n - 1, SortedOrder(ranks, n - 1));
      Place(ranks, n - 1, SortedOrder(ranks, n - 1))
  }

  /** Reading distinct elements in another order that misses none permutes them. */
  lemma SameElements<T>(s: seq<T>, t: seq<T>, order: seq<nat>)
    requires Distinct(s) && Distinct(t) && |s| == |t| == |order| && forall a :: a in order <==> 0 <= a < |s|
    requires forall i :: 0 <= i < |t| ==> order[i] < |s| && t[i] == s[order[i]]
    ensures multiset(t) == multiset(s)
  {
    DistinctCounts(s);
    DistinctCounts(t);
    forall x ensures x in s <==> x in t {
      if x in s {
        var a :| 0 <= a < |s| && s[a] == x;
        assert a in order;
        var i :| 0 <= i < |order| && order[i] == a;
        assert t[i] == x;
      }
    }
  }

  lemma {:induction false} DistinctCounts<T>(s: seq<T>)
    requires Distinct(s)
    ensures forall x :: multiset(s)[x] == if x in s then 1 else 0
  {
    if s != [] {
      var n := |s| - 1;
      DistinctCounts(s[..n]);
      assert s == s[..n] + [s[n]];
    }
  }

  // ---------------------------------------------------------------- the builder

  class RawBuilder {
    var trees: seq<(HttpMethod, RawTree)>
    ghost var Repr: set<object>

    ghost predicate Valid()
      reads this, Repr
    {
      && this in Repr
      && OneTreeEach(trees)
      && (forall i :: 0 <= i < |trees| ==> trees[i].1 in Repr && trees[i].1.Nodes() <= Repr && trees[i].1.Valid())
      && (forall i, j :: 0 <= i < j < |trees| ==>
            trees[i].1 != trees[j].1 && trees[i].1.Nodes() !! trees[j].1.Nodes())
    }

    /** The trees are those of the declarations. */
    ghost predicate Holds(rs: seq<Decl>, prefix: string, compiles: Compiler)
      requires Valid()
      reads this, Repr
    {
      && (forall i :: 0 <= i < |trees| ==> trees[i].1.Value() == TreeOf(EntriesOf(rs, prefix, trees[i].0), compiles))
      && (forall mtd :: EntriesOf(rs, prefix, mtd) != [] ==> exists i :: 0 <= i < |trees| && trees[i].0 == mtd)
    }

    constructor ()
      ensures Valid() && trees == [] && fresh(Repr)
    {
      trees, Repr := [], {this};
    }

    /** `getMethodTree`: the position of the method's tree, made if there was none. */
    method GetMethodTree(mtd: HttpMethod) returns (i: nat)
      requires Valid()
      modifies this
      ensures Valid() && fresh(Repr - old(Repr)) && i < |trees| && trees[i].0 == mtd
      ensures |trees| == |old(trees)| || (|trees| == |old(trees)| + 1 && i == |old(trees)|
              && trees[i].1.Value() == FreshRoot())
      ensures trees[..|old(trees)|] == old(trees)
      ensures forall j :: 0 <= j < |old(trees)| ==> trees[j].1.Value() == old(trees[j].1.Value())
      ensures |trees| > |old(trees)| ==> forall j :: 0 <= j < |old(trees)| ==> trees[j].0 != mtd
    {
      hide RawTree.Valid, RawTree.Value, RawTree.Nodes;
      for k := 0 to |trees|
        invariant forall j :: 0 <= j < k ==> trees[j].0 != mtd
      {
        if trees[k].0 == mtd {
          return k;
        }
      }
      AppendTree(mtd);
      return |trees| - 1;
    }

    method AppendTree(mtd: HttpMethod)
      requires Valid() && forall j :: 0 <= j < |trees| ==> trees[j].0 != mtd
      modifies this
      ensures Valid() && fresh(Repr - old(Repr)) && |trees| == |old(trees)| + 1 && trees[..|old(trees)|] == old(trees)
      ensures trees[|old(trees)|].0 == mtd && trees[|old(trees)|].1.Value() == FreshRoot()
      ensures forall j :: 0 <= j < |old(trees)| ==> trees[j].1.Value() == old(trees[j].1.Value())
    {
      hide RawTree.Valid, RawTree.Value, RawTree.Nodes;
      var t := new RawTree();
      assert forall j :: 0 <= j < |trees| ==>
        trees[j].1.Nodes() == old(trees[j].1.Nodes()) && trees[j].1.Nodes() !! t.Nodes();
      trees := trees + [(mtd, t)];
      Repr := Repr + {t} + t.Nodes();
    }

    /** One addition in the tree at position `i`; the other trees are not touched. */
    method AddAt(i: nat, path: string, ctrl: Controller, compiles: Compiler) returns (ok: bool)
      requires Valid() && i < |trees|
      modifies Repr
      ensures Valid() && fresh(Repr - old(Repr)) && trees == old(trees)
      ensures var o := RouteMap.AddRoute(old(trees[i].1.Value()), Entry(path, ctrl), compiles);
              ok == o.ok && trees[i].1.Value() == o.tree
      ensures forall j :: 0 <= j < |trees| && j != i ==> trees[j].1.Value() == old(trees[j].1.Value())
    {
      hide RouteMap.AddRoute, RawTree.Valid, RawTree.Value, RawTree.Nodes;
      Separate(i);
      var leftover;
      ok, leftover := trees[i].1.AddRoute(path, ctrl, compiles);
      assert forall j :: 0 <= j < |trees| && j != i ==>
        trees[j].1.Nodes() == old(trees[j].1.Nodes()) && trees[j].1.Nodes() !! trees[i].1.Nodes();
      Repr := Repr + trees[i].1.Nodes();
    }

    lemma Separate(i: nat)
      requires Valid() && i < |trees|
      ensures forall j :: 0 <= j < |trees| && j != i ==>
        trees[j].1 != trees[i].1 && trees[j].1.Nodes() !! trees[i].1.Nodes()
    {
    }

    /** `RawBuilder::insert` of the next declaration. */
    method Add(r: Decl, prefix: string, compiles: Compiler, ghost rs: seq<Decl>) returns (ok: bool)
      requires Valid() && Holds(rs, prefix, compiles)
      modifies Repr
      ensures Valid() && Holds(rs + [r], prefix, compiles) && fresh(Repr - old(Repr))
      ensures var (n, e) := (TreeOf(EntriesOf(rs, prefix, r.mtd), compiles), Entry(prefix + r.path, r.ctrl));
              ok == RouteMap.AddRoute(n, e, compiles).ok
    {
      hide RouteMap.AddRoute, RawTree.Valid, RawTree.Value, RawTree.Nodes, EntriesOf;
      EntriesGrow(rs, r, prefix);
      var i := GetMethodTree(r.mtd);
      TreeGrows(EntriesOf(rs, prefix, r.mtd), Entry(prefix + r.path, r.ctrl), compiles);
      assert trees[i].1.Value() == TreeOf(EntriesOf(rs, prefix, r.mtd), compiles);
      ok := AddAt(i, prefix + r.path, r.ctrl, compiles);
    }

    /** `RawBuilder::sort`. */
    method Sort(ghost rs: seq<Decl>, ghost prefix: string, ghost compiles: Compiler)
      requires Valid() && Holds(rs, prefix, compiles)
      modifies this
      ensures Valid() && Holds(rs, prefix, compiles) && Repr == old(Repr)
      ensures multiset(trees) == multiset(old(trees))
      ensures forall i, j :: 0 <= i < j < |trees| ==> Before(trees[i].0, trees[j].0)
    {
      hide RawTree.Valid, RawTree.Value, RawTree.Nodes, TreeOf, EntriesOf;
      var ranks := seq(|trees|, i requires 0 <= i < |trees| reads this => Rank(trees[i].0));
      var order := SortedOrder(ranks, |trees|);
      Permute(order, rs, prefix, compiles);
      SameElements(old(trees), trees, order);
      forall i, j | 0 <= i < j < |trees| ensures Before(trees[i].0, trees[j].0) {
        RankDispatches(trees[i].0, trees[j].0);
      }
    }

    method Permute(order: seq<nat>, ghost rs: seq<Decl>, ghost prefix: string, ghost compiles: Compiler)
      requires Valid() && Holds(rs, prefix, compiles)
      requires |order| == |trees| && Distinct(order) && forall a :: a in order <==> 0 <= a < |trees|
      modifies this
      ensures Valid() && Holds(rs, prefix, compiles) && Repr == old(Repr)
      ensures |trees| == |old(trees)| && forall i :: 0 <= i < |trees| ==>
                order[i] < |old(trees)| && trees[i] == old(trees)[order[i]]
    {
      hide RawTree.Valid, RawTree.Value, RawTree.Nodes, TreeOf, EntriesOf;
      OrderFacts(order);
      var was := trees;
      trees := seq(|was|, i requires 0 <= i < |was| => was[order[i]]);
      forall mtd | EntriesOf(rs, prefix, mtd) != [] ensures exists i :: 0 <= i < |trees| && trees[i].0 == mtd {
        var k :| 0 <= k < |was| && was[k].0 == mtd;
        assert k in order;
        var i :| 0 <= i < |order| && order[i] == k;
        assert trees[i].0 == mtd;
      }
    }

    lemma OrderFacts(order: seq<nat>)
      requires Valid() && |order| == |trees| && Distinct(order) && forall a :: a in order <==> 0 <= a < |trees|
      ensures forall i :: 0 <= i < |order| ==> order[i] < |trees|
      ensures forall i, j :: 0 <= i < j < |order| ==>
        var (a, b) := (trees[order[i]], trees[order[j]]);
        a.0 != b.0 && a.1 != b.1 && a.1.Nodes() !! b.1.Nodes()
    {
      assert forall i :: 0 <= i < |order| ==> order[i] in order;
      forall i, j | 0 <= i < j < |order| ensures
          var (a, b) := (trees[order[i]], trees[order[j]]);
          a.0 != b.0 && a.1 != b.1 && a.1.Nodes() !! b.1.Nodes()
      {
        Separate(order[i]);
      }
    }
  }

  function Grows(es: seq<Entry>, r: Decl, prefix: string, mtd: HttpMethod): seq<Entry> {
    if mtd == r.mtd then es + [Entry(prefix + r.path, r.ctrl)] else es
  }

  lemma EntriesGrow(rs: seq<Decl>, r: Decl, prefix: string)
    ensures forall mtd ::
              EntriesOf(rs + [r], prefix, mtd) == Grows(EntriesOf(rs, prefix, mtd), r, prefix, mtd)
  {
    assert (rs + [r])[..|rs|] == rs;
  }

  lemma TreeGrows(es: seq<Entry>, e: Entry, compiles: Compiler)
    ensures TreeOf(es + [e], compiles) == RouteMap.AddRoute(TreeOf(es, compiles), e, compiles).tree
    ensures es == [] ==> TreeOf(es, compiles) == FreshRoot()
  {
    assert (es + [e])[..|es|] == es;
  }

  // ---------------------------------------------------------------- buildTree

  /** The controllers the router keeps alive: those of the accepted declarations, in order. */
  function Kept(rs: seq<Decl>, prefix: string, compiles: Compiler): seq<Controller> {
    if rs == [] then []
    else
      var k := |rs| - 1;
      Kept(rs[..k], prefix, compiles) + if AcceptedAt(rs, k, prefix, compiles) then [rs[k].ctrl] else []
  }

  /** The accepted declarations among the first `k`. */
  function AcceptedEarlier(rs: seq<Decl>, k: nat, prefix: string, compiles: Compiler): set<nat>
    requires k <= |rs|
  {
    set j | 0 <= j < k && AcceptedAt(rs, j, prefix, compiles)
  }

  lemma AcceptedStep(rs: seq<Decl>, k: nat, prefix: string, compiles: Compiler)
    requires k < |rs|
    ensures |AcceptedEarlier(rs, k + 1, prefix, compiles)|
            == |AcceptedEarlier(rs, k, prefix, compiles)| + if AcceptedAt(rs, k, prefix, compiles) then 1 else 0
  {
    var before, after := AcceptedEarlier(rs, k, prefix, compiles), AcceptedEarlier(rs, k + 1, prefix, compiles);
    forall j: nat ensures j in after <==> j in before || (j == k && AcceptedAt(rs, k, prefix, compiles)) {
    }
    hide AcceptedEarlier;
    if AcceptedAt(rs, k, prefix, compiles) {
      assert after == before + {k};
    } else {
      assert after == before;
    }
  }

  lemma {:induction false} KeptCount(rs: seq<Decl>, k: nat, prefix: string, compiles: Compiler)
    requires k <= |rs|
    ensures |Kept(rs[..k], prefix, compiles)| == |AcceptedEarlier(rs, k, prefix, compiles)|
    decreases k
  {
    hide AcceptedAt, Kept, AcceptedEarlier;
    if k == 0 {
      NoneAccepted(rs, prefix, compiles);
    } else {
      KeptCount(rs, k - 1, prefix, compiles);
      KeptStep(rs, k - 1, prefix, compiles);
      AcceptedStep(rs, k - 1, prefix, compiles);
    }
  }

  lemma NoneAccepted(rs: seq<Decl>, prefix: string, compiles: Compiler)
    ensures AcceptedEarlier(rs, 0, prefix, compiles) == {} && Kept(rs[..0], prefix, compiles) == []
  {
  }

  /** The controllers kept are those of the accepted declarations, each in its turn, and no others. */
  lemma {:induction false} KeptAreAccepted(rs: seq<Decl>, k: nat, n: nat, prefix: string, compiles: Compiler)
    requires k < n <= |rs| && AcceptedAt(rs, k, prefix, compiles)
    ensures var (kept, p) := (Kept(rs[..n], prefix, compiles), |AcceptedEarlier(rs, k, prefix, compiles)|);
            p < |kept| == |AcceptedEarlier(rs, n, prefix, compiles)| && kept[p] == rs[k].ctrl
    decreases n
  {
    hide AcceptedAt, Kept, AcceptedEarlier;
    KeptCount(rs, k, prefix, compiles);
    KeptCount(rs, n, prefix, compiles);
    KeptStep(rs, n - 1, prefix, compiles);
    if k < n - 1 {
      KeptAreAccepted(rs, k, n - 1, prefix, compiles);
    }
  }

  /** `Router::buildTree`. */
  method BuildTree(prefix: string, rs: seq<Decl>, compiles: Compiler)
      returns (forest: Forest, controllers: seq<Controller>, success: bool)
    ensures Grown(forest, rs, prefix, compiles)
    ensures forall i, j :: 0 <= i < j < |forest| ==> Before(forest[i].0, forest[j].0)
    ensures success <==> AllAccepted(rs, prefix, compiles)
    ensures controllers == Kept(rs, prefix, compiles)
  {
    hide RawTree.Valid, RawTree.Value, RawTree.Nodes, TreeOf, EntriesOf, RouteMap.AddRoute, Kept;
    var raw := new RawBuilder();
    controllers, success := [], true;
    EntriesStart(prefix, compiles);
    for k := 0 to |rs|
      invariant raw.Valid() && raw.Holds(rs[..k], prefix, compiles)
      invariant fresh(raw.Repr)
      invariant success <==> forall j :: 0 <= j < k ==> AcceptedAt(rs, j, prefix, compiles)
      invariant controllers == Kept(rs[..k], prefix, compiles)
    {
      var ok := raw.Add(rs[k], prefix, compiles, rs[..k]);
      assert rs[..k] + [rs[k]] == rs[..k + 1];
      KeptStep(rs, k, prefix, compiles);
      if ok {
        controllers := controllers + [rs[k].ctrl];
      } else {
        success := false;
      }
    }
    assert rs[..|rs|] == rs;
    raw.Sort(rs, prefix, compiles);
    forest := Freeze(raw, rs, prefix, compiles);
  }

  lemma EntriesStart(prefix: string, compiles: Compiler)
    ensures forall mtd :: EntriesOf([], prefix, mtd) == []
    ensures Kept([], prefix, compiles) == []
  {
  }

  lemma KeptStep(rs: seq<Decl>, k: nat, prefix: string, compiles: Compiler)
    requires k < |rs|
    ensures Kept(rs[..k + 1], prefix, compiles)
            == Kept(rs[..k], prefix, compiles) + if AcceptedAt(rs, k, prefix, compiles) then [rs[k].ctrl] else []
  {
    assert rs[..k + 1][..k] == rs[..k];
  }

  /** The last loop of `buildTree`: every raw tree becomes an immutable one. */
  method Freeze(raw: RawBuilder, ghost rs: seq<Decl>, ghost prefix: string, ghost compiles: Compiler)
      returns (forest: Forest)
    requires raw.Valid() && raw.Holds(rs, prefix, compiles)
    modifies raw.Repr
    ensures Grown(forest, rs, prefix, compiles)
    ensures |forest| == |old(raw.trees)| && forall i :: 0 <= i < |forest| ==> forest[i].0 == old(raw.trees)[i].0
  {
    hide RawTree.Value, RawTree.Valid, RawTree.Nodes, TreeOf, EntriesOf;
    forest := [];
    var trees := raw.trees;
    for i := 0 to |trees|
      invariant |forest| == i
      invariant forall j :: 0 <= j < i ==>
        forest[j] == (trees[j].0, TreeOf(EntriesOf(rs, prefix, trees[j].0), compiles))
      invariant forall j :: i <= j < |trees| ==>
        && trees[j].1.Nodes() == old(trees[j].1.Nodes()) && trees[j].1.Valid()
        && trees[j].1.Value() == TreeOf(EntriesOf(rs, prefix, trees[j].0), compiles)
    {
      var n := trees[i].1.Build();
      trees[i].1.root.kind := ROOT;
      forest := forest + [(trees[i].0, n)];
    }
  }
}
