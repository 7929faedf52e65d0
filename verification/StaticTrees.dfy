/** Trees without wildcards: an exact map, its compression, and the trailing-slash hint. */
module StaticTrees {
  import opened Text
  import opened RouteTree
  import opened RouteInsertion
  import opened RouteConflicts
  import opened Lookup

  predicate Static(n: Node) {
    !n.wild && forall k :: 0 <= k < |n.children| ==> Static(n.children[k])
  }

  /** Without wildcards the lookup is the finite map of registered patterns. */
  lemma {:induction false} StaticForward(n: Node, request: string, params: Params, acc: Matcher)
    requires Plain(n) && Static(n)
    ensures Forward(n, request, params, acc).ctrl == Reg(n, Lit(request))
    ensures Forward(n, request, params, acc).params == params
    decreases n
  {
    HeadPlain(n);
    LitPrefix(n.path, request);
    if n.path <= request && n.path != request {
      var rest := request[|n.path|..];
      RegSplit(n, Lit(rest));
      IndicesAreFirsts(n);
      IndexOfLit(n.indices, rest[0]);
      if Indice(n, rest[0]).Some? {
        StaticForward(Indice(n, rest[0]).value, rest, params, acc);
      }
    } else if n.path == request {
      RegSplit(n, []);
      assert Lit(request) == Head(n) + [];
    }
  }

  lemma LitPrefix(a: string, s: string)
    ensures Lit(a) <= Lit(s) <==> a <= s
    ensures a <= s ==> Lit(s) == Lit(a) + Lit(s[|a|..])
  {
    if Lit(a) <= Lit(s) {
      forall i | 0 <= i < |a| ensures a[i] == s[i] {
        assert Lit(a)[i] == Lit(s)[i];
      }
      assert s == a + s[|a|..];
    }
    if a <= s {
      assert s == a + s[|a|..];
    }
  }

  /** If r is not registered but r followed by '/' is, the lookup of r fails and says so. */
  lemma {:induction false} TrailingSlash(n: Node, r: string, params: Params, acc: Matcher)
    requires Plain(n) && Static(n)
    requires Reg(n, Lit(r)) == None && Reg(n, Lit(r + "/")).Some?
    ensures Forward(n, r, params, acc) == Found(None, params, true)
    decreases n
  {
    var full := r + "/";
    HeadPlain(n);
    LitPrefix(n.path, full);
    LitPrefix(n.path, r);
    var rest := full[|n.path|..];
    RegSplit(n, Lit(rest));
    if rest == "" {
      assert r == n.path[..|n.path| - 1];
    } else {
      assert n.path <= r && rest == r[|n.path|..] + "/";
      var below := r[|n.path|..];
      RegSplit(n, Lit(below));
      IndexedKid(n, rest);
      var kid := Indice(n, rest[0]).value;
      if below == "" {
        SlashKid(kid);
      } else {
        assert below[0] == rest[0];
        IndexedKid(n, below);
        TrailingSlash(kid, below, params, acc);
      }
    }
  }

  /** The child an index leads to holds what is registered below. */
  lemma IndexedKid(n: Node, rest: string)
    requires Plain(n) && Static(n) && rest != ""
    ensures match Indice(n, rest[0])
            case Some(kid) => Plain(kid) && Static(kid) && RegBelow(n, Lit(rest)) == Reg(kid, Lit(rest))
            case None => RegBelow(n, Lit(rest)) == None
  {
    IndicesAreFirsts(n);
    IndexOfLit(n.indices, rest[0]);
  }

  lemma SlashKid(kid: Node)
    requires Plain(kid) && Reg(kid, Lit("/")).Some?
    ensures |kid.path| == 1 && kid.handle.Some?
  {
    RegHead(kid, Lit("/"));
    HeadPlain(kid);
    RegSplit(kid, []);
    assert Head(kid) == Lit("/");
    assert Head(kid) + [] == Head(kid);
  }

  // ---------------------------------------------------------------- compression

  /** Every node carries a handle or branches. */
  predicate Compact(n: Node) {
    (n.handle.Some? || |n.children| >= 2) && forall k :: 0 <= k < |n.children| ==> Compact(n.children[k])
  }

  function Size(n: Node): nat
    decreases n, 0
  {
    1 + SizeAll(n, |n.children|)
  }

  function SizeAll(n: Node, k: nat): nat
    requires k <= |n.children|
    decreases n, 0, k
  {
    if k == 0 then 0 else SizeAll(n, k - 1) + Size(n.children[k - 1])
  }

  function Handles(n: Node): nat
    decreases n, 0
  {
    (if n.handle.Some? then 1 else 0) + HandlesAll(n, |n.children|)
  }

  function HandlesAll(n: Node, k: nat): nat
    requires k <= |n.children|
    decreases n, 0, k
  {
    if k == 0 then 0 else HandlesAll(n, k - 1) + Handles(n.children[k - 1])
  }

  lemma {:induction false} CompressionBound(n: Node)
    requires Compact(n)
    ensures Size(n) <= 2 * Handles(n) - 1
    decreases n, 1
  {
    BoundAll(n, |n.children|);
  }

  lemma {:induction false} BoundAll(n: Node, k: nat)
    requires Compact(n) && k <= |n.children|
    ensures SizeAll(n, k) <= 2 * HandlesAll(n, k) - k
    decreases n, 0, k
  {
    if k > 0 {
      BoundAll(n, k - 1);
      CompressionBound(n.children[k - 1]);
    }
  }

  // ---------------------------------------------------------------- static insertion

  lemma SumsAgree(n: Node, m: Node, k: nat)
    requires k <= |n.children| && k <= |m.children| && n.children[..k] == m.children[..k]
    ensures HandlesAll(n, k) == HandlesAll(m, k)
    decreases k
  {
    if k > 0 {
      assert n.children[k - 1] == n.children[..k][k - 1] == m.children[k - 1];
      assert n.children[..k - 1] == n.children[..k][..k - 1] == m.children[..k - 1];
      SumsAgree(n, m, k - 1);
    }
  }

  lemma SumReplaced(n: Node, j: nat, kid: Node, k: nat)
    requires j < |n.children| && k <= |n.children|
    ensures var m := n.(children := n.children[j := kid]);
            HandlesAll(m, k) == HandlesAll(n, k) + if j < k then Handles(kid) - Handles(n.children[j]) else 0
    decreases k
  {
    if k > 0 {
      SumReplaced(n, j, kid, k - 1);
    }
  }

  /** A static route keeps the tree static and compact, and adds one handle when it is accepted. */
  lemma {:induction false} StaticInsert(n: Node, path: string, q: seq<Param>, c: Controller)
    requires Plain(n) && Static(n) && Compact(n)
    requires path != "" && path[0] == n.path[0] && PARAM_CHAR !in path && Wilds(path) <= |q|
    ensures var o := Insert(n, path, q, c);
            && Static(o.tree) && Compact(o.tree) && o.rest == q
            && Handles(o.tree) == Handles(n) + (if o.ok then 1 else 0)
            && (!o.ok ==> o.tree == n)
    decreases n
  {
    assert SegmentEnds(path);
    match Entered(n, path)
    case None => StaticStops(n, path, q, c);
    case Some((kid, rest)) =>
      EnteredSite(n, path);
      InsertEnters(n, path, q, c);
      var k := Next(n, rest).k;
      StaticInsert(kid, rest, q, c);
      var o := Insert(kid, rest, q, c);
      SumReplaced(n, k, o.tree, |n.children|);
      var m := n.(children := n.children[k := o.tree]);
      forall j | 0 <= j < |m.children| ensures Static(m.children[j]) && Compact(m.children[j]) {
      }
      assert Static(m) && Compact(m);
  }

  lemma StaticLeaf(n: Node, path: string, q: seq<Param>, c: Controller)
    requires n.children == [] && n.handle == None && !n.wild && path != "" && PARAM_CHAR !in path && Wilds(path) <= |q|
    ensures var o := InsertChild(n, path, q, c);
            Static(o.tree) && Compact(o.tree) && Handles(o.tree) == 1 && o.ok && o.rest == q
  {
  }

  lemma StaticGrow(n: Node, path: string, q: seq<Param>, c: Controller)
    requires Static(n) && n.children != [] && (forall k :: 0 <= k < |n.children| ==> Compact(n.children[k]))
    requires path != "" && PARAM_CHAR !in path && Wilds(path) <= |q|
    ensures var o := Attach(n, path, q, c);
            && Static(o.tree) && Compact(o.tree) && o.ok && o.rest == q
            && Handles(o.tree) == Handles(n) + 1
  {
    StaticLeaf(Fresh(STATIC, ""), path, q, c);
    var m := Attach(n, path, q, c).tree;
    assert m.children[..|n.children|] == n.children[..|n.children|];
    SumsAgree(m, n, |n.children|);
    forall j | 0 <= j < |m.children| ensures Static(m.children[j]) && Compact(m.children[j]) {
    }
    assert Static(m) && Compact(m);
  }

  lemma StaticStops(n: Node, path: string, q: seq<Param>, c: Controller)
    requires Plain(n) && Static(n) && Compact(n) && Entered(n, path) == None
    requires path != "" && path[0] == n.path[0] && PARAM_CHAR !in path && Wilds(path) <= |q|
    ensures var o := Insert(n, path, q, c);
            && Static(o.tree) && Compact(o.tree) && o.rest == q
            && Handles(o.tree) == Handles(n) + (if o.ok then 1 else 0)
            && (!o.ok ==> o.tree == n)
  {
    var i := CommonPrefix(path, n.path);
    WildsSuffix(path, i);
    CommonPrefixAtLeast(path, n.path, 1);
    var rest := path[i..];
    if i < |n.path| {
      var m := SplitAt(n, i);
      SumsAgree(m.children[0], n, |n.children|);
      assert HandlesAll(m, 1) == HandlesAll(m, 0) + Handles(m.children[0]);
      if rest != "" {
        StaticGrow(m, rest, q, c);
      } else {
        SumsAgree(m, m.(handle := Some(c)), 1);
      }
    } else if rest == "" {
      SumsAgree(n, n.(handle := Some(c)), |n.children|);
    } else if n.children == [] {
      StaticGrowLeaf(n, rest, q, c);
    } else {
      StaticGrow(n, rest, q, c);
    }
  }

  lemma StaticGrowLeaf(n: Node, path: string, q: seq<Param>, c: Controller)
    requires Static(n) && Compact(n) && n.children == []
    requires path != "" && PARAM_CHAR !in path && Wilds(path) <= |q|
    ensures var o := Attach(n, path, q, c);
            Static(o.tree) && Compact(o.tree) && o.ok && o.rest == q && Handles(o.tree) == Handles(n) + 1
  {
    StaticLeaf(Fresh(STATIC, ""), path, q, c);
    var m := Attach(n, path, q, c).tree;
    assert HandlesAll(m, 1) == HandlesAll(m, 0) + Handles(m.children[0]);
  }
}
