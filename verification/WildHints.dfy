/** The redirect hint in trees with wildcards: a slash too many, a slash before a parameter, a branching text. */
module WildHints {
  import opened Text
  import opened RouteTree
  import opened RouteInsertion
  import opened RouteConflicts
  import opened Lookup
  import opened LookupProofs
  import opened Hints

  // ---------------------------------------------------------------- going down

  /** The child of `n` that holds what is registered with `r` behind the head of `n`. */
  lemma ChildFor(n: Node, r: Route, u: Route) returns (kid: Node)
    requires Plain(n) && r != [] && r <= u && Reg(n, Head(n) + u).Some?
    ensures Reg(kid, u).Some? && kid in n.children
    ensures n.wild ==> n.children == [kid] && Wildcard(kid) && !r[0].Ch? && r[0] == Head(kid)[0]
    ensures !n.wild ==> r[0].Ch? && Indice(n, r[0].c) == Some(kid) && Plain(kid)
  {
    RegSplit(n, u);
    assert u[0] == r[0];
    if n.wild {
      WildLeads(n, u);
      kid := n.children[0];
    } else {
      IndexLeads(n, u);
      kid := Indice(n, u[0].c).value;
    }
  }

  /** What is registered below the child is registered below `n`. */
  lemma Above(n: Node, kid: Node, u: Route)
    requires Plain(n) && u != [] && Reg(kid, u).Some?
    requires if n.wild then n.children == [kid] else u[0].Ch? && Indice(n, u[0].c) == Some(kid)
    ensures Reg(n, Head(n) + u).Some?
  {
    RegSplit(n, u);
    if n.wild {
      RegOnlyChild(n, u);
    } else {
      IndicesAreFirsts(n);
      IndexOfLit(n.indices, u[0].c);
    }
  }

  lemma AboveParam(w: Node, u: Route)
    requires Wildcard(w) && w.kind == PARAM && |w.children| == 1 && Reg(w.children[0], u).Some?
    ensures u != [] && Reg(w, Head(w) + u).Some?
  {
    RegMore(w, u);
  }

  // ---------------------------------------------------------------- a slash too many

  /** Nothing registered goes on behind `t` with a slash or a wildcard. */
  ghost predicate NothingBehind(n: Node, t: Route) {
    forall u: Route :: Reg(n, u).Some? && t < u ==> u[|t|].Ch? && u[|t|] != Ch('/')
  }

  lemma NothingBelow(n: Node, kid: Node, r: Route)
    requires Plain(n) && r != [] && NothingBehind(n, Head(n) + r)
    requires if n.wild then n.children == [kid] else r[0].Ch? && Indice(n, r[0].c) == Some(kid)
    ensures NothingBehind(kid, r)
  {
    forall u: Route | Reg(kid, u).Some? && r < u ensures u[|r|].Ch? && u[|r|] != Ch('/') {
      assert u[0] == r[0];
      Above(n, kid, u);
      LongerBehind(Head(n), r, u);
    }
  }

  lemma NothingBelowParam(w: Node, r: Route)
    requires Wildcard(w) && w.kind == PARAM && |w.children| == 1 && NothingBehind(w, Head(w) + r)
    ensures NothingBehind(w.children[0], r)
  {
    forall u: Route | Reg(w.children[0], u).Some? && r < u ensures u[|r|].Ch? && u[|r|] != Ch('/') {
      AboveParam(w, u);
      LongerBehind(Head(w), r, u);
    }
  }

  lemma LongerBehind(h: Route, r: Route, u: Route)
    requires r < u
    ensures h + r < h + u && (h + u)[|h + r|] == u[|r|]
  {
    assert h + u == h + r + u[|r|..];
  }

  lemma JustBehind(h: Route, u: Route)
    requires u != []
    ensures h < h + u && (h + u)[|h|] == u[0]
  {
  }

  /** Where a registered pattern ends and nothing goes on with a slash or a wildcard, no child does. */
  lemma NoSlashChild(n: Node)
    requires Plain(n) && NothingBehind(n, Head(n))
    ensures !n.wild && Indice(n, '/') == None
  {
    if n.wild {
      var w := n.children[0];
      assert Wildcard(w);
      var u := SomeRoute(w);
      RegHead(w, u);
      Above(n, w, u);
      JustBehind(Head(n), u);
    } else if Indice(n, '/').Some? {
      var kid := Indice(n, '/').value;
      var u := SomeRoute(kid);
      RegHead(kid, u);
      HeadPlain(kid);
      Above(n, kid, u);
      JustBehind(Head(n), u);
    }
  }

  lemma NoChild(w: Node)
    requires Wildcard(w) && w.kind == PARAM && NothingBehind(w, Head(w))
    ensures w.children == []
  {
    if w.children != [] {
      var u := SomeRoute(w.children[0]);
      AboveParam(w, u);
      RegHead(w.children[0], u);
      HeadPlain(w.children[0]);
      JustBehind(Head(w), u);
    }
  }

  /** A request that fills a registered pattern and has a slash too many, where nothing goes on, is refused with
      the hint. */
  lemma {:induction false} ExtraSlashHint(n: Node, t: Route, f: seq<string>, params: Params, acc: Matcher)
    requires Plain(n) && Reg(n, t).Some? && NothingBehind(n, t) && Fits(t, f, acc) && !t[|t| - 1].All?
    ensures Forward(n, Fill(t, f) + "/", params, acc).ctrl == None && Forward(n, Fill(t, f) + "/", params, acc).tsr
    decreases n, 1
  {
    hide Wildcard, Reg, RegBelow, Fits, Fill, NothingBehind, Head, Lit, AtEnd;
    var r, rest := Below(n, t, f, "/", acc);
    if r == [] {
      assert t == Head(n);
      NoSlashChild(n);
    } else {
      var kid := ChildFor(n, r, r);
      NothingBelow(n, kid, r);
      if n.wild {
        ExtraSlashBelow(kid, r, f, params, acc);
      } else {
        ExtraSlashHint(kid, r, f, params, acc);
      }
    }
  }

  /** What is left of a pattern and of the request that fills it. */
  lemma Below(n: Node, t: Route, f: seq<string>, end: string, acc: Matcher) returns (r: Route, rest: string)
    requires Plain(n) && Reg(n, t).Some? && Fits(t, f, acc) && end != ""
    ensures t == Head(n) + r && Fits(r, f, acc) && rest == Fill(r, f) + end && Fill(t, f) + end == n.path + rest
    ensures |n.path + rest| > |n.path| && n.path <= n.path + rest && (n.path + rest)[|n.path|..] == rest
    ensures r == [] ==> t == Head(n) && rest == end && n.handle.Some? && f == []
    ensures r != [] ==> r[|r| - 1] == t[|t| - 1] && (r[0].Ch? ==> rest[0] == r[0].c)
    ensures Reg(n, Head(n) + r).Some?
  {
    hide Wildcard, Reg, RegBelow, Lit;
    RegHead(n, t);
    HeadPlain(n);
    r := t[|Head(n)|..];
    FillLit(n.path, r, f, acc, map[]);
    RegSplit(n, r);
    rest := Fill(r, f) + end;
    Texts(n.path, Fill(r, f), end);
    if r != [] {
      FitsNonEmpty(r, f, acc);
      assert t == Head(n) + r;
    } else {
      assert "" + end == end;
    }
  }

  lemma Texts(a: string, b: string, end: string)
    requires end != ""
    ensures a + b + end == a + (b + end) && (a + (b + end))[|a|..] == b + end && a <= a + (b + end)
  {
  }

  lemma {:induction false} ExtraSlashBelow(w: Node, r: Route, f: seq<string>, params: Params, acc: Matcher)
    requires Wildcard(w) && r != [] && Reg(w, r).Some? && NothingBehind(w, r) && Fits(r, f, acc) && !r[|r| - 1].All?
    ensures ForwardWild(w, Fill(r, f) + "/", params, acc).ctrl == None
    ensures ForwardWild(w, Fill(r, f) + "/", params, acc).tsr
    decreases w, 0
  {
    hide Wildcard, Reg, Fits, Fill, NothingBehind, Plain, Head;
    WildTail(w, r);
    WildHead(w);
    WildKind(w);
    HeadTail(w, r);
    Taken(r, f, "/", acc);
    if r[1..] == [] {
      assert r == Head(w);
      NoChild(w);
    } else {
      NothingBelowParam(w, r[1..]);
      ExtraSlashHint(w.children[0], r[1..], f[1..], Emplace(params, w.name, f[0]), acc);
    }
  }

  lemma HeadTail(w: Node, r: Route)
    requires Wildcard(w) && r != [] && Reg(w, r).Some?
    ensures r == Head(w) + r[1..] && |Head(w)| == 1 && (r[1..] != [] ==> r[1..][|r| - 2] == r[|r| - 1])
    ensures r[1..] == [] ==> r == Head(w)
    ensures !r[0].All? ==> w.kind == PARAM
  {
    RegHead(w, r);
  }

  /** What a leading parameter takes of a request that goes on with a slash. */
  lemma Taken(r: Route, f: seq<string>, end: string, acc: Matcher)
    requires r != [] && r[0].Par? && Fits(r, f, acc) && end != "" && end[0] == '/'
    requires r[1..] != [] ==> r[1] == Ch('/')
    ensures f != [] && f[0] != "" && acc(r[0].pattern, f[0]) && Fits(r[1..], f[1..], acc)
    ensures var (rest, k) := (Fill(r, f) + end, |f[0]|);
            && rest != "" && UntilSlash(rest) == k < |rest| && rest[..k] == f[0]
            && rest[k..] == Fill(r[1..], f[1..]) + end && (r[1..] == [] ==> rest[k..] == end && |rest| == k + |end|)
  {
    var more := Fill(r[1..], f[1..]);
    assert Fill(r, f) == f[0] + more;
    if r[1..] != [] {
      FitsNonEmpty(r[1..], f[1..], acc);
      assert r[1..][0] == r[1];
    } else {
      assert more == "" && more + end == end;
    }
    hide Fill, Fits;
    Takes(f[0], more, end);
  }

  lemma Takes(a: string, more: string, end: string)
    requires '/' !in a && end != "" && end[0] == '/' && (more != "" ==> more[0] == '/')
    ensures var rest := a + more + end;
            UntilSlash(rest) == |a| < |rest| && rest[..|a|] == a && rest[|a|..] == more + end
              && |rest| == |a| + |more + end|
  {
    var rest := a + more + end;
    assert rest == a + (more + end);
    assert rest[..|a|] == a && rest[|a|..] == more + end;
    UntilSlashUnique(rest, |a|);
  }

  // ---------------------------------------------------------------- a slash before a parameter

  /** A refused request that ends with a slash, behind a parameter and where a parameter comes next, is refused with
      the hint exactly when that parameter may not be empty. */
  lemma {:induction false} SlashBeforeParam(n: Node, t: Route, u: Route, f: seq<string>, params: Params, acc: Matcher)
    requires Plain(n) && (t == [] || t[|t| - 1].Par?) && Fits(t, f, acc)
    requires Reg(n, t + u).Some? && |u| > 1 && u[0] == Ch('/') && u[1].Par?
    requires Forward(n, Fill(t, f) + "/", params, acc).ctrl == None
    ensures Forward(n, Fill(t, f) + "/", params, acc).tsr <==> !acc(u[1].pattern, "")
    decreases n, 1
  {
    hide Wildcard, Reg, RegBelow, Fits, Fill, Head, Lit;
    RegHead(n, t + u);
    HeadPlain(n);
    if t == [] {
      NothingFits(f, acc);
      assert t + u == u && Fill(t, f) + "/" == "/";
      RootSlash(n, u);
    } else {
      LeadsOn(n, t, u, f, acc);
      var r := t[|n.path|..];
      var kid := ChildFor(n, r, r + u);
      hide AtEnd;
      if n.wild {
        SlashBeforeParamBelow(kid, r, u, f, params, acc);
      } else {
        SlashBeforeParam(kid, r, u, f, params, acc);
      }
    }
  }

  lemma RootSlash(n: Node, u: Route)
    requires Plain(n) && Reg(n, u).Some? && |u| > 1 && u[0] == Ch('/') && u[1].Par?
    ensures n.path == "/" && n.wild && n.kind != ROOT && |n.children| == 1
    ensures n.children[0].kind == PARAM && n.children[0].re == Some(u[1].pattern)
  {
    RegHead(n, u);
    HeadPlain(n);
    TextStops(n.path, u, 1);
    assert Lit(n.path)[0] == u[0];
    var r := u[1..];
    assert n.path == "/" && u == Head(n) + r && r[0] == u[1];
    RegSplit(n, r);
    if n.wild {
      WildLeads(n, r);
      WildHead(n.children[0]);
    } else {
      IndexLeads(n, r);
    }
  }

  lemma SplitText(a: string, t: Route, u: Route)
    requires Lit(a) <= t + u && |a| <= |t|
    ensures t == Lit(a) + t[|a|..] && t + u == Lit(a) + (t[|a|..] + u) && t[|a|..] <= t[|a|..] + u
    ensures |a| < |t| ==> t[|a|..] != [] && t[|a|..][|t| - |a| - 1] == t[|t| - 1]
  {
    assert forall k :: 0 <= k < |a| ==> Lit(a)[k] == (t + u)[k] && (t + u)[k] == t[k];
  }

  /** The walk goes on below `n` where the pattern ends in a wildcard. */
  lemma LeadsOn(n: Node, t: Route, u: Route, f: seq<string>, acc: Matcher)
    requires Plain(n) && t != [] && !t[|t| - 1].Ch? && Fits(t, f, acc) && Reg(n, t + u).Some? && Lit(n.path) <= t + u
    ensures |n.path| < |t|
    ensures var r := t[|n.path|..];
            && r != [] && r[|r| - 1] == t[|t| - 1] && Fits(r, f, acc) && Reg(n, Head(n) + (r + u)).Some? && r <= r + u
            && Fill(t, f) + "/" == n.path + (Fill(r, f) + "/")
            && (n.path + (Fill(r, f) + "/"))[|n.path|..] == Fill(r, f) + "/"
            && (r[0].Ch? ==> (Fill(r, f) + "/")[0] == r[0].c)
  {
    HeadPlain(n);
    hide Plain, Reg, Head, Fits, Fill;
    assert (t + u)[|t| - 1] == t[|t| - 1];
    TextStops(n.path, t + u, |t| - 1);
    var r := t[|n.path|..];
    SplitText(n.path, t, u);
    FillLit(n.path, r, f, acc, map[]);
    FitsNonEmpty(r, f, acc);
    Texts(n.path, Fill(r, f), "/");
  }

  lemma {:induction false} SlashBeforeParamBelow(w: Node, r: Route, u: Route, f: seq<string>, params: Params,
                                                 acc: Matcher)
    requires Wildcard(w) && r != [] && r[|r| - 1].Par? && Fits(r, f, acc)
    requires Reg(w, r + u).Some? && |u| > 1 && u[0] == Ch('/') && u[1].Par?
    requires ForwardWild(w, Fill(r, f) + "/", params, acc).ctrl == None
    ensures ForwardWild(w, Fill(r, f) + "/", params, acc).tsr <==> !acc(u[1].pattern, "")
    decreases w, 0
  {
    hide Wildcard, Reg, Fits, Fill, Plain, Head;
    WildTail(w, r + u);
    WildHead(w);
    WildKind(w);
    HeadTail(w, r + u);
    assert (r + u)[0] == r[0] && (r + u)[1..] == r[1..] + u;
    assert r[1..] != [] ==> r[1] == (r + u)[1] && r[1..][|r| - 2] == r[|r| - 1];
    Taken(r, f, "/", acc);
    assert r[1..] == [] ==> Fill(r[1..], f[1..]) == "" && "" + "/" == "/" by { NothingFits(f[1..], acc); }
    SlashBeforeParam(w.children[0], r[1..], u, f[1..], Emplace(params, w.name, f[0]), acc);
  }

  // ---------------------------------------------------------------- a branching text

  /** A refused request that lacks the slash before a parameter that may be empty is refused with the hint where the
      routes branch right behind it. */
  lemma {:induction false} BranchSlashHint(n: Node, t: Route, end: Route, v: Route, f: seq<string>,
                                           params: Params, acc: Matcher)
    requires Plain(n) && t != [] && t[|t| - 1].Ch? && Fits(t, f, acc)
    requires Reg(n, t + end).Some? && |end| == 2 && end[0] == Ch('/') && end[1].Par? && acc(end[1].pattern, "")
    requires Reg(n, v).Some? && t < v && v[|t|] != Ch('/')
    requires Forward(n, Fill(t, f), params, acc).ctrl == None
    ensures Forward(n, Fill(t, f), params, acc).tsr
    decreases n, 1
  {
    hide Wildcard, Reg, RegBelow, Fits, Fill, Head, Lit, AtEnd;
    RegHead(n, t + end);
    RegHead(n, v);
    HeadPlain(n);
    LitSize(n.path);
    BranchEnds(n.path, t, end, v);
    SplitText(n.path, t, end);
    var r, w := t[|n.path|..], v[|n.path|..];
    BranchRest(n.path, t, v);
    FillLit(n.path, r, f, acc, params);
    assert (n.path + Fill(r, f))[|n.path|..] == Fill(r, f);
    if r == [] {
      NothingFits(f, acc);
      assert r + end == end && n.path + "" == n.path;
      BranchNode(n, end, params, acc);
    } else {
      FitsNonEmpty(r, f, acc);
      var kid := ChildFor(n, r, r + end);
      var kid' := ChildFor(n, r, w);
      if n.wild {
        BranchSlashHintBelow(kid, r, end, w, f, params, acc);
      } else {
        BranchSlashHint(kid, r, end, w, f, params, acc);
      }
    }
  }

  lemma BranchRest(a: string, t: Route, v: Route)
    requires Lit(a) <= v && |a| <= |t| && t < v
    ensures var (r, w) := (t[|a|..], v[|a|..]); v == Lit(a) + w && r < w && r <= w && w[|r|] == v[|t|]
  {
  }

  /** Two patterns that part at `t` share no longer text. */
  lemma BranchEnds(a: string, t: Route, end: Route, v: Route)
    requires Lit(a) <= t + end && Lit(a) <= v && end != [] && t < v && v[|t|] != end[0]
    ensures |a| <= |t| && Lit(a) <= t
  {
    assert forall k :: 0 <= k < |a| ==> Lit(a)[k] == (t + end)[k] && Lit(a)[k] == v[k];
    assert (t + end)[|t|] == end[0];
    assert forall k :: 0 <= k < |t| ==> (t + end)[k] == t[k];
  }

  /** At a node where the slash begins a child that only carries the parameter. */
  lemma BranchNode(n: Node, end: Route, params: Params, acc: Matcher)
    requires Plain(n) && Reg(n, Head(n) + end).Some?
    requires |end| == 2 && end[0] == Ch('/') && end[1].Par? && acc(end[1].pattern, "")
    requires AtEnd(n, params, acc).ctrl == None
    ensures AtEnd(n, params, acc).tsr
  {
    var kid := ChildFor(n, end, end);
    RootSlash(kid, end);
    var w := kid.children[0];
    assert Wildcard(w);
    var r := end[1..];
    assert end == Head(kid) + r by { HeadPlain(kid); assert Lit(kid.path) == [Ch('/')]; }
    RegSplit(kid, r);
    RegOnlyChild(kid, r);
    RegHead(w, r);
    WildHead(w);
    assert r == Head(w);
  }

  lemma {:induction false} BranchSlashHintBelow(w: Node, r: Route, end: Route, v: Route, f: seq<string>,
                                                params: Params, acc: Matcher)
    requires Wildcard(w) && r != [] && r[|r| - 1].Ch? && Fits(r, f, acc)
    requires Reg(w, r + end).Some? && |end| == 2 && end[0] == Ch('/') && end[1].Par? && acc(end[1].pattern, "")
    requires Reg(w, v).Some? && r < v && v[|r|] != Ch('/')
    requires Fill(r, f) != "" && ForwardWild(w, Fill(r, f), params, acc).ctrl == None
    ensures ForwardWild(w, Fill(r, f), params, acc).tsr
    decreases w, 0
  {
    hide Wildcard, Reg, Fits, Fill, Plain, Head;
    WildTail(w, r + end);
    WildTail(w, v);
    WildHead(w);
    WildKind(w);
    HeadTail(w, r + end);
    assert (r + end)[0] == r[0] == v[0] && (r + end)[1..] == r[1..] + end && r[1..] < v[1..];
    assert r[1..] != [] && r[1] == (r + end)[1] && r[1..][|r| - 2] == r[|r| - 1] && v[1..][|r| - 1] == v[|r|];
    FirstFill(r, end, f, acc);
    BranchSlashHint(w.children[0], r[1..], end, v[1..], f[1..], Emplace(params, w.name, f[0]), acc);
  }
}
