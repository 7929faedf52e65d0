/** When a refused lookup hints at a slash: a route that only lacks its final slash, and a slash too many. */
module Hints {
  import opened Text
  import opened RouteTree
  import opened RouteInsertion
  import opened RouteConflicts
  import opened Lookup
  import opened LookupProofs
  import opened StaticTrees
  import opened RouteMap
  import opened StaticRoutes
  import opened Router
  import opened Patterns
  import opened PatternProofs

  // ---------------------------------------------------------------- a missing slash

  /** What a request may lack behind `t`: a slash, or after text a slash and a catch-all. */
  predicate SlashEnd(t: Route, end: Route) {
    || end == [Ch('/')]
    || (|end| == 2 && end[0] == Ch('/') && end[1].All? && (t != [] ==> t[|t| - 1].Ch?))
  }

  /** A refused request that fills a registered pattern but for its final slash is refused with the hint. */
  lemma {:induction false} SlashHint(n: Node, t: Route, end: Route, f: seq<string>, params: Params, acc: Matcher)
    requires Plain(n) && Reg(n, t + end).Some? && SlashEnd(t, end) && Fits(t, f, acc)
    requires Forward(n, Fill(t, f), params, acc).ctrl == None
    ensures Forward(n, Fill(t, f), params, acc).tsr
    decreases n, 1
  {
    hide Wildcard, Reg, RegBelow, Fits, Fill, SlashEnd, AtEnd, Lit;
    RegHead(n, t + end);
    HeadPlain(n);
    LitSize(n.path);
    if |t| < |n.path| {
      EndInEdge(n, t, end);
      FitsText(n.path[..|t|], f, acc);
    } else {
      var r := Behind(n.path, t, end, f, params, acc);
      RegSplit(n, r + end);
      assert (n.path + Fill(r, f))[|n.path|..] == Fill(r, f);
      if r == [] {
        NothingFits(f, acc);
        EndAtNode(n, end, params, acc);
      } else {
        FitsNonEmpty(r, f, acc);
        if n.wild {
          WildLeads(n, r + end);
          SlashHintBelow(n.children[0], r, end, f, params, acc);
        } else {
          IndexLeads(n, r + end);
          SlashHint(Indice(n, r[0].c).value, r, end, f, params, acc);
        }
      }
    }
  }

  lemma LitSize(a: string)
    ensures |Lit(a)| == |a|
  {
  }

  lemma NothingFits(f: seq<string>, acc: Matcher)
    ensures Fits([], f, acc) ==> f == []
    ensures Fill([], f) == ""
  {
  }

  /** What is left of the pattern behind a text. */
  lemma Behind(a: string, t: Route, end: Route, f: seq<string>, params: Params, acc: Matcher) returns (r: Route)
    requires Lit(a) <= t + end && |a| <= |t| && SlashEnd(t, end) && Fits(t, f, acc)
    ensures t == Lit(a) + r && t + end == Lit(a) + (r + end) && SlashEnd(r, end) && Fits(r, f, acc)
    ensures Fill(t, f) == a + Fill(r, f)
    ensures (r == [] ==> r + end == end) && (r != [] ==> r + end != [] && (r + end)[0] == r[0]) && end != []
  {
    r := t[|a|..];
    assert forall k :: 0 <= k < |a| ==> Lit(a)[k] == (t + end)[k] == t[k];
    assert t == Lit(a) + r;
    FillLit(a, r, f, acc, params);
  }

  /** A text has nothing to fill. */
  lemma FitsText(a: string, f: seq<string>, acc: Matcher)
    requires Fits(Lit(a), f, acc)
    ensures f == [] && Fill(Lit(a), f) == a
  {
    FillLit(a, [], f, acc, map[]);
    assert Lit(a) + [] == Lit(a) && a + Fill([], f) == a;
  }

  /** The pattern lacks the last character of the node's path. */
  lemma EndInEdge(n: Node, t: Route, end: Route)
    requires Plain(n) && Reg(n, t + end).Some? && SlashEnd(t, end) && |t| < |n.path| && Lit(n.path) <= t + end
    ensures |n.path| == |t| + 1 && n.path[|t|] == '/' && t == Lit(n.path[..|t|])
    ensures (n.handle.Some? && end == [Ch('/')]) || FirstIsCatchAll(n)
  {
    var whole := t + end;
    assert forall k :: 0 <= k < |n.path| ==> Lit(n.path)[k] == whole[k];
    assert whole[|t|] == end[0] && Lit(n.path)[|t|] == Ch(n.path[|t|]);
    if |end| == 2 {
      assert whole[|t| + 1] == end[1];
      TextStops(n.path, whole, |t| + 1);
    }
    assert forall k :: 0 <= k < |t| ==> t[k] == whole[k] == Ch(n.path[k]);
    assert t == Lit(n.path[..|t|]);
    HeadPlain(n);
    var r := whole[|n.path|..];
    assert whole == Head(n) + r;
    RegSplit(n, r);
    if r != [] {
      assert r[0] == end[1];
      if n.wild {
        WildLeads(n, r);
      } else {
        IndexLeads(n, r);
      }
    }
  }

  /** A text goes no further than the characters of a pattern. */
  lemma TextStops(a: string, whole: Route, k: nat)
    requires Lit(a) <= whole && k < |whole| && !whole[k].Ch?
    ensures |a| <= k
  {
    assert forall i :: 0 <= i < |a| ==> Lit(a)[i] == whole[i];
  }

  /** The request ends with the path of `n`, and the slash begins the child's. */
  lemma EndAtNode(n: Node, end: Route, params: Params, acc: Matcher)
    requires Plain(n) && end != [] && RegBelow(n, end).Some? && SlashEnd([], end)
    requires AtEnd(n, params, acc).ctrl == None
    ensures AtEnd(n, params, acc).tsr
  {
    if n.wild {
      WildLeads(n, end);
    } else {
      IndexLeads(n, end);
      SlashChild(Indice(n, '/').value, end);
    }
  }

  lemma SlashChild(kid: Node, end: Route)
    requires Plain(kid) && Reg(kid, end).Some? && SlashEnd([], end)
    ensures kid.path == "/" && (end == [Ch('/')] ==> kid.handle.Some?)
    ensures |end| == 2 ==> kid.wild && FirstIsCatchAll(kid)
  {
    RegHead(kid, end);
    HeadPlain(kid);
    assert forall k :: 0 <= k < |kid.path| ==> Lit(kid.path)[k] == end[k];
    if |end| == 2 {
      TextStops(kid.path, end, 1);
    }
    assert kid.path == "/";
    var r := end[1..];
    assert end == Head(kid) + r;
    RegSplit(kid, r);
    if r != [] {
      assert r[0] == end[1];
      if kid.wild {
        WildLeads(kid, r);
      } else {
        IndexLeads(kid, r);
      }
    }
  }

  lemma {:induction false} SlashHintBelow(w: Node, r: Route, end: Route, f: seq<string>, params: Params, acc: Matcher)
    requires Wildcard(w) && r != [] && Reg(w, r + end).Some? && SlashEnd(r, end) && Fits(r, f, acc)
    requires Fill(r, f) != "" && ForwardWild(w, Fill(r, f), params, acc).ctrl == None
    ensures ForwardWild(w, Fill(r, f), params, acc).tsr
    decreases w, 0
  {
    hide Wildcard, Reg, Fits, Fill, Plain, SlashEnd, Head;
    EndKnown(r, end);
    WildTail(w, r + end);
    WildHead(w);
    FirstFill(r, end, f, acc);
    WildKind(w);
    var (more, f1) := (r[1..], f[1..]);
    if more == [] {
      SlashChild(w.children[0], end);
    } else {
      SlashHint(w.children[0], more, end, f1, Emplace(params, w.name, f[0]), acc);
    }
  }

  lemma EndKnown(r: Route, end: Route)
    requires r != [] && SlashEnd(r, end)
    ensures (r + end)[0] == r[0] && (r + end)[1..] == r[1..] + end && r[1..] + end != []
    ensures r[1..] == [] ==> r[1..] + end == end
    ensures r[1..] != [] ==> SlashEnd(r[1..], end)
    ensures r[1..] == [] && r[0].Par? ==> end == [Ch('/')] && SlashEnd([], end)
  {
  }

  lemma WildKind(w: Node)
    requires Wildcard(w)
    ensures w.kind == PARAM ==> w.re.Some? && Head(w) == [Par(w.name, w.re.value)]
  {
  }

  /** What a leading parameter takes of the request. */
  lemma FirstFill(r: Route, end: Route, f: seq<string>, acc: Matcher)
    requires r != [] && Fits(r, f, acc) && ((r + end)[1..] != [] ==> (r + end)[1] == Ch('/'))
    ensures r[0].Par? ==>
              && f != [] && f[0] != "" && acc(r[0].pattern, f[0]) && Fits(r[1..], f[1..], acc)
              && var (rest, k) := (Fill(r, f), |f[0]|);
              && UntilSlash(rest) == k && rest[..k] == f[0] && rest[k..] == Fill(r[1..], f[1..])
              && (r[1..] == [] ==> k == |rest|) && (r[1..] != [] ==> k < |rest|)
  {
    if r[0].Par? {
      var (more, rest) := (Fill(r[1..], f[1..]), Fill(r, f));
      assert rest == f[0] + more && rest[..|f[0]|] == f[0] && rest[|f[0]|..] == more;
      if r[1..] != [] {
        assert (r + end)[1] == r[1];
        FitsNonEmpty(r[1..], f[1..], acc);
      }
      UntilSlashUnique(rest, |f[0]|);
    }
  }

  // ---------------------------------------------------------------- a slash too many

  /** Two registered texts go on differently behind `x`. */
  ghost predicate Diverges(n: Node, x: string) {
    exists a: string, b: string :: OnlyBehind(n, x, a) && OnlyBehind(n, x, b) && a[|x|] != b[|x|]
  }

  /** `a` is registered and goes on behind `x`. */
  predicate OnlyBehind(n: Node, x: string, a: string) {
    Reg(n, Lit(a)).Some? && x < a
  }

  lemma LessBehind(p: string, x: string, a: string)
    ensures p + x < p + a <==> x < a
  {
    if |x| < |a| {
      assert a == a[..|x|] + a[|x|..];
      assert (p + a)[..|p + x|] == p + a[..|x|];
      SameBehind(p, x, a[..|x|]);
    }
  }

  lemma SameBehind(p: string, a: string, b: string)
    ensures p + a == p + b <==> a == b
  {
    assert (p + a)[|p|..] == a && (p + b)[|p|..] == b;
  }

  lemma BehindKid(n: Node, kid: Node, x: string, a: string)
    requires Plain(n) && Static(n) && x != "" && Indice(n, x[0]) == Some(kid)
    ensures OnlyBehind(n, n.path + x, n.path + a) <==> OnlyBehind(kid, x, a)
  {
    LessBehind(n.path, x, a);
    if x < a {
      HeadPlain(n);
      LitPrefix(n.path, n.path + a);
      assert (n.path + a)[|n.path|..] == a && a[0] == x[0];
      RegSplit(n, Lit(a));
      IndexedKid(n, a);
      assert n.path + a == n.path + x + a[|x|..];
    }
  }

  lemma DivergesBelow(n: Node, kid: Node, x: string)
    requires Plain(n) && Static(n) && x != "" && Indice(n, x[0]) == Some(kid)
    ensures Diverges(n, n.path + x) <==> Diverges(kid, x)
  {
    hide Plain, Static, Indice, Reg;
    var whole := n.path + x;
    if Diverges(kid, x) {
      var a, b :| OnlyBehind(kid, x, a) && OnlyBehind(kid, x, b) && a[|x|] != b[|x|];
      BehindKid(n, kid, x, a);
      BehindKid(n, kid, x, b);
      Shift(n, kid, x, a);
      Shift(n, kid, x, b);
      assert OnlyBehind(n, whole, n.path + a) && OnlyBehind(n, whole, n.path + b);
    }
    if Diverges(n, whole) {
      var a, b :| OnlyBehind(n, whole, a) && OnlyBehind(n, whole, b) && a[|whole|] != b[|whole|];
      var a' := Unshift(n, kid, x, a);
      var b' := Unshift(n, kid, x, b);
      Shift(n, kid, x, a');
      Shift(n, kid, x, b');
      assert OnlyBehind(kid, x, a') && OnlyBehind(kid, x, b');
    }
  }

  lemma Shift(n: Node, kid: Node, x: string, a: string)
    requires OnlyBehind(kid, x, a)
    ensures |x| < |a| && (n.path + a)[|n.path + x|] == a[|x|]
  {
  }

  lemma Unshift(n: Node, kid: Node, x: string, a: string) returns (a': string)
    requires Plain(n) && Static(n) && x != "" && Indice(n, x[0]) == Some(kid) && OnlyBehind(n, n.path + x, a)
    ensures a == n.path + a' && OnlyBehind(kid, x, a')
  {
    a' := a[|n.path|..];
    assert a == n.path + a' by { assert a[..|n.path + x|] == n.path + x; }
    BehindKid(n, kid, x, a');
  }

  lemma NoneBehind(n: Node)
    requires Plain(n) && Static(n) && Indice(n, '/') == None
    ensures !Diverges(n, n.path + "/") && Reg(n, Lit(n.path + "//")) == None
  {
    forall a | n.path + "/" <= a ensures Reg(n, Lit(a)) == None {
      var rest := a[|n.path|..];
      assert a[..|n.path + "/"|] == n.path + "/";
      assert a == n.path + rest && rest != "" && rest[0] == '/';
      LitConcat(n.path, rest);
      HeadPlain(n);
      RegSplit(n, Lit(rest));
      IndexedKid(n, rest);
    }
    assert n.path + "/" <= n.path + "//";
  }

  /** Two children go on differently. */
  lemma Branches(n: Node)
    requires Plain(n) && Static(n) && |n.children| >= 2
    ensures Diverges(n, n.path)
  {
    var a := TextBehind(n, 0);
    var b := TextBehind(n, 1);
    assert a[|n.path|] == n.indices[0] && b[|n.path|] == n.indices[1];
  }

  lemma TextBehind(n: Node, k: nat) returns (a: string)
    requires Plain(n) && Static(n) && k < |n.children|
    ensures OnlyBehind(n, n.path, a) && a[|n.path|] == n.indices[k]
  {
    var kid := n.children[k];
    var t := SomeRoute(kid);
    var s := StaticKey(kid, t);
    RegHead(kid, t);
    HeadPlain(kid);
    LitPrefix(kid.path, s);
    FirstUnique(n.indices, n.indices[k], k);
    IndexedKid(n, s);
    HeadPlain(n);
    RegSplit(n, Lit(s));
    LitConcat(n.path, s);
    a := n.path + s;
  }

  /** The same one slash behind a node. */
  lemma KidSlash(kid: Node, params: Params, acc: Matcher)
    requires Plain(kid) && Static(kid) && Compact(kid) && kid.path[0] == '/' && Reg(kid, Lit("/")) == None
    ensures Forward(kid, "/", params, acc).tsr <==> !Diverges(kid, "/") || Reg(kid, Lit("//")).Some?
  {
    HeadPlain(kid);
    if |kid.path| == 1 {
      assert kid.path == "/" && "//" == "/" + "/" && Lit("/") + [] == Lit("/");
      RegSplit(kid, []);
      LitConcat("/", "/");
      RegSplit(kid, Lit("/"));
      Branches(kid);
      IndexedKid(kid, "/");
      if Indice(kid, '/').Some? {
        OneSlash(Indice(kid, '/').value);
      }
    } else {
      forall a | OnlyBehind(kid, "/", a) ensures a[1] == kid.path[1] {
        RegHead(kid, Lit(a));
        LitPrefix(kid.path, a);
      }
    }
  }

  lemma OneSlash(kid: Node)
    requires Plain(kid) && Static(kid)
    ensures Reg(kid, Lit("/")).Some? <==> kid.path == "/" && kid.handle.Some?
  {
    HeadPlain(kid);
    if kid.path == "/" {
      RegSplit(kid, []);
      assert Head(kid) + [] == Lit("/");
    } else if Reg(kid, Lit("/")).Some? {
      SlashKid(kid);
    }
  }

  /** A registered text with a slash too many: the lookup hints at it unless the routes branch right there, or go on
      with another slash and no more. */
  lemma {:induction false} ExtraSlash(n: Node, s: string, params: Params, acc: Matcher)
    requires Plain(n) && Static(n) && Compact(n)
    requires Reg(n, Lit(s)).Some? && Reg(n, Lit(s + "/")) == None
    ensures Forward(n, s + "/", params, acc).tsr <==>
            !Diverges(n, s + "/") || Reg(n, Lit(s + "//")).Some?
    decreases n
  {
    hide Static, Compact, Reg, RegBelow, Diverges, Lit, Indice, Plain;
    var rest := BehindPath(n, s);
    var slash, slashes := rest + "/", rest + "//";
    RegBehind(n, rest);
    RegBehind(n, slash);
    RegBehind(n, slashes);
    OneLonger(n.path, rest);
    ForwardBehind(n, slash, params, acc);
    if rest == "" {
      assert slash == "/" && slashes == "//";
      IndexedKid(n, slash);
      IndexedKid(n, slashes);
      match Indice(n, '/')
      case None => NoneBehind(n);
      case Some(kid) =>
        StaticKid(n, '/', kid);
        DivergesBelow(n, kid, "/");
        KidSlash(kid, params, acc);
    } else {
      IndexedKid(n, rest);
      IndexedKid(n, slash);
      IndexedKid(n, slashes);
      var kid := Indice(n, rest[0]).value;
      StaticKid(n, rest[0], kid);
      DivergesBelow(n, kid, slash);
      ExtraSlash(kid, rest, params, acc);
    }
  }

  lemma OneLonger(p: string, rest: string)
    ensures p + rest + "/" == p + (rest + "/") && p + rest + "//" == p + (rest + "//")
    ensures rest != "" ==> (rest + "/")[0] == rest[0] && (rest + "//")[0] == rest[0]
    ensures rest == "" ==> rest + "/" == "/" && rest + "//" == "//"
  {
  }

  lemma BehindPath(n: Node, s: string) returns (rest: string)
    requires Plain(n) && Reg(n, Lit(s)).Some?
    ensures s == n.path + rest
  {
    RegHead(n, Lit(s));
    HeadPlain(n);
    LitPrefix(n.path, s);
    rest := s[|n.path|..];
  }

  lemma RegBehind(n: Node, rest: string)
    requires Plain(n)
    ensures Reg(n, Lit(n.path + rest)) == if rest == "" then n.handle else RegBelow(n, Lit(rest))
  {
    HeadPlain(n);
    LitConcat(n.path, rest);
    RegSplit(n, Lit(rest));
  }

  lemma ForwardBehind(n: Node, rest: string, params: Params, acc: Matcher)
    requires Plain(n) && Static(n) && rest != ""
    ensures Forward(n, n.path + rest, params, acc)
            == match Indice(n, rest[0])
               case Some(kid) => Forward(kid, rest, params, acc)
               case None => Found(None, params, rest == "/" && n.handle.Some?)
  {
    assert (n.path + rest)[|n.path|..] == rest;
  }

  lemma StaticKid(n: Node, c: char, kid: Node)
    requires Plain(n) && Static(n) && Compact(n) && Indice(n, c) == Some(kid)
    ensures Plain(kid) && Static(kid) && Compact(kid) && kid in n.children && kid.path[0] == c
  {
  }

  // ---------------------------------------------------------------- the router

  /** The hint of the whole router, whatever was declared. */
  lemma RouterSlashHint(f: Forest, rs: seq<Decl>, prefix: string, compiles: Compiler, mtd: HttpMethod,
                        t: Route, end: Route, fills: seq<string>, params: Params, acc: Matcher)
    requires Grown(f, rs, prefix, compiles) && t + end in FiledOf(EntriesOf(rs, prefix, mtd), compiles)
    requires SlashEnd(t, end) && Fits(t, fills, acc) && Serve(f, mtd, Fill(t, fills), params, acc).ctrl == None
    ensures Serve(f, mtd, Fill(t, fills), params, acc).tsr
  {
    var es := EntriesOf(rs, prefix, mtd);
    MethodIsolation(f, rs, prefix, compiles, mtd, Fill(t, fills), params, acc);
    TreeIsFiled(es, compiles);
    assert Reg(TreeOf(es, compiles), t + end) == Get(FiledOf(es, compiles), t + end);
    EmptyRoot(t + end);
    SlashHint(TreeOf(es, compiles), t, end, fills, params, acc);
  }

  /** The hint of a static router at a slash too many. */
  lemma StaticExtraSlash(es: seq<Entry>, compiles: Compiler, s: string, params: Params, acc: Matcher)
    requires StaticEntries(es, compiles) && s in StaticTable(es) && s + "/" !in StaticTable(es)
    ensures Forward(TreeOf(es, compiles), s + "/", params, acc).tsr <==> !Branching(es, s + "/")
  {
    hide Reg, Plain, Static, Compact, Forward, TreeOf, StaticTable, Branching, Diverges, Lit;
    var n := TreeOf(es, compiles);
    TreeHoldsTable(es, compiles);
    assert Reg(n, Lit(s)) == Get(StaticTable(es), s);
    assert Reg(n, Lit(s + "/")) == Get(StaticTable(es), s + "/");
    assert Reg(n, Lit(s + "//")) == Get(StaticTable(es), s + "//");
    RootCases(n);
    EmptyRoot(Lit(s));
    ExtraSlash(n, s, params, acc);
    NoDoubleSlashes(es, s);
    SameBranches(n, es, s + "/");
  }

  /** Two routes go on differently behind `x`. */
  predicate GoesOn(es: seq<Entry>, x: string, a: string) {
    a in StaticTable(es) && x < a
  }

  ghost predicate Branching(es: seq<Entry>, x: string) {
    exists a: string, b: string :: GoesOn(es, x, a) && GoesOn(es, x, b) && a[|x|] != b[|x|]
  }

  lemma SameBranches(n: Node, es: seq<Entry>, x: string)
    requires forall r :: Reg(n, Lit(r)) == Get(StaticTable(es), r)
    ensures Diverges(n, x) <==> Branching(es, x)
  {
    assert forall a :: OnlyBehind(n, x, a) <==> GoesOn(es, x, a);
  }

  lemma NoDoubleSlashes(es: seq<Entry>, s: string)
    ensures s + "//" !in StaticTable(es)
  {
    DoubleSlash(s);
    if s + "//" in StaticTable(es) {
      TableStatic(es, s + "//");
    }
  }

  lemma DoubleSlash(s: string)
    ensures !IsRoute(s + "//")
  {
    assert (s + "//")[|s|] == '/' && (s + "//")[|s| + 1] == '/';
  }

  lemma {:induction false} TableStatic(es: seq<Entry>, s: string)
    requires s in StaticTable(es)
    ensures IsRoute(s)
    decreases es
  {
    if es != [] && s in StaticTable(es[..|es| - 1]) {
      TableStatic(es[..|es| - 1], s);
    }
  }
}
