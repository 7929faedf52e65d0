/** Where an accepted route is filed: along the registered pattern it shares most parameters with. */
module RouteFiling {
  import opened Text
  import opened RouteTree
  import opened RouteInsertion
  import opened RouteConflicts

  /** How far `path` goes along `t`, a ':' standing for any parameter of `t`. */
  function Agreement(path: string, t: Route): (k: nat)
    ensures k <= |path| && k <= |t|
  {
    if path == "" || t == [] || !Same(path[0], t[0]) then 0 else 1 + Agreement(path[1..], t[1..])
  }

  /** The wildcards of a pattern, in order. */
  function WildTokens(t: Route): (r: Route)
    ensures |r| == WildToks(t)
  {
    if t == [] then [] else (if t[0].Ch? then [] else [t[0]]) + WildTokens(t[1..])
  }

  /** The parameters of `t` that `path` shares. */
  function Shared(path: string, t: Route): Route {
    WildTokens(t[..Agreement(path, t)])
  }

  /** The pattern of a route that goes along `t` as far as it can; then the queue is read from its front. */
  function Along(path: string, t: Route, q: seq<Param>): Route {
    var k := Agreement(path, t);
    t[..k] + Toks(path[k..], q)
  }

  /** The queued wildcards repeat the shared parameters, name by name and expression by expression, in a cycle. */
  predicate Repeats(q: seq<Param>, shared: Route) {
    shared != [] ==>
      && (forall j :: 0 <= j < |q| && j < |shared| ==> TokenOf(q[j]) == shared[j])
      && (forall j :: |shared| <= j < |q| ==> TokenOf(q[j]) == TokenOf(q[j - |shared|]))
  }

  // ---------------------------------------------------------------- paths along patterns

  lemma AgreementStep(path: string, t: Route, q: seq<Param>)
    requires path != "" && t != [] && Same(path[0], t[0])
    ensures var k := Agreement(path[1..], t[1..]);
            Agreement(path, t) == 1 + k && t[..1 + k] == [t[0]] + t[1..][..k] && path[1 + k..] == path[1..][k..]
    ensures Shared(path, t) == (if t[0].Ch? then [] else [t[0]]) + Shared(path[1..], t[1..])
    ensures Along(path, t, q) == [t[0]] + Along(path[1..], t[1..], q)
  {
    var k := Agreement(path[1..], t[1..]);
    assert Agreement(path, t) == 1 + k;
    hide Agreement, Same, Toks, WildTokens, WildToks;
    assert path[1 + k..] == path[1..][k..];
    OneMore(t, k, Toks(path[1 + k..], q));
    WildTokensCons(t[0], t[1..][..k]);
  }

  lemma OneMore(t: Route, k: nat, more: Route)
    requires k < |t|
    ensures t[..1 + k] == [t[0]] + t[1..][..k]
    ensures t[..1 + k] + more == [t[0]] + (t[1..][..k] + more)
  {
  }

  lemma WildTokensCons(a: Token, t: Route)
    ensures WildTokens([a] + t) == (if a.Ch? then [] else [a]) + WildTokens(t)
  {
    assert ([a] + t)[1..] == t;
  }

  lemma Apart(path: string, t: Route, q: seq<Param>)
    requires path == "" || t == [] || !Same(path[0], t[0])
    ensures Agreement(path, t) == 0 && Shared(path, t) == [] && Along(path, t, q) == Toks(path, q)
  {
    assert t[..0] == [] && path[0..] == path;
  }

  lemma {:induction false} AlongLit(a: string, path: string, t: Route, q: seq<Param>)
    requires PARAM_CHAR !in a
    ensures Shared(a + path, Lit(a) + t) == Shared(path, t)
    ensures Along(a + path, Lit(a) + t, q) == Lit(a) + Along(path, t, q)
  {
    hide Shared, Along, Agreement, Lit;
    if a == "" {
      assert a + path == path;
      LitNone(t);
      LitNone(Along(path, t, q));
    } else {
      AlongLit(a[1..], path, t, q);
      LitCons(a, t);
      LitCons(a, Along(path, t, q));
      assert (a + path)[0] == a[0] && (a + path)[1..] == a[1..] + path;
      AgreementStep(a + path, Lit(a) + t, q);
    }
  }

  lemma WildTokensLit(a: string)
    ensures WildTokens(Lit(a)) == []
  {
    WildToksLit(a);
  }

  /** Going along a pattern below `n`. */
  lemma AlongBelow(n: Node, path: string, r: Route, q: seq<Param>)
    requires Site(n)
    ensures Shared(n.path + path, Head(n) + r) == WildTokens(Head(n)) + Shared(path, r)
    ensures Along(n.path + path, Head(n) + r, q) == Head(n) + Along(path, r, q)
  {
    if Plain(n) {
      HeadPlain(n);
      AlongLit(n.path, path, r, q);
      WildTokensLit(n.path);
    } else {
      var (whole, t) := (n.path + path, Head(n) + r);
      assert whole[0] == PARAM_CHAR && whole[1..] == path && t[1..] == r;
      AgreementStep(whole, t, q);
      assert WildTokens(Head(n)) == Head(n);
    }
  }

  /** Where `path` leaves the edge of an ordinary node, it parts from every pattern below. */
  lemma AlongEdge(n: Node, path: string, r: Route, q: seq<Param>)
    requires Plain(n) && CommonPrefix(path, n.path) < |n.path|
    ensures Shared(path, Head(n) + r) == []
    ensures var i := CommonPrefix(path, n.path); Along(path, Head(n) + r, q) == Lit(path[..i]) + Toks(path[i..], q)
  {
    var i := CommonPrefix(path, n.path);
    HeadPlain(n);
    var a, b := n.path[..i], n.path[i..];
    assert path == a + path[i..];
    assert Lit(n.path) + r == Lit(a) + (Lit(b) + r);
    AlongLit(a, path[i..], Lit(b) + r, q);
    assert (Lit(b) + r)[0] == Ch(b[0]);
    Apart(path[i..], Lit(b) + r, q);
  }

  /** The walk goes wherever the path goes along a registered pattern. */
  lemma SameLeads(n: Node, path: string, r: Route)
    requires Site(n) && path != "" && SegmentEnds(path) && (Wildcard(n) ==> path[0] == '/' && !n.wild)
    requires r != [] && RegBelow(n, r).Some? && Same(path[0], r[0])
    ensures Next(n, path).Down? && IndexOf(Firsts(n.children), r[0]) == Some(Next(n, path).k)
  {
    if n.wild {
      assert Wildcard(n.children[0]);
      RegOnlyChild(n, r);
      RegHead(n.children[0], r);
      FirstUnique(Firsts(n.children), r[0], 0);
    } else {
      BelowOrdinary(n, r);
      if Plain(n) {
        IndicesAreFirsts(n);
        IndexOfLit(n.indices, path[0]);
      } else {
        RegOnlyChild(n, r);
        RegHead(n.children[0], r);
        FirstUnique(Firsts(n.children), r[0], 0);
      }
    }
  }

  // ---------------------------------------------------------------- the walk of an insertion

  /** A route whose walk meets no parameter is filed as it is spelled, at parameters too. */
  lemma NoneWalked(n: Node, path: string, q: seq<Param>)
    requires Site(n) && path != "" && path[0] == n.path[0] && SegmentEnds(path)
    requires WildToks(Trail(n, path)) == 0
    ensures Plain(n) && Effective(n, path, q) == Toks(path, q)
  {
    if Plain(n) {
      EffectiveIsRequested(n, path, q);
    } else {
      TrailOfParam(n, path);
    }
  }

  /** No registered pattern shares more parameters than the walk meets, and along any that shares as many the
      route is filed. */
  lemma {:induction false} WalkFollows(n: Node, path: string, t: Route, q: seq<Param>)
    requires Site(n) && path != "" && path[0] == n.path[0] && SegmentEnds(path) && Reg(n, t).Some?
    ensures |Shared(path, t)| <= WildToks(Trail(n, path))
    ensures |Shared(path, t)| == WildToks(Trail(n, path)) ==> Effective(n, path, q) == Along(path, t, q)
    decreases n
  {
    hide Plain, Wildcard, Reg, RegBelow, Next, SegmentEnds, Shared, Along, Conflict, IndexOf, Toks, Lit;
    var i := CommonPrefix(path, n.path);
    RegHead(n, t);
    var r, rest := t[|Head(n)|..], path[i..];
    MidEdgeIsPlain(n, path);
    if i < |n.path| {
      AlongEdge(n, path, r, q);
      WildToksLit(path[..i]);
    } else {
      assert path == n.path + rest;
      AlongBelow(n, rest, r, q);
      RegSplit(n, r);
      SegmentEndsSuffix(path, i);
      if rest != "" {
        AfterParam(n, path);
      }
      if rest == "" || r == [] || !Same(rest[0], r[0]) {
        Apart(rest, r, q);
        PartsHere(n, path, q);
      } else {
        SameLeads(n, rest, r);
        Descending(n, rest);
        var kid := n.children[Next(n, rest).k];
        ChildHolds(n, Next(n, rest).k, r);
        WildToksConcat(Head(n), Trail(kid, rest));
        WalkFollows(kid, rest, r, q);
        Deeper(n, kid, rest, q, Along(rest, r, q));
      }
    }
  }

  lemma ChildHolds(n: Node, k: nat, r: Route)
    requires r != [] && RegBelow(n, r).Some? && IndexOf(Firsts(n.children), r[0]) == Some(k)
    ensures Reg(n.children[k], r).Some?
  {
  }

  lemma Deeper(n: Node, kid: Node, rest: string, q: seq<Param>, t: Route)
    ensures Head(n) + Trail(kid, rest) + Toks(Tail(kid, rest), q) == Head(n) + Effective(kid, rest, q)
  {
  }

  /** Once the head of `n` is matched and no more, the walk is worth the head, and filing goes on as spelled if
      it meets nothing further. */
  lemma PartsHere(n: Node, path: string, q: seq<Param>)
    requires Site(n) && path != "" && path[0] == n.path[0] && SegmentEnds(path) && n.path <= path
    ensures WildToks(Head(n)) <= WildToks(Trail(n, path))
    ensures WildToks(Head(n)) == WildToks(Trail(n, path)) ==>
              Effective(n, path, q) == Head(n) + Toks(path[|n.path|..], q)
  {
    CommonPrefixAtLeast(path, n.path, |n.path|);
    match Entered(n, path)
    case None =>
    case Some((kid, rest)) =>
      EnteredSite(n, path);
      WildToksConcat(Head(n), Trail(kid, rest));
      if WildToks(Trail(kid, rest)) == 0 {
        NoneWalked(kid, rest, q);
      }
      Deeper(n, kid, rest, q, []);
  }

  /** Some registered pattern shares every parameter the walk meets. */
  lemma {:induction false} WalkIsFollowed(n: Node, path: string) returns (t: Route)
    requires Site(n) && path != "" && path[0] == n.path[0] && SegmentEnds(path)
    ensures Reg(n, t).Some? && |Shared(path, t)| == WildToks(Trail(n, path))
    decreases n
  {
    match Entered(n, path)
    case None =>
      t := SomeRoute(n);
      WalkFollows(n, path, t, []);
      StopShares(n, path, t);
    case Some((kid, rest)) =>
      EnteredSite(n, path);
      var r := WalkIsFollowed(kid, rest);
      RegHead(kid, r);
      t := Head(n) + r;
      AlongBelow(n, rest, r, []);
      RegSplit(n, r);
      WildToksConcat(Head(n), Trail(kid, rest));
  }

  lemma StopShares(n: Node, path: string, t: Route)
    requires Site(n) && path != "" && path[0] == n.path[0] && SegmentEnds(path) && Reg(n, t).Some?
    requires Entered(n, path) == None
    ensures |Shared(path, t)| >= WildToks(Trail(n, path))
  {
    StopTrail(n, path);
    if Wildcard(n) {
      RegHead(n, t);
      assert path == n.path + path[1..] && t == Head(n) + t[1..];
      AlongBelow(n, path[1..], t[1..], []);
    }
  }

  // ---------------------------------------------------------------- when filing is as spelled

  /** A route is filed as spelled along `t` when its first wildcards are those it shares and the rest of the path
      reads the same from the front of the queue as from behind them. */
  lemma {:induction false} AlongSplits(path: string, t: Route, q: seq<Param>, q': seq<Param>)
    requires Wilds(path) == |q'|
    ensures |Shared(path, t)| <= |q'|
    ensures var (w, rest) := (Shared(path, t), path[Agreement(path, t)..]);
            && Wilds(rest) == |q'| - |w|
            && (Along(path, t, q) == Toks(path, q') <==>
                (forall j :: 0 <= j < |w| ==> w[j] == TokenOf(q'[j])) && Toks(rest, q) == Toks(rest, q'[|w|..]))
    decreases path
  {
    hide Along, Shared, Agreement, TokenOf;
    if path == "" || t == [] || !Same(path[0], t[0]) {
      Apart(path, t, q);
      assert q'[0..] == q';
    } else {
      AgreementStep(path, t, q);
      var more := if t[0].Ch? then q' else q'[1..];
      AlongSplits(path[1..], t[1..], q, more);
      if t[0].Par? {
        HeadRepeats(t[0], Shared(path[1..], t[1..]), q');
        assert [t[0]] + Along(path[1..], t[1..], q) == Toks(path, q') <==>
               TokenOf(q'[0]) == t[0] && Along(path[1..], t[1..], q) == Toks(path[1..], more)
          by { ConsEqual(t[0], Along(path[1..], t[1..], q), path, q'); }
      } else {
        ConsLeft(t[0], Along(path[1..], t[1..], q), Toks(path[1..], q'));
      }
    }
  }

  lemma ConsLeft(a: Token, r: Route, r': Route)
    ensures [a] + r == [a] + r' <==> r == r'
  {
    assert ([a] + r)[1..] == r && ([a] + r')[1..] == r';
  }

  lemma ConsEqual(a: Token, r: Route, path: string, q: seq<Param>)
    requires a.Par? && path != "" && path[0] == PARAM_CHAR && q != []
    ensures [a] + r == Toks(path, q) <==> TokenOf(q[0]) == a && r == Toks(path[1..], q[1..])
  {
    assert ([a] + r)[0] == a && Toks(path, q)[0] == TokenOf(q[0]);
    if q[0].ParamSeg? {
      ConsLeft(a, r, Toks(path[1..], q[1..]));
    }
  }

  lemma HeadRepeats(a: Token, w: Route, q: seq<Param>)
    requires q != [] && |w| < |q|
    ensures (forall j :: 0 <= j < |w| + 1 ==> ([a] + w)[j] == TokenOf(q[j])) <==>
            a == TokenOf(q[0]) && (forall j :: 0 <= j < |w| ==> w[j] == TokenOf(q[1..][j]))
    ensures q[1..][|w|..] == q[|w| + 1..]
  {
    assert forall j :: 0 <= j < |w| ==> w[j] == ([a] + w)[j + 1] && q[1..][j] == q[j + 1];
    if forall j :: 0 <= j < |w| + 1 ==> ([a] + w)[j] == TokenOf(q[j]) {
      assert ([a] + w)[0] == TokenOf(q[0]);
      forall j | 0 <= j < |w| ensures w[j] == TokenOf(q[1..][j]) {
        assert ([a] + w)[j + 1] == TokenOf(q[j + 1]);
      }
    }
  }

  /** Two queues that agree spell the same. */
  lemma {:induction false} SameSpelling(s: string, a: seq<Param>, b: seq<Param>)
    requires Wilds(s) == |b| <= |a| && forall j :: 0 <= j < |b| ==> TokenOf(a[j]) == TokenOf(b[j])
    ensures Toks(s, a) == Toks(s, b)
  {
    if s != "" {
      if s[0] == PARAM_CHAR {
        SameSpelling(s[1..], a[1..], b[1..]);
      } else {
        SameSpelling(s[1..], a, b);
      }
    }
  }

  /** Two queues that spell the same agree up to the first catch-all. */
  lemma {:induction false} SpellingTells(s: string, a: seq<Param>, b: seq<Param>, j: nat)
    requires Wilds(s) == |b| <= |a| && j < |b| && Toks(s, a) == Toks(s, b)
    requires forall i :: 0 <= i < j ==> a[i].ParamSeg?
    ensures TokenOf(a[j]) == TokenOf(b[j])
    decreases s
  {
    if s[0] != PARAM_CHAR {
      ConsLeft(Ch(s[0]), Toks(s[1..], a), Toks(s[1..], b));
      SpellingTells(s[1..], a, b, j);
    } else {
      assert Toks(s, a)[0] == TokenOf(a[0]) && Toks(s, b)[0] == TokenOf(b[0]);
      if j > 0 {
        ConsLeft(TokenOf(a[0]), Toks(s[1..], a[1..]), Toks(s[1..], b[1..]));
        SpellingTells(s[1..], a[1..], b[1..], j - 1);
      }
    }
  }

  lemma {:induction false} SharedArePar(path: string, t: Route, j: nat)
    requires j < |Shared(path, t)|
    ensures Shared(path, t)[j].Par?
    decreases path
  {
    if path == "" || t == [] || !Same(path[0], t[0]) {
      Apart(path, t, []);
    } else {
      AgreementStep(path, t, []);
      if t[0].Ch? {
        SharedArePar(path[1..], t[1..], j);
      } else if j > 0 {
        SharedArePar(path[1..], t[1..], j - 1);
      }
    }
  }

  /** With a cyclic queue no wildcard is a catch-all, and the rest of the queue agrees with its front. */
  lemma {:induction false} CycleTells(s: string, w: Route, q: seq<Param>, j: nat)
    requires 0 < |w| <= |q| && Wilds(s) == |q| - |w| && j < |q|
    requires forall i :: 0 <= i < |w| ==> w[i].Par? && w[i] == TokenOf(q[i])
    requires Toks(s, q) == Toks(s, q[|w|..])
    ensures TokenOf(q[j]) == if j < |w| then w[j] else TokenOf(q[j - |w|])
    ensures q[j].ParamSeg?
    decreases j
  {
    if j >= |w| {
      forall i | 0 <= i < j ensures q[i].ParamSeg? {
        CycleTells(s, w, q, i);
      }
      SpellingTells(s, q, q[|w|..], j - |w|);
    }
  }

  /** Filing along `t` is as spelled exactly when the queue repeats the shared parameters. */
  lemma SpelledAlong(path: string, t: Route, q: seq<Param>)
    requires Wilds(path) == |q|
    ensures Along(path, t, q) == Toks(path, q) <==> Repeats(q, Shared(path, t))
  {
    hide Along, Toks, Shared, Wilds, Agreement, TokenOf;
    var w, rest := Shared(path, t), path[Agreement(path, t)..];
    AlongSplits(path, t, q, q);
    forall j | 0 <= j < |w| ensures w[j].Par? {
      SharedArePar(path, t, j);
    }
    if w == [] {
      assert q[0..] == q;
    } else if Along(path, t, q) == Toks(path, q) {
      forall j | 0 <= j < |q| ensures TokenOf(q[j]) == if j < |w| then w[j] else TokenOf(q[j - |w|]) {
        CycleTells(rest, w, q, j);
      }
    } else if Repeats(q, w) {
      CycleSpells(rest, w, q);
    }
  }

  lemma CycleSpells(s: string, w: Route, q: seq<Param>)
    requires 0 < |w| <= |q| && Wilds(s) == |q| - |w| && Repeats(q, w)
    ensures forall j :: 0 <= j < |w| ==> w[j] == TokenOf(q[j])
    ensures Toks(s, q) == Toks(s, q[|w|..])
  {
    hide Toks, Wilds;
    var more := q[|w|..];
    forall j | 0 <= j < |w| ensures w[j] == TokenOf(q[j]) {
      assert w != [] && 0 <= j < |q|;
    }
    forall j | 0 <= j < |more| ensures TokenOf(q[j]) == TokenOf(more[j]) {
      assert more[j] == q[j + |w|] && TokenOf(q[j + |w|]) == TokenOf(q[j + |w| - |w|]);
    }
    SameSpelling(s, q, more);
  }
}
