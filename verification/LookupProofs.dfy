/** Lookup against the registered patterns: completeness, soundness, unambiguity. */
module LookupProofs {
  import opened Text
  import opened RouteTree
  import opened RouteInsertion
  import opened RouteConflicts
  import opened Lookup

  /** The request made by filling the wildcards of a pattern. */
  function Fill(t: Route, f: seq<string>): string {
    if t == [] then ""
    else if t[0].Ch? then [t[0].c] + Fill(t[1..], f)
    else if f == [] then ""
    else f[0] + Fill(t[1..], f[1..])
  }

  /** One text for every wildcard: parameters nonempty, slash-free and matched, catch-alls nonempty. */
  predicate Fits(t: Route, f: seq<string>, acc: Matcher) {
    if t == [] then f == []
    else
      match t[0]
      case Ch(_) => Fits(t[1..], f, acc)
      case Par(_, p) => f != [] && f[0] != "" && '/' !in f[0] && acc(p, f[0]) && Fits(t[1..], f[1..], acc)
      case All(_) => f != [] && f[0] != "" && Fits(t[1..], f[1..], acc)
  }

  /** As `Fits`, but texts may be empty, and an empty parameter need not match its pattern. */
  predicate Loose(t: Route, f: seq<string>, acc: Matcher) {
    if t == [] then f == []
    else
      match t[0]
      case Ch(_) => Loose(t[1..], f, acc)
      case Par(_, p) => f != [] && '/' !in f[0] && (f[0] != "" ==> acc(p, f[0])) && Loose(t[1..], f[1..], acc)
      case All(_) => f != [] && Loose(t[1..], f[1..], acc)
  }

  /** The parameters bound by a fill: every catch-all, and every parameter its pattern matches. */
  function Bind(t: Route, f: seq<string>, acc: Matcher, m: Params): Params {
    if t == [] then m
    else
      match t[0]
      case Ch(_) => Bind(t[1..], f, acc, m)
      case Par(name, p) =>
        if f == [] then m else Bind(t[1..], f[1..], acc, if acc(p, f[0]) then Emplace(m, name, f[0]) else m)
      case All(name) =>
        if f == [] then m else Bind(t[1..], f[1..], acc, Emplace(m, name, f[0]))
  }

  lemma FillLit(a: string, r: Route, f: seq<string>, acc: Matcher, m: Params)
    ensures Fill(Lit(a) + r, f) == a + Fill(r, f)
    ensures Fits(Lit(a) + r, f, acc) == Fits(r, f, acc)
    ensures Loose(Lit(a) + r, f, acc) == Loose(r, f, acc)
    ensures Bind(Lit(a) + r, f, acc, m) == Bind(r, f, acc, m)
  {
    hide Lit;
    if a == "" {
      LitNone(r);
    } else {
      FillLit(a[1..], r, f, acc, m);
      LitCons(a, r);
      assert a + Fill(r, f) == [a[0]] + (a[1..] + Fill(r, f));
    }
  }

  lemma FitsNonEmpty(t: Route, f: seq<string>, acc: Matcher)
    requires t != [] && Fits(t, f, acc)
    ensures Fill(t, f) != ""
    ensures t[0].Ch? ==> Fill(t, f)[0] == t[0].c
  {
  }

  /** Below an ordinary node without a wildcard, the index leads to the child that holds the pattern. */
  lemma IndexLeads(n: Node, r: Route)
    requires Plain(n) && !n.wild && r != [] && RegBelow(n, r).Some?
    ensures r[0].Ch?
    ensures Indice(n, r[0].c).Some? && Plain(Indice(n, r[0].c).value)
            && Reg(Indice(n, r[0].c).value, r) == RegBelow(n, r)
  {
    IndicesAreFirsts(n);
    IndexOfLit(n.indices, r[0].c);
  }

  lemma WildLeads(n: Node, r: Route)
    requires Plain(n) && n.wild && r != [] && RegBelow(n, r).Some?
    ensures Wildcard(n.children[0]) && Reg(n.children[0], r) == RegBelow(n, r)
    ensures r[0] == Head(n.children[0])[0] && !r[0].Ch?
  {
    RegOnlyChild(n, r);
    assert Wildcard(n.children[0]);
    RegHead(n.children[0], r);
  }

  /** A request made by filling a registered pattern reaches its controller and binds the fills. */
  lemma {:induction false} Completeness(n: Node, t: Route, f: seq<string>, params: Params, acc: Matcher)
    requires Plain(n) && Reg(n, t).Some? && Fits(t, f, acc)
    ensures Forward(n, Fill(t, f), params, acc) == Found(Reg(n, t), Bind(t, f, acc, params), false)
    decreases n
  {
    RegHead(n, t);
    HeadPlain(n);
    var r := t[|n.path|..];
    FillLit(n.path, r, f, acc, params);
    RegSplit(n, r);
    if r != [] {
      FitsNonEmpty(r, f, acc);
      var rest := Fill(r, f);
      assert (n.path + rest)[|n.path|..] == rest;
      if n.wild {
        WildLeads(n, r);
        CompletenessBelow(n.children[0], r, f, params, acc);
      } else {
        IndexLeads(n, r);
        Completeness(Indice(n, r[0].c).value, r, f, params, acc);
      }
    }
  }

  /** The same below a wildcard. */
  lemma {:induction false} CompletenessBelow(w: Node, r: Route, f: seq<string>, params: Params, acc: Matcher)
    requires Wildcard(w) && r != [] && Reg(w, r).Some? && Fits(r, f, acc)
    ensures Fill(r, f) != ""
    ensures ForwardWild(w, Fill(r, f), params, acc) == Found(Reg(w, r), Bind(r, f, acc, params), false)
    decreases w, 0
  {
    RegHead(w, r);
    var r1, f1, rest := r[1..], f[1..], Fill(r, f);
    RegSplit(w, r1);
    assert r == Head(w) + r1;
    if w.kind == CATCH_ALL {
      assert r1 == [];
      assert f[0] + "" == f[0];
    } else if r1 == [] {
      assert f[0] + "" == f[0];
      assert rest[..|f[0]|] == f[0];
      UntilSlashUnique(rest, |f[0]|);
    } else {
      RegOnlyChild(w, r1);
      RegHead(w.children[0], r1);
      HeadPlain(w.children[0]);
      FitsNonEmpty(r1, f1, acc);
      assert rest[..|f[0]|] == f[0] && rest[|f[0]|..] == Fill(r1, f1);
      UntilSlashUnique(rest, |f[0]|);
      Completeness(w.children[0], r1, f1, Emplace(params, w.name, f[0]), acc);
    }
  }

  // ---------------------------------------------------------------- what a fill binds

  /** The names of the wildcards of a pattern, in order. */
  function Names(t: Route): seq<string> {
    if t == [] then []
    else
      match t[0]
      case Ch(_) => Names(t[1..])
      case Par(name, _) => [name] + Names(t[1..])
      case All(name) => [name] + Names(t[1..])
  }

  /** Every name ends up with the value it had before, or else with the text of its first wildcard. */
  lemma {:induction false} FirstFillBinds(t: Route, f: seq<string>, acc: Matcher, m: Params, x: string)
    requires Fits(t, f, acc)
    ensures |Names(t)| == |f|
    ensures var b := Bind(t, f, acc, m);
            if x in m then x in b && b[x] == m[x]
            else if x in Names(t) then x in b && b[x] == f[IndexOf(Names(t), x).value]
            else x !in b
  {
    if t != [] {
      match t[0]
      case Ch(_) => FirstFillBinds(t[1..], f, acc, m, x);
      case Par(name, _) => FirstFillBinds(t[1..], f[1..], acc, Emplace(m, name, f[0]), x);
      case All(name) => FirstFillBinds(t[1..], f[1..], acc, Emplace(m, name, f[0]), x);
    }
  }

  /** With distinct names and nothing bound before, exactly the fills are bound. */
  lemma DistinctNamesBind(t: Route, f: seq<string>, acc: Matcher)
    requires Fits(t, f, acc) && Distinct(Names(t))
    ensures |Names(t)| == |f|
    ensures forall k :: 0 <= k < |f| ==>
              Names(t)[k] in Bind(t, f, acc, map[]) && Bind(t, f, acc, map[])[Names(t)[k]] == f[k]
    ensures forall x :: x in Bind(t, f, acc, map[]) <==> x in Names(t)
  {
    forall x ensures x in Bind(t, f, acc, map[]) <==> x in Names(t) {
      FirstFillBinds(t, f, acc, map[], x);
    }
    FirstFillBinds(t, f, acc, map[], "");
    forall k | 0 <= k < |f|
      ensures Names(t)[k] in Bind(t, f, acc, map[]) && Bind(t, f, acc, map[])[Names(t)[k]] == f[k]
    {
      FirstFillBinds(t, f, acc, map[], Names(t)[k]);
      FirstUnique(Names(t), Names(t)[k], k);
    }
  }

  // ---------------------------------------------------------------- soundness

  /** The rules for an unread rest: only after a final parameter that stands for an empty segment. */
  predicate Unread(t: Route, f: seq<string>, junk: string, acc: Matcher) {
    if junk != "" then junk[0] == '/' && t != [] && t[|t| - 1].Par? && f != [] && f[|f| - 1] == ""
    else t != [] && t[|t| - 1].Par? ==> f != [] && acc(t[|t| - 1].pattern, f[|f| - 1])
  }

  /** How a served request relates to its pattern: `junk` is request text that was never looked at. */
  predicate Explains(t: Route, f: seq<string>, junk: string, request: string, acc: Matcher) {
    request == Fill(t, f) + junk && Loose(t, f, acc) && Unread(t, f, junk, acc)
  }

  lemma ExplainsLit(a: string, r: Route, f: seq<string>, junk: string, rest: string, acc: Matcher, m: Params)
    requires a != "" && Explains(r, f, junk, rest, acc)
    ensures Explains(Lit(a) + r, f, junk, a + rest, acc)
    ensures Bind(Lit(a) + r, f, acc, m) == Bind(r, f, acc, m)
  {
    FillLit(a, r, f, acc, m);
    var t := Lit(a) + r;
    assert t[|t| - 1] == if r == [] then Ch(a[|a| - 1]) else r[|r| - 1];
  }

  lemma ExplainsParam(name: string, p: string, seg: string, r: Route, f: seq<string>, junk: string, rest: string,
                      acc: Matcher, m: Params)
    requires '/' !in seg && (seg != "" ==> acc(p, seg))
    requires r != [] && Explains(r, f, junk, rest, acc)
    ensures Explains([Par(name, p)] + r, [seg] + f, junk, seg + rest, acc)
    ensures Bind([Par(name, p)] + r, [seg] + f, acc, m)
            == Bind(r, f, acc, if acc(p, seg) then Emplace(m, name, seg) else m)
  {
    var t, g := [Par(name, p)] + r, [seg] + f;
    assert t[1..] == r && g[1..] == f;
    assert t[|t| - 1] == r[|r| - 1];
    if f != [] {
      assert g[|g| - 1] == f[|f| - 1];
    }
    assert (seg + Fill(r, f)) + junk == seg + (Fill(r, f) + junk);
  }

  /** `t` goes before every registered pattern that explains the request. */
  ghost predicate GoesFirst(n: Node, t: Route, request: string, acc: Matcher) {
    forall u: Route, g, j :: Reg(n, u).Some? && Explains(u, g, j, request, acc) ==> t <= u
  }

  /** The same for what is left below the head of `n`. */
  ghost predicate GoesFirstBelow(n: Node, r: Route, rest: string, acc: Matcher) {
    forall u: Route, g, j :: u != [] && RegBelow(n, u).Some? && Explains(u, g, j, rest, acc) ==> r <= u
  }

  /** The pattern and texts behind a served request. Of all patterns that explain it, it is the first. */
  lemma {:induction false} Soundness(n: Node, request: string, params: Params, acc: Matcher)
      returns (t: Route, f: seq<string>, junk: string)
    requires Plain(n) && Forward(n, request, params, acc).ctrl.Some?
    ensures Reg(n, t) == Forward(n, request, params, acc).ctrl
    ensures Explains(t, f, junk, request, acc)
    ensures Forward(n, request, params, acc).params == Bind(t, f, acc, params)
    ensures GoesFirst(n, t, request, acc)
    decreases n, 1
  {
    hide GoesFirst, GoesFirstBelow, Explains;
    var r: Route;
    var rest := request[|n.path|..];
    assert request == n.path + rest;
    if rest == "" {
      r, f, junk := SoundnessAtEnd(n, params, acc);
    } else if n.wild {
      assert Wildcard(n.children[0]);
      r, f, junk := SoundnessBelow(n.children[0], rest, params, acc);
      RegOnlyChild(n, r);
      FirstInWild(n, r, rest, acc);
    } else {
      var kid := Indice(n, rest[0]).value;
      r, f, junk := Soundness(kid, rest, params, acc);
      IndexHolds(n, rest[0], r);
      FirstInIndex(n, kid, r, rest, acc);
    }
    FirstAbove(n, r, rest, acc);
    t := Head(n) + r;
    HeadPlain(n);
    RegSplit(n, r);
    ExplainsLit(n.path, r, f, junk, rest, acc, params);
  }

  lemma SoundnessAtEnd(n: Node, params: Params, acc: Matcher)
      returns (r: Route, f: seq<string>, junk: string)
    requires Plain(n) && AtEnd(n, params, acc).ctrl.Some?
    ensures AtEnd(n, params, acc).ctrl == if r == [] then n.handle else RegBelow(n, r)
    ensures Explains(r, f, junk, "", acc)
    ensures AtEnd(n, params, acc).params == Bind(r, f, acc, params)
    ensures GoesFirstBelow(n, r, "", acc) && (n.handle.Some? ==> r == [])
  {
    if n.handle.Some? {
      r, f, junk := [], [], "";
    } else {
      var w := n.children[0];
      assert Wildcard(w);
      r, f, junk := Head(w), [""], "";
      WildHead(w);
      OneFill(r[0], "", acc, params);
      RegOnlyChild(n, r);
      assert r == [r[0]];
      HeadFirst(w, "", acc);
      FirstInWild(n, r, "", acc);
    }
  }

  /** The head of a wildcard begins every pattern below it. */
  lemma HeadFirst(w: Node, rest: string, acc: Matcher)
    ensures GoesFirst(w, Head(w), rest, acc)
  {
    forall u: Route, g, j | Reg(w, u).Some? && Explains(u, g, j, rest, acc) ensures Head(w) <= u {
      RegHead(w, u);
    }
  }

  lemma FirstInWild(n: Node, r: Route, rest: string, acc: Matcher)
    requires n.wild && |n.children| == 1 && GoesFirst(n.children[0], r, rest, acc)
    ensures GoesFirstBelow(n, r, rest, acc)
  {
    forall u: Route, g, j | u != [] && RegBelow(n, u).Some? && Explains(u, g, j, rest, acc) ensures r <= u {
      RegOnlyChild(n, u);
    }
  }

  lemma FirstInIndex(n: Node, kid: Node, r: Route, rest: string, acc: Matcher)
    requires Plain(n) && !n.wild && rest != "" && Indice(n, rest[0]) == Some(kid) && GoesFirst(kid, r, rest, acc)
    ensures GoesFirstBelow(n, r, rest, acc)
  {
    forall u: Route, g, j | u != [] && RegBelow(n, u).Some? && Explains(u, g, j, rest, acc) ensures r <= u {
      IndexLeads(n, u);
      assert rest[0] == u[0].c;
    }
  }

  lemma FirstAbove(n: Node, r: Route, rest: string, acc: Matcher)
    requires Plain(n) && GoesFirstBelow(n, r, rest, acc) && (rest == "" && n.handle.Some? ==> r == [])
    ensures GoesFirst(n, Head(n) + r, n.path + rest, acc)
  {
    var request := n.path + rest;
    HeadPlain(n);
    assert request[|n.path|..] == rest;
    forall u: Route, g, j | Reg(n, u).Some? && Explains(u, g, j, request, acc) ensures Head(n) + r <= u {
      RegHead(n, u);
      var more := u[|Head(n)|..];
      ExplainsDropLit(n.path, more, g, j, request, acc);
      RegSplit(n, more);
      PrefixBehind(Head(n), r, more);
    }
  }

  lemma PrefixBehind(h: Route, r: Route, more: Route)
    ensures r <= more ==> h + r <= h + more
  {
    if r <= more {
      assert h + more == h + r + more[|r|..];
    }
  }

  lemma IndexHolds(n: Node, c: char, r: Route)
    requires Plain(n) && !n.wild && Indice(n, c).Some? && Reg(Indice(n, c).value, r).Some?
    ensures r != [] && RegBelow(n, r) == Reg(Indice(n, c).value, r)
  {
    var kid := Indice(n, c).value;
    RegHead(kid, r);
    HeadPlain(kid);
    IndicesAreFirsts(n);
    IndexOfLit(n.indices, c);
  }

  lemma {:induction false} SoundnessBelow(w: Node, rest: string, params: Params, acc: Matcher)
      returns (t: Route, f: seq<string>, junk: string)
    requires Wildcard(w) && rest != "" && ForwardWild(w, rest, params, acc).ctrl.Some?
    ensures t != [] && Reg(w, t) == ForwardWild(w, rest, params, acc).ctrl
    ensures Explains(t, f, junk, rest, acc)
    ensures ForwardWild(w, rest, params, acc).params == Bind(t, f, acc, params)
    ensures GoesFirst(w, t, rest, acc)
    decreases w, 0
  {
    hide GoesFirst;
    HeadFirst(w, rest, acc);
    var slash := UntilSlash(rest);
    if w.kind == CATCH_ALL {
      t, f, junk := Head(w), [rest], "";
      CatchAllExplains(w, rest, params, acc);
    } else if w.handle.Some? && (slash == 0 || slash == |rest|) {
      t, f, junk := Head(w), [rest[..slash]], rest[slash..];
      LastParamExplains(w, rest, params, acc);
    } else {
      var seg := rest[..slash];
      var bound := if Match(acc, w.re, seg) then Emplace(params, w.name, seg) else params;
      var r, g;
      r, g, junk := Soundness(w.children[0], rest[slash..], bound, acc);
      t, f := Head(w) + r, [seg] + g;
      MoreExplains(w, r, g, junk, rest, params, acc);
      FirstInParam(w, r, rest, acc);
    }
  }

  lemma FirstInParam(w: Node, r: Route, rest: string, acc: Matcher)
    requires Wildcard(w) && w.kind == PARAM && |w.children| == 1
             && GoesFirst(w.children[0], r, rest[UntilSlash(rest)..], acc)
    requires w.handle.Some? ==> 0 < UntilSlash(rest) < |rest|
    ensures GoesFirst(w, Head(w) + r, rest, acc)
  {
    hide Wildcard, Explains, Reg, Head;
    forall u: Route, g, j | Reg(w, u).Some? && Explains(u, g, j, rest, acc) ensures Head(w) + r <= u {
      ParamGoesOn(w, u, g, j, rest, acc);
      PrefixBehind(Head(w), r, u[1..]);
    }
  }

  /** Where the lookup goes on below a parameter, so does every pattern that explains the request. */
  lemma ParamGoesOn(w: Node, u: Route, g: seq<string>, j: string, rest: string, acc: Matcher)
    requires Wildcard(w) && w.kind == PARAM && |w.children| == 1 && Reg(w, u).Some? && Explains(u, g, j, rest, acc)
    requires w.handle.Some? ==> 0 < UntilSlash(rest) < |rest|
    ensures u != [] && g != [] && u == Head(w) + u[1..] && Reg(w.children[0], u[1..]).Some?
    ensures Explains(u[1..], g[1..], j, rest[UntilSlash(rest)..], acc)
  {
    RegHead(w, u);
    WildHead(w);
    WildTail(w, u);
    hide Wildcard, Explains, Reg, Head, Fill, Loose;
    if u[1..] == [] {
      LastStops(u, g, j, rest, acc);
    } else {
      MoreExplained(w, u, g, j, rest, acc);
    }
  }

  /** A final parameter stands for the whole rest, or for nothing before a slash. */
  lemma LastStops(u: Route, g: seq<string>, j: string, rest: string, acc: Matcher)
    requires |u| == 1 && u[0].Par? && Explains(u, g, j, rest, acc)
    ensures UntilSlash(rest) == 0 || UntilSlash(rest) == |rest|
  {
    assert Loose(u[1..], g[1..], acc) && g[1..] == [] && g[|g| - 1] == g[0];
    assert Fill(u[1..], g[1..]) == "" && g[0] + "" == g[0];
    assert rest == g[0] + j && rest[..|g[0]|] == g[0];
    UntilSlashUnique(rest, |g[0]|);
  }

  lemma MoreExplains(w: Node, r: Route, g: seq<string>, junk: string, rest: string, params: Params, acc: Matcher)
    requires Wildcard(w) && w.kind == PARAM && |w.children| == 1 && Reg(w.children[0], r).Some?
    requires var seg := rest[..UntilSlash(rest)];
             Explains(r, g, junk, rest[|seg|..], acc) && (seg != "" ==> Match(acc, w.re, seg))
    ensures var seg := rest[..UntilSlash(rest)];
            var (t, f) := (Head(w) + r, [seg] + g);
            && Reg(w, t) == Reg(w.children[0], r) && Explains(t, f, junk, rest, acc)
            && Bind(t, f, acc, params)
               == Bind(r, g, acc, if Match(acc, w.re, seg) then Emplace(params, w.name, seg) else params)
  {
    hide Wildcard, Reg, Head, Fill, Loose, Bind, Unread, RegBelow, Explains;
    var seg := rest[..UntilSlash(rest)];
    RegMore(w, r);
    assert rest == seg + rest[|seg|..];
    ExplainsParam(w.name, w.re.value, seg, r, g, junk, rest[|seg|..], acc, params);
  }

  lemma RegMore(w: Node, r: Route)
    requires Wildcard(w) && w.kind == PARAM && |w.children| == 1 && Reg(w.children[0], r).Some?
    ensures r != [] && Reg(w, Head(w) + r) == Reg(w.children[0], r)
    ensures w.re.Some? && Head(w) == [Par(w.name, w.re.value)]
  {
    RegHead(w.children[0], r);
    RegSplit(w, r);
    RegOnlyChild(w, r);
  }

  lemma WildHead(w: Node)
    requires Wildcard(w)
    ensures Reg(w, Head(w)) == w.handle && |Head(w)| == 1
    ensures Head(w) == [if w.kind == CATCH_ALL then All(w.name) else Par(w.name, w.re.GetOr(""))]
  {
    RegSplit(w, []);
    assert Head(w) + [] == Head(w);
  }

  lemma CatchAllExplains(w: Node, rest: string, params: Params, acc: Matcher)
    requires Wildcard(w) && w.kind == CATCH_ALL
    ensures Reg(w, Head(w)) == w.handle && Explains(Head(w), [rest], "", rest, acc)
    ensures Bind(Head(w), [rest], acc, params) == Emplace(params, w.name, rest)
  {
    WildHead(w);
    OneFill(Head(w)[0], rest, acc, params);
    hide Wildcard, Reg, Head, Fill, Loose, Bind;
    assert Head(w) == [Head(w)[0]] && rest + "" == rest;
  }

  lemma LastParamExplains(w: Node, rest: string, params: Params, acc: Matcher)
    requires Wildcard(w) && w.kind == PARAM && rest != "" && w.handle.Some?
    requires var slash := UntilSlash(rest); slash == 0 || (slash == |rest| && Match(acc, w.re, rest[..slash]))
    ensures var slash := UntilSlash(rest);
            && Reg(w, Head(w)) == w.handle && Explains(Head(w), [rest[..slash]], rest[slash..], rest, acc)
            && Bind(Head(w), [rest[..slash]], acc, params)
               == if Match(acc, w.re, rest[..slash]) then Emplace(params, w.name, rest[..slash]) else params
  {
    WildHead(w);
    assert w.re.Some?;
    var seg := rest[..UntilSlash(rest)];
    OneFill(Head(w)[0], seg, acc, params);
    hide Wildcard, Reg, Head, Fill, Loose, Bind;
    assert Head(w) == [Head(w)[0]] && rest == seg + rest[UntilSlash(rest)..];
  }

  /** A pattern of a single wildcard. */
  lemma OneFill(tok: Token, seg: string, acc: Matcher, m: Params)
    requires !tok.Ch?
    ensures Fill([tok], [seg]) == seg
    ensures Loose([tok], [seg], acc) == (tok.Par? ==> '/' !in seg && (seg != "" ==> acc(tok.pattern, seg)))
    ensures Bind([tok], [seg], acc, m) == if tok.All? || acc(tok.pattern, seg) then Emplace(m, tok.name, seg) else m
  {
    assert [tok][1..] == [] && [seg][1..] == [];
    assert seg + "" == seg;
  }

  lemma ExplainsDropLit(a: string, r: Route, f: seq<string>, junk: string, request: string, acc: Matcher)
    requires Explains(Lit(a) + r, f, junk, request, acc)
    ensures a <= request && request == a + request[|a|..] && request[|a|..] == Fill(r, f) + junk && Loose(r, f, acc)
    ensures r != [] ==> Explains(r, f, junk, request[|a|..], acc)
    ensures r == [] && a != "" ==> request == a
  {
    hide Fill, Loose, Lit, Fits, Bind;
    FillLit(a, r, f, acc, map[]);
    LitEnd(a, r);
    var more := Fill(r, f) + junk;
    assert request == a + more;
    assert request[|a|..] == more;
    if r == [] {
      FillNone(f, acc);
    }
  }

  lemma LitEnd(a: string, r: Route)
    ensures var t := Lit(a) + r;
            t != [] ==> t[|t| - 1] == if r != [] then r[|r| - 1] else Ch(a[|a| - 1])
    ensures |Lit(a) + r| == |a| + |r|
  {
  }

  lemma FillNone(f: seq<string>, acc: Matcher)
    ensures Fill([], f) == "" && (Loose([], f, acc) <==> f == [])
  {
  }

  /** Whatever a registered pattern explains is served, if not by that route then by one that goes first. */
  lemma {:induction false} ExplainedIsServed(n: Node, t: Route, f: seq<string>, junk: string,
                                             request: string, params: Params, acc: Matcher)
    requires Plain(n) && Reg(n, t).Some? && Explains(t, f, junk, request, acc)
    ensures Forward(n, request, params, acc).ctrl.Some?
    decreases n, 1
  {
    RegHead(n, t);
    HeadPlain(n);
    var r := t[|n.path|..];
    ExplainsDropLit(n.path, r, f, junk, request, acc);
    RegSplit(n, r);
    var rest := request[|n.path|..];
    if r != [] {
      if n.wild {
        WildLeads(n, r);
        if rest == "" {
          EmptyRest(n, r, f, junk, params, acc);
        } else {
          ExplainedBelow(n.children[0], r, f, junk, rest, params, acc);
        }
      } else {
        IndexLeads(n, r);
        assert rest != "" && rest[0] == r[0].c;
        ExplainedIsServed(Indice(n, rest[0]).value, r, f, junk, rest, params, acc);
      }
    }
  }

  /** After a wildcard comes the end of the pattern or a slash. */
  lemma WildTail(w: Node, r: Route)
    requires Wildcard(w) && r != [] && Reg(w, r).Some?
    ensures r[0] == Head(w)[0]
    ensures r[1..] == [] ==> r == Head(w) && w.handle == Reg(w, r)
    ensures r[1..] != [] ==>
              && w.kind == PARAM && |w.children| == 1 && Plain(w.children[0])
              && r[1] == Ch('/') && Reg(w.children[0], r[1..]) == Reg(w, r)
  {
    RegHead(w, r);
    RegSplit(w, r[1..]);
    assert r == Head(w) + r[1..];
    if r[1..] != [] {
      RegOnlyChild(w, r[1..]);
      RegHead(w.children[0], r[1..]);
      HeadPlain(w.children[0]);
    }
  }

  /** A wildcard that stands for nothing at the end of the request. */
  lemma EmptyRest(n: Node, r: Route, f: seq<string>, junk: string, params: Params, acc: Matcher)
    requires Plain(n) && n.wild && Wildcard(n.children[0]) && r != [] && Reg(n.children[0], r).Some?
    requires Explains(r, f, junk, "", acc)
    ensures AtEnd(n, params, acc).ctrl.Some?
  {
    var w := n.children[0];
    WildTail(w, r);
    assert Fill(r, f) == "" && junk == "";
    assert Fill(r, f) == f[0] + Fill(r[1..], f[1..]);
    assert r[1..] == [];
    assert Loose(r[1..], f[1..], acc) && f[1..] == [] && f[|f| - 1] == f[0];
  }

  lemma {:induction false} ExplainedBelow(w: Node, r: Route, f: seq<string>, junk: string,
                                          rest: string, params: Params, acc: Matcher)
    requires Wildcard(w) && r != [] && rest != "" && Reg(w, r).Some? && Explains(r, f, junk, rest, acc)
    ensures ForwardWild(w, rest, params, acc).ctrl.Some?
    decreases w, 0
  {
    WildTail(w, r);
    if r[1..] == [] {
      LastExplained(w, r, f, junk, rest, params, acc);
    } else {
      MoreExplained(w, r, f, junk, rest, acc);
      var slash := UntilSlash(rest);
      var bound := if Match(acc, w.re, f[0]) then Emplace(params, w.name, f[0]) else params;
      ExplainedIsServed(w.children[0], r[1..], f[1..], junk, rest[slash..], bound, acc);
    }
  }

  lemma MoreExplained(w: Node, r: Route, f: seq<string>, junk: string, rest: string, acc: Matcher)
    requires |r| > 1 && r[0].Par? && r[1] == Ch('/') && Explains(r, f, junk, rest, acc)
    ensures var slash := UntilSlash(rest);
            && f != [] && slash < |rest| && f[0] == rest[..slash]
            && (slash > 0 ==> acc(r[0].pattern, f[0]))
            && Explains(r[1..], f[1..], junk, rest[slash..], acc)
  {
    var more := Fill(r[1..], f[1..]) + junk;
    assert rest == f[0] + more;
    assert rest[..|f[0]|] == f[0] && rest[|f[0]|..] == more;
    assert more[0] == '/';
    UntilSlashUnique(rest, |f[0]|);
    TailExplains(r, f, junk, more, acc);
  }

  lemma LastExplained(w: Node, r: Route, f: seq<string>, junk: string, rest: string, params: Params, acc: Matcher)
    requires Wildcard(w) && r == Head(w) && rest != "" && Reg(w, r).Some? && Explains(r, f, junk, rest, acc)
    requires w.handle.Some?
    ensures ForwardWild(w, rest, params, acc).ctrl.Some?
  {
    assert Loose(r[1..], f[1..], acc) && f[1..] == [] && f[|f| - 1] == f[0];
    if w.kind == PARAM {
      assert Fill(r[1..], f[1..]) == "" && f[0] + "" == f[0];
      assert Fill(r, f) == f[0];
      assert rest == f[0] + junk && rest[..|f[0]|] == f[0];
      UntilSlashUnique(rest, |f[0]|);
    }
  }

  lemma TailExplains(r: Route, f: seq<string>, junk: string, more: string, acc: Matcher)
    requires |r| > 1 && r[0].Par? && Loose(r, f, acc) && Unread(r, f, junk, acc)
    requires more == Fill(r[1..], f[1..]) + junk
    ensures Explains(r[1..], f[1..], junk, more, acc)
  {
    LastFill(r[1..], f[1..], acc);
    assert r[|r| - 1] == r[1..][|r| - 2];
    if f[1..] != [] {
      assert f[|f| - 1] == f[1..][|f| - 2];
    }
  }

  /** A pattern that ends in a parameter has a text for it. */
  lemma {:induction false} LastFill(r: Route, f: seq<string>, acc: Matcher)
    requires r != [] && Loose(r, f, acc)
    ensures r[|r| - 1].Par? ==> f != []
  {
    if |r| > 1 {
      LastFill(r[1..], if r[0].Ch? then f else f[1..], acc);
    }
  }

  /** When every wildcard of the pattern stands for a nonempty text, the request is one of its instances. */
  lemma {:induction false} LooseIsFit(t: Route, f: seq<string>, acc: Matcher)
    requires Loose(t, f, acc) && "" !in f
    ensures Fits(t, f, acc)
  {
    if t != [] {
      if t[0].Ch? {
        LooseIsFit(t[1..], f, acc);
      } else {
        assert f[0] in f;
        LooseIsFit(t[1..], f[1..], acc);
      }
    }
  }

  // ---------------------------------------------------------------- unambiguity

  lemma FillSplits(n: Node, r: Route, f: seq<string>, acc: Matcher)
    requires Plain(n)
    ensures Fill(Head(n) + r, f) == n.path + Fill(r, f)
    ensures Fits(Head(n) + r, f, acc) == Fits(r, f, acc)
    ensures r == [] ==> Fill(r, f) == ""
    ensures r != [] && Fits(r, f, acc) ==> Fill(r, f) != "" && (r[0].Ch? ==> Fill(r, f)[0] == r[0].c)
  {
    HeadPlain(n);
    FillLit(n.path, r, f, acc, map[]);
    if r != [] && Fits(r, f, acc) {
      FitsNonEmpty(r, f, acc);
    }
  }

  /** No request is an instance of two registered patterns, nor of one in two ways. */
  lemma {:induction false} Unambiguous(n: Node, t: Route, f: seq<string>, t': Route, f': seq<string>, acc: Matcher)
    requires Plain(n) && Reg(n, t).Some? && Reg(n, t').Some?
    requires Fits(t, f, acc) && Fits(t', f', acc) && Fill(t, f) == Fill(t', f')
    ensures t == t' && f == f'
    decreases n, 1
  {
    RegHead(n, t);
    RegHead(n, t');
    var r, r' := t[|Head(n)|..], t'[|Head(n)|..];
    FillSplits(n, r, f, acc);
    FillSplits(n, r', f', acc);
    RegSplit(n, r);
    RegSplit(n, r');
    assert Fill(r, f) == (n.path + Fill(r, f))[|n.path|..] == Fill(r', f');
    if r != [] && r' != [] {
      if n.wild {
        WildLeads(n, r);
        WildLeads(n, r');
        UnambiguousBelow(n.children[0], r, f, r', f', acc);
      } else {
        IndexLeads(n, r);
        IndexLeads(n, r');
        Unambiguous(Indice(n, r[0].c).value, r, f, r', f', acc);
      }
    }
  }

  lemma {:induction false} UnambiguousBelow(w: Node, t: Route, f: seq<string>, t': Route, f': seq<string>, acc: Matcher)
    requires Wildcard(w) && t != [] && t' != [] && Reg(w, t).Some? && Reg(w, t').Some?
    requires Fits(t, f, acc) && Fits(t', f', acc) && Fill(t, f) == Fill(t', f')
    ensures t == t' && f == f'
    decreases w, 0
  {
    hide Wildcard, Plain, Reg, Fits, Fill, Head, UntilSlash;
    FillBelow(w, t, f, acc);
    FillBelow(w, t', f', acc);
    var r, r' := t[1..], t'[1..];
    if r != [] && r' != [] {
      Unambiguous(w.children[0], r, f[1..], r', f'[1..], acc);
    }
    assert f == [f[0]] + f[1..] && f' == [f'[0]] + f'[1..];
    assert t == [t[0]] + r && t' == [t'[0]] + r';
  }

  /** The text of a leading wildcard is determined by the request. */
  lemma FillBelow(w: Node, t: Route, f: seq<string>, acc: Matcher)
    requires Wildcard(w) && t != [] && Reg(w, t).Some? && Fits(t, f, acc)
    ensures t[0] == Head(w)[0] && f != [] && Fits(t[1..], f[1..], acc)
    ensures Fill(t, f) == f[0] + Fill(t[1..], f[1..])
    ensures |f[0]| == if w.kind == CATCH_ALL then |Fill(t, f)| else UntilSlash(Fill(t, f))
    ensures f[0] == Fill(t, f)[..|f[0]|] && Fill(t[1..], f[1..]) == Fill(t, f)[|f[0]|..]
    ensures t[1..] == [] <==> Fill(t[1..], f[1..]) == ""
    ensures t[1..] == [] ==> f[1..] == []
    ensures t[1..] != [] ==> |w.children| == 1 && Plain(w.children[0]) && Reg(w.children[0], t[1..]) == Reg(w, t)
  {
    RegHead(w, t);
    RegSplit(w, t[1..]);
    assert t == Head(w) + t[1..];
    if t[1..] != [] {
      RegOnlyChild(w, t[1..]);
      RegHead(w.children[0], t[1..]);
      HeadPlain(w.children[0]);
      FitsNonEmpty(t[1..], f[1..], acc);
    }
    var g := Fill(t[1..], f[1..]);
    assert Fill(t, f)[..|f[0]|] == f[0] && Fill(t, f)[|f[0]|..] == g;
    if w.kind == PARAM {
      assert '/' !in f[0];
      assert g != "" ==> g[0] == '/';
      UntilSlashUnique(Fill(t, f), |f[0]|);
    }
  }

  // ---------------------------------------------------------------- the service as a function of the patterns

  /** A pattern explains a request with one choice of texts only. */
  lemma {:induction false} ExplainsOnce(n: Node, t: Route, f: seq<string>, junk: string, f': seq<string>, junk': string,
                                        request: string, acc: Matcher)
    requires Plain(n) && Reg(n, t).Some? && Explains(t, f, junk, request, acc) && Explains(t, f', junk', request, acc)
    ensures f == f' && junk == junk'
    decreases n, 1
  {
    hide Wildcard, Reg, RegBelow, Explains, Fill, Loose;
    RegHead(n, t);
    HeadPlain(n);
    var r := t[|n.path|..];
    ExplainsDropLit(n.path, r, f, junk, request, acc);
    ExplainsDropLit(n.path, r, f', junk', request, acc);
    var rest := request[|n.path|..];
    RegSplit(n, r);
    if r == [] {
      FillNone(f, acc);
      FillNone(f', acc);
    } else if n.wild {
      WildLeads(n, r);
      ExplainsOnceBelow(n.children[0], r, f, junk, f', junk', rest, acc);
    } else {
      IndexLeads(n, r);
      ExplainsOnce(Indice(n, r[0].c).value, r, f, junk, f', junk', rest, acc);
    }
  }

  lemma {:induction false} ExplainsOnceBelow(w: Node, r: Route, f: seq<string>, junk: string, f': seq<string>,
                                             junk': string, rest: string, acc: Matcher)
    requires Wildcard(w) && r != [] && Reg(w, r).Some? && Explains(r, f, junk, rest, acc)
             && Explains(r, f', junk', rest, acc)
    ensures f == f' && junk == junk'
    decreases w, 0
  {
    hide Wildcard, Reg, Explains, Fill, Loose;
    WildTail(w, r);
    WildHead(w);
    if r[1..] == [] {
      assert !r[0].Ch?;
      LastTakes(r, f, junk, rest, acc);
      LastTakes(r, f', junk', rest, acc);
    } else {
      MoreExplained(w, r, f, junk, rest, acc);
      MoreExplained(w, r, f', junk', rest, acc);
      ExplainsOnce(w.children[0], r[1..], f[1..], junk, f'[1..], junk', rest[UntilSlash(rest)..], acc);
      assert f == [f[0]] + f[1..] && f' == [f'[0]] + f'[1..];
    }
  }

  /** What a final wildcard takes of the request. */
  lemma LastTakes(r: Route, f: seq<string>, junk: string, rest: string, acc: Matcher)
    requires |r| == 1 && !r[0].Ch? && Explains(r, f, junk, rest, acc)
    ensures var k := if r[0].All? then |rest| else UntilSlash(rest);
            f == [rest[..k]] && junk == rest[k..]
  {
    assert Loose(r[1..], f[1..], acc) && f[1..] == [] && f == [f[0]];
    assert Fill(r[1..], f[1..]) == "" && f[0] + "" == f[0];
    assert rest == f[0] + junk && rest[..|f[0]|] == f[0] && rest[|f[0]|..] == junk;
    if r[0].Par? {
      UntilSlashUnique(rest, |f[0]|);
    }
  }

  /** The same answer, with its bindings if there is one. */
  predicate SameAnswer(a: Found, b: Found) {
    a.ctrl == b.ctrl && (a.ctrl.Some? ==> a.params == b.params)
  }

  /** Trees with the same patterns give the same answers, whatever their shapes are. */
  lemma SamePatternsServe(n: Node, n': Node, request: string, params: Params, acc: Matcher)
    requires Plain(n) && Plain(n') && forall t :: Reg(n, t) == Reg(n', t)
    ensures SameAnswer(Forward(n, request, params, acc), Forward(n', request, params, acc))
  {
    if Forward(n, request, params, acc).ctrl.Some? {
      ServedAlike(n, n', request, params, acc);
    } else if Forward(n', request, params, acc).ctrl.Some? {
      ServedAlike(n', n, request, params, acc);
    }
  }

  lemma ServedAlike(n: Node, n': Node, request: string, params: Params, acc: Matcher)
    requires Plain(n) && Plain(n') && forall t :: Reg(n, t) == Reg(n', t)
    requires Forward(n, request, params, acc).ctrl.Some?
    ensures SameAnswer(Forward(n, request, params, acc), Forward(n', request, params, acc))
  {
    hide Plain, Reg, Forward, Explains, Bind;
    var t, f, junk := Soundness(n, request, params, acc);
    ExplainedIsServed(n', t, f, junk, request, params, acc);
    var t', f', junk' := Soundness(n', request, params, acc);
    assert Reg(n, t') == Reg(n', t') && Reg(n', t) == Reg(n, t);
    assert t <= t' && t' <= t;
    assert t == t'[..|t|] == t';
    ExplainsOnce(n, t, f, junk, f', junk', request, acc);
  }

  // ---------------------------------------------------------------- failed insertions

  /** The same controller and the same bindings; only the trailing-slash hint may differ. */
  predicate SameService(a: Found, b: Found) {
    a.ctrl == b.ctrl && a.params == b.params
  }

  /** A node below `a` serves what the unsplit node serves for requests that start with `a`. */
  lemma LowServes(n: Node, a: string, rest: string, params: Params, acc: Matcher)
    requires a <= n.path
    ensures var low := n.(path := n.path[|a|..]);
            SameService(Forward(low, rest, params, acc), Forward(n, a + rest, params, acc))
  {
    var low := n.(path := n.path[|a|..]);
    assert n.path == a + low.path;
    assert n.path <= a + rest <==> low.path <= rest;
    if low.path <= rest {
      assert (a + rest)[|n.path|..] == rest[|low.path|..];
    }
    assert n.path == a + rest <==> low.path == rest;
  }

  /** A request that does not start with a node's path is not served below it. */
  lemma OffPath(n: Node, request: string, params: Params, acc: Matcher)
    requires !(n.path <= request)
    ensures SameService(Forward(n, request, params, acc), Found(None, params, false))
  {
  }

  lemma SplitServes(n: Node, i: nat, request: string, params: Params, acc: Matcher)
    requires Plain(n) && 0 < i < |n.path|
    ensures SameService(Forward(SplitAt(n, i), request, params, acc), Forward(n, request, params, acc))
  {
    var m := SplitAt(n, i);
    var low := m.children[0];
    if m.path <= request {
      var rest := request[i..];
      assert request == m.path + rest;
      LowServes(n, m.path, rest, params, acc);
      if rest == "" || rest[0] != n.path[i] {
        assert !(low.path <= rest);
        OffPath(low, rest, params, acc);
      }
    } else {
      assert !(n.path <= request);
    }
  }

  lemma ChildServes(n: Node, k: nat, kid: Node, request: string, params: Params, acc: Matcher)
    requires Plain(n) && !n.wild && k < |n.children|
    requires n.path <= request && n.path != request ==>
               SameService(Forward(kid, request[|n.path|..], params, acc),
                           Forward(n.children[k], request[|n.path|..], params, acc))
    ensures SameService(Forward(n.(children := n.children[k := kid]), request, params, acc),
                        Forward(n, request, params, acc))
  {
    var m := n.(children := n.children[k := kid]);
    if n.path <= request && n.path != request {
      var ch := request[|n.path|];
      match IndexOf(n.indices, ch)
      case None =>
      case Some(j) => assert Indice(n, ch) == Some(n.children[j]) && Indice(m, ch) == Some(m.children[j]);
    }
  }

  /** A rejected route changes the service of no request, even if a node was split on the way. */
  lemma {:induction false} FailedInsertServes(n: Node, path: string, q: seq<Param>, c: Controller,
                                              request: string, params: Params, acc: Matcher)
    requires Plain(n) && path != "" && path[0] == n.path[0]
    requires SegmentEnds(path) && Wilds(path) <= |q| && !Insert(n, path, q, c).ok
    ensures SameService(Forward(Insert(n, path, q, c).tree, request, params, acc), Forward(n, request, params, acc))
    decreases n, 1
  {
    match Entered(n, path)
    case None =>
      FailedStops(n, path, q, c);
      if Insert(n, path, q, c).tree != n {
        SplitServes(n, CommonPrefix(path, n.path), request, params, acc);
      }
    case Some((kid, rest)) =>
      EnteredSite(n, path);
      InsertEnters(n, path, q, c);
      if n.wild {
        FailedBelowWild(n, rest, q, c, request, params, acc);
        assert n.children[0 := Insert(kid, rest, q, c).tree] == [Insert(kid, rest, q, c).tree];
      } else {
        FailedBelowPlain(n, rest, q, c, request, params, acc);
      }
  }

  lemma {:induction false} FailedBelowPlain(n: Node, path: string, q: seq<Param>, c: Controller,
                                            request: string, params: Params, acc: Matcher)
    requires Plain(n) && !n.wild && path != "" && Next(n, path).Down?
    requires SegmentEnds(path) && Wilds(path) <= |q| && !Insert(n.children[Next(n, path).k], path, q, c).ok
    ensures var k := Next(n, path).k;
            var m := n.(children := n.children[k := Insert(n.children[k], path, q, c).tree]);
            SameService(Forward(m, request, params, acc), Forward(n, request, params, acc))
    decreases n, 0
  {
    var k := Next(n, path).k;
    Descending(n, path);
    if n.path <= request && n.path != request {
      FailedInsertServes(n.children[k], path, q, c, request[|n.path|..], params, acc);
    }
    ChildServes(n, k, Insert(n.children[k], path, q, c).tree, request, params, acc);
  }

  /** Where the walk stops, a rejection leaves the node alone or split. */
  lemma FailedStops(n: Node, path: string, q: seq<Param>, c: Controller)
    requires Site(n) && path != "" && path[0] == n.path[0] && Entered(n, path) == None
    requires SegmentEnds(path) && Wilds(path) <= |q| && !Insert(n, path, q, c).ok
    ensures var i := CommonPrefix(path, n.path);
            Insert(n, path, q, c).tree == n
            || (Plain(n) && 0 < i < |n.path| && Insert(n, path, q, c).tree == SplitAt(n, i))
  {
    var i := CommonPrefix(path, n.path);
    WildsSuffix(path, i);
    CommonPrefixAtLeast(path, n.path, 1);
    StepDecides(n, path, q, c);
    if i < |path| && path[i] == PARAM_CHAR {
      FirstUnique(path[i..], PARAM_CHAR, 0);
    }
  }

  lemma {:induction false} FailedBelowWild(n: Node, path: string, q: seq<Param>, c: Controller,
                                           request: string, params: Params, acc: Matcher)
    requires Plain(n) && n.wild && path != "" && Next(n, path).Down?
    requires SegmentEnds(path) && Wilds(path) <= |q| && !Insert(n.children[0], path, q, c).ok
    ensures var m := n.(children := [Insert(n.children[0], path, q, c).tree]);
            SameService(Forward(m, request, params, acc), Forward(n, request, params, acc))
    decreases n, 0
  {
    EnterParam(n, path);
    hide Plain, Wildcard, Insert, SegmentEnds, Wilds, Next, Forward, ForwardWild;
    var w := n.children[0];
    var w' := Insert(w, path, q, c).tree;
    if w' == w {
      assert n.(children := [w']) == n;
    } else {
      FailedAtParam(w, path, q, c, w');
      if n.path <= request && n.path != request {
        var rest := request[|n.path|..];
        var seg := rest[..UntilSlash(rest)];
        var bound := if Match(acc, w.re, seg) then Emplace(params, w.name, seg) else params;
        FailedInsertServes(w.children[0], path[1..], q, c, rest[|seg|..], bound, acc);
        ParamServes(w, w', rest, params, acc);
      }
      WildServes(n, w', request, params, acc);
    }
  }

  lemma WildServes(n: Node, w': Node, request: string, params: Params, acc: Matcher)
    requires n.wild && |n.children| == 1
    requires var w := n.children[0]; w' == w.(children := w'.children) && w.kind == PARAM
    requires n.path <= request && n.path != request ==>
               SameService(ForwardWild(w', request[|n.path|..], params, acc),
                           ForwardWild(n.children[0], request[|n.path|..], params, acc))
    ensures SameService(Forward(n.(children := [w']), request, params, acc), Forward(n, request, params, acc))
  {
    ForwardCases(n, request, params, acc);
    ForwardCases(n.(children := [w']), request, params, acc);
    hide Forward, ForwardWild;
  }

  /** The cases of `Forward` at a wild node. */
  lemma ForwardCases(n: Node, request: string, params: Params, acc: Matcher)
    requires n.wild && |n.children| == 1
    ensures n.path <= request && n.path != request ==>
              |request| > |n.path| && Forward(n, request, params, acc)
                == ForwardWild(n.children[0], request[|n.path|..], params, acc)
    ensures n.path == request ==> Forward(n, request, params, acc) == AtEnd(n, params, acc)
    ensures !(n.path <= request) ==> SameService(Forward(n, request, params, acc), Found(None, params, false))
  {
  }

  lemma EnterParam(n: Node, path: string)
    requires Plain(n) && n.wild && path != "" && Next(n, path).Down?
    ensures |n.children| == 1 && Next(n, path) == Down(0)
    ensures var w := n.children[0]; Wildcard(w) && w.kind == PARAM && w.path == [PARAM_CHAR] && path[0] == PARAM_CHAR
  {
    Descending(n, path);
    assert Wildcard(n.children[0]);
  }

  lemma ParamServes(w: Node, w': Node, rest: string, params: Params, acc: Matcher)
    requires Wildcard(w) && w.kind == PARAM && |w.children| == 1 && |w'.children| == 1
    requires w' == w.(children := w'.children) && rest != ""
    requires var seg := rest[..UntilSlash(rest)];
             var bound := if Match(acc, w.re, seg) then Emplace(params, w.name, seg) else params;
             SameService(Forward(w'.children[0], rest[|seg|..], bound, acc),
                         Forward(w.children[0], rest[|seg|..], bound, acc))
    ensures SameService(ForwardWild(w', rest, params, acc), ForwardWild(w, rest, params, acc))
  {
  }

  /** At a parameter a rejected insertion that changes something goes on below. */
  lemma FailedAtParam(w: Node, path: string, q: seq<Param>, c: Controller, w': Node)
    requires Wildcard(w) && w.kind == PARAM && path != "" && path[0] == PARAM_CHAR
    requires SegmentEnds(path) && Wilds(path) <= |q| && !Insert(w, path, q, c).ok
    requires w' == Insert(w, path, q, c).tree && w' != w
    ensures |path| > 1 && |w.children| == 1 && Plain(w.children[0]) && path[1] == w.children[0].path[0]
    ensures SegmentEnds(path[1..]) && Wilds(path[1..]) <= |q| && !Insert(w.children[0], path[1..], q, c).ok
    ensures w' == w.(children := [Insert(w.children[0], path[1..], q, c).tree])
  {
    CommonPrefixAtLeast(path, w.path, 1);
    WildsSuffix(path, 1);
    SegmentEndsSuffix(path, 1);
    if Entered(w, path) == None {
      FailedStops(w, path, q, c);
    } else {
      EnteredSite(w, path);
    }
  }
}
