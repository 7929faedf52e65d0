/** What an insertion does to the routes of a tree. */
module RouteInsertion {
  import opened Text
  import opened RouteTree

  // ---------------------------------------------------------------- token sequences

  lemma LitCons(a: string, r: Route)
    requires a != ""
    ensures Lit(a) == [Ch(a[0])] + Lit(a[1..])
    ensures (Lit(a) + r)[0] == Ch(a[0]) && (Lit(a) + r)[1..] == Lit(a[1..]) + r
  {
  }

  lemma LitNone(r: Route)
    ensures Lit("") + r == r
  {
  }

  lemma ToksLit(a: string, b: string, q: seq<Param>)
    requires PARAM_CHAR !in a
    ensures Toks(a + b, q) == Lit(a) + Toks(b, q)
    ensures Wilds(a + b) == Wilds(b)
  {
    hide Lit;
    LitNone(Toks(b, q));
    if a == "" {
      assert a + b == b;
    } else {
      ToksLit(a[1..], b, q);
      assert (a + b)[1..] == a[1..] + b;
      LitCons(a, Toks(b, q));
      assert Lit(a) + Toks(b, q) == [Ch(a[0])] + (Lit(a[1..]) + Toks(b, q));
    }
  }

  lemma {:induction false} WildToksConcat(a: Route, b: Route)
    ensures WildToks(a + b) == WildToks(a) + WildToks(b)
  {
    if a == [] {
      assert a + b == b;
    } else {
      assert (a + b)[1..] == a[1..] + b;
      WildToksConcat(a[1..], b);
    }
  }

  lemma WildToksLit(a: string)
    ensures WildToks(Lit(a)) == 0
  {
    if a != "" {
      assert Lit(a) == [Ch(a[0])] + Lit(a[1..]);
      WildToksLit(a[1..]);
    }
  }

  lemma {:induction false} WildToksBound(path: string, q: seq<Param>)
    requires Wilds(path) <= |q|
    ensures WildToks(Toks(path, q)) <= Wilds(path)
  {
    if path != "" {
      if path[0] == PARAM_CHAR {
        WildToksBound(path[1..], q[1..]);
        WildToksConcat([TokenOf(q[0])], Toks(path[1..], q[1..]));
      } else {
        WildToksBound(path[1..], q);
        WildToksConcat([Ch(path[0])], Toks(path[1..], q));
      }
    }
  }

  lemma ToksNonEmpty(path: string, q: seq<Param>)
    requires path != "" && Wilds(path) <= |q|
    ensures Toks(path, q) != []
    ensures Toks(path, q)[0] == if path[0] == PARAM_CHAR then TokenOf(q[0]) else Ch(path[0])
  {
  }

  lemma SegmentEndsSuffix(path: string, i: nat)
    requires SegmentEnds(path) && i <= |path|
    ensures SegmentEnds(path[i..])
  {
    assert forall j :: 0 <= j < |path| - i ==> path[i..][j] == path[i + j];
  }

  // ---------------------------------------------------------------- lookups of patterns

  /** Registration below a node whose head is already matched. */
  function RegBelow(n: Node, r: Route): Option<Controller>
    requires r != []
  {
    match IndexOf(Firsts(n.children), r[0])
    case None => None
    case Some(k) => Reg(n.children[k], r)
  }

  lemma RegSplit(n: Node, r: Route)
    ensures Reg(n, Head(n) + r) == if r == [] then n.handle else RegBelow(n, r)
  {
    assert (Head(n) + r)[|Head(n)|..] == r;
  }

  /** A registered pattern starts with the node's head. */
  lemma RegHead(n: Node, t: Route)
    requires Reg(n, t).Some?
    ensures Head(n) <= t && t == Head(n) + t[|Head(n)|..]
  {
    hide Head;
  }

  /** With an only child no search is needed. */
  lemma RegOnlyChild(n: Node, r: Route)
    requires |n.children| == 1 && r != []
    ensures RegBelow(n, r) == Reg(n.children[0], r)
  {
    assert Firsts(n.children) == [Head(n.children[0])[0]];
    if Head(n.children[0]) <= r {
      assert r[0] == Head(n.children[0])[0];
    }
  }

  lemma HeadPlain(n: Node)
    requires Plain(n)
    ensures Head(n) == Lit(n.path) && Head(n)[0] == Ch(n.path[0])
  {
  }

  /** On an ordinary node without a wildcard the index string is the list of first tokens. */
  lemma IndicesAreFirsts(n: Node)
    requires Plain(n) && !n.wild
    ensures Firsts(n.children) == Lit(n.indices)
  {
  }

  lemma IndexOfLit(s: string, c: char)
    ensures IndexOf(Lit(s), Ch(c)) == IndexOf(s, c)
  {
    var r := IndexOf(s, c);
    var i := r.GetOr(|s|);
    assert forall j :: 0 <= j < i ==> s[j] == s[..i][j];
    assert Lit(s)[..i] == Lit(s[..i]);
    FirstUnique(Lit(s), Ch(c), i);
  }

  // ---------------------------------------------------------------- fresh branches

  lemma {:induction false} FreshBranch(n: Node, path: string, q: seq<Param>, c: Controller, t: Route)
    requires n.children == [] && n.handle == None && !n.wild && n.indices in {"", "/"}
    requires path != "" && path[0] != PARAM_CHAR && SegmentEnds(path) && Wilds(path) <= |q|
    ensures var o := InsertChild(n, path, q, c);
            && o.ok && Plain(o.tree) && o.tree.path[0] == path[0]
            && Reg(o.tree, t) == (if t == Toks(path, q) then Some(c) else None)
            && WildToks(Toks(path, q)) <= |q| && o.rest == q[WildToks(Toks(path, q))..]
    decreases |path|, 1
  {
    match IndexOf(path, PARAM_CHAR)
    case None => FreshLeaf(n, path, q, c, t);
    case Some(pos) =>
      WildsAt(path, pos);
      SegmentEndsSuffix(path, pos);
      WildBranch(path[pos..], q, c, if Lit(path[..pos]) <= t then t[pos..] else []);
      FreshAbove(n, path, pos, q, c, t);
  }

  /** The node above the first wildcard of a fresh branch. */
  lemma FreshAbove(n: Node, path: string, pos: nat, q: seq<Param>, c: Controller, t: Route)
    requires n.children == [] && n.handle == None && n.indices in {"", "/"}
    requires IndexOf(path, PARAM_CHAR) == Some(pos) && pos > 0 && Wilds(path) <= |q|
    requires var b := path[pos..];
             && Wilds(b) <= |q| && var o := WildChild(b, q, c);
             && o.ok && Wildcard(o.tree)
             && Reg(o.tree, if Lit(path[..pos]) <= t then t[pos..] else [])
                == (if (if Lit(path[..pos]) <= t then t[pos..] else []) == Toks(b, q) then Some(c) else None)
             && WildToks(Toks(b, q)) <= |q| && o.rest == q[WildToks(Toks(b, q))..]
    ensures var o := InsertChild(n, path, q, c);
            && o.ok && Plain(o.tree) && o.tree.path[0] == path[0]
            && Reg(o.tree, t) == (if t == Toks(path, q) then Some(c) else None)
            && WildToks(Toks(path, q)) <= |q| && o.rest == q[WildToks(Toks(path, q))..]
  {
    hide Plain, Wildcard, InsertChild, WildChild, Reg, Toks, WildToks, Wilds, Head;
    var a := path[..pos];
    var m := InsertChild(n, path, q, c);
    AboveShape(n, path, pos, q, c);
    SpliceToks(path, pos, q);
    OnlyBelow(m.tree, Toks(path[pos..], q), c, t);
  }

  /** An only child that holds just `e` makes its parent hold just the head followed by `e`. */
  lemma OnlyBelow(m: Node, e: Route, c: Controller, t: Route)
    requires |m.children| == 1 && m.handle == None
    requires var r := if Head(m) <= t then t[|Head(m)|..] else [];
             Reg(m.children[0], r) == if r == e then Some(c) else None
    ensures Reg(m, t) == if t == Head(m) + e then Some(c) else None
  {
    hide Reg, Head;
    RegOnlyChildOf(m, t);
    if Head(m) <= t {
      assert t == Head(m) + t[|Head(m)|..];
    }
  }

  lemma FreshLeaf(n: Node, path: string, q: seq<Param>, c: Controller, t: Route)
    requires n.children == [] && n.handle == None && !n.wild
    requires path != "" && PARAM_CHAR !in path && Wilds(path) <= |q|
    ensures var o := InsertChild(n, path, q, c);
            && o.ok && Plain(o.tree) && o.tree.path == path && o.rest == q
            && Reg(o.tree, t) == (if t == Toks(path, q) then Some(c) else None)
            && WildToks(Toks(path, q)) == 0
  {
    ToksLit(path, "", q);
    WildToksLit(path);
    assert path + "" == path;
    assert Toks(path, q) == Lit(path);
    var m := InsertChild(n, path, q, c).tree;
    HeadPlain(m);
    if Lit(path) <= t && t[|path|..] == [] {
      assert t == Lit(path);
    }
  }

  /** The tokens of a path whose first wildcard is at `pos`. */
  lemma SpliceToks(path: string, pos: nat, q: seq<Param>)
    requires pos <= |path| && PARAM_CHAR !in path[..pos]
    ensures Toks(path, q) == Lit(path[..pos]) + Toks(path[pos..], q)
    ensures WildToks(Toks(path, q)) == WildToks(Toks(path[pos..], q))
    ensures Wilds(path) == Wilds(path[pos..])
  {
    assert path == path[..pos] + path[pos..];
    ToksLit(path[..pos], path[pos..], q);
    WildToksLit(path[..pos]);
    WildToksConcat(Lit(path[..pos]), Toks(path[pos..], q));
  }

  lemma RegOnlyChildOf(n: Node, t: Route)
    requires |n.children| == 1 && n.handle == None
    ensures Reg(n, t) == if Head(n) <= t then Reg(n.children[0], t[|Head(n)|..]) else None
  {
    if Head(n) <= t && t != Head(n) {
      RegOnlyChild(n, t[|Head(n)|..]);
    }
  }

  lemma {:induction false} WildBranch(path: string, q: seq<Param>, c: Controller, t: Route)
    requires path != "" && path[0] == PARAM_CHAR && SegmentEnds(path) && Wilds(path) <= |q|
    ensures var o := WildChild(path, q, c);
            && o.ok && Wildcard(o.tree) && Head(o.tree) == [TokenOf(q[0])]
            && Reg(o.tree, t) == (if t == Toks(path, q) then Some(c) else None)
            && WildToks(Toks(path, q)) <= |q| && o.rest == q[WildToks(Toks(path, q))..]
    decreases |path|, 0
  {
    if q[0].ParamSeg? && |path| > 1 {
      SegmentEndsSuffix(path, 1);
      FreshBranch(Fresh(UNKNOWN, [path[1]]), path[1..], q[1..], c, if [TokenOf(q[0])] <= t then t[1..] else []);
      ParamAbove(path, q, c, t);
    } else {
      assert Toks(path, q) == [TokenOf(q[0])];
    }
  }

  lemma AboveShape(n: Node, path: string, pos: nat, q: seq<Param>, c: Controller)
    requires n.children == [] && n.indices in {"", "/"}
    requires IndexOf(path, PARAM_CHAR) == Some(pos) && pos > 0 && Wilds(path) <= |q|
    requires Wilds(path[pos..]) <= |q| && Wildcard(WildChild(path[pos..], q, c).tree)
    ensures var (o, m) := (WildChild(path[pos..], q, c), InsertChild(n, path, q, c));
            && m.tree.children == [o.tree] && m.tree.handle == n.handle && m.ok == o.ok && m.rest == o.rest
            && Plain(m.tree) && m.tree.path == path[..pos] && Head(m.tree) == Lit(path[..pos])
  {
    var m := InsertChild(n, path, q, c);
    assert m.tree.children == [WildChild(path[pos..], q, c).tree];
    HeadPlain(m.tree);
  }

  lemma ParamShape(path: string, q: seq<Param>, c: Controller)
    requires |path| > 1 && path[0] == PARAM_CHAR && path[1] == '/' && Wilds(path) <= |q| && q[0].ParamSeg?
    ensures |q| > 0 && Wilds(path[1..]) <= |q[1..]|
    ensures var (sub, o) := (InsertChild(Fresh(UNKNOWN, [path[1]]), path[1..], q[1..], c), WildChild(path, q, c));
            && o.tree.children == [sub.tree] && o.ok == sub.ok && o.rest == sub.rest && o.tree.handle == None
            && Head(o.tree) == [TokenOf(q[0])]
            && (Plain(sub.tree) && sub.tree.path[0] == '/' ==> Wildcard(o.tree))
    ensures Toks(path, q) == [TokenOf(q[0])] + Toks(path[1..], q[1..])
  {
  }

  /** The parameter above the rest of a fresh branch. */
  lemma ParamAbove(path: string, q: seq<Param>, c: Controller, t: Route)
    requires |path| > 1 && path[0] == PARAM_CHAR && path[1] == '/' && Wilds(path) <= |q| && q[0].ParamSeg?
    requires var (rest, r) := (path[1..], if [TokenOf(q[0])] <= t then t[1..] else []);
             && Wilds(rest) <= |q[1..]| && var o := InsertChild(Fresh(UNKNOWN, [path[1]]), rest, q[1..], c);
             && o.ok && Plain(o.tree) && o.tree.path[0] == rest[0]
             && Reg(o.tree, r) == (if r == Toks(rest, q[1..]) then Some(c) else None)
             && WildToks(Toks(rest, q[1..])) <= |q[1..]| && o.rest == q[1..][WildToks(Toks(rest, q[1..]))..]
    ensures var o := WildChild(path, q, c);
            && o.ok && Wildcard(o.tree) && Head(o.tree) == [TokenOf(q[0])]
            && Reg(o.tree, t) == (if t == Toks(path, q) then Some(c) else None)
            && WildToks(Toks(path, q)) <= |q| && o.rest == q[WildToks(Toks(path, q))..]
  {
    hide Plain, Wildcard, InsertChild, WildChild, Reg, Toks, WildToks, Wilds, Head;
    ParamShape(path, q, c);
    var o := WildChild(path, q, c);
    var more := Toks(path[1..], q[1..]);
    OnlyBelow(o.tree, more, c, t);
    WildToksHead(q[0], more);
  }

  lemma WildToksHead(p: Param, more: Route)
    ensures WildToks([TokenOf(p)] + more) == 1 + WildToks(more)
  {
    assert ([TokenOf(p)] + more)[1..] == more;
  }

  // ---------------------------------------------------------------- one insertion

  /** A node an insertion can reach: an ordinary one or a parameter. */
  predicate Site(n: Node) {
    Plain(n) || (Wildcard(n) && n.kind == PARAM)
  }

  lemma Splitting(n: Node, i: nat, t: Route)
    requires Plain(n) && 0 < i < |n.path|
    ensures Plain(SplitAt(n, i)) && Reg(SplitAt(n, i), t) == Reg(n, t)
  {
    var m := SplitAt(n, i);
    var low := m.children[0];
    assert Plain(low);
    HeadPlain(m);
    HeadPlain(low);
    HeadPlain(n);
    assert Lit(n.path) == Lit(m.path) + Lit(low.path);
    RegOnlyChildOf(m, t);
    if Lit(m.path) <= t {
      var r := t[i..];
      assert t == Lit(m.path) + r;
      assert Lit(n.path) <= t <==> Lit(low.path) <= r;
      if Lit(n.path) <= t {
        assert t[|n.path|..] == r[|low.path|..];
      }
    }
  }

  lemma Growing(n: Node, path: string, q: seq<Param>, c: Controller, t: Route)
    requires Site(n) && !n.wild && path != "" && path[0] != PARAM_CHAR && path[0] !in n.indices
    requires n.kind == PARAM ==> n.children == [] && path[0] == '/'
    requires SegmentEnds(path) && Wilds(path) <= |q|
    ensures var o, e := Grow(n, path, q, c), Head(n) + Toks(path, q);
            && o.ok && Site(o.tree) && Head(o.tree) == Head(n) && o.tree.path == n.path
            && Reg(n, e) == None
            && Reg(o.tree, t) == (if t == e then Some(c) else Reg(n, t))
            && WildToks(Toks(path, q)) <= |q| && o.rest == q[WildToks(Toks(path, q))..]
  {
    hide Plain, Wildcard, InsertChild, Reg, Toks, WildToks, Wilds, Head, SegmentEnds;
    FreshBranch(Fresh(STATIC, ""), path, q, c, if Head(n) <= t then t[|Head(n)|..] else []);
    var m := Grow(n, path, q, c).tree;
    var kid := m.children[|n.children|];
    HeadPlain(kid);
    ToksNonEmpty(path, q);
    NotFirst(n, path[0]);
    SameHead(n, m);
    AppendedRegs(n, m, kid, path[0], Toks(path, q), c, t);
    GrowingShape(n, m, kid, path[0]);
  }

  lemma SameHead(n: Node, m: Node)
    requires n.path == m.path && n.re == m.re && n.name == m.name
    ensures Head(m) == Head(n)
  {
  }

  lemma NotFirst(n: Node, ch: char)
    requires Site(n) && !n.wild && ch !in n.indices && (n.kind == PARAM ==> n.children == [])
    ensures Ch(ch) !in Firsts(n.children)
  {
    if Plain(n) {
      IndicesAreFirsts(n);
    }
  }

  /** Registration below a node that got a new last child, which holds just `e`. */
  lemma AppendedRegs(n: Node, m: Node, kid: Node, ch: char, e: Route, c: Controller, t: Route)
    requires m.children == n.children + [kid] && m.handle == n.handle && Head(m) == Head(n)
    requires Head(kid)[0] == Ch(ch) && Ch(ch) !in Firsts(n.children) && e != [] && e[0] == Ch(ch)
    requires var r := if Head(n) <= t then t[|Head(n)|..] else [];
             Reg(kid, r) == if r == e then Some(c) else None
    ensures Reg(n, Head(n) + e) == None
    ensures Reg(m, t) == if t == Head(n) + e then Some(c) else Reg(n, t)
  {
    hide Head, Reg, Firsts, RegBelow;
    RegSplit(n, e);
    AppendedBelow(n, m, kid, ch, e);
    RegOff(n, t);
    RegOff(m, t);
    if Head(n) <= t {
      var r := t[|Head(n)|..];
      assert t == Head(n) + r;
      RegSplit(n, r);
      RegSplit(m, r);
      if r != [] {
        AppendedBelow(n, m, kid, ch, r);
      }
    }
  }

  lemma RegOff(n: Node, t: Route)
    ensures !(Head(n) <= t) ==> Reg(n, t) == None
  {
  }

  lemma AppendedBelow(n: Node, m: Node, kid: Node, ch: char, r: Route)
    requires m.children == n.children + [kid] && Head(kid)[0] == Ch(ch) && Ch(ch) !in Firsts(n.children) && r != []
    ensures RegBelow(m, r) == if r[0] == Ch(ch) then Reg(kid, r) else RegBelow(n, r)
    ensures r[0] == Ch(ch) ==> RegBelow(n, r) == None
  {
    hide Head, Reg;
    assert Firsts(m.children) == Firsts(n.children) + [Ch(ch)];
    IndexOfAppend(Firsts(n.children), Ch(ch), r[0]);
  }

  lemma GrowingShape(n: Node, m: Node, kid: Node, ch: char)
    requires Site(n) && !n.wild && ch !in n.indices && Plain(kid) && kid.path[0] == ch
    requires n.kind == PARAM ==> n.children == [] && ch == '/'
    requires m == n.(indices := n.indices + [ch], children := n.children + [kid])
    ensures Site(m)
  {
    if Plain(n) {
      forall k | 0 <= k < |m.children| ensures Plain(m.children[k]) && m.children[k].path[0] == m.indices[k] {
      }
      assert Distinct(m.indices);
      assert Plain(m);
    } else {
      assert m.indices == "/" && m.children == [kid];
      assert Wildcard(m);
    }
  }

  lemma IndexOfAppend<T>(s: seq<T>, y: T, x: T)
    requires y !in s
    ensures IndexOf(s + [y], x) == if x == y then Some(|s|) else IndexOf(s, x)
  {
    var r := IndexOf(s, x);
    var i := r.GetOr(|s|);
    assert forall j :: 0 <= j < i ==> s[j] == s[..i][j];
    assert (s + [y])[..i] == s[..i];
    if x == y || r.Some? {
      FirstUnique(s + [y], x, i);
    } else {
      FirstUnique(s + [y], x, |s| + 1);
    }
  }

  lemma Hanging(n: Node, path: string, q: seq<Param>, c: Controller, t: Route)
    requires Plain(n) && !n.wild && path != "" && path[0] == PARAM_CHAR
    requires SegmentEnds(path) && Wilds(path) <= |q|
    ensures var o, e := InsertChild(n, path, q, c), Head(n) + Toks(path, q);
            && o.ok == (n.children == [])
            && Plain(o.tree) && o.tree.path == n.path
            && (!o.ok ==> o.tree == n)
            && (o.ok ==>
                && Reg(n, e) == None
                && Reg(o.tree, t) == (if t == e then Some(c) else Reg(n, t))
                && WildToks(Toks(path, q)) <= |q| && o.rest == q[WildToks(Toks(path, q))..])
  {
    assert path[..0] == "" && path[0..] == path;
    FirstUnique(path, PARAM_CHAR, 0);
    var o := InsertChild(n, path, q, c);
    if n.children == [] {
      var h := Head(n);
      HeadPlain(n);
      var r := if h <= t then t[|h|..] else [];
      WildBranch(path, q, c, r);
      assert o.tree.children == [WildChild(path, q, c).tree];
      HeadPlain(o.tree);
      ToksNonEmpty(path, q);
      RegSplit(n, Toks(path, q));
      if h <= t && r != [] {
        assert t == h + r;
        RegOnlyChild(o.tree, r);
        RegSplit(o.tree, r);
        RegSplit(n, r);
      } else if h <= t {
        assert t == h;
      }
    }
  }

  lemma Descending(n: Node, path: string)
    requires Site(n) && path != ""
    requires Next(n, path).Down?
    ensures var k := Next(n, path).k;
            && Site(n.children[k]) && n.children[k].path[0] == path[0]
            && IndexOf(Firsts(n.children), Head(n.children[k])[0]) == Some(k)
  {
    var k := Next(n, path).k;
    if Plain(n) && !n.wild {
      IndicesAreFirsts(n);
      IndexOfLit(n.indices, path[0]);
      HeadPlain(n.children[k]);
    } else {
      assert k == 0;
      if n.wild {
        assert Wildcard(n.children[0]);
        assert n.children[0].path == [PARAM_CHAR];
      }
      assert Firsts(n.children) == [Head(n.children[0])[0]];
    }
  }

  /** `o` keeps the shape of `n` and registers at most `e` more, as far as the pattern `t` can tell. */
  predicate Registers(n: Node, o: Outcome, e: Route, c: Controller, t: Route) {
    && Site(o.tree) && o.tree.path != "" && n.path != "" && o.tree.path[0] == n.path[0]
    && Head(o.tree)[0] == Head(n)[0] && (Plain(n) <==> Plain(o.tree))
    && e != [] && e[0] == Head(n)[0]
    && (o.ok ==> Reg(n, e) == None)
    && Reg(o.tree, t) == (if o.ok && t == e then Some(c) else Reg(n, t))
  }

  /** The whole effect of one insertion below a non-empty node, for every pattern `t`. */
  lemma {:induction false} InsertEffect(n: Node, path: string, q: seq<Param>, c: Controller, t: Route)
    requires Site(n) && path != "" && path[0] == n.path[0]
    requires SegmentEnds(path) && Wilds(path) <= |q|
    ensures Registers(n, Insert(n, path, q, c), Effective(n, path, q), c, t)
    decreases n
  {
    var i := CommonPrefix(path, n.path);
    SegmentEndsSuffix(path, i);
    CommonPrefixAtLeast(path, n.path, 1);
    var rest := path[i..];
    if i < |n.path| {
      InsertSplit(n, path, q, c, t);
    } else if rest == "" {
      if n.handle == None {
        InsertHere(n, c, t);
      }
      assert Effective(n, path, q) == Head(n);
    } else {
      AfterParam(n, path);
      match Next(n, rest) {
        case Clash =>
          assert Effective(n, path, q) == Head(n) + Toks(rest, q);
        case Here =>
          InsertAttached(n, path, q, c, t);
        case Down(k) =>
          WildsSuffix(path, i);
          Descending(n, rest);
          InsertEffect(n.children[k], rest, q, c, if Head(n) <= t then t[|Head(n)|..] else []);
          InsertEntered(n, path, q, c, t);
      }
    }
  }

  lemma InsertAttached(n: Node, path: string, q: seq<Param>, c: Controller, t: Route)
    requires Site(n) && n.path <= path && path != n.path && n.path != ""
    requires SegmentEnds(path) && Wilds(path) <= |q|
    requires CommonPrefix(path, n.path) == |n.path| && Next(n, path[|n.path|..]).Here?
    ensures Registers(n, Insert(n, path, q, c), Effective(n, path, q), c, t)
  {
    var rest := path[|n.path|..];
    AfterParam(n, path);
    WildsSuffix(path, |n.path|);
    SegmentEndsSuffix(path, |n.path|);
    assert Effective(n, path, q) == Head(n) + Toks(rest, q);
    if rest[0] == PARAM_CHAR {
      Hanging(n, rest, q, c, t);
    } else {
      Growing(n, rest, q, c, t);
    }
  }

  lemma InsertEntered(n: Node, path: string, q: seq<Param>, c: Controller, t: Route)
    requires Site(n) && path != "" && n.path != "" && path[0] == n.path[0]
    requires SegmentEnds(path) && Wilds(path) <= |q|
    requires CommonPrefix(path, n.path) == |n.path| < |path| && Next(n, path[|n.path|..]).Down?
    requires var (k, rest) := (Next(n, path[|n.path|..]).k, path[|n.path|..]);
             && Wilds(rest) <= |q|
             && Registers(n.children[k], Insert(n.children[k], rest, q, c), Effective(n.children[k], rest, q), c,
                          if Head(n) <= t then t[|Head(n)|..] else [])
             && Site(n.children[k])
             && IndexOf(Firsts(n.children), Head(n.children[k])[0]) == Some(k)
    ensures Registers(n, Insert(n, path, q, c), Effective(n, path, q), c, t)
  {
    hide Plain, Wildcard, Reg, Wilds, Toks, SegmentEnds, Head, RegBelow, Firsts;
    var (k, rest) := (Next(n, path[|n.path|..]).k, path[|n.path|..]);
    var o, e := Insert(n.children[k], rest, q, c), Effective(n.children[k], rest, q);
    assert Effective(n, path, q) == Head(n) + e;
    ReplaceChild(n, k, o.tree, e, c, o.ok, t);
  }

  /** After a parameter only '/' can follow. */
  lemma AfterParam(n: Node, path: string)
    requires Site(n) && SegmentEnds(path) && n.path <= path && path != n.path
    ensures Wildcard(n) ==> path[|n.path|] == '/' && !n.wild
    ensures Plain(n) && !n.wild ==> n.kind != PARAM
  {
    if Wildcard(n) {
      assert path[0] == PARAM_CHAR;
    }
  }

  lemma InsertSplit(n: Node, path: string, q: seq<Param>, c: Controller, t: Route)
    requires Plain(n) && SegmentEnds(path) && Wilds(path) <= |q|
    requires 0 < CommonPrefix(path, n.path) < |n.path|
    ensures Registers(n, Insert(n, path, q, c), Effective(n, path, q), c, t)
  {
    var i := CommonPrefix(path, n.path);
    var m, rest, e := SplitAt(n, i), path[i..], Effective(n, path, q);
    WildsSuffix(path, i);
    SegmentEndsSuffix(path, i);
    Splitting(n, i, t);
    Splitting(n, i, e);
    HeadPlain(m);
    HeadPlain(n);
    assert e == Head(m) + Toks(rest, q);
    if rest == "" {
      InsertHere(m, c, t);
    } else if rest[0] == PARAM_CHAR {
      Hanging(m, rest, q, c, t);
    } else {
      Growing(m, rest, q, c, t);
    }
  }

  lemma CommonPrefixAtLeast(a: string, b: string, k: nat)
    requires k <= |a| && k <= |b| && a[..k] == b[..k]
    ensures CommonPrefix(a, b) >= k
  {
    var i := CommonPrefix(a, b);
    assert forall j :: 0 <= j < k ==> a[j] == a[..k][j] == b[j];
  }

  /** Giving a handle to a node that has none. */
  lemma InsertHere(n: Node, c: Controller, t: Route)
    requires Site(n) && n.handle == None
    ensures var m := n.(handle := Some(c));
            && Site(m) && (Plain(n) <==> Plain(m)) && Head(m) == Head(n)
            && Reg(m, t) == (if t == Head(n) then Some(c) else Reg(n, t)) && Reg(n, Head(n)) == None
  {
    var m := n.(handle := Some(c));
    var h := Head(n);
    if h <= t {
      assert t == h + t[|h|..];
    }
    RegSplit(n, []);
    assert h + [] == h;
  }

  /** Replacing the child that `e` leads to by one that differs at most in `e`. */
  lemma ReplaceChild(n: Node, k: nat, kid: Node, e: Route, c: Controller, ok: bool, t: Route)
    requires Site(n) && k < |n.children|
    requires IndexOf(Firsts(n.children), Head(n.children[k])[0]) == Some(k)
    requires Site(kid) && (Plain(n.children[k]) <==> Plain(kid)) && kid.path != "" && n.children[k].path != ""
    requires kid.path[0] == n.children[k].path[0] && Head(kid)[0] == Head(n.children[k])[0]
    requires e != [] && e[0] == Head(kid)[0] && (ok ==> Reg(n.children[k], e) == None)
    requires var r := if Head(n) <= t then t[|Head(n)|..] else [];
             Reg(kid, r) == if ok && r == e then Some(c) else Reg(n.children[k], r)
    ensures var m := n.(children := n.children[k := kid]);
            && Site(m) && (Plain(n) <==> Plain(m)) && Head(m) == Head(n)
            && (ok ==> Reg(n, Head(n) + e) == None)
            && Reg(m, t) == if ok && t == Head(n) + e then Some(c) else Reg(n, t)
  {
    hide Plain, Wildcard, Reg, Head, RegBelow;
    var m := n.(children := n.children[k := kid]);
    ReplaceShape(n, k, kid);
    SameHead(n, m);
    assert Firsts(m.children) == Firsts(n.children);
    RegSplit(n, e);
    ReplacedBelow(n, k, kid, e);
    RegOff(n, t);
    RegOff(m, t);
    if Head(n) <= t {
      var r := t[|Head(n)|..];
      assert t == Head(n) + r;
      RegSplit(n, r);
      RegSplit(m, r);
      if r != [] {
        ReplacedBelow(n, k, kid, r);
      }
    }
  }

  lemma ReplacedBelow(n: Node, k: nat, kid: Node, r: Route)
    requires k < |n.children| && IndexOf(Firsts(n.children), Head(n.children[k])[0]) == Some(k) && r != []
    requires Head(kid)[0] == Head(n.children[k])[0]
    ensures var m := n.(children := n.children[k := kid]);
            if r[0] == Head(kid)[0] then RegBelow(m, r) == Reg(kid, r) && RegBelow(n, r) == Reg(n.children[k], r)
            else RegBelow(m, r) == RegBelow(n, r)
  {
    hide Reg, Head;
    assert Firsts(n.children[k := kid]) == Firsts(n.children);
  }

  lemma ReplaceShape(n: Node, k: nat, kid: Node)
    requires Site(n) && k < |n.children|
    requires Site(kid) && (Plain(n.children[k]) <==> Plain(kid)) && kid.path != "" && n.children[k].path != ""
    requires kid.path[0] == n.children[k].path[0]
    ensures var m := n.(children := n.children[k := kid]);
            Site(m) && (Plain(n) <==> Plain(m))
  {
    var m := n.(children := n.children[k := kid]);
    if Plain(n) && !n.wild {
      assert Plain(kid);
      assert Plain(m);
    } else {
      assert m.children == [kid];
      if Plain(n) {
        assert Wildcard(n.children[0]);
        assert Wildcard(kid);
        assert Plain(m);
      } else {
        assert Wildcard(m);
      }
    }
  }
}
