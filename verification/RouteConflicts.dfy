/** When an insertion is accepted, and what happens to the queue of wildcard parameters. */
module RouteConflicts {
  import opened Text
  import opened RouteTree
  import opened RouteInsertion

  /** Every subtree holds at least one route. */
  lemma {:induction false} SomeRoute(n: Node) returns (t: Route)
    requires Plain(n) || Wildcard(n)
    ensures Reg(n, t).Some?
    decreases n
  {
    if n.handle.Some? {
      t := Head(n);
      RegSplit(n, []);
      assert Head(n) + [] == Head(n);
    } else {
      var kid := n.children[0];
      assert Plain(kid) || Wildcard(kid);
      var r := SomeRoute(kid);
      t := Head(n) + r;
      RegSplit(n, r);
      FirstUnique(Firsts(n.children), Head(kid)[0], 0);
    }
  }

  lemma ConflictBelow(n: Node, path: string, r: Route)
    requires Site(n)
    ensures Conflict(n.path + path, Head(n) + r) == Conflict(path, r)
  {
    if Plain(n) {
      HeadPlain(n);
      ConflictLit(n.path, path, r);
    } else {
      assert (n.path + path)[1..] == path;
      assert (Head(n) + r)[1..] == r;
    }
  }

  lemma ConflictLit(a: string, path: string, r: Route)
    requires PARAM_CHAR !in a
    ensures Conflict(a + path, Lit(a) + r) == Conflict(path, r)
  {
    if a == "" {
      assert a + path == path && Lit(a) + r == r;
    } else {
      ConflictLit(a[1..], path, r);
      assert (a + path)[1..] == a[1..] + path;
      assert Lit(a) == [Ch(a[0])] + Lit(a[1..]);
      assert (Lit(a) + r)[1..] == Lit(a[1..]) + r;
    }
  }

  /** Below the point where `path` leaves the edge of an ordinary node. */
  lemma ConflictInEdge(n: Node, path: string, r: Route)
    requires Plain(n) && CommonPrefix(path, n.path) < |n.path|
    ensures var i := CommonPrefix(path, n.path);
            Conflict(path, Head(n) + r) == (i < |path| && path[i] == PARAM_CHAR)
  {
    var i := CommonPrefix(path, n.path);
    HeadPlain(n);
    var a, b := n.path[..i], n.path[i..];
    assert path == a + path[i..];
    assert Lit(n.path) + r == Lit(a) + (Lit(b) + r);
    ConflictLit(a, path[i..], Lit(b) + r);
    assert (Lit(b) + r)[0] == Ch(b[0]);
  }

  /** The children of a node that is not wild start with distinct static characters. */
  lemma BelowOrdinary(n: Node, r: Route)
    requires Site(n) && !n.wild && r != [] && RegBelow(n, r).Some?
    ensures r[0].Ch? && n.children != []
    ensures Plain(n) ==> r[0].c in n.indices && r[0].c != PARAM_CHAR
    ensures Wildcard(n) ==> r[0].c == '/'
  {
    if Plain(n) {
      IndicesAreFirsts(n);
      var k := IndexOf(Firsts(n.children), r[0]).value;
      assert Plain(n.children[k]);
    } else {
      RegOnlyChild(n, r);
      HeadPlain(n.children[0]);
    }
  }

  /** Whether the insertion succeeds once `n.path` is matched and `path` is left. */
  predicate BelowAccepts(n: Node, path: string, q: seq<Param>, c: Controller)
    requires path != "" && Wilds(path) <= |q|
  {
    match Next(n, path)
    case Clash => false
    case Here => path[0] != PARAM_CHAR || n.children == []
    case Down(k) => Insert(n.children[k], path, q, c).ok
  }

  lemma ConflictEnds(path: string, t: Route)
    ensures path == "" || t == [] ==> Conflict(path, t) == (path == "" && t == [])
  {
  }

  /** Only an ordinary node can be left in the middle of its path. */
  lemma MidEdgeIsPlain(n: Node, path: string)
    requires Site(n) && path != "" && path[0] == n.path[0]
    ensures CommonPrefix(path, n.path) < |n.path| ==> Plain(n)
    ensures CommonPrefix(path, n.path) > 0
    ensures Head(n) != [] && (Plain(n) ==> !Wildcard(n))
  {
    CommonPrefixAtLeast(path, n.path, 1);
  }

  /** When one step of the walk lets the insertion succeed. */
  predicate StepAccepts(n: Node, path: string, q: seq<Param>, c: Controller)
    requires Wilds(path) <= |q|
  {
    var i := CommonPrefix(path, n.path);
    WildsSuffix(path, i);
    var rest := path[i..];
    if i < |n.path| then rest == "" || rest[0] != PARAM_CHAR
    else if rest == "" then n.handle == None
    else BelowAccepts(n, rest, q, c)
  }

  lemma StepDecides(n: Node, path: string, q: seq<Param>, c: Controller)
    requires Site(n) && path != "" && path[0] == n.path[0]
    requires SegmentEnds(path) && Wilds(path) <= |q|
    ensures Insert(n, path, q, c).ok == StepAccepts(n, path, q, c)
  {
    var i := CommonPrefix(path, n.path);
    WildsSuffix(path, i);
    SegmentEndsSuffix(path, i);
    CommonPrefixAtLeast(path, n.path, 1);
    var rest := path[i..];
    if i < |n.path| {
      Splitting(n, i, []);
      if rest != "" {
        AttachDecides(SplitAt(n, i), rest, q, c);
      }
    } else if rest != "" && Next(n, rest).Here? {
      AfterParam(n, path);
      AttachDecides(n, rest, q, c);
    }
  }

  lemma AttachDecides(n: Node, path: string, q: seq<Param>, c: Controller)
    requires Site(n) && !n.wild && path != "" && SegmentEnds(path) && Wilds(path) <= |q|
    requires path[0] !in n.indices && (n.kind == PARAM ==> n.children == [] && path[0] == '/')
    ensures Attach(n, path, q, c).ok == (path[0] != PARAM_CHAR || n.children == [])
  {
    if path[0] == PARAM_CHAR {
      Hanging(n, path, q, c, []);
    } else {
      Growing(n, path, q, c, []);
    }
  }

  /** An accepted insertion collides with no registered pattern. */
  lemma {:induction false} AcceptedIsConflictFree(n: Node, path: string, q: seq<Param>, c: Controller, t: Route)
    requires Site(n) && path != "" && path[0] == n.path[0]
    requires SegmentEnds(path) && Wilds(path) <= |q|
    requires Insert(n, path, q, c).ok && Reg(n, t).Some?
    ensures !Conflict(path, t)
    decreases n, 1
  {
    hide Plain, Wildcard, Reg, RegBelow, Insert, Conflict, Next, BelowAccepts, SegmentEnds, Wilds, IndexOf;
    var i := CommonPrefix(path, n.path);
    WildsSuffix(path, i);
    SegmentEndsSuffix(path, i);
    MidEdgeIsPlain(n, path);
    StepDecides(n, path, q, c);
    RegHead(n, t);
    var rest, r := path[i..], t[|Head(n)|..];
    if i < |n.path| {
      ConflictInEdge(n, path, r);
    } else {
      assert path == n.path + rest;
      ConflictBelow(n, rest, r);
      ConflictEnds(rest, r);
      RegSplit(n, r);
      if rest != "" && r != [] {
        AfterParam(n, path);
        AcceptedBelow(n, rest, q, c, r);
      }
    }
  }

  lemma {:induction false} AcceptedBelow(n: Node, path: string, q: seq<Param>, c: Controller, r: Route)
    requires Site(n) && path != "" && SegmentEnds(path) && Wilds(path) <= |q|
    requires Wildcard(n) ==> path[0] == '/'
    requires BelowAccepts(n, path, q, c)
    requires r != [] && RegBelow(n, r).Some?
    ensures !Conflict(path, r)
    decreases n, 0
  {
    match Next(n, path)
    case Here => BelowOrdinary(n, r);
    case Down(k) =>
      Descending(n, path);
      if IndexOf(Firsts(n.children), r[0]) == Some(k) {
        AcceptedIsConflictFree(n.children[k], path, q, c, r);
      } else {
        OtherChild(n, k, path, r);
      }
  }

  lemma OtherChild(n: Node, k: nat, path: string, r: Route)
    requires Site(n) && path != "" && Next(n, path) == Down(k) && r != [] && RegBelow(n, r).Some?
    requires IndexOf(Firsts(n.children), r[0]) != Some(k)
    ensures !Conflict(path, r)
  {
    hide Conflict, Reg;
    if n.wild || Wildcard(n) {
      assert false;
    } else {
      BelowOrdinary(n, r);
      StaticTurn(n, path, k);
      IndicesAreFirsts(n);
      hide Plain, Wildcard, RegBelow, Next;
      IndexOfLit(n.indices, path[0]);
      assert r[0] != Ch(path[0]);
      DifferentStart(path, r);
    }
  }

  lemma StaticTurn(n: Node, path: string, k: nat)
    requires Plain(n) && !n.wild && path != "" && Next(n, path) == Down(k)
    ensures IndexOf(n.indices, path[0]) == Some(k) && path[0] != PARAM_CHAR
  {
    assert Plain(n.children[k]) && n.children[k].path[0] == n.indices[k];
  }

  lemma DifferentStart(path: string, r: Route)
    requires path != "" && r != [] && path[0] != PARAM_CHAR && r[0].Ch? && r[0] != Ch(path[0])
    ensures !Conflict(path, r)
  {
  }

  /** A rejected insertion collides with some registered pattern. */
  lemma {:induction false} RejectedHasConflict(n: Node, path: string, q: seq<Param>, c: Controller) returns (t: Route)
    requires Site(n) && path != "" && path[0] == n.path[0]
    requires SegmentEnds(path) && Wilds(path) <= |q|
    requires !Insert(n, path, q, c).ok
    ensures Reg(n, t).Some? && Conflict(path, t)
    decreases n, 1
  {
    hide Plain, Wildcard, Reg, RegBelow, Insert, Conflict, Next, BelowAccepts, SegmentEnds, Wilds, IndexOf;
    var i := CommonPrefix(path, n.path);
    WildsSuffix(path, i);
    SegmentEndsSuffix(path, i);
    MidEdgeIsPlain(n, path);
    StepDecides(n, path, q, c);
    var rest := path[i..];
    if i < |n.path| {
      t := SomeRoute(n);
      RegHead(n, t);
      ConflictInEdge(n, path, t[|Head(n)|..]);
    } else {
      assert path == n.path + rest;
      var r: Route := [];
      if rest != "" {
        AfterParam(n, path);
        r := RejectedBelow(n, rest, q, c);
      }
      t := Head(n) + r;
      ConflictBelow(n, rest, r);
      ConflictEnds(rest, r);
      RegSplit(n, r);
    }
  }

  lemma {:induction false} RejectedBelow(n: Node, path: string, q: seq<Param>, c: Controller) returns (r: Route)
    requires Site(n) && path != "" && SegmentEnds(path) && Wilds(path) <= |q|
    requires Wildcard(n) ==> path[0] == '/'
    requires !BelowAccepts(n, path, q, c)
    ensures r != [] && RegBelow(n, r).Some? && Conflict(path, r)
    decreases n, 0
  {
    match Next(n, path)
    case Clash =>
      assert Wildcard(n.children[0]);
      r := SomeRouteBelow(n);
    case Here =>
      r := SomeRouteBelow(n);
      BelowOrdinary(n, r);
    case Down(k) =>
      Descending(n, path);
      r := RejectedHasConflict(n.children[k], path, q, c);
      RegHead(n.children[k], r);
  }

  lemma SomeRouteBelow(n: Node) returns (r: Route)
    requires Site(n) && n.children != []
    ensures r != [] && RegBelow(n, r).Some? && r[0] == Head(n.children[0])[0]
  {
    var kid := n.children[0];
    assert Plain(kid) || Wildcard(kid);
    r := SomeRoute(kid);
    RegHead(kid, r);
    FirstUnique(Firsts(n.children), Head(kid)[0], 0);
  }

  // ---------------------------------------------------------------- the parameter queue

  /** The walk enters ordinary nodes and parameters only, at a path that starts as they do. */
  lemma EnteredSite(n: Node, path: string)
    requires Site(n) && path != "" && path[0] == n.path[0] && SegmentEnds(path)
    requires Entered(n, path).Some?
    ensures var (kid, rest) := Entered(n, path).value;
            && Site(kid) && kid.path[0] == rest[0] && SegmentEnds(rest)
            && IndexOf(Firsts(n.children), Head(kid)[0]).Some?
            && n.children[IndexOf(Firsts(n.children), Head(kid)[0]).value] == kid
            && Wilds(path) == WildToks(Head(n)) + Wilds(rest)
            && |Head(n)| == |n.path|
  {
    var (kid, rest) := Entered(n, path).value;
    var i := CommonPrefix(path, n.path);
    assert rest == path[i..];
    SegmentEndsSuffix(path, i);
    Descending(n, rest);
    HeadWilds(n, rest);
  }

  /** When the walk goes on, the result is that of the child, put back in its place. */
  lemma InsertEnters(n: Node, path: string, q: seq<Param>, c: Controller)
    requires Entered(n, path).Some? && Wilds(path) <= |q|
    ensures var (kid, rest) := Entered(n, path).value;
            && Wilds(rest) <= |q| && Next(n, rest).Down? && n.children[Next(n, rest).k] == kid
            && var o := Insert(kid, rest, q, c);
            Insert(n, path, q, c) == Outcome(n.(children := n.children[Next(n, rest).k := o.tree]), o.ok, o.rest)
  {
    WildsSuffix(path, CommonPrefix(path, n.path));
  }

  lemma HeadWilds(n: Node, rest: string)
    requires Site(n)
    ensures Wilds(n.path + rest) == WildToks(Head(n)) + Wilds(rest)
    ensures WildToks(Head(n)) == if Wildcard(n) then 1 else 0
    ensures Plain(n) ==> WildToks(Head(n)) == 0
  {
    if Plain(n) {
      HeadPlain(n);
      ToksLit(n.path, rest, []);
      WildToksLit(n.path);
    } else {
      assert (n.path + rest)[1..] == rest;
      assert Head(n)[1..] == [];
    }
  }

  /** Where the walk stops it has matched a prefix of the path. */
  lemma StopTrail(n: Node, path: string)
    requires Site(n) && path != "" && path[0] == n.path[0] && SegmentEnds(path)
    requires Entered(n, path) == None
    ensures Wilds(path) == WildToks(Trail(n, path)) + Wilds(Tail(n, path))
    ensures Plain(n) ==> forall q :: Toks(path, q) == Trail(n, path) + Toks(Tail(n, path), q)
    ensures Plain(n) ==> WildToks(Trail(n, path)) == 0
    ensures Wildcard(n) ==> WildToks(Trail(n, path)) == 1
  {
    if Plain(n) {
      StopPlain(n, path);
    } else {
      StopParam(n, path);
    }
  }

  lemma StopPlain(n: Node, path: string)
    requires Plain(n) && Entered(n, path) == None
    ensures Wilds(path) == WildToks(Trail(n, path)) + Wilds(Tail(n, path)) && WildToks(Trail(n, path)) == 0
    ensures forall q :: Toks(path, q) == Trail(n, path) + Toks(Tail(n, path), q)
  {
    var i := CommonPrefix(path, n.path);
    var a, b := path[..i], path[i..];
    assert PARAM_CHAR !in a && Head(n) == Lit(n.path);
    assert Trail(n, path) == Lit(a) && Tail(n, path) == b;
    hide Plain, Trail, Tail, Entered, Toks, Wilds, WildToks, Lit;
    assert path == a + b;
    WildToksLit(a);
    forall q ensures Toks(path, q) == Lit(a) + Toks(b, q) && Wilds(path) == Wilds(b) {
      ToksLit(a, b, q);
    }
    assert Wilds(path) == Wilds(b) by { ToksLit(a, b, []); }
  }

  lemma StopParam(n: Node, path: string)
    requires Wildcard(n) && n.kind == PARAM && path != "" && path[0] == PARAM_CHAR
    requires Entered(n, path) == None
    ensures Wilds(path) == WildToks(Trail(n, path)) + Wilds(Tail(n, path)) && WildToks(Trail(n, path)) == 1
  {
    CommonPrefixAtLeast(path, n.path, 1);
    HeadWilds(n, path[1..]);
    assert path == n.path + path[1..];
  }

  /** How the walk divides the wildcards of a path. */
  lemma {:induction false} WalkDividesWilds(n: Node, path: string)
    requires Site(n) && path != "" && path[0] == n.path[0] && SegmentEnds(path)
    ensures WildToks(Trail(n, path)) + Wilds(Tail(n, path)) == Wilds(path)
    decreases n
  {
    match Entered(n, path)
    case None => StopTrail(n, path);
    case Some((kid, rest)) =>
      EnteredSite(n, path);
      WalkDividesWilds(kid, rest);
      WildToksConcat(Head(n), Trail(kid, rest));
  }

  /** A successful insertion pops exactly the wildcards it writes. */
  lemma {:induction false} QueueConservation(n: Node, path: string, q: seq<Param>, c: Controller)
    requires Site(n) && path != "" && path[0] == n.path[0]
    requires SegmentEnds(path) && Wilds(path) <= |q|
    ensures var used := WildToks(Toks(Tail(n, path), q));
            && used <= Wilds(Tail(n, path)) <= |q|
            && (Insert(n, path, q, c).ok ==> Insert(n, path, q, c).rest == q[used..])
    decreases n
  {
    WalkDividesWilds(n, path);
    WildToksBound(Tail(n, path), q);
    match Entered(n, path)
    case None => StopQueue(n, path, q, c);
    case Some((kid, rest)) =>
      EnteredSite(n, path);
      QueueConservation(kid, rest, q, c);
  }

  lemma StopQueue(n: Node, path: string, q: seq<Param>, c: Controller)
    requires Site(n) && path != "" && path[0] == n.path[0]
    requires SegmentEnds(path) && Wilds(path) <= |q| && Entered(n, path) == None
    requires WildToks(Toks(Tail(n, path), q)) <= |q|
    ensures Insert(n, path, q, c).ok ==> Insert(n, path, q, c).rest == q[WildToks(Toks(Tail(n, path), q))..]
  {
    var i := CommonPrefix(path, n.path);
    var rest := path[i..];
    WildsSuffix(path, i);
    SegmentEndsSuffix(path, i);
    CommonPrefixAtLeast(path, n.path, 1);
    if i < |n.path| {
      Splitting(n, i, []);
      if rest != "" {
        AttachQueue(SplitAt(n, i), rest, q, c);
      }
    } else if rest != "" && Next(n, rest).Here? {
      AfterParam(n, path);
      AttachQueue(n, rest, q, c);
    }
  }

  lemma AttachQueue(n: Node, path: string, q: seq<Param>, c: Controller)
    requires Site(n) && !n.wild && path != "" && SegmentEnds(path) && Wilds(path) <= |q|
    requires path[0] !in n.indices && (n.kind == PARAM ==> n.children == [] && path[0] == '/')
    requires WildToks(Toks(path, q)) <= |q|
    ensures var o := Attach(n, path, q, c); o.ok ==> o.rest == q[WildToks(Toks(path, q))..]
  {
    if path[0] == PARAM_CHAR {
      Hanging(n, path, q, c, []);
    } else {
      Growing(n, path, q, c, []);
    }
  }

  /** A route that shares no wildcard node is registered as the pattern it spells. */
  lemma {:induction false} EffectiveIsRequested(n: Node, path: string, q: seq<Param>)
    requires Plain(n) && path != "" && path[0] == n.path[0] && SegmentEnds(path)
    requires WildToks(Trail(n, path)) == 0
    ensures Effective(n, path, q) == Toks(path, q)
    decreases n
  {
    match Entered(n, path)
    case None => StopTrail(n, path);
    case Some((kid, rest)) =>
      PlainPath(n);
      EnteredSite(n, path);
      WalkStep(n, path, q);
      hide Plain, Wildcard, Toks, SegmentEnds, WildToks, Wilds, Lit, Head, Trail, Effective, IndexOf;
      WildToksConcat(Head(n), Trail(kid, rest));
      if Wildcard(kid) {
        SiteIsParam(kid);
        TrailOfParam(kid, rest);
      } else {
        EffectiveIsRequested(kid, rest, q);
        ToksLit(n.path, rest, q);
      }
  }

  /** Where the walk goes on, so do its trail and the pattern it leads to. */
  lemma WalkStep(n: Node, path: string, q: seq<Param>)
    requires Entered(n, path).Some?
    ensures var (kid, rest) := Entered(n, path).value;
            && Trail(n, path) == Head(n) + Trail(kid, rest)
            && Effective(n, path, q) == Head(n) + Effective(kid, rest, q)
  {
  }

  lemma PlainPath(n: Node)
    requires Plain(n)
    ensures Site(n) && PARAM_CHAR !in n.path && Head(n) == Lit(n.path)
  {
    HeadPlain(n);
  }

  lemma SiteIsParam(n: Node)
    requires Site(n) && Wildcard(n)
    ensures n.kind == PARAM && n.path == [PARAM_CHAR]
  {
    if Plain(n) {
      assert n.path != "" && !n.wild;
    }
  }

  lemma TrailOfParam(n: Node, path: string)
    requires Wildcard(n) && n.kind == PARAM && path != "" && path[0] == PARAM_CHAR && SegmentEnds(path)
    ensures WildToks(Trail(n, path)) > 0
  {
    HeadWilds(n, "");
    match Entered(n, path)
    case None => StopTrail(n, path);
    case Some((kid, rest)) => WildToksConcat(Head(n), Trail(kid, rest));
  }
}
