/** Routes that share a parameter with an earlier route: filed as spelled, under another name, or with another
    expression. */
module SharedParameters {
  import opened Text
  import opened RouteTree
  import opened RouteInsertion
  import opened RouteFiling
  import opened Patterns
  import opened PatternProofs
  import opened PathParsing
  import opened RouteMap

  // ---------------------------------------------------------------- printed routes

  /** Nothing in a piece is refused when it is read again. */
  predicate Readable(p: Piece, compiles: Compiler) {
    IsWhole(p) && (p.Wildly? && p.param.ParamSeg? ==> compiles(p.param.pattern))
  }

  lemma PieceReadsBack(p: Piece, compiles: Compiler)
    requires Readable(p, compiles)
    ensures IsRun(FullText(p)) && PieceOf(FullText(p), 1, compiles) == Some(p) && NextNumber(FullText(p), 1) == 1
  {
    hide Format, ParamOf, Decimal, Complete;
    if p.Wildly? {
      FormatRoundTrip(p.param, 1);
    }
  }

  /** Pieces print to a path that is parsed into them. */
  lemma {:induction false} PrintedPieces(ps: seq<Piece>, compiles: Compiler)
    requires forall p :: p in ps ==> Readable(p, compiles)
    ensures Printed(ps, 1, compiles)
    decreases |ps|
  {
    hide IsRun, FullText, PieceOf, NextNumber, Readable, Printed;
    if ps == [] {
      PrintedNone(1, compiles);
    } else {
      assert ps[0] in ps;
      PrintedPieces(ps[1..], compiles);
      PieceReadsBack(ps[0], compiles);
      PrintedCons(ps[0], ps[1..], 1, compiles);
      assert [ps[0]] + ps[1..] == ps;
    }
  }

  lemma PrintedParse(ps: seq<Piece>, compiles: Compiler)
    requires ps != [] && forall p :: p in ps ==> Readable(p, compiles)
    ensures Parse(Full(ps), compiles) == Some(Parsed(Calced(ps), Full(ps), ParamsOf(ps)))
  {
    PrintedPieces(ps, compiles);
    ReparseFull(ps, compiles);
  }

  // ---------------------------------------------------------------- two routes

  /** The parameter `{p:name}`. */
  function Var(name: string, p: string): Param {
    ParamSeg("", name, p)
  }

  /** The first route, "/{p:x}/a", as pieces. */
  function FirstPieces(p: string): seq<Piece> {
    [Wildly(Var("x", p)), Plainly("a")]
  }

  /** A second route with the same expression, "/{p:name}/b". */
  function SecondPieces(p: string, name: string): seq<Piece> {
    [Wildly(Var(name, p)), Plainly("b")]
  }

  /** A third route, with a parameter of its own behind, "/{p:x}/b/{r:y}". */
  function ThirdPieces(p: string, r: string): seq<Piece> {
    [Wildly(Var("x", p)), Plainly("b"), Wildly(Var("y", r))]
  }

  function First(p: string): Entry {
    Entry(Full(FirstPieces(p)), 1)
  }

  function Second(p: string, name: string): Entry {
    Entry(Full(SecondPieces(p, name)), 2)
  }

  function Third(p: string, r: string): Entry {
    Entry(Full(ThirdPieces(p, r)), 3)
  }

  function FirstPattern(p: string): Route {
    [Ch('/'), Par("x", p), Ch('/'), Ch('a')]
  }

  /** A name and an expression that a route can carry. */
  predicate Declarable(name: string, p: string, compiles: Compiler) {
    Complete(Var(name, p)) && compiles(p)
  }

  lemma ReadableVar(name: string, p: string, compiles: Compiler)
    requires Declarable(name, p, compiles)
    ensures Readable(Wildly(Var(name, p)), compiles)
  {
  }

  lemma ReadableText(text: string, compiles: Compiler)
    requires text != "" && AllUrl(text)
    ensures Readable(Plainly(text), compiles)
  {
  }

  lemma ShortRoute(v: Param, text: string, compiles: Compiler)
    requires Readable(Wildly(v), compiles) && v.ParamSeg? && v.prefix == "" && text != "" && AllUrl(text)
    ensures var ps := [Wildly(v), Plainly(text)];
            Parse(Full(ps), compiles) == Some(Parsed("/:/" + text, Full(ps), [v]))
  {
    ReadableText(text, compiles);
    ShortTexts(v, text);
    hide *;
    PrintedParse([Wildly(v), Plainly(text)], compiles);
  }

  lemma ShortTexts(v: Param, text: string)
    requires v.ParamSeg? && v.prefix == ""
    ensures var ps := [Wildly(v), Plainly(text)]; Calced(ps) == "/:/" + text && ParamsOf(ps) == [v]
  {
    assert Calced([]) == "" && ParamsOf([]) == [];
    PieceTexts(v, text);
    hide *;
    Cons(Plainly(text), []);
    Cons(Wildly(v), [Plainly(text)]);
    assert [Wildly(v)] + [Plainly(text)] == [Wildly(v), Plainly(text)] && [Plainly(text)] + [] == [Plainly(text)];
    assert [v] + ([] + []) == [v];
    PairText(":", text);
    assert "/" + ":" + "/" == "/:/";
  }

  lemma PairText(a: string, b: string)
    ensures "/" + a + ("/" + b + "") == "/" + a + "/" + b
  {
    assert "/" + b + "" == "/" + b;
  }

  lemma PieceTexts(v: Param, text: string)
    requires v.ParamSeg? && v.prefix == ""
    ensures CalcText(Wildly(v)) == ":" && Pushed(Wildly(v)) == [v]
    ensures CalcText(Plainly(text)) == text && Pushed(Plainly(text)) == []
  {
  }

  lemma ShortToks(last: char, y: Param)
    requires y.ParamSeg? && UrlChar(last)
    ensures Toks("/:/" + [last], [y]) == [Ch('/'), TokenOf(y), Ch('/'), Ch(last)]
  {
    var s := "/:/" + [last];
    assert s[1..] == ":/" + [last] && s[1..][1..] == "/" + [last] && s[1..][1..][1..] == [last];
    assert Toks([last], []) == [Ch(last)];
    assert ("/" + [last])[1..] == [last] && Toks("/" + [last], []) == [Ch('/'), Ch(last)];
    assert (":/" + [last])[1..] == "/" + [last] && [y][1..] == [];
    assert Toks(":/" + [last], [y]) == [TokenOf(y), Ch('/'), Ch(last)];
  }

  lemma FirstParse(p: string, compiles: Compiler)
    requires Declarable("x", p, compiles)
    ensures Parse(First(p).path, compiles) == Some(Parsed("/:/a", First(p).path, [Var("x", p)]))
  {
    ReadableVar("x", p, compiles);
    ShortRoute(Var("x", p), "a", compiles);
    assert "/:/" + "a" == "/:/a";
  }

  /** The map after the first route. */
  lemma FirstFiled(p: string, compiles: Compiler)
    requires Declarable("x", p, compiles)
    ensures FiledOf([First(p)], compiles) == TableOf([First(p)], compiles)
            == map[FirstPattern(p) := 1]
  {
    FirstParse(p, compiles);
    ShortToks('a', Var("x", p));
    assert [First(p)][..0] == [];
    assert "/:/" + ['a'] == "/:/a" && TokenOf(Var("x", p)) == Par("x", p);
    hide Parse, Full, Toks, Declarable, Var;
    assert FiledPattern(map[], "/:/a", [Var("x", p)]) == Toks("/:/a", [Var("x", p)]);
  }

  /** A path that goes along the first route as far as its parameter and a slash. */
  predicate OnlyFirst(path: string) {
    "/:/" <= path && |path| > 3 && path[3] != 'a' && path[3] != PARAM_CHAR
  }

  function AfterSlash(path: string): string
    requires OnlyFirst(path)
  {
    path[3..]
  }

  /** Where a path that shares just the parameter of the first route goes. */
  lemma AlongFirst(p: string, path: string, q: seq<Param>)
    requires OnlyFirst(path)
    ensures var t := FirstPattern(p);
            && Shared(path, t) == [Par("x", p)] && !Conflict(path, t)
            && FiledPattern(map[t := 1], path, q) == [Ch('/'), Par("x", p), Ch('/')] + Toks(AfterSlash(path), q)
  {
    var t1, t2, t3 := [Par("x", p), Ch('/'), Ch('a')], [Ch('/'), Ch('a')], [Ch('a')];
    AlongFirstSteps(p, path);
    assert FirstPattern(p) == [Ch('/')] + t1 && t1 == [Par("x", p)] + t2 && t2 == [Ch('/')] + t3;
    hide Along, Shared, Agreement, Conflict, FirstPattern, Same, Toks;
    AgreesOne(Ch('/'), path, t1, q);
    AgreesOne(Par("x", p), path[1..], t2, q);
    AgreesOne(Ch('/'), path[2..], t3, q);
    Apart(path[3..], t3, q);
    Departs(path[3..], t3);
    Three(Ch('/'), Par("x", p), Ch('/'), Toks(path[3..], q));
    OnlyPattern(FirstPattern(p), path, q);
  }

  lemma Three(a: Token, b: Token, c: Token, r: Route)
    ensures [a] + ([b] + ([c] + r)) == [a, b, c] + r
    ensures [] + ([b] + ([] + [])) == [b]
  {
  }

  lemma OnlyPattern(t: Route, path: string, q: seq<Param>)
    ensures FiledPattern(map[t := 1], path, q) == Along(path, t, q)
  {
    assert Deepest(map[t := 1], path, t);
  }

  lemma AlongFirstSteps(p: string, path: string)
    requires OnlyFirst(path)
    ensures Same(path[0], Ch('/')) && Same(path[1..][0], Par("x", p)) && Same(path[2..][0], Ch('/'))
    ensures path[1..][1..] == path[2..] && path[2..][1..] == path[3..] && !Same(path[3..][0], Ch('a'))
            && path[3..][0] != PARAM_CHAR
  {
    assert path[0] == '/' && path[1] == PARAM_CHAR && path[2] == '/';
  }

  lemma Departs(path: string, t: Route)
    requires path != "" && t != [] && !Same(path[0], t[0]) && path[0] != PARAM_CHAR && t[0].Ch?
    ensures !Conflict(path, t)
  {
  }

  lemma AgreesOne(a: Token, path: string, t: Route, q: seq<Param>)
    requires path != "" && Same(path[0], a)
    ensures Shared(path, [a] + t) == (if a.Ch? then [] else [a]) + Shared(path[1..], t)
    ensures Along(path, [a] + t, q) == [a] + Along(path[1..], t, q)
    ensures Conflict(path, [a] + t) == Conflict(path[1..], t)
  {
    assert ([a] + t)[1..] == t;
    AgreementStep(path, [a] + t, q);
  }

  /** What a route does that shares just the parameter of the first one. */
  lemma AfterFirst(p: string, e: Entry, path: string, full: string, q: seq<Param>, filed: Route, compiles: Compiler)
    requires Declarable("x", p, compiles) && Parse(e.path, compiles) == Some(Parsed(path, full, q))
    requires OnlyFirst(path) && filed == [Ch('/'), Par("x", p), Ch('/')] + Toks(AfterSlash(path), q)
    ensures var m := TableOf([First(p)], compiles);
            && Accepts(m, e, compiles) && (SpelledAt(m, e, compiles) <==> Repeats(q, [Par("x", p)]))
            && FiledPattern(m, path, q) == filed
    ensures var o := AddRoute(TreeOf([First(p)], compiles), e, compiles);
            o.ok && 0 < WildToks(filed) <= |q| + 1 && o.rest == q[WildToks(filed) - 1..]
  {
    hide Parse, Reg, TreeOf, Toks, WildToks, Shared, Conflict, AddRoute, FiledPattern, Repeats, Declarable,
         OnlyFirst, AfterSlash, TableOf, FiledOf, Agrees;
    var m, root := FiledOf([First(p)], compiles), TreeOf([First(p)], compiles);
    FirstFiled(p, compiles);
    AlongFirst(p, path, q);
    TreeIsFiled([First(p)], compiles);
    AcceptsAgree(root, m, e, compiles);
    QueueEmpties(root, m, e, compiles);
    assert Deepest(m, path, FirstPattern(p));
    QueueLeft(root, m, e, compiles, FirstPattern(p));
    SomeWild(p, Toks(AfterSlash(path), q));
  }

  /** The patterns registered after it. */
  lemma FiledAfterFirst(p: string, e: Entry, path: string, full: string, q: seq<Param>, filed: Route, t: Route,
                        compiles: Compiler)
    requires Declarable("x", p, compiles) && Parse(e.path, compiles) == Some(Parsed(path, full, q))
    requires OnlyFirst(path) && filed == [Ch('/'), Par("x", p), Ch('/')] + Toks(AfterSlash(path), q)
    ensures Reg(AddRoute(TreeOf([First(p)], compiles), e, compiles).tree, t)
            == if t == filed then Some(e.ctrl) else if t == FirstPattern(p) then Some(1) else None
  {
    hide Parse, Reg, TreeOf, Toks, AddRoute, FiledPattern, Declarable, OnlyFirst, AfterSlash, TableOf, FiledOf,
         Agrees, FiledAdd, WildToks, Accepts, SpelledAt;
    AfterFirst(p, e, path, full, q, filed, compiles);
    FirstFiled(p, compiles);
    TreeIsFiled([First(p)], compiles);
    var m, root := FiledOf([First(p)], compiles), TreeOf([First(p)], compiles);
    FiledStep(root, m, e, compiles);
    Registered(root, m, e, compiles, t);
    OneGets(FirstPattern(p), t);
  }

  lemma OneGets(key: Route, t: Route)
    ensures Get(map[key := 1], t) == if t == key then Some(1) else None
  {
  }

  lemma Registered(root: Node, m: Table, e: Entry, compiles: Compiler, t: Route)
    requires Agrees(AddRoute(root, e, compiles).tree, FiledAdd(m, e, compiles)) && Accepts(m, e, compiles)
    ensures var p := Parse(e.path, compiles).value;
            Reg(AddRoute(root, e, compiles).tree, t)
            == if t == FiledPattern(m, p.calced, p.params) then Some(e.ctrl) else Get(m, t)
  {
  }

  lemma SomeWild(p: string, more: Route)
    ensures WildToks([Ch('/'), Par("x", p), Ch('/')] + more) > 0
  {
    WildToksConcat([Ch('/'), Par("x", p), Ch('/')], more);
    ThreeWilds(p);
  }

  /** A second route under another name is accepted, leaves its parameter in the queue, and is found under the
      name of the first route only. */
  lemma SharedParameterMisbinds(p: string, name: string, compiles: Compiler)
    requires Declarable("x", p, compiles) && Declarable(name, p, compiles) && name != "x"
    ensures var o := AddRoute(TreeOf([First(p)], compiles), Second(p, name), compiles);
            && o.ok && o.rest == [Var(name, p)]
            && Reg(o.tree, [Ch('/'), Par("x", p)] + Lit("/b")) == Some(2)
            && Reg(o.tree, [Ch('/'), Par(name, p)] + Lit("/b")) == None
    ensures !AsSpelled([First(p), Second(p, name)], compiles)
  {
    hide Declarable, AddRoute, TreeOf, Reg, AsSpelled, Lit, Accepts, TableOf, SpelledAt;
    SecondFiled(p, name, [Ch('/'), Par("x", p)] + Lit("/b"), compiles);
    SecondFiled(p, name, [Ch('/'), Par(name, p)] + Lit("/b"), compiles);
    NameTells(p, name);
    TwoSteps(First(p), Second(p, name), compiles);
  }

  /** A second route that repeats the parameter is filed as spelled, although its parameter stays in the queue. */
  lemma RepeatedParameterIsFiled(p: string, compiles: Compiler)
    requires Declarable("x", p, compiles)
    ensures var o := AddRoute(TreeOf([First(p)], compiles), Second(p, "x"), compiles);
            && o.ok && o.rest == [Var("x", p)]
            && Reg(o.tree, [Ch('/'), Par("x", p)] + Lit("/b")) == Some(2)
    ensures AsSpelled([First(p), Second(p, "x")], compiles) && !Asserted([First(p), Second(p, "x")], compiles)
  {
    hide Declarable, AddRoute, TreeOf, Reg, AsSpelled, Asserted;
    SecondFiled(p, "x", [Ch('/'), Par("x", p)] + Lit("/b"), compiles);
    TwoSteps(First(p), Second(p, "x"), compiles);
  }

  lemma NameTells(p: string, name: string)
    requires name != "x"
    ensures [Ch('/'), Par(name, p)] + Lit("/b") !in [FirstPattern(p), [Ch('/'), Par("x", p)] + Lit("/b")]
  {
    var asked, filed := [Ch('/'), Par(name, p)] + Lit("/b"), [Ch('/'), Par("x", p)] + Lit("/b");
    assert asked[1] == Par(name, p) && filed[1] == Par("x", p);
  }

  /** A history of two routes of which the first one meets an empty tree. */
  lemma TwoSteps(e: Entry, e': Entry, compiles: Compiler)
    ensures var m := TableOf([e], compiles);
            AsSpelled([e, e'], compiles) <==> (Accepts(m, e', compiles) ==> SpelledAt(m, e', compiles))
    ensures var o := AddRoute(TreeOf([e], compiles), e', compiles);
            o.ok && o.rest != [] ==> !Asserted([e, e'], compiles)
  {
    hide AddRoute, TableAdd, Accepts;
    var es := [e, e'];
    assert es[..1] == [e] && es[..0] == [];
    assert TableOf([], compiles) == map[];
    assert SpelledStep(es, 0, compiles);
    assert AsSpelled(es, compiles) <==> SpelledStep(es, 1, compiles);
    assert Asserted(es, compiles) ==> AssertedAt(es, 1, compiles);
  }

  lemma SecondTexts(p: string, q: seq<Param>)
    ensures var filed := [Ch('/'), Par("x", p)] + Lit("/b");
            filed == [Ch('/'), Par("x", p), Ch('/')] + Toks(AfterSlash("/:/b"), q) && WildToks(filed) == 1
  {
    assert AfterSlash("/:/b") == "b" && "b"[1..] == "" && Toks("", q) == [];
    assert Toks("b", q) == [Ch('b')];
    WildToksConcat([Ch('/'), Par("x", p), Ch('/')], [Ch('b')]);
    ThreeWilds(p);
    assert WildToks([Ch('b')]) == 0;
    assert Lit("/b") == [Ch('/'), Ch('b')];
  }

  lemma SecondFiled(p: string, name: string, t: Route, compiles: Compiler)
    requires Declarable("x", p, compiles) && Declarable(name, p, compiles)
    ensures var m := TableOf([First(p)], compiles);
            && Accepts(m, Second(p, name), compiles) && (SpelledAt(m, Second(p, name), compiles) <==> name == "x")
    ensures var (o, filed) := (AddRoute(TreeOf([First(p)], compiles), Second(p, name), compiles), [Ch('/'), Par("x",
            p)] + Lit("/b"));
            && o.ok && o.rest == [Var(name, p)]
            && Reg(o.tree, t) == if t == filed then Some(2) else if t == FirstPattern(p) then Some(1) else None
  {
    hide Declarable, AddRoute, TreeOf, Reg, TableOf, Accepts, SpelledAt, Parse, Toks, WildToks, Lit;
    var e, q := Second(p, name), [Var(name, p)];
    SecondParse(p, name, compiles);
    SecondTexts(p, q);
    OneRepeats(Var(name, p), Par("x", p));
    assert TokenOf(Var(name, p)) == Par(name, p) && e.ctrl == 2;
    assert OnlyFirst("/:/b");
    var filed := [Ch('/'), Par("x", p)] + Lit("/b");
    hide *;
    AfterFirst(p, e, "/:/b", e.path, q, filed, compiles);
    FiledAfterFirst(p, e, "/:/b", e.path, q, filed, t, compiles);
    assert q[0..] == q;
  }

  lemma SecondParse(p: string, name: string, compiles: Compiler)
    requires Declarable(name, p, compiles)
    ensures Parse(Second(p, name).path, compiles) == Some(Parsed("/:/b", Second(p, name).path, [Var(name, p)]))
  {
    ReadableVar(name, p, compiles);
    ShortRoute(Var(name, p), "b", compiles);
    assert "/:/" + "b" == "/:/b";
  }

  lemma OneRepeats(v: Param, tok: Token)
    ensures Repeats([v], [tok]) <==> TokenOf(v) == tok
  {
    assert [v][0] == v && [tok][0] == tok;
  }

  /** A later wildcard is read from the front of the queue, where the shared parameter still stands: it gets its
      name and its expression. */
  lemma SharedParameterMistypes(p: string, r: string, compiles: Compiler)
    requires Declarable("x", p, compiles) && Declarable("y", r, compiles)
    ensures var o := AddRoute(TreeOf([First(p)], compiles), Third(p, r), compiles);
            && o.ok && o.rest == [Var("y", r)]
            && Reg(o.tree, [Ch('/'), Par("x", p)] + Lit("/b/") + [Par("x", p)]) == Some(3)
            && Reg(o.tree, [Ch('/'), Par("x", p)] + Lit("/b/") + [Par("y", r)]) == None
  {
    var q := [Var("x", p), Var("y", r)];
    ThirdParse(p, r, compiles);
    ThirdPatterns(p, r, q);
    ThirdFacts(p, r);
    hide *;
    OnThird(p, Third(p, r), q, [Ch('/'), Par("x", p)] + Lit("/b/") + [Par("x", p)],
            [Ch('/'), Par("x", p)] + Lit("/b/") + [Par("y", r)], compiles);
  }

  /** Where the third route is filed, and where it is not. */
  lemma ThirdFacts(p: string, r: string)
    ensures OnlyFirst("/:/b/:") && Third(p, r).ctrl == 3 && [Var("x", p), Var("y", r)][1..] == [Var("y", r)]
  {
  }

  lemma OnThird(p: string, e: Entry, q: seq<Param>, filed: Route, asked: Route, compiles: Compiler)
    requires Declarable("x", p, compiles) && Parse(e.path, compiles) == Some(Parsed("/:/b/:", e.path, q))
    requires OnlyFirst("/:/b/:") && filed == [Ch('/'), Par("x", p), Ch('/')] + Toks(AfterSlash("/:/b/:"), q)
    requires WildToks(filed) == 2 && asked !in [filed, FirstPattern(p)] && |q| == 2
    ensures var o := AddRoute(TreeOf([First(p)], compiles), e, compiles);
            o.ok && o.rest == q[1..] && Reg(o.tree, filed) == Some(e.ctrl) && Reg(o.tree, asked) == None
  {
    hide *;
    AfterFirst(p, e, "/:/b/:", e.path, q, filed, compiles);
    FiledAfterFirst(p, e, "/:/b/:", e.path, q, filed, filed, compiles);
    FiledAfterFirst(p, e, "/:/b/:", e.path, q, filed, asked, compiles);
  }

  lemma ThirdPatterns(p: string, r: string, q: seq<Param>)
    requires q == [Var("x", p), Var("y", r)]
    ensures var (filed, asked) := ([Ch('/'), Par("x", p)] + Lit("/b/") + [Par("x", p)],
                                   [Ch('/'), Par("x", p)] + Lit("/b/") + [Par("y", r)]);
            && filed == [Ch('/'), Par("x", p), Ch('/')] + Toks(AfterSlash("/:/b/:"), q) && WildToks(filed) == 2
            && asked !in [filed, FirstPattern(p)]
  {
    ThirdToks(p, r);
    var h := [Ch('/'), Par("x", p), Ch('/')];
    var filed, asked := h + [Ch('b'), Ch('/'), Par("x", p)], h + [Ch('b'), Ch('/'), Par("y", r)];
    LitThree();
    WildToksConcat(h, [Ch('b'), Ch('/'), Par("x", p)]);
    ThreeWilds(p);
    hide Lit, Toks, WildToks;
    assert [Ch('/'), Par("x", p)] + Lit("/b/") + [Par("x", p)] == filed;
    assert [Ch('/'), Par("x", p)] + Lit("/b/") + [Par("y", r)] == asked;
    assert filed[5] == Par("x", p) && asked[5] == Par("y", r);
  }

  lemma LitThree()
    ensures Lit("/b/") == [Ch('/'), Ch('b'), Ch('/')]
  {
  }

  lemma ThreeWilds(p: string)
    ensures WildToks([Ch('/'), Par("x", p), Ch('/')]) == 1
    ensures WildToks([Ch('b'), Ch('/'), Par("x", p)]) == 1
  {
    WildToksHead(Var("x", p), []);
    WildToksHead(Var("x", p), [Ch('/')]);
    var a, b := [Ch('/'), Par("x", p), Ch('/')], [Ch('b'), Ch('/'), Par("x", p)];
    assert a[1..] == [Par("x", p)] + [Ch('/')];
    assert b[1..][1..] == [Par("x", p)] + [] && [Par("x", p)] + [] == [Par("x", p)];
    assert b[1..] == [Ch('/'), Par("x", p)] && WildToks(b[1..]) == WildToks(b[1..][1..]);
  }

  lemma ThirdParse(p: string, r: string, compiles: Compiler)
    requires Declarable("x", p, compiles) && Declarable("y", r, compiles)
    ensures Parse(Third(p, r).path, compiles) == Some(Parsed("/:/b/:", Third(p, r).path, [Var("x", p), Var("y", r)]))
  {
    ReadableText("b", compiles);
    ReadableVar("x", p, compiles);
    ReadableVar("y", r, compiles);
    ThirdTexts(p, r);
    hide *;
    PrintedParse([Wildly(Var("x", p)), Plainly("b"), Wildly(Var("y", r))], compiles);
  }

  lemma ThirdTexts(p: string, r: string)
    ensures Calced(ThirdPieces(p, r)) == "/:/b/:" && ParamsOf(ThirdPieces(p, r)) == [Var("x", p), Var("y", r)]
  {
    var x, b, y := Wildly(Var("x", p)), Plainly("b"), Wildly(Var("y", r));
    assert Calced([]) == "" && ParamsOf([]) == [] && ThirdPieces(p, r) == [x, b, y];
    PieceTexts(Var("x", p), "b");
    PieceTexts(Var("y", r), "b");
    hide *;
    Cons(y, []);
    Cons(b, [y]);
    Cons(x, [b, y]);
    assert [x] + [b, y] == [x, b, y] && [b] + [y] == [b, y] && [y] + [] == [y];
    ThreeTexts();
  }

  lemma ThreeTexts()
    ensures "/" + ":" + ("/" + "b" + ("/" + ":" + "")) == "/:/b/:"
  {
  }

  lemma ThirdToks(p: string, r: string)
    ensures AfterSlash("/:/b/:") == "b/:"
    ensures Toks("b/:", [Var("x", p), Var("y", r)]) == [Ch('b'), Ch('/'), Par("x", p)]
  {
    assert "b/:"[1..] == "/:" && "/:"[1..] == ":" && ":"[1..] == "";
    var q := [Var("x", p), Var("y", r)];
    assert Toks(":", q) == [Par("x", p)];
    assert Toks("/:", q) == [Ch('/'), Par("x", p)];
  }
}
