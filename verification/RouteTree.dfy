/** The radix tree of routes: nodes, the patterns they hold, and insertion as a function on trees. */
module RouteTree {
  import opened Text

  type Controller = nat

  datatype NodeType = UNKNOWN | ROOT | STATIC | PARAM | CATCH_ALL

  datatype Node = Node(
    path: string,
    indices: string,
    children: seq<Node>,
    handle: Option<Controller>,
    kind: NodeType,
    re: Option<string>,
    name: string,
    wild: bool)

  /** One wildcard segment of a parsed route; the regular expression is known by its pattern. */
  datatype Param =
    | ParamSeg(prefix: string, name: string, pattern: string)
    | CatchAllSeg(prefix: string, name: string)
  {
    function Kind(): NodeType {
      if ParamSeg? then PARAM else CATCH_ALL
    }
  }

  /** A route pattern as a sequence of tokens: what the tree is a finite map from. */
  datatype Token = Ch(c: char) | Par(name: string, pattern: string) | All(name: string)

  type Route = seq<Token>

  function TokenOf(p: Param): Token {
    match p
    case ParamSeg(_, name, pattern) => Par(name, pattern)
    case CatchAllSeg(_, name) => All(name)
  }

  function Lit(s: string): Route {
    seq(|s|, i requires 0 <= i < |s| => Ch(s[i]))
  }

  /** The route spelled by a path in which ':' stands for the next queued wildcard; a catch-all ends it. */
  function Toks(path: string, q: seq<Param>): Route {
    if path == "" then []
    else if path[0] != PARAM_CHAR then [Ch(path[0])] + Toks(path[1..], q)
    else if q == [] then []
    else if q[0].CatchAllSeg? then [TokenOf(q[0])]
    else [TokenOf(q[0])] + Toks(path[1..], q[1..])
  }

  function Wilds(path: string): nat {
    if path == "" then 0
    else (if path[0] == PARAM_CHAR then 1 else 0) + Wilds(path[1..])
  }

  function WildToks(t: Route): nat {
    if t == [] then 0 else (if t[0].Ch? then 0 else 1) + WildToks(t[1..])
  }

  /** Every ':' ends its segment. */
  predicate SegmentEnds(path: string) {
    forall i :: 0 <= i < |path| && path[i] == PARAM_CHAR ==> i + 1 == |path| || path[i + 1] == '/'
  }

  // ---------------------------------------------------------------- the routes of a tree

  /** The tokens a node consumes. */
  function Head(n: Node): (h: Route)
    ensures |h| > 0
  {
    if n.path == [PARAM_CHAR] then [Par(n.name, n.re.GetOr(""))]
    else if n.path == "" then [All(n.name)]
    else Lit(n.path)
  }

  function Firsts(kids: seq<Node>): seq<Token> {
    seq(|kids|, i requires 0 <= i < |kids| => Head(kids[i])[0])
  }

  /** The controller registered for exactly the pattern `t`. It reads no `indices`, `kind` or `wild`. */
  function Reg(n: Node, t: Route): Option<Controller>
    decreases n
  {
    if !(Head(n) <= t) then None
    else
      var r := t[|Head(n)|..];
      if r == [] then n.handle
      else
        match IndexOf(Firsts(n.children), r[0])
        case None => None
        case Some(k) => Reg(n.children[k], r)
  }

  // ---------------------------------------------------------------- structural invariant

  /** An ordinary node: the root, a static child, or the node after a parameter. */
  predicate Plain(n: Node)
    decreases n
  {
    && n.path != "" && PARAM_CHAR !in n.path
    && (n.children == [] ==> n.handle.Some?)
    && if n.wild then
      && n.kind in {STATIC, PARAM, CATCH_ALL}
      && n.indices in {"", "/"}
      && |n.children| == 1 && Wildcard(n.children[0])
    else
      && n.kind == STATIC
      && |n.indices| == |n.children| && Distinct(n.indices)
      && forall k :: 0 <= k < |n.children| ==> Plain(n.children[k]) && n.children[k].path[0] == n.indices[k]
  }

  /** The only child of a wild node. */
  predicate Wildcard(w: Node)
    decreases w
  {
    && !w.wild
    && (w.children == [] ==> w.handle.Some?)
    && if w.kind == CATCH_ALL then
      w.path == "" && w.indices == "" && w.children == []
    else
      && w.kind == PARAM && w.path == [PARAM_CHAR] && w.re.Some?
      && (if w.children == [] then w.indices == ""
          else |w.children| == 1 && w.indices in {"", "/"} && Plain(w.children[0]) && w.children[0].path[0] == '/')
  }

  /** The root before the first route, or an ordinary node starting with '/'. */
  predicate Valid(root: Node) {
    root == FreshRoot() || (Plain(root) && root.path[0] == '/')
  }

  function FreshRoot(): Node {
    Node("", "", [], None, ROOT, None, "", false)
  }

  // ---------------------------------------------------------------- insertion

  datatype Outcome = Outcome(tree: Node, ok: bool, rest: seq<Param>)

  function Fresh(kind: NodeType, indices: string): Node {
    Node("", indices, [], None, kind, None, "", false)
  }

  /** `RawTree::insertChild`: write the rest of a route below `n`, popping one parameter per ':'. */
  function InsertChild(n: Node, path: string, q: seq<Param>, c: Controller): Outcome
    requires Wilds(path) <= |q|
    decreases |path|, 1
  {
    match IndexOf(path, PARAM_CHAR)
    case None =>
      Outcome(n.(path := path, handle := Some(c), kind := STATIC, indices := ""), true, q)
    case Some(pos) =>
      WildsAt(path, pos);
      if n.children != [] then Outcome(n, false, q[1..])
      else
        var above := if pos > 0 then n.(path := path[..pos], kind := STATIC) else n.(kind := q[0].Kind());
        var o := WildChild(path[pos..], q, c);
        Outcome(above.(wild := true, children := [o.tree]), o.ok, o.rest)
  }

  function WildChild(path: string, q: seq<Param>, c: Controller): Outcome
    requires path != "" && path[0] == PARAM_CHAR && Wilds(path) <= |q|
    decreases |path|, 0
  {
    match q[0]
    case ParamSeg(_, name, pattern) =>
      var child := Node([PARAM_CHAR], "", [], None, PARAM, Some(pattern), name, false);
      if |path| > 1 then
        var o := InsertChild(Fresh(UNKNOWN, [path[1]]), path[1..], q[1..], c);
        Outcome(child.(children := [o.tree]), o.ok, o.rest)
      else
        Outcome(child.(handle := Some(c)), true, q[1..])
    case CatchAllSeg(_, name) =>
      Outcome(Node("", "", [], Some(c), CATCH_ALL, None, name, false), true, q[1..])
  }

  /** Split a node after `i` characters of its path. */
  function SplitAt(n: Node, i: nat): Node
    requires i < |n.path|
  {
    Node(n.path[..i], [n.path[i]], [n.(path := n.path[i..])], None, STATIC, None, n.name, false)
  }

  /** Append a child for a route that starts with a new static character. */
  function Grow(n: Node, path: string, q: seq<Param>, c: Controller): Outcome
    requires path != "" && Wilds(path) <= |q|
  {
    var o := InsertChild(Fresh(STATIC, ""), path, q, c);
    Outcome(n.(indices := n.indices + [path[0]], children := n.children + [o.tree]), o.ok, o.rest)
  }

  datatype Turn = Down(k: nat) | Clash | Here

  /** Where the walk of `RawTree::insert` goes after consuming `n.path`, with `path` left over. */
  function Next(n: Node, path: string): (r: Turn)
    requires path != ""
    ensures r.Down? ==> r.k < |n.children|
  {
    if n.wild then
      if n.children == [] then Clash
      else
        var w := n.children[0];
        if w.path <= path && w.kind != CATCH_ALL && (|w.path| >= |path| || path[|w.path|] == '/') then Down(0)
        else Clash
    else if n.kind == PARAM && path[0] == '/' && |n.children| == 1 then Down(0)
    else
      match IndexOf(n.indices, path[0])
      case Some(k) => if k < |n.children| then Down(k) else Here
      case None => Here
  }

  /** `RawTree::insert` below a non-empty node. */
  function Insert(n: Node, path: string, q: seq<Param>, c: Controller): Outcome
    requires Wilds(path) <= |q|
    decreases n
  {
    var i := CommonPrefix(path, n.path);
    WildsSuffix(path, i);
    if i < |n.path| then
      var m := SplitAt(n, i);
      if i == |path| then Outcome(m.(handle := Some(c)), true, q)
      else Attach(m, path[i..], q, c)
    else if i == |path| then
      if n.handle.Some? then Outcome(n, false, q) else Outcome(n.(handle := Some(c)), true, q)
    else
      match Next(n, path[i..])
      case Clash => Outcome(n, false, q)
      case Here => Attach(n, path[i..], q, c)
      case Down(k) =>
        var o := Insert(n.children[k], path[i..], q, c);
        Outcome(n.(children := n.children[k := o.tree]), o.ok, o.rest)
  }

  function Attach(n: Node, path: string, q: seq<Param>, c: Controller): Outcome
    requires path != "" && Wilds(path) <= |q|
  {
    if path[0] != PARAM_CHAR then Grow(n, path, q, c) else InsertChild(n, path, q, c)
  }

  /** `RawTree::insert` at the root: the first route ignores the result of `insertChild`. */
  function InsertRoot(root: Node, path: string, q: seq<Param>, c: Controller): Outcome
    requires Wilds(path) <= |q|
  {
    if root.path == "" && root.indices == "" then InsertChild(root, path, q, c).(ok := true)
    else Insert(root, path, q, c)
  }

  // ---------------------------------------------------------------- what an insertion registers

  /** The child the walk enters from `n`, and the path it has left there. */
  function Entered(n: Node, path: string): (r: Option<(Node, string)>)
    ensures r.Some? ==> r.value.0 in n.children && r.value.1 != "" && path == n.path + r.value.1
  {
    var i := CommonPrefix(path, n.path);
    if i < |n.path| || i == |path| then None
    else
      match Next(n, path[i..])
      case Down(k) => Some((n.children[k], path[i..]))
      case _ => None
  }

  /** The tokens of the part of `path` that the walk matches against existing nodes. */
  function Trail(n: Node, path: string): Route
    decreases n
  {
    match Entered(n, path)
    case Some((kid, rest)) => Head(n) + Trail(kid, rest)
    case None =>
      var i := CommonPrefix(path, n.path);
      if i < |n.path| then Lit(path[..i]) else Head(n)
  }

  /** The rest of `path`, which the walk leaves to be written. */
  function Tail(n: Node, path: string): string
    decreases n
  {
    match Entered(n, path)
    case Some((kid, rest)) => Tail(kid, rest)
    case None => path[CommonPrefix(path, n.path)..]
  }

  /** The pattern under which a successful insertion is found afterwards. */
  function Effective(n: Node, path: string, q: seq<Param>): Route {
    Trail(n, path) + Toks(Tail(n, path), q)
  }

  /** Two patterns collide: equal, or their first difference is not between two static characters. */
  predicate Conflict(path: string, t: Route) {
    if path == "" || t == [] then path == "" && t == []
    else if Same(path[0], t[0]) then Conflict(path[1..], t[1..])
    else path[0] == PARAM_CHAR || !t[0].Ch?
  }

  predicate Same(c: char, tok: Token) {
    match tok
    case Ch(d) => c == d && c != PARAM_CHAR
    case Par(_, _) => c == PARAM_CHAR
    case All(_) => false
  }

  // ---------------------------------------------------------------- small facts

  lemma WildsAt(path: string, pos: nat)
    requires IndexOf(path, PARAM_CHAR) == Some(pos)
    ensures Wilds(path) == Wilds(path[pos..]) > 0
  {
    if pos > 0 {
      WildsAt(path[1..], pos - 1);
      assert path[1..][pos - 1..] == path[pos..];
    }
  }

  lemma WildsSuffix(path: string, i: nat)
    requires i <= |path|
    ensures Wilds(path[i..]) <= Wilds(path)
  {
    if i > 0 {
      WildsSuffix(path[1..], i - 1);
      assert path[1..][i - 1..] == path[i..];
    }
  }
}
