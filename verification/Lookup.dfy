/** `Router::forward` on one tree: the loop, its meaning, and its agreement with the registered patterns. */
module Lookup {
  import opened Text
  import opened RouteTree

  /** Does a text match a compiled pattern? A deterministic oracle. */
  type Matcher = (string, string) -> bool

  type Params = map<string, string>

  datatype Found = Found(ctrl: Option<Controller>, params: Params, tsr: bool)

  function Emplace(m: Params, name: string, value: string): Params {
    if name in m then m else m[name := value]
  }

  predicate Match(acc: Matcher, re: Option<string>, text: string) {
    re.Some? && acc(re.value, text)
  }

  /** `RouterNode::indice`. */
  function Indice(n: Node, c: char): (r: Option<Node>)
    ensures r.Some? ==> r.value in n.children
  {
    match IndexOf(n.indices, c)
    case Some(k) => if k < |n.children| then Some(n.children[k]) else None
    case None => None
  }

  /** What the loop of `Router::forward` yields from node `n` with `path` left to consume. */
  function Forward(n: Node, path: string, params: Params, acc: Matcher): Found
    decreases n, 0
  {
    if |path| > |n.path| && n.path <= path then
      var rest := path[|n.path|..];
      if !n.wild then
        match Indice(n, rest[0])
        case Some(kid) => Forward(kid, rest, params, acc)
        case None => Found(None, params, rest == "/" && n.handle.Some?)
      else if n.children == [] then Found(None, params, false)
      else ForwardWild(n.children[0], rest, params, acc)
    else if n.path == path then AtEnd(n, params, acc)
    else Found(None, params, path == "/" || OneSlashShort(n, path) || FirstIsCatchAll(n))
  }

  /** The switch on the type of a wild node's child. */
  function ForwardWild(w: Node, rest: string, params: Params, acc: Matcher): Found
    requires rest != ""
    decreases w, 1
  {
    if w.kind == PARAM then
      var slash := UntilSlash(rest);
      var ok := Match(acc, w.re, rest[..slash]);
      if slash > 0 && !ok then Found(None, params, false)
      else
        var bound := if ok then Emplace(params, w.name, rest[..slash]) else params;
        if slash == 0 && w.handle.Some? then Found(w.handle, bound, false)
        else if slash < |rest| then
          if w.children != [] then Forward(w.children[0], rest[slash..], bound, acc)
          else Found(None, bound, |rest| == slash + 1)
        else if w.handle.Some? then Found(w.handle, bound, false)
        else Found(None, bound, w.children != [] && EndsInSlash(w.children[0]))
    else if w.kind == CATCH_ALL then
      Found(w.handle, Emplace(params, w.name, rest), false)
    else
      Forward(w, rest, params, acc)
  }

  predicate EndsInSlash(n: Node) {
    (n.path == "/" && n.handle.Some?) || n.indices == "/"
  }

  predicate OneSlashShort(n: Node, path: string) {
    |n.path| == |path| + 1 && n.path[|path|] == '/' && n.handle.Some?
  }

  predicate FirstIsCatchAll(n: Node) {
    n.children != [] && n.children[0].kind == CATCH_ALL
  }

  /** The request ends with the path of `n`. */
  function AtEnd(n: Node, params: Params, acc: Matcher): Found {
    if n.handle.Some? then Found(n.handle, params, false)
    else if n.wild && FirstIsCatchAll(n) then
      var w := n.children[0];
      Found(w.handle, Emplace(params, w.name, ""), false)
    else if n.wild && n.children != [] && n.children[0].kind == PARAM && Match(acc, n.children[0].re, "") then
      var w := n.children[0];
      Found(w.handle, Emplace(params, w.name, ""), false)
    else if n.path == "/" && n.wild && n.kind != ROOT then Found(None, params, true)
    else
      match Indice(n, '/')
      case None => Found(None, params, false)
      case Some(s) => Found(None, params, SlashServes(s, acc))
  }

  predicate SlashServes(s: Node, acc: Matcher) {
    || (|s.path| == 1 && s.handle.Some?)
    || (s.wild && s.children != [] && var c := s.children[0];
        || c.kind == CATCH_ALL
        || (c.kind == PARAM && c.handle.Some? && Match(acc, c.re, "")))
  }

  // ---------------------------------------------------------------- the loop

  method ForwardLoop(root: Node, request: string, params0: Params, acc: Matcher)
      returns (ctrl: Option<Controller>, params: Params, tsr: bool)
    requires Valid(root)
    ensures Found(ctrl, params, tsr) == Forward(root, request, params0, acc)
  {
    var node, path := root, request;
    params, tsr := params0, false;
    while true
      invariant node == root == FreshRoot() || Plain(node)
      invariant Forward(node, path, params, acc) == Forward(root, request, params0, acc)
      invariant !tsr
      decreases |path|
    {
      var prefix := node.path;
      if |path| > |prefix| {
        if prefix <= path {
          var rest := path[|prefix|..];
          if !node.wild {
            match Indice(node, rest[0]) {
              case Some(kid) =>
                path, node := rest, kid;
                continue;
              case None =>
                tsr := rest == "/" && node.handle.Some?;
                return None, params, tsr;
            }
          }
          if node.children == [] {
            return None, params, false;
          }
          var w := node.children[0];
          assert Wildcard(w);
          match w.kind {
            case PARAM =>
              var slash := FindUntilSlash(rest);
              if slash == 0 {
                assert rest[..slash] == "";
                if Match(acc, w.re, "") {
                  params := Emplace(params, w.name, "");
                }
                if w.handle.Some? {
                  return w.handle, params, false;
                }
              } else if Match(acc, w.re, rest[..slash]) {
                params := Emplace(params, w.name, rest[..slash]);
              } else {
                return None, params, false;
              }
              if slash < |rest| {
                if |w.children| > 0 {
                  path, node := rest[slash..], w.children[0];
                  continue;
                }
                return None, params, |rest| == slash + 1;
              } else if w.handle.Some? {
                return w.handle, params, false;
              } else {
                return None, params, |w.children| > 0 && EndsInSlash(w.children[0]);
              }
            case CATCH_ALL =>
              assert w.handle.Some?;
              params := Emplace(params, w.name, rest);
              return w.handle, params, false;
            case _ =>
              assert false;  // no other type is ever the child of a wild node
          }
        }
      } else if prefix == path {
        var f := AtEnd(node, params, acc);
        return f.ctrl, f.params, f.tsr;
      }
      return None, params, path == "/" || OneSlashShort(node, path) || FirstIsCatchAll(node);
    }
  }
}
