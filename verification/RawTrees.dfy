/** The nodes of the router linked by references, and insertion in place, proved against the functions on trees. */
module RawTrees {
  import opened Text
  import opened RouteTree
  import opened RouteInsertion
  import opened RouteConflicts
  import opened Patterns
  import opened PatternProofs
  import opened PathParsing
  import opened RouteMap

  class RawNode {
    var path: string
    var indices: string
    var children: seq<RawNode>
    var handle: Option<Controller>
    var kind: NodeType
    var re: Option<string>
    var name: string
    var wildchild: bool

    constructor ()
      ensures path == "" && indices == "" && children == [] && handle == None
      ensures kind == ROOT && re == None && name == "" && !wildchild
    {
      path, indices, children, handle := "", "", [], None;
      kind, re, name, wildchild := ROOT, None, "", false;
    }

    /** `RawNode::indice`, as a position among the children. */
    method FindIndice(c: char) returns (r: Option<nat>)
      ensures r == IndexOf(indices, c)
    {
      for i := 0 to |indices|
        invariant c !in indices[..i]
      {
        if indices[i] == c {
          FirstUnique(indices, c, i);
          return Some(i);
        }
      }
      FirstUnique(indices, c, |indices|);
      return None;
    }
  }

  // ---------------------------------------------------------------- the shape of a linked tree

  /** The references of a tree: what the heap is expected to link. */
  datatype Shape = Shape(node: RawNode, kids: seq<Shape>)

  ghost function Objs(s: Shape): set<RawNode>
    decreases s, 0
  {
    {s.node} + ObjsAll(s.kids)
  }

  ghost function ObjsAll(kids: seq<Shape>): (r: set<RawNode>)
    ensures forall k :: 0 <= k < |kids| ==> Objs(kids[k]) <= r
    decreases kids, 1
  {
    if kids == [] then {} else
      assert forall k :: 0 < k < |kids| ==> kids[k] == kids[1..][k - 1];
      Objs(kids[0]) + ObjsAll(kids[1..])
  }

  lemma {:induction false} ObjsAllMember(kids: seq<Shape>, o: RawNode) returns (k: nat)
    requires o in ObjsAll(kids)
    ensures k < |kids| && o in Objs(kids[k])
  {
    if o in Objs(kids[0]) {
      k := 0;
    } else {
      k := ObjsAllMember(kids[1..], o);
      k := k + 1;
    }
  }

  /** No node occurs twice. */
  ghost predicate Disjoint(s: Shape) {
    && s.node !in ObjsAll(s.kids)
    && (forall i :: 0 <= i < |s.kids| ==> Disjoint(s.kids[i]))
    && (forall i, j :: 0 <= i < j < |s.kids| ==> Objs(s.kids[i]) !! Objs(s.kids[j]))
  }

  /** The children fields follow the shape. */
  ghost predicate Linked(s: Shape)
    reads Objs(s)
  {
    && |s.node.children| == |s.kids|
    && forall i :: 0 <= i < |s.kids| ==> s.node.children[i] == s.kids[i].node && Linked(s.kids[i])
  }

  ghost predicate Sound(s: Shape)
    reads Objs(s)
  {
    Disjoint(s) && Linked(s)
  }

  /** The tree that the heap holds. */
  ghost function Abs(s: Shape): Node
    reads Objs(s)
    decreases s, 0
  {
    var n := s.node;
    Node(n.path, n.indices, AbsAll(s.kids), n.handle, n.kind, n.re, n.name, n.wildchild)
  }

  ghost function AbsAll(kids: seq<Shape>): (r: seq<Node>)
    reads ObjsAll(kids)
    ensures |r| == |kids| && forall k :: 0 <= k < |kids| ==> r[k] == Abs(kids[k])
    decreases kids, 1
  {
    if kids == [] then [] else
      assert forall k :: 0 < k < |kids| ==> kids[k] == kids[1..][k - 1];
      [Abs(kids[0])] + AbsAll(kids[1..])
  }

  // ---------------------------------------------------------------- positions

  predicate At(n: Node, pos: seq<nat>)
    decreases pos
  {
    pos == [] || (pos[0] < |n.children| && At(n.children[pos[0]], pos[1..]))
  }

  function Put(n: Node, pos: seq<nat>, m: Node): Node
    requires At(n, pos)
    decreases pos
  {
    if pos == [] then m
    else n.(children := n.children[pos[0] := Put(n.children[pos[0]], pos[1..], m)])
  }

  function PutOutcome(n: Node, pos: seq<nat>, o: Outcome): Outcome
    requires At(n, pos)
  {
    Outcome(Put(n, pos, o.tree), o.ok, o.rest)
  }

  ghost predicate Placed(s: Shape, pos: seq<nat>, t: Shape)
    decreases pos
  {
    if pos == [] then s == t else pos[0] < |s.kids| && Placed(s.kids[pos[0]], pos[1..], t)
  }

  ghost function PutShape(s: Shape, pos: seq<nat>, t: Shape, u: Shape): Shape
    requires Placed(s, pos, t)
    decreases pos
  {
    if pos == [] then u
    else s.(kids := s.kids[pos[0] := PutShape(s.kids[pos[0]], pos[1..], t, u)])
  }

  /** A subtree is part of the tree, soundly. */
  lemma {:induction false} PlacedPart(s: Shape, pos: seq<nat>, t: Shape)
    requires Placed(s, pos, t) && Sound(s)
    ensures Objs(t) <= Objs(s) && Sound(t) && At(Abs(s), pos) && NodeAt(Abs(s), pos) == Abs(t)
    decreases pos
  {
    if pos != [] {
      PlacedPart(s.kids[pos[0]], pos[1..], t);
    }
  }

  lemma AbsFields(s: Shape)
    requires Sound(s)
    ensures |s.node.children| == |s.kids| == |Abs(s).children| && s.node in Objs(s)
    ensures Abs(s).path == s.node.path && Abs(s).indices == s.node.indices && Abs(s).kind == s.node.kind
    ensures Abs(s).handle == s.node.handle && Abs(s).wild == s.node.wildchild
    ensures forall k :: 0 <= k < |s.kids| ==>
              s.node.children[k] == s.kids[k].node && Abs(s).children[k] == Abs(s.kids[k])
  {
  }

  lemma AbsSizes(s: Shape)
    requires Sound(s)
    ensures |s.node.children| == |s.kids| == |Abs(s).children| && s.node in Objs(s)
  {
  }

  /** Going one step further down. */
  lemma {:induction false} PlacedStep(s: Shape, pos: seq<nat>, t: Shape, k: nat)
    requires Placed(s, pos, t) && k < |t.kids| && Sound(s)
    ensures Placed(s, pos + [k], t.kids[k]) && At(Abs(s), pos) && At(Abs(s), pos + [k])
    ensures forall m :: Put(Abs(s), pos + [k], m) == Put(Abs(s), pos, Abs(t).(children := Abs(t).children[k := m]))
    decreases pos
  {
    PlacedPart(s, pos, t);
    if pos == [] {
      assert pos + [k] == [k];
    } else {
      PlacedStep(s.kids[pos[0]], pos[1..], t, k);
      assert (pos + [k])[0] == pos[0] && (pos + [k])[1..] == pos[1..] + [k];
    }
  }

  lemma {:induction false} PlacedInside(s: Shape, pos: seq<nat>, t: Shape)
    requires Placed(s, pos, t) && Disjoint(s)
    ensures Objs(t) <= Objs(s) && Disjoint(t)
    ensures pos != [] ==>
              s.node !in Objs(t) && forall j :: 0 <= j < |s.kids| && j != pos[0] ==> Objs(s.kids[j]) !! Objs(t)
    decreases pos
  {
    if pos != [] {
      PlacedInside(s.kids[pos[0]], pos[1..], t);
    }
  }

  /** Everything around the subtree `t` is as in `n`. It does not depend on the nodes of `t`. */
  ghost predicate Around(s: Shape, pos: seq<nat>, t: Shape, n: Node)
    requires Placed(s, pos, t) && Disjoint(s)
    reads Objs(s) - Objs(t)
    decreases pos
  {
    if pos == [] then true
    else
      PlacedInside(s, pos, t);
      var k, h := pos[0], s.node;
      assert forall j :: 0 <= j < |s.kids| && j != k ==> Objs(s.kids[j]) <= Objs(s) - Objs(t);
      && n == Node(h.path, h.indices, n.children, h.handle, h.kind, h.re, h.name, h.wildchild)
      && |n.children| == |s.kids| == |h.children|
      && (forall j :: 0 <= j < |s.kids| ==> h.children[j] == s.kids[j].node)
      && (forall j :: 0 <= j < |s.kids| && j != k ==> Linked(s.kids[j]) && Abs(s.kids[j]) == n.children[j])
      && Around(s.kids[k], pos[1..], t, n.children[k])
  }

  lemma {:induction false} AroundHolds(s: Shape, pos: seq<nat>, t: Shape)
    requires Placed(s, pos, t) && Sound(s)
    ensures Around(s, pos, t, Abs(s)) && At(Abs(s), pos)
    decreases pos
  {
    if pos != [] {
      AroundHolds(s.kids[pos[0]], pos[1..], t);
    }
  }

  /** Rewriting a subtree in place changes the whole tree exactly there. */
  lemma {:induction false} Regraft(s: Shape, pos: seq<nat>, t: Shape, u: Shape, n: Node)
    requires Disjoint(s) && Placed(s, pos, t) && Around(s, pos, t, n)
    requires Sound(u) && u.node == t.node && Objs(u) !! (Objs(s) - Objs(t))
    ensures At(n, pos)
    ensures var v := PutShape(s, pos, t, u);
            && v.node == s.node && Objs(v) <= (Objs(s) - Objs(t)) + Objs(u)
            && Placed(v, pos, u) && Sound(v) && Abs(v) == Put(n, pos, Abs(u))
    decreases pos
  {
    hide Disjoint, Linked, Abs, AbsAll, Around, Objs, ObjsAll;
    if pos != [] {
      var k, v := pos[0], PutShape(s, pos, t, u);
      var kid := s.kids[k];
      AroundStep(s, pos, t, n);
      PlacedInside(kid, pos[1..], t);
      KidsOfDisjoint(s, k, t);
      Regraft(kid, pos[1..], t, u, n.children[k]);
      assert v == Shape(s.node, s.kids[k := v.kids[k]]);
      ReplaceKid(s, k, v.kids[k], n);
      ReplacedObjs(s, k, v.kids[k]);
    }
  }

  lemma AroundStep(s: Shape, pos: seq<nat>, t: Shape, n: Node)
    requires Placed(s, pos, t) && Disjoint(s) && Around(s, pos, t, n) && pos != []
    ensures var (k, h) := (pos[0], s.node);
            && n == Node(h.path, h.indices, n.children, h.handle, h.kind, h.re, h.name, h.wildchild)
            && |n.children| == |s.kids| == |h.children|
            && (forall j :: 0 <= j < |s.kids| ==> h.children[j] == s.kids[j].node)
            && (forall j :: 0 <= j < |s.kids| && j != k ==> Linked(s.kids[j]) && Abs(s.kids[j]) == n.children[j])
            && Disjoint(s.kids[k]) && Around(s.kids[k], pos[1..], t, n.children[k])
  {
  }

  lemma KidsOfDisjoint(s: Shape, k: nat, t: Shape)
    requires Disjoint(s) && k < |s.kids| && Objs(t) <= Objs(s.kids[k])
    ensures s.node in Objs(s) && s.node !in Objs(s.kids[k]) && Objs(s.kids[k]) <= Objs(s)
    ensures forall j :: 0 <= j < |s.kids| && j != k ==>
              Objs(s.kids[j]) <= Objs(s) - Objs(t) && Objs(s.kids[j]) !! Objs(s.kids[k])
  {
  }

  lemma ReplacedObjs(s: Shape, k: nat, kid: Shape)
    requires k < |s.kids|
    ensures var v := Shape(s.node, s.kids[k := kid]);
            forall o :: o in Objs(v) ==>
              o == s.node || o in Objs(kid) || exists j :: 0 <= j < |s.kids| && j != k && o in Objs(s.kids[j])
  {
    var v := Shape(s.node, s.kids[k := kid]);
    forall o | o in ObjsAll(v.kids)
      ensures o in Objs(kid) || exists j :: 0 <= j < |s.kids| && j != k && o in Objs(s.kids[j])
    {
      var j := ObjsAllMember(v.kids, o);
    }
  }

  lemma ReplaceKid(s: Shape, k: nat, kid: Shape, n: Node)
    requires Disjoint(s) && k < |s.kids| && Sound(kid) && kid.node == s.kids[k].node
    requires s.node !in Objs(kid) && forall j :: 0 <= j < |s.kids| && j != k ==> Objs(kid) !! Objs(s.kids[j])
    requires var h := s.node;
             && n == Node(h.path, h.indices, n.children, h.handle, h.kind, h.re, h.name, h.wildchild)
             && |n.children| == |s.kids| == |h.children|
             && (forall j :: 0 <= j < |s.kids| ==> h.children[j] == s.kids[j].node)
             && (forall j :: 0 <= j < |s.kids| && j != k ==> Linked(s.kids[j]) && Abs(s.kids[j]) == n.children[j])
    ensures var v := Shape(s.node, s.kids[k := kid]);
            Sound(v) && Abs(v) == n.(children := n.children[k := Abs(kid)])
  {
    var v := Shape(s.node, s.kids[k := kid]);
    ReplacedDisjoint(s, k, kid);
    hide Disjoint, Objs, ObjsAll;
    assert Linked(v);
    assert AbsAll(v.kids) == n.children[k := Abs(kid)];
  }

  lemma ReplacedDisjoint(s: Shape, k: nat, kid: Shape)
    requires Disjoint(s) && k < |s.kids| && Disjoint(kid)
    requires s.node !in Objs(kid) && forall j :: 0 <= j < |s.kids| && j != k ==> Objs(kid) !! Objs(s.kids[j])
    ensures Disjoint(Shape(s.node, s.kids[k := kid]))
  {
    var v := Shape(s.node, s.kids[k := kid]);
    if s.node in ObjsAll(v.kids) {
      var j := ObjsAllMember(v.kids, s.node);
      assert false;
    }
  }

  lemma {:induction false} PutPut(n: Node, pos: seq<nat>, a: Node, b: Node)
    requires At(n, pos)
    ensures At(Put(n, pos, a), pos) && Put(Put(n, pos, a), pos, b) == Put(n, pos, b)
    decreases pos
  {
    if pos != [] {
      PutPut(n.children[pos[0]], pos[1..], a, b);
    }
  }

  /** A chain of only children below a rewritten place: filling its end fills the place. */
  lemma ChainPut(s: Shape, pos: seq<nat>, t: Shape, n: Node)
    requires Placed(s, pos, t) && Sound(s) && |t.kids| == 1 && |t.kids[0].kids| == 1
    requires At(n, pos) && Abs(s) == Put(n, pos, Abs(t))
    ensures Placed(s, pos + [0, 0], t.kids[0].kids[0]) && At(Abs(s), pos + [0, 0])
    ensures forall m: Node ::
              Put(Abs(s), pos + [0, 0], m) == Put(n, pos, Abs(t).(children := [Abs(t.kids[0]).(children := [m])]))
  {
    var kid := t.kids[0];
    PlacedStep(s, pos, t, 0);
    PlacedStep(s, pos + [0], kid, 0);
    assert pos + [0] + [0] == pos + [0, 0];
    forall m: Node ensures
        Put(Abs(s), pos + [0, 0], m) == Put(n, pos, Abs(t).(children := [Abs(kid).(children := [m])]))
    {
      var a := Abs(kid).(children := [m]);
      assert Abs(kid).children[0 := m] == [m] && Abs(t).children[0 := a] == [a];
      PutPut(n, pos, Abs(t), Abs(t).(children := [a]));
    }
  }

  // ---------------------------------------------------------------- insertion in place

  lemma LeafSound(s: Shape)
    requires s.kids == [] && s.node.children == []
    ensures Sound(s) && Objs(s) == {s.node} && Abs(s).children == []
  {
  }

  lemma OnlyChildSound(s: Shape)
    requires |s.kids| == 1 && s.node.children == [s.kids[0].node] && Sound(s.kids[0]) && s.node !in Objs(s.kids[0])
    ensures Sound(s) && Objs(s) == {s.node} + Objs(s.kids[0]) && Abs(s).children == [Abs(s.kids[0])]
  {
    assert ObjsAll(s.kids) == Objs(s.kids[0]) + ObjsAll([]);
  }

  method SetLeaf(node: RawNode, path: string, ctrl: Controller)
    modifies node
    ensures node.path == path && node.handle == Some(ctrl) && node.kind == STATIC && node.indices == ""
    ensures node.children == old(node.children) && node.re == old(node.re)
    ensures node.name == old(node.name) && node.wildchild == old(node.wildchild)
  {
    node.path, node.handle, node.kind, node.indices := path, Some(ctrl), STATIC, "";
  }

  /** Rewriting fields of the root leaves the subtrees as they are. */
  lemma RootRewritten(s: Shape)
    requires Disjoint(s) && KidsLinked(s.kids)
    requires s.node.children == seq(|s.kids|, k requires 0 <= k < |s.kids| => s.kids[k].node)
    ensures Sound(s)
    ensures var h := s.node;
            Abs(s) == Node(h.path, h.indices, AbsAll(s.kids), h.handle, h.kind, h.re, h.name, h.wildchild)
  {
  }

  /** The last piece of a route, without a wildcard. */
  method WriteLeaf(node: RawNode, path: string, ctrl: Controller, ghost s: Shape)
    requires Sound(s) && s.node == node
    modifies node
    ensures Sound(s)
    ensures Abs(s) == old(Abs(s)).(path := path, handle := Some(ctrl), kind := STATIC, indices := "")
  {
    hide Sound, Linked, Disjoint, Abs, AbsAll, Objs, ObjsAll, KidsLinked;
    ObjsAllocated(s);
    KidsApart(s);
    AbsIs(s);
    SetLeaf(node, path, ctrl);
    RootRewritten(s);
  }

  /** The node above a wildcard and the node for the wildcard itself, still without a handle. */
  function Above(n: Node, path: string, pos: nat, wild: Param): Node
    requires pos <= |path|
  {
    (if pos > 0 then n.(path := path[..pos], kind := STATIC) else n.(kind := wild.Kind())).(wild := true)
  }

  function Under(wild: Param): Node {
    match wild
    case ParamSeg(_, name, pattern) => Node([PARAM_CHAR], "", [], None, PARAM, Some(pattern), name, false)
    case CatchAllSeg(_, name) => Node("", "", [], None, CATCH_ALL, None, name, false)
  }

  method HangWild(node: RawNode, path: string, paramPos: nat, wild: Param, ghost s: Shape)
      returns (child: RawNode, ghost u: Shape)
    requires Sound(s) && s.node == node && s.kids == [] && paramPos <= |path|
    modifies node
    ensures u == Shape(node, [Shape(child, [])]) && Sound(u) && fresh(child)
    ensures Objs(u) == {node, child}
    ensures Abs(u) == Above(old(Abs(s)), path, paramPos, wild).(children := [Abs(u.kids[0])])
    ensures Abs(u.kids[0]) == Under(wild)
  {
    hide Sound, Linked, Disjoint, Abs, AbsAll, Objs, ObjsAll;
    AbsIs(s);
    child := MakeWild(node, path, paramPos, wild);
    ghost var kid := Shape(child, []);
    u := Shape(node, [kid]);
    LeafSound(kid);
    OnlyChildSound(u);
    AbsIs(kid);
    AbsIs(u);
  }

  method MakeWild(node: RawNode, path: string, paramPos: nat, wild: Param) returns (child: RawNode)
    requires paramPos <= |path|
    modifies node
    ensures node.path == (if paramPos > 0 then path[..paramPos] else old(node.path))
    ensures node.kind == (if paramPos > 0 then STATIC else wild.Kind())
    ensures node.wildchild && node.children == old(node.children) + [child]
    ensures node.indices == old(node.indices) && node.handle == old(node.handle) && node.re == old(node.re)
            && node.name == old(node.name)
    ensures fresh(child) && child.children == []
    ensures Node(child.path, child.indices, [], child.handle, child.kind, child.re, child.name, child.wildchild)
            == Under(wild)
  {
    if paramPos > 0 {
      node.path := path[..paramPos];
      node.kind := STATIC;
    } else {
      node.kind := wild.Kind();
    }
    child := new RawNode();
    child.kind := wild.Kind();
    if wild.ParamSeg? {
      child.re, child.path := Some(wild.pattern), [PARAM_CHAR];
    }
    child.name := wild.name;
    node.wildchild := true;
    node.children := node.children + [child];
  }

  /** A parameter at the end of the route, or a catch-all: the wildcard takes the handle. */
  method EndWild(child: RawNode, ctrl: Controller, ghost u: Shape)
    requires Sound(u) && |u.kids| == 1 && u.kids[0] == Shape(child, [])
    modifies child
    ensures Sound(u) && Abs(u) == old(Abs(u)).(children := [old(Abs(u.kids[0])).(handle := Some(ctrl))])
  {
    assert child in Objs(u.kids[0]) && u.node != child;
    assert Sound(u.kids[0]) && child.children == [];
    child.handle := Some(ctrl);
    LeafSound(u.kids[0]);
    OnlyChildSound(u);
  }

  method PushEmpty(node: RawNode, ch: char) returns (child: RawNode)
    modifies node`children
    ensures fresh(child) && node.children == old(node.children) + [child] && child.children == []
    ensures Node(child.path, child.indices, [], child.handle, child.kind, child.re, child.name, child.wildchild)
            == Fresh(UNKNOWN, [ch])
  {
    child := new RawNode();
    child.kind := UNKNOWN;
    node.children := node.children + [child];
    child.indices := [ch];
  }

  /** More text after a parameter: a node for it, whose index is already its first character. */
  method FollowWild(child: RawNode, ch: char, ghost u: Shape) returns (nChild: RawNode, ghost w: Shape)
    requires Sound(u) && |u.kids| == 1 && u.kids[0] == Shape(child, [])
    modifies child
    ensures w == Shape(u.node, [Shape(child, [Shape(nChild, [])])]) && Sound(w) && fresh(nChild)
    ensures Objs(w) == Objs(u) + {nChild}
    ensures Abs(w.kids[0].kids[0]) == Fresh(UNKNOWN, [ch])
    ensures Abs(w.kids[0]) == old(Abs(u.kids[0])).(children := [Fresh(UNKNOWN, [ch])])
    ensures Abs(w) == old(Abs(u)).(children := [Abs(w.kids[0])])
  {
    ChildReady(child, u);
    hide Sound, Linked, Disjoint, Abs, AbsAll, Objs, ObjsAll;
    AbsIs(u);
    AbsIs(u.kids[0]);
    nChild := PushEmpty(child, ch);
    ghost var last := Shape(nChild, []);
    ghost var kid := Shape(child, [last]);
    w := Shape(u.node, [kid]);
    LeafSound(last);
    OnlyChildSound(kid);
    OnlyChildSound(w);
    AbsIs(last);
    AbsIs(kid);
    AbsIs(w);
  }

  lemma ChildReady(child: RawNode, u: Shape)
    requires Sound(u) && |u.kids| == 1 && u.kids[0] == Shape(child, [])
    ensures u.node != child && child.children == [] && u.node.children == [child]
    ensures Sound(u.kids[0]) && Objs(u) == {u.node, child}
  {
    assert child in Objs(u.kids[0]);
    assert Sound(u.kids[0]) && child.children == [];
    LeafSound(u.kids[0]);
    OnlyChildSound(u);
  }

  method HangAndEnd(node: RawNode, path: string, paramPos: nat, wild: Param, ctrl: Controller, ghost s: Shape)
      returns (ghost w: Shape)
    requires Sound(s) && s.node == node && s.kids == [] && paramPos <= |path|
    modifies node
    ensures Sound(w) && w.node == node && (forall o :: o in Objs(w) ==> o == node || fresh(o))
    ensures Abs(w) == Above(old(Abs(s)), path, paramPos, wild).(children := [Under(wild).(handle := Some(ctrl))])
  {
    hide Linked, Disjoint, Sound, Abs, AbsAll;
    var child;
    child, w := HangWild(node, path, paramPos, wild, s);
    EndWild(child, ctrl, w);
  }

  method HangAndFollow(node: RawNode, path: string, paramPos: nat, wild: Param, ch: char, ghost s: Shape)
      returns (nChild: RawNode, ghost w: Shape)
    requires Sound(s) && s.node == node && s.kids == [] && paramPos <= |path|
    modifies node
    ensures Sound(w) && w.node == node && (forall o :: o in Objs(w) ==> o == node || fresh(o)) && fresh(nChild)
    ensures |w.kids| == 1 && w.kids[0].kids == [Shape(nChild, [])]
    ensures Abs(w.kids[0].kids[0]) == Fresh(UNKNOWN, [ch])
    ensures forall m: Node :: Abs(w).(children := [Abs(w.kids[0]).(children := [m])])
                              == Above(old(Abs(s)), path, paramPos, wild).(children := [Under(wild).(children := [m])])
  {
    hide Linked, Disjoint, Sound, Abs, AbsAll;
    var child;
    ghost var u;
    child, u := HangWild(node, path, paramPos, wild, s);
    nChild, w := FollowWild(child, ch, u);
  }

  // The same three steps at a place deep in a larger tree `v`.

  method WriteLeafAt(node: RawNode, path: string, ctrl: Controller, ghost v: Shape, ghost pos: seq<nat>,
                     ghost cur: Shape)
      returns (ghost w: Shape)
    requires Sound(v) && Placed(v, pos, cur) && cur.node == node && At(Abs(v), pos)
    modifies node
    ensures Sound(w) && w.node == v.node && Objs(w) <= Objs(v)
    ensures Abs(w) == Put(old(Abs(v)), pos,
                          old(Abs(cur)).(path := path, handle := Some(ctrl), kind := STATIC, indices := ""))
  {
    hide Linked, Disjoint, Sound, Abs, AbsAll, Objs, ObjsAll, Around, Placed, PutShape, At, Put, NodeAt;
    Ready(v, pos, cur);
    ghost var before := Abs(v);
    WriteLeaf(node, path, ctrl, cur);
    Close(v, pos, cur, cur, before);
    w := PutShape(v, pos, cur, cur);
  }

  method EndWildAt(node: RawNode, path: string, paramPos: nat, wild: Param, ctrl: Controller,
                   ghost v: Shape, ghost pos: seq<nat>, ghost cur: Shape)
      returns (ghost w: Shape)
    requires Sound(v) && Placed(v, pos, cur) && cur.node == node && At(Abs(v), pos)
    requires cur.kids == [] && paramPos <= |path|
    modifies node
    ensures Sound(w) && w.node == v.node && (forall o :: o in Objs(w) ==> o in Objs(v) || fresh(o))
    ensures Abs(w) == Put(old(Abs(v)), pos,
                          Above(old(Abs(cur)), path, paramPos, wild).(children := [Under(wild).(handle := Some(ctrl))]))
  {
    hide Linked, Disjoint, Sound, Abs, AbsAll, Objs, ObjsAll, Around, Placed, PutShape, At, Put, NodeAt;
    Ready(v, pos, cur);
    ghost var before := Abs(v);
    ghost var u := HangAndEnd(node, path, paramPos, wild, ctrl, cur);
    Close(v, pos, cur, u, before);
    w := PutShape(v, pos, cur, u);
  }

  method FollowWildAt(node: RawNode, path: string, paramPos: nat, wild: Param, ch: char,
                      ghost v: Shape, ghost pos: seq<nat>, ghost cur: Shape)
      returns (nChild: RawNode, ghost w: Shape, ghost last: Shape)
    requires Sound(v) && Placed(v, pos, cur) && cur.node == node && At(Abs(v), pos)
    requires cur.kids == [] && paramPos <= |path|
    modifies node
    ensures Sound(w) && w.node == v.node && (forall o :: o in Objs(w) ==> o in Objs(v) || fresh(o))
    ensures fresh(nChild) && last == Shape(nChild, []) && Placed(w, pos + [0, 0], last)
    ensures Abs(last) == Fresh(UNKNOWN, [ch]) && At(Abs(w), pos + [0, 0])
    ensures forall m: Node ::
              Put(Abs(w), pos + [0, 0], m)
              == Put(old(Abs(v)), pos,
                     Above(old(Abs(cur)), path, paramPos, wild).(children := [Under(wild).(children := [m])]))
  {
    hide Linked, Disjoint, Sound, Abs, AbsAll, Objs, ObjsAll, Around, Placed, PutShape, At, Put, NodeAt;
    Ready(v, pos, cur);
    ghost var before := Abs(v);
    ghost var t;
    nChild, t := HangAndFollow(node, path, paramPos, wild, ch, cur);
    Close(v, pos, cur, t, before);
    ClosePlaced(v, pos, cur, t);
    w := PutShape(v, pos, cur, t);
    ChainPut(w, pos, t, before);
    last := t.kids[0].kids[0];
  }

  lemma {:induction false} ObjsAllocated(s: Shape)
    ensures forall o :: o in Objs(s) ==> allocated(o)
    decreases s, 0
  {
    AllAllocated(s.kids);
  }

  lemma {:induction false} AllAllocated(kids: seq<Shape>)
    ensures forall o :: o in ObjsAll(kids) ==> allocated(o)
    decreases kids, 1
  {
    if kids != [] {
      ObjsAllocated(kids[0]);
      AllAllocated(kids[1..]);
    }
  }

  /** One round of `InsertChild` in terms of the nodes it makes. */
  lemma InsertChildStep(n: Node, path: string, pos: nat, q: seq<Param>, c: Controller)
    requires IndexOf(path, PARAM_CHAR) == Some(pos) && Wilds(path) <= |q| && n.children == []
    ensures Wilds(path) > 0 && Wilds(path[pos + 1..]) <= |q[1..]|
    ensures RouteTree.InsertChild(n, path, q, c) ==
            if q[0].CatchAllSeg? || |path| == pos + 1 then
              Outcome(Above(n, path, pos, q[0]).(children := [Under(q[0]).(handle := Some(c))]), true, q[1..])
            else (
              WildsAt(path, pos);
              assert path[pos..][1..] == path[pos + 1..];
              var o := RouteTree.InsertChild(Fresh(UNKNOWN, [path[pos + 1]]), path[pos + 1..], q[1..], c);
              Outcome(Above(n, path, pos, q[0]).(children := [Under(q[0]).(children := [o.tree])]), o.ok, o.rest))
  {
    WildsAt(path, pos);
    assert path[pos..][1..] == path[pos + 1..];
  }

  /** The two ways `InsertChild` ends at once. */
  lemma InsertChildEnd(n: Node, path: string, q: seq<Param>, c: Controller)
    requires Wilds(path) <= |q|
    ensures IndexOf(path, PARAM_CHAR) == None ==>
              RouteTree.InsertChild(n, path, q, c)
              == Outcome(n.(path := path, handle := Some(c), kind := STATIC, indices := ""), true, q)
    ensures IndexOf(path, PARAM_CHAR).Some? ==>
              q != [] && (n.children != [] ==> RouteTree.InsertChild(n, path, q, c) == Outcome(n, false, q[1..]))
  {
    if IndexOf(path, PARAM_CHAR).Some? {
      WildsAt(path, IndexOf(path, PARAM_CHAR).value);
    }
  }

  /** `RawTree::insertChild`. `s` is what hangs below `start` before, `v` after. */
  method InsertChildAt(start: RawNode, path0: string, parser: PathParser, ctrl: Controller, ghost s: Shape)
      returns (ok: bool, ghost v: Shape)
    requires Sound(s) && s.node == start && Wilds(path0) <= |parser.params|
    modifies start, parser`params
    ensures Sound(v) && v.node == start && (forall o :: o in Objs(v) ==> o in Objs(s) || fresh(o))
    ensures Outcome(Abs(v), ok, parser.params) == RouteTree.InsertChild(old(Abs(s)), path0, old(parser.params), ctrl)
  {
    hide Sound, Abs, AbsAll, Objs, ObjsAll, Linked, Disjoint, RouteTree.InsertChild, Put, At, NodeAt, Placed, Above,
         Under, Wilds, IndexOf;
    var node, path := start, path0;
    ghost var pos: seq<nat>, cur := [], s;
    v := s;
    ghost var target := RouteTree.InsertChild(old(Abs(s)), path0, old(parser.params), ctrl);
    PlacedWhole(s);
    PutWhole(Abs(s), target.tree);
    while true
      invariant Sound(v) && v.node == start && (forall o :: o in Objs(v) ==> o in Objs(s) || fresh(o))
      invariant Placed(v, pos, cur) && cur.node == node && At(Abs(v), pos)
      invariant node == start || fresh(node)
      invariant Wilds(path) <= |parser.params|
      invariant target == PutOutcome(Abs(v), pos, RouteTree.InsertChild(Abs(cur), path, parser.params, ctrl))
      decreases |path|
    {
      Ready(v, pos, cur);
      InsertChildEnd(Abs(cur), path, parser.params, ctrl);
      var paramPos := FindWildcard(path);
      if paramPos == -1 {
        v := WriteLeafAt(node, path, ctrl, v, pos, cur);
        return true, v;
      }
      WildsAt(path, paramPos);
      label Q:
      var wild := parser.params[0];
      parser.params := parser.params[1..];
      if |node.children| > 0 {
        PutSame(Abs(v), pos, Abs(cur));
        return false, v;
      }
      InsertChildStep(Abs(cur), path, paramPos, [wild] + parser.params, ctrl);
      assert [wild] + parser.params == old@Q(parser.params);
      if wild.CatchAllSeg? || |path| == paramPos + 1 {
        v := EndWildAt(node, path, paramPos, wild, ctrl, v, pos, cur);
        return true, v;
      }
      node, v, cur := FollowWildAt(node, path, paramPos, wild, path[paramPos + 1], v, pos, cur);
      path, pos := path[paramPos + 1..], pos + [0, 0];
    }
  }

  lemma {:induction false} PutSame(n: Node, pos: seq<nat>, m: Node)
    requires At(n, pos) && m == NodeAt(n, pos)
    ensures Put(n, pos, m) == n
    decreases pos
  {
    if pos != [] {
      PutSame(n.children[pos[0]], pos[1..], m);
    }
  }

  function NodeAt(n: Node, pos: seq<nat>): Node
    requires At(n, pos)
    decreases pos
  {
    if pos == [] then n else NodeAt(n.children[pos[0]], pos[1..])
  }

  // ---------------------------------------------------------------- `RawTree::insert`

  /** A new child takes over everything below the first `i` characters; the node keeps the rest of its path. */
  method MoveBelow(node: RawNode, i: nat) returns (child: RawNode)
    requires i < |node.path|
    modifies node
    ensures fresh(child) && child.path == old(node.path)[i..] && child.kind == old(node.kind)
            && child.re == old(node.re)
    ensures child.indices == old(node.indices) && child.children == old(node.children) && child.name == old(node.name)
    ensures child.handle == old(node.handle) && child.wildchild == old(node.wildchild)
    ensures node.path == old(node.path)[..i] && node.indices == [old(node.path)[i]] && node.children == [child]
    ensures node.kind == STATIC && node.re == None && node.name == old(node.name) && node.handle == None
            && !node.wildchild
  {
    child := new RawNode();
    child.path := node.path[i..];
    child.kind := node.kind;
    child.re, node.re := node.re, None;
    child.indices := node.indices;
    child.children, node.children := node.children, [];
    child.name := node.name;
    child.handle, node.handle := node.handle, None;
    child.wildchild := node.wildchild;
    node.children := node.children + [child];
    node.indices := [node.path[i]];
    node.path := node.path[..i];
    node.kind := STATIC;
    node.wildchild := false;
  }

  /** Splitting a node in place. */
  method SplitNode(node: RawNode, i: nat, ghost s: Shape) returns (ghost u: Shape)
    requires Sound(s) && s.node == node && i < |node.path|
    modifies node
    ensures Sound(u) && u.node == node && (forall o :: o in Objs(u) ==> o in Objs(s) || fresh(o))
    ensures Abs(u) == SplitAt(old(Abs(s)), i)
  {
    hide Sound, Linked, Disjoint, Abs, AbsAll, Objs, ObjsAll, KidsLinked;
    ObjsAllocated(s);
    KidsApart(s);
    AbsIs(s);
    ghost var kids := AbsAll(s.kids);
    var child := MoveBelow(node, i);
    u := Shape(node, [Shape(child, s.kids)]);
    SplitSound(s, child, u);
    AbsIs(u);
    AbsIs(u.kids[0]);
    assert AbsAll(s.kids) == kids;
  }

  /** The subtrees of a sound tree, without its root. */
  lemma KidsApart(s: Shape)
    requires Sound(s)
    ensures s.node !in ObjsAll(s.kids) && s.node in Objs(s) && ObjsAll(s.kids) <= Objs(s)
    ensures s.node.children == seq(|s.kids|, k requires 0 <= k < |s.kids| => s.kids[k].node)
    ensures Disjoint(s) && KidsLinked(s.kids)
  {
  }

  ghost predicate KidsLinked(kids: seq<Shape>)
    reads ObjsAll(kids)
  {
    forall k :: 0 <= k < |kids| ==> Linked(kids[k])
  }

  lemma SplitSound(s: Shape, child: RawNode, u: Shape)
    requires Disjoint(s) && KidsLinked(s.kids) && child !in Objs(s)
    requires u == Shape(s.node, [Shape(child, s.kids)]) && s.node.children == [child]
    requires child.children == seq(|s.kids|, k requires 0 <= k < |s.kids| => s.kids[k].node)
    ensures Sound(u) && Sound(u.kids[0]) && Objs(u) == Objs(s) + {child}
    ensures AbsAll(u.kids) == [Abs(u.kids[0])]
  {
    var kid := u.kids[0];
    assert Disjoint(kid) && Linked(kid);
    OnlyChildSound(u);
  }

  method SetHandle(node: RawNode, ctrl: Controller, ghost s: Shape)
    requires Sound(s) && s.node == node
    modifies node
    ensures Sound(s) && Abs(s) == old(Abs(s)).(handle := Some(ctrl))
  {
    hide Sound, Linked, Disjoint, Abs, AbsAll, Objs, ObjsAll, KidsLinked;
    KidsApart(s);
    AbsIs(s);
    node.handle := Some(ctrl);
    RootRewritten(s);
  }

  method PushChild(node: RawNode, ch: char) returns (child: RawNode)
    modifies node`indices, node`children
    ensures fresh(child) && node.indices == old(node.indices) + [ch] && node.children == old(node.children) + [child]
    ensures child.path == "" && child.indices == "" && child.children == [] && child.handle == None
    ensures child.kind == STATIC && child.re == None && child.name == "" && !child.wildchild
  {
    node.indices := node.indices + [ch];
    child := new RawNode();
    child.kind := STATIC;
    node.children := node.children + [child];
  }

  /** A new, still empty static child. */
  method AppendChild(node: RawNode, ch: char, ghost s: Shape) returns (child: RawNode, ghost u: Shape)
    requires Sound(s) && s.node == node
    modifies node
    ensures fresh(child) && u == Shape(node, s.kids + [Shape(child, [])]) && Sound(u)
    ensures Objs(u) <= Objs(s) + {child}
    ensures var n := old(Abs(s));
            Abs(u) == n.(indices := n.indices + [ch], children := n.children + [Fresh(STATIC, "")])
  {
    hide Sound, Linked, Disjoint, Abs, AbsAll, Objs, ObjsAll, KidsLinked;
    ObjsAllocated(s);
    KidsApart(s);
    AbsIs(s);
    ghost var kids := AbsAll(s.kids);
    child := PushChild(node, ch);
    ghost var kid := Shape(child, []);
    u := Shape(node, s.kids + [kid]);
    LeafSound(kid);
    AbsIs(kid);
    AppendSound(s, kid, u);
    AbsAppend(s.kids, kid);
    AbsIs(u);
    assert AbsAll(s.kids) == kids;
  }

  lemma AppendSound(s: Shape, kid: Shape, u: Shape)
    requires Disjoint(s) && KidsLinked(s.kids) && Sound(kid) && Objs(kid) !! Objs(s)
             && u == Shape(s.node, s.kids + [kid])
    requires s.node.children == seq(|u.kids|, k requires 0 <= k < |u.kids| => u.kids[k].node)
    ensures Sound(u) && Objs(u) <= Objs(s) + Objs(kid)
  {
    AppendDisjoint(s, kid, u);
    KidsLinkedEach(s);
    hide Disjoint, Objs, ObjsAll;
    forall k | 0 <= k < |u.kids| ensures Linked(u.kids[k]) {
      assert u.kids[k] == if k < |s.kids| then s.kids[k] else kid;
    }
    assert Linked(u);
  }

  lemma KidsLinkedEach(s: Shape)
    requires KidsLinked(s.kids)
    ensures forall k :: 0 <= k < |s.kids| ==> Linked(s.kids[k])
  {
  }

  lemma AppendDisjoint(s: Shape, kid: Shape, u: Shape)
    requires Disjoint(s) && Disjoint(kid) && Objs(kid) !! Objs(s) && u == Shape(s.node, s.kids + [kid])
    ensures Disjoint(u) && Objs(u) <= Objs(s) + Objs(kid)
  {
    forall o | o in ObjsAll(u.kids) ensures o in ObjsAll(s.kids) + Objs(kid) {
      var j := ObjsAllMember(u.kids, o);
      assert u.kids[j] == if j < |s.kids| then s.kids[j] else kid;
    }
    assert forall j :: 0 <= j < |u.kids| ==> u.kids[j] == if j < |s.kids| then s.kids[j] else kid;
  }

  lemma AbsAppend(kids: seq<Shape>, kid: Shape)
    ensures AbsAll(kids + [kid]) == AbsAll(kids) + [Abs(kid)]
  {
    var all := kids + [kid];
    forall k | 0 <= k < |all| ensures AbsAll(all)[k] == (AbsAll(kids) + [Abs(kid)])[k] {
      assert all[k] == if k < |kids| then kids[k] else kid;
    }
  }

  /** The end of `RawTree::insert`: the rest of the route goes below `node`. */
  method AttachTo(node: RawNode, path: string, parser: PathParser, ctrl: Controller, ghost s: Shape)
      returns (ok: bool, ghost v: Shape)
    requires Sound(s) && s.node == node && path != "" && Wilds(path) <= |parser.params|
    modifies node, parser`params
    ensures Sound(v) && v.node == node && (forall o :: o in Objs(v) ==> o in Objs(s) || fresh(o))
    ensures Outcome(Abs(v), ok, parser.params) == Attach(old(Abs(s)), path, old(parser.params), ctrl)
  {
    hide Sound, Linked, Disjoint, Abs, AbsAll, Objs, ObjsAll, RouteTree.InsertChild, Put;
    if path[0] != PARAM_CHAR {
      AbsSizes(s);
      AttachIsPut(Abs(s), path, parser.params, ctrl);
      var child;
      ghost var u;
      child, u := AppendChild(node, path[0], s);
      ghost var leaf := Shape(child, []);
      AbsFields(u);
      assert u.kids[|s.kids|] == leaf && Abs(leaf) == Fresh(STATIC, "");
      ok, v := InsertBelow(child, path, parser, ctrl, u, |s.kids|, leaf);
    } else {
      ok, v := InsertChildAt(node, path, parser, ctrl, s);
    }
  }

  /** Growing a node is inserting below its new last child. */
  lemma AttachIsPut(n: Node, path: string, q: seq<Param>, c: Controller)
    requires path != "" && path[0] != PARAM_CHAR && Wilds(path) <= |q|
    ensures var k := |n.children|;
            var m := n.(indices := n.indices + [path[0]], children := n.children + [Fresh(STATIC, "")]);
            At(m, [k]) && Attach(n, path, q, c)
            == PutOutcome(m, [k], RouteTree.InsertChild(Fresh(STATIC, ""), path, q, c))
  {
    var m := n.(indices := n.indices + [path[0]], children := n.children + [Fresh(STATIC, "")]);
    PutLast(n.children, m, RouteTree.InsertChild(Fresh(STATIC, ""), path, q, c).tree);
  }

  lemma PutLast(kids: seq<Node>, n: Node, m: Node)
    requires |n.children| == |kids| + 1 && n.children[..|kids|] == kids
    ensures Put(n, [|kids|], m) == n.(children := kids + [m])
  {
    assert Put(n, [|kids|], m).children == kids + [m];
  }

  lemma KidReady(s: Shape, k: nat, kid: Shape)
    requires Sound(s) && k < |s.kids| && s.kids[k] == kid
    ensures Placed(s, [k], kid) && Disjoint(s) && Around(s, [k], kid, Abs(s)) && At(Abs(s), [k])
    ensures Sound(kid) && Objs(kid) <= Objs(s) && kid.node in Objs(kid) && s.node !in Objs(kid)
    ensures forall o :: o in Objs(s) ==> allocated(o)
  {
    assert Placed(s, [k], kid);
    PlacedPart(s, [k], kid);
    AroundHolds(s, [k], kid);
    ObjsAllocated(s);
  }

  /** `InsertChild` at a child of the root of `s`. */
  method InsertBelow(child: RawNode, path: string, parser: PathParser, ctrl: Controller,
                     ghost s: Shape, ghost k: nat, ghost kid: Shape)
      returns (ok: bool, ghost v: Shape)
    requires Sound(s) && k < |s.kids| && s.kids[k] == kid && kid.node == child && Wilds(path) <= |parser.params|
    modifies child, parser`params
    ensures Sound(v) && v.node == s.node && (forall o :: o in Objs(v) ==> o in Objs(s) || fresh(o))
    ensures old(At(Abs(s), [k]))
    ensures Outcome(Abs(v), ok, parser.params) ==
            PutOutcome(old(Abs(s)), [k], RouteTree.InsertChild(old(Abs(kid)), path, old(parser.params), ctrl))
  {
    hide Sound, Linked, Disjoint, Abs, AbsAll, Objs, ObjsAll, Around, Placed, PutShape, At, Put, RouteTree.InsertChild;
    KidReady(s, k, kid);
    ghost var before := Abs(s);
    ghost var w;
    ok, w := InsertChildAt(child, path, parser, ctrl, kid);
    Regraft(s, [k], kid, w, before);
    v := PutShape(s, [k], kid, w);
  }

  /** `Insert` after the optional split, in the order of the loop body. */
  lemma InsertVia(n: Node, path: string, q: seq<Param>, c: Controller)
    requires Wilds(path) <= |q|
    ensures var i := CommonPrefix(path, n.path);
            var m := if i < |n.path| then SplitAt(n, i) else n;
            var rest := path[i..];
            && Wilds(rest) <= |q|
            && (i < |n.path| ==> m.handle == None && (rest == "" || Next(m, rest) == Here))
            && RouteTree.Insert(n, path, q, c) ==
               if rest == "" then
                 if m.handle.Some? then Outcome(m, false, q) else Outcome(m.(handle := Some(c)), true, q)
               else
                 match Next(m, rest)
                 case Clash => Outcome(m, false, q)
                 case Here => Attach(m, rest, q, c)
                 case Down(k) =>
                   var o := RouteTree.Insert(m.children[k], rest, q, c);
                   Outcome(m.(children := m.children[k := o.tree]), o.ok, o.rest)
  {
    WildsSuffix(path, CommonPrefix(path, n.path));
  }

  /** The rewritten place put back into the whole tree. */
  lemma Close(s: Shape, pos: seq<nat>, cur: Shape, u: Shape, before: Node)
    requires Disjoint(s) && Placed(s, pos, cur) && Around(s, pos, cur, before)
    requires Sound(u) && u.node == cur.node
    requires forall o :: o in Objs(u) ==> o in Objs(cur) || o !in Objs(s)
    ensures At(before, pos)
    ensures var v := PutShape(s, pos, cur, u);
            && Sound(v) && v.node == s.node && Abs(v) == Put(before, pos, Abs(u))
            && (forall o :: o in Objs(v) ==> o in Objs(s) || o in Objs(u))
  {
    Regraft(s, pos, cur, u, before);
  }

  lemma {:induction false} ClosePlaced(s: Shape, pos: seq<nat>, cur: Shape, u: Shape)
    requires Placed(s, pos, cur)
    ensures Placed(PutShape(s, pos, cur, u), pos, u)
    decreases pos
  {
    if pos != [] {
      ClosePlaced(s.kids[pos[0]], pos[1..], cur, u);
    }
  }

  lemma Ready(s: Shape, pos: seq<nat>, cur: Shape)
    requires Sound(s) && Placed(s, pos, cur)
    ensures Disjoint(s) && Around(s, pos, cur, Abs(s)) && At(Abs(s), pos) && NodeAt(Abs(s), pos) == Abs(cur)
    ensures Sound(cur) && Objs(cur) <= Objs(s) && cur.node in Objs(cur)
    ensures forall o :: o in Objs(s) ==> allocated(o)
    ensures |cur.node.children| == |cur.kids|
    ensures var (n, h) := (Abs(cur), cur.node);
            && |n.children| == |cur.kids| && n.path == h.path && n.indices == h.indices && n.kind == h.kind
            && n.handle == h.handle && n.wild == h.wildchild
  {
    PlacedPart(s, pos, cur);
    AroundHolds(s, pos, cur);
    ObjsAllocated(s);
    AbsFields(cur);
  }

  /** The walk stands at `cur`, with `path` left: inserting it there is all that remains to reach `target`. */
  ghost predicate Walk(s: Shape, pos: seq<nat>, cur: Shape, path: string, q: seq<Param>, c: Controller, target: Outcome)
    reads Objs(s), Objs(cur)
  {
    && Sound(s) && Placed(s, pos, cur) && At(Abs(s), pos)
    && Site(Abs(cur)) && path != "" && SegmentEnds(path) && Wilds(path) <= |q|
    && Abs(cur).path != "" && path[0] == Abs(cur).path[0]
    && target == PutOutcome(Abs(s), pos, RouteTree.Insert(Abs(cur), path, q, c))
  }

  lemma WalkStarts(s: Shape, path: string, q: seq<Param>, c: Controller)
    requires Sound(s) && Site(Abs(s)) && path != "" && SegmentEnds(path) && Wilds(path) <= |q|
    requires Abs(s).path != "" && path[0] == Abs(s).path[0]
    ensures Walk(s, [], s, path, q, c, RouteTree.Insert(Abs(s), path, q, c))
  {
    PutWhole(Abs(s), RouteTree.Insert(Abs(s), path, q, c).tree);
  }

  /** One round of the walk: how it can end, with `cur` split where `path` leaves it, and when it goes on. */
  lemma Round(s: Shape, pos: seq<nat>, cur: Shape, path: string, q: seq<Param>, c: Controller, target: Outcome)
    requires Walk(s, pos, cur, path, q, c, target)
    ensures Placed(s, pos, cur) && At(Abs(s), pos) && Abs(cur).path == cur.node.path
    ensures var n := Abs(cur);
            var i := CommonPrefix(path, n.path);
            var m := if i < |n.path| then SplitAt(n, i) else n;
            var rest := path[i..];
            && Site(m) && Wilds(rest) <= |q| && (i < |n.path| ==> m.handle == None)
            && (i == |path| ==>
                  target == if m.handle.Some? then Outcome(Abs(s), false, q)
                            else Outcome(Put(Abs(s), pos, m.(handle := Some(c))), true, q))
            && (i < |path| && Next(m, rest) == Clash ==> target == Outcome(Abs(s), false, q))
            && (i < |path| && Next(m, rest) == Here ==> target == PutOutcome(Abs(s), pos, Attach(m, rest, q, c)))
            && (i < |path| && i < |n.path| ==> Next(m, rest) == Here)
  {
    PlacedPart(s, pos, cur);
    AbsFields(cur);
    InsertVia(Abs(cur), path, q, c);
    SplitSite(Abs(cur), path);
    PutSame(Abs(s), pos, Abs(cur));
    var i := CommonPrefix(path, Abs(cur).path);
    hide Site, Plain, Wildcard, Next, Attach, Put, At, NodeAt, Placed, Wilds, SegmentEnds, RouteTree.Insert, Sound,
         Abs, CommonPrefix;
    if i == |path| {
      assert path[i..] == "";
    }
  }

  /** Moving the walk to a child. */
  lemma Descend(s: Shape, pos: seq<nat>, cur: Shape, path: string, q: seq<Param>, c: Controller, target: Outcome)
    requires Walk(s, pos, cur, path, q, c, target)
    requires |Abs(cur).path| == CommonPrefix(path, Abs(cur).path) < |path|
             && Next(Abs(cur), path[|Abs(cur).path|..]).Down?
    ensures var rest := path[|Abs(cur).path|..];
            var k := Next(Abs(cur), rest).k;
            && |rest| < |path| && k < |cur.kids| == |cur.node.children| && cur.node.children[k] == cur.kids[k].node
            && Walk(s, pos + [k], cur.kids[k], rest, q, c, target)
  {
    PlacedPart(s, pos, cur);
    AbsFields(cur);
    EnteredSite(Abs(cur), path);
    InsertEnters(Abs(cur), path, q, c);
    PlacedStep(s, pos, cur, Next(Abs(cur), path[|Abs(cur).path|..]).k);
  }

  // The two ways the walk ends, at a place `cur` of `s` that may already be split into `u`.

  method FinishAttach(node: RawNode, path: string, parser: PathParser, ctrl: Controller,
                      ghost s: Shape, ghost pos: seq<nat>, ghost cur: Shape, ghost u: Shape, ghost before: Node)
      returns (ok: bool, ghost v: Shape)
    requires Disjoint(s) && Placed(s, pos, cur) && Around(s, pos, cur, before)
    requires Sound(u) && u.node == node == cur.node && node in Objs(cur)
    requires forall o :: o in Objs(u) ==> o in Objs(cur) || o !in Objs(s)
    requires path != "" && Wilds(path) <= |parser.params|
    modifies node, parser`params
    ensures Sound(v) && v.node == s.node && (forall o :: o in Objs(v) ==> o in Objs(s) || o in Objs(u) || fresh(o))
    ensures At(before, pos)
    ensures Outcome(Abs(v), ok, parser.params)
            == PutOutcome(before, pos, Attach(old(Abs(u)), path, old(parser.params), ctrl))
  {
    hide Sound, Linked, Disjoint, Abs, AbsAll, Objs, ObjsAll, Around, PutShape, At, Put, Placed, Attach;
    ObjsAllocated(s);
    ghost var w;
    ok, w := AttachTo(node, path, parser, ctrl, u);
    Close(s, pos, cur, w, before);
    v := PutShape(s, pos, cur, w);
  }

  method FinishHandle(node: RawNode, ctrl: Controller,
                      ghost s: Shape, ghost pos: seq<nat>, ghost cur: Shape, ghost u: Shape, ghost before: Node)
      returns (ghost v: Shape)
    requires Disjoint(s) && Placed(s, pos, cur) && Around(s, pos, cur, before)
    requires Sound(u) && u.node == node == cur.node && node in Objs(cur)
    requires forall o :: o in Objs(u) ==> o in Objs(cur) || o !in Objs(s)
    modifies node
    ensures Sound(v) && v.node == s.node && (forall o :: o in Objs(v) ==> o in Objs(s) || o in Objs(u))
    ensures At(before, pos) && Abs(v) == Put(before, pos, old(Abs(u)).(handle := Some(ctrl)))
  {
    hide Sound, Linked, Disjoint, Abs, AbsAll, Objs, ObjsAll, Around, PutShape, At, Put, Placed;
    ObjsAllocated(s);
    SetHandle(node, ctrl, u);
    Close(s, pos, cur, u, before);
    v := PutShape(s, pos, cur, u);
  }

  /** `RawTree::insert` below a root that already holds routes. */
  method InsertLoop(start: RawNode, path0: string, parser: PathParser, ctrl: Controller, ghost s: Shape)
      returns (ok: bool, ghost v: Shape)
    requires Sound(s) && s.node == start && Wilds(path0) <= |parser.params|
    requires Site(Abs(s)) && Abs(s).path != "" && path0 != "" && path0[0] == Abs(s).path[0] && SegmentEnds(path0)
    modifies Objs(s), parser`params
    ensures Sound(v) && v.node == start && (forall o :: o in Objs(v) ==> o in Objs(s) || fresh(o))
    ensures Outcome(Abs(v), ok, parser.params) == RouteTree.Insert(old(Abs(s)), path0, old(parser.params), ctrl)
  {
    hide Sound, Linked, Disjoint, Abs, AbsAll, Objs, ObjsAll, Around, PutShape, At, Put, NodeAt, RouteTree.Insert,
         Plain, Wildcard, Placed, Site, Head, Attach, Wilds, SegmentEnds, CommonPrefix, IndexOf, SplitAt, Next, Walk;
    var node, path := start, path0;
    ghost var pos: seq<nat>, cur := [], s;
    ghost var q, before := parser.params, Abs(s);
    ghost var target := RouteTree.Insert(before, path, q, ctrl);
    WalkStarts(s, path, q, ctrl);
    while true
      invariant Sound(s) && Abs(s) == before == old(Abs(s)) && parser.params == q
      invariant Placed(s, pos, cur) && node == cur.node
      invariant Walk(s, pos, cur, path, q, ctrl, target)
      decreases |path|
    {
      Ready(s, pos, cur);
      Round(s, pos, cur, path, q, ctrl, target);
      ghost var n := Abs(cur);
      var i := FindLongestCommonPrefix(path, node.path);
      ghost var u := cur;
      if i < |node.path| {
        u := SplitNode(node, i, cur);
      }
      ObjsAllocated(u);
      AbsFields(u);
      if i < |path| {
        ghost var whole := path;
        path := path[i..];
        NextInCode(u, path);
        if node.wildchild {
          var w := node.children[0];
          if w.path <= path && w.kind != CATCH_ALL && (|w.path| >= |path| || path[|w.path|] == '/') {
            Descend(s, pos, cur, whole, q, ctrl, target);
            node, pos, cur := w, pos + [0], cur.kids[0];
            continue;
          }
          return false, s;
        }
        var ch := path[0];
        if node.kind == PARAM && ch == '/' && |node.children| == 1 {
          Descend(s, pos, cur, whole, q, ctrl, target);
          node, pos, cur := node.children[0], pos + [0], cur.kids[0];
          continue;
        }
        var next := node.FindIndice(ch);
        if next.Some? {
          Descend(s, pos, cur, whole, q, ctrl, target);
          node, pos, cur := node.children[next.value], pos + [next.value], cur.kids[next.value];
          continue;
        }
        ok, v := FinishAttach(node, path, parser, ctrl, s, pos, cur, u, before);
        return;
      }
      if node.handle.Some? {
        return false, s;
      }
      v := FinishHandle(node, ctrl, s, pos, cur, u, before);
      return true, v;
    }
  }

  lemma SplitSite(n: Node, path: string)
    requires Site(n) && path != "" && n.path != "" && path[0] == n.path[0]
    ensures var i := CommonPrefix(path, n.path); i < |n.path| ==> Site(SplitAt(n, i))
  {
    var i := CommonPrefix(path, n.path);
    CommonPrefixAtLeast(path, n.path, 1);
    if i < |n.path| {
      Splitting(n, i, []);
    }
  }

  /** The tests of the loop body, on the fields of the node, decide `Next`. */
  lemma NextInCode(s: Shape, path: string)
    requires Sound(s) && Site(Abs(s)) && path != ""
    ensures var h := s.node;
            if h.wildchild then
              |h.children| > 0 && var w := h.children[0];
              Next(Abs(s), path) ==
              if w.path <= path && w.kind != CATCH_ALL && (|w.path| >= |path| || path[|w.path|] == '/')
              then Down(0) else Clash
            else if h.kind == PARAM && path[0] == '/' && |h.children| == 1 then Next(Abs(s), path) == Down(0)
            else
              match IndexOf(h.indices, path[0])
              case Some(k) => k < |h.children| && Next(Abs(s), path) == Down(k)
              case None => Next(Abs(s), path) == Here
  {
    AbsFields(s);
    if s.kids != [] {
      AbsFields(s.kids[0]);
    }
  }

  lemma PlacedWhole(s: Shape)
    ensures Placed(s, [], s)
  {
  }

  lemma PutWhole(n: Node, m: Node)
    ensures At(n, []) && Put(n, [], m) == m
  {
  }

  /** Which of the two insertions the root takes, and what is needed to take it. */
  lemma AtRoot(s: Shape, path: string, q: seq<Param>, c: Controller)
    requires Sound(s) && RouteTree.Valid(Abs(s)) && path != "" && path[0] == '/' && SegmentEnds(path)
             && Wilds(path) <= |q|
    ensures s.node in Objs(s) && RouteTree.Valid(InsertRoot(Abs(s), path, q, c).tree)
    ensures if s.node.path == "" && s.node.indices == "" then
              InsertRoot(Abs(s), path, q, c) == RouteTree.InsertChild(Abs(s), path, q, c).(ok := true)
            else
              && Site(Abs(s)) && Abs(s).path != "" && path[0] == Abs(s).path[0]
              && InsertRoot(Abs(s), path, q, c) == RouteTree.Insert(Abs(s), path, q, c)
  {
    hide Sound, Linked, Disjoint, Abs, AbsAll, Objs, ObjsAll, RouteTree.InsertChild, RouteTree.Insert, Wilds;
    RootEffect(Abs(s), path, q, c, []);
    AbsFields(s);
  }

  // ---------------------------------------------------------------- building the immutable tree

  /** `RawNode::buildChild`: copies the tree and moves the handles and regular expressions out of it. */
  method BuildChild(node: RawNode, ghost s: Shape) returns (n: Node)
    requires Sound(s) && s.node == node
    modifies Objs(s)
    ensures n == old(Abs(s))
    ensures Linked(s)
    decreases s
  {
    hide Sound, Abs, AbsAll, Objs, ObjsAll, Disjoint;
    var kids := [];
    ghost var was := Abs(s);
    AbsIs(s);
    KidsDisjoint(s);
    ObjsAllocated(s);
    for k := 0 to |node.children|
      invariant node.children == seq(|s.kids|, j requires 0 <= j < |s.kids| => s.kids[j].node)
      invariant
        was == Node(node.path, node.indices, was.children, node.handle, node.kind, node.re, node.name, node.wildchild)
      invariant kids == was.children[..k]
      invariant forall j :: k <= j < |s.kids| ==> Abs(s.kids[j]) == was.children[j] && Sound(s.kids[j])
      invariant forall j :: 0 <= j < |s.kids| ==> Linked(s.kids[j])
    {
      var kid := BuildChild(node.children[k], s.kids[k]);
      kids := kids + [kid];
    }
    n := Node(node.path, node.indices, kids, node.handle, node.kind, node.re, node.name, node.wildchild);
    node.handle, node.re := None, None;
  }

  lemma AbsIs(s: Shape)
    requires Sound(s)
    ensures var h := s.node;
            Abs(s) == Node(h.path, h.indices, Abs(s).children, h.handle, h.kind, h.re, h.name, h.wildchild)
    ensures Abs(s).children == AbsAll(s.kids)
    ensures |Abs(s).children| == |s.kids| && forall j :: 0 <= j < |s.kids| ==> Abs(s.kids[j]) == Abs(s).children[j]
    ensures s.node.children == seq(|s.kids|, j requires 0 <= j < |s.kids| => s.kids[j].node)
    ensures s.node in Objs(s)
  {
  }

  lemma KidsDisjoint(s: Shape)
    requires Sound(s)
    ensures forall j :: 0 <= j < |s.kids| ==>
              s.node !in Objs(s.kids[j]) && Objs(s.kids[j]) <= Objs(s) && Sound(s.kids[j])
    ensures forall j :: 0 <= j < |s.kids| ==> Linked(s.kids[j])
    ensures forall i, j :: 0 <= i < j < |s.kids| ==> Objs(s.kids[i]) !! Objs(s.kids[j])
  {
  }

  // ---------------------------------------------------------------- the tree object

  class RawTree {
    const root: RawNode
    ghost var shape: Shape

    /** The nodes belong to this tree. */
    ghost function Nodes(): set<RawNode>
      reads this
    {
      Objs(shape)
    }

    ghost predicate Valid()
      reads this, Nodes()
    {
      shape.node == root && Sound(shape) && RouteTree.Valid(Abs(shape))
    }

    ghost function Value(): Node
      reads this, Nodes()
    {
      Abs(shape)
    }

    constructor ()
      ensures Valid() && Value() == FreshRoot() && fresh(Nodes())
    {
      var node := new RawNode();
      root, shape := node, Shape(node, []);
      LeafSound(Shape(node, []));
    }

    /** `RawTree::insert` on the root. */
    method Insert(path: string, parser: PathParser, ctrl: Controller) returns (ok: bool)
      requires Valid() && path != "" && path[0] == '/' && SegmentEnds(path) && Wilds(path) <= |parser.params|
      modifies this`shape, Nodes(), parser`params
      ensures Valid() && (forall o :: o in Nodes() ==> o in old(Nodes()) || fresh(o))
      ensures Outcome(Value(), ok, parser.params) == InsertRoot(old(Value()), path, old(parser.params), ctrl)
    {
      hide Sound, Linked, Disjoint, Abs, AbsAll, Objs, ObjsAll, RouteTree.InsertChild, RouteTree.Insert, InsertRoot,
           RouteTree.Valid, Plain, Wildcard, Site, SegmentEnds, Wilds;
      AtRoot(shape, path, parser.params, ctrl);
      ObjsAllocated(shape);
      if root.path == "" && root.indices == "" {
        ghost var v;
        ok, v := InsertChildAt(root, path, parser, ctrl, shape);
        shape := v;
        return true;
      }
      ghost var v;
      ok, v := InsertLoop(root, path, parser, ctrl, shape);
      shape := v;
    }

    /** `RawTree::addRoute`. `leftover` is the queue that the code's own assertion expects to be empty. */
    method AddRoute(path: string, ctrl: Controller, compiles: Compiler) returns (ok: bool, leftover: seq<Param>)
      requires Valid()
      modifies this`shape, Nodes()
      ensures Valid() && (forall o :: o in Nodes() ==> o in old(Nodes()) || fresh(o))
      ensures Outcome(Value(), ok, leftover) == RouteMap.AddRoute(old(Value()), Entry(path, ctrl), compiles)
    {
      hide Parse, InsertRoot, Abs, Objs, Linked, Disjoint, Sound, RouteTree.Valid, Wilds;
      ObjsAllocated(shape);
      var parser := new PathParser();
      ok := parser.ParsePathSegment(path, compiles);
      if !ok {
        return false, [];
      }
      assert parser.params == Parse(path, compiles).value.params;
      ParsedShape(path, compiles);
      ok := Insert(parser.calced, parser, ctrl);
      leftover := parser.params;
    }

    method Build() returns (n: Node)
      requires Valid()
      modifies Nodes()
      ensures n == old(Value()) && root in Nodes()
    {
      n := BuildChild(root, shape);
    }
  }
}
