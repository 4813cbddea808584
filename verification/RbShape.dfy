/** The pure side of the red-black tree: coloured shapes, the path from a focus up to the root,
    and the relation between a shape and a snapshot of the heap. */
module RbShape {

  type u64 = k: int | 0 <= k < 0x1_0000_0000_0000_0000

  datatype Color = Black | Red

  /** An intrusive tree node.  Null links mean "in no tree". */
  class Node {
    var key: u64
    var left: Node?
    var right: Node?
    var parent: Node?
    var color: Color

    constructor (key: u64)
      ensures this.key == key && left == null && right == null && parent == null
    {
      this.key, left, right, parent, color := key, null, null, null, Black;
    }
  }

  /** The links and colour of one node, and a snapshot of the nodes of one tree. */
  datatype Cell = Cell(left: Node?, right: Node?, parent: Node?, color: Color)

  type Cells = map<Node, Cell>

  datatype Shape = Leaf | Fork(color: Color, left: Shape, node: Node, right: Shape)

  /** What surrounds a focused subtree: the way up, with the sibling subtrees passed by. */
  datatype Path =
    | Top
    | LeftOf(up: Path, color: Color, node: Node, right: Shape)
    | RightOf(up: Path, color: Color, left: Shape, node: Node)

  // ---------- in-order sequences ----------

  ghost function InOrder(t: Shape): seq<Node> {
    match t
    case Leaf => []
    case Fork(_, l, x, r) => InOrder(l) + [x] + InOrder(r)
  }

  ghost function Before(path: Path): seq<Node> {
    match path
    case Top => []
    case LeftOf(up, _, _, _) => Before(up)
    case RightOf(up, _, l, x) => Before(up) + InOrder(l) + [x]
  }

  ghost function After(path: Path): seq<Node> {
    match path
    case Top => []
    case LeftOf(up, _, x, r) => [x] + InOrder(r) + After(up)
    case RightOf(up, _, _, _) => After(up)
  }

  lemma OpenOrder(t: Shape)
    ensures t.Leaf? ==> InOrder(t) == []
    ensures t.Fork? ==> InOrder(t) == InOrder(t.left) + [t.node] + InOrder(t.right) && t.node in InOrder(t)
  {
  }

  ghost function Plug(path: Path, t: Shape): Shape {
    match path
    case Top => t
    case LeftOf(up, c, x, r) => Plug(up, Fork(c, t, x, r))
    case RightOf(up, c, l, x) => Plug(up, Fork(c, l, x, t))
  }

  lemma Associate<T>(a: seq<T>, b: seq<T>, c: seq<T>)
    ensures a + (b + c) == a + b + c
  {
  }

  lemma Reassociate<T>(a: seq<T>, b: seq<T>, c: seq<T>, d: seq<T>, e: seq<T>)
    ensures a + (b + c + d) + e == a + b + (c + d + e) == a + b + c + d + e
  {
  }

  lemma {:induction false} PlugOrder(path: Path, t: Shape)
    ensures InOrder(Plug(path, t)) == Before(path) + InOrder(t) + After(path)
    decreases path
  {
    match path
    case Top =>
    case LeftOf(up, c, x, r) =>
      PlugOrder(up, Fork(c, t, x, r));
      Reassociate(Before(up), InOrder(t), [x], InOrder(r), After(up));
    case RightOf(up, c, l, x) =>
      PlugOrder(up, Fork(c, l, x, t));
      Reassociate(Before(up), InOrder(l), [x], InOrder(t), After(up));
  }

  lemma PlugSameOrder(path: Path, t: Shape, t': Shape)
    requires InOrder(t) == InOrder(t')
    ensures InOrder(Plug(path, t)) == InOrder(Plug(path, t'))
  {
    PlugOrder(path, t);
    PlugOrder(path, t');
  }

  // ---------- node sets and separation ----------

  ghost function Nodes(t: Shape): set<Node> {
    match t
    case Leaf => {}
    case Fork(_, l, x, r) => Nodes(l) + {x} + Nodes(r)
  }

  ghost function Around(path: Path): set<Node> {
    match path
    case Top => {}
    case LeftOf(up, _, x, r) => Around(up) + {x} + Nodes(r)
    case RightOf(up, _, l, x) => Around(up) + {x} + Nodes(l)
  }

  /** No node occurs twice in the shape. */
  ghost predicate Sep(t: Shape) {
    match t
    case Leaf => true
    case Fork(_, l, x, r) => Sep(l) && Sep(r) && Nodes(l) !! Nodes(r) && x !in Nodes(l) && x !in Nodes(r)
  }

  ghost predicate SepPath(path: Path) {
    match path
    case Top => true
    case LeftOf(up, _, x, s) => SepPath(up) && Sep(s) && Nodes(s) !! Around(up) && x !in Nodes(s) && x !in Around(up)
    case RightOf(up, _, s, x) => SepPath(up) && Sep(s) && Nodes(s) !! Around(up) && x !in Nodes(s) && x !in Around(up)
  }

  // ---------- shapes in the heap ----------

  /** The pointer at which a shape hangs. */
  ghost function Ptr(nil: Node, t: Shape): Node {
    if t.Leaf? then nil else t.node
  }

  /** The links below the shape's root are as the shape says, and the root hangs below `p`. */
  ghost predicate IsTree(cs: Cells, nil: Node, t: Shape, p: Node) {
    match t
    case Leaf => true
    case Fork(c, l, x, r) =>
      x != nil && x in cs && cs[x] == Cell(Ptr(nil, l), Ptr(nil, r), p, c) &&
      IsTree(cs, nil, l, x) && IsTree(cs, nil, r, x)
  }

  ghost function Above(path: Path, b: Node): Node {
    if path.Top? then b else path.node
  }

  ghost function TopPtr(path: Path, n: Node): Node {
    if path.Top? then n else TopPtr(path.up, path.node)
  }

  /** `path` surrounds a hole at pointer `n`; the topmost node of the path hangs below `b`. */
  ghost predicate IsPath(cs: Cells, nil: Node, path: Path, n: Node, b: Node) {
    match path
    case Top => true
    case LeftOf(up, c, x, r) =>
      x != nil && x in cs && cs[x] == Cell(n, Ptr(nil, r), Above(up, b), c) &&
      IsTree(cs, nil, r, x) && IsPath(cs, nil, up, x, b)
    case RightOf(up, c, l, x) =>
      x != nil && x in cs && cs[x] == Cell(Ptr(nil, l), n, Above(up, b), c) &&
      IsTree(cs, nil, l, x) && IsPath(cs, nil, up, x, b)
  }

  /** The whole tree below the pointer `root`, seen from the subtree `t`. */
  ghost predicate Zip(cs: Cells, nil: Node, root: Node, path: Path, t: Shape) {
    && nil in cs && nil !in Around(path) && nil !in Nodes(t)
    && Sep(t) && SepPath(path) && Nodes(t) !! Around(path)
    && IsTree(cs, nil, t, Above(path, nil))
    && IsPath(cs, nil, path, Ptr(nil, t), nil)
    && TopPtr(path, Ptr(nil, t)) == root
  }

  ghost predicate AgreeOn(cs: Cells, cs': Cells, s: set<Node>) {
    forall x :: x in s && x in cs ==> x in cs' && cs'[x] == cs[x]
  }

  lemma {:induction false} FrameTree(cs: Cells, cs': Cells, nil: Node, t: Shape, p: Node)
    requires IsTree(cs, nil, t, p) && AgreeOn(cs, cs', Nodes(t))
    ensures IsTree(cs', nil, t, p)
  {
    match t
    case Leaf =>
    case Fork(c, l, x, r) =>
      FrameTree(cs, cs', nil, l, x);
      FrameTree(cs, cs', nil, r, x);
  }

  lemma {:induction false} FramePath(cs: Cells, cs': Cells, nil: Node, path: Path, n: Node, b: Node)
    requires IsPath(cs, nil, path, n, b) && AgreeOn(cs, cs', Around(path))
    ensures IsPath(cs', nil, path, n, b)
  {
    match path
    case Top =>
    case LeftOf(up, c, x, s) =>
      FrameTree(cs, cs', nil, s, x);
      FramePath(cs, cs', nil, up, x, b);
    case RightOf(up, c, s, x) =>
      FrameTree(cs, cs', nil, s, x);
      FramePath(cs, cs', nil, up, x, b);
  }

  /** The cell of a node of the path once `n` hangs in the hole. */
  ghost function RelinkedCell(cs: Cells, path: Path, n: Node, z: Node): Cell
    requires z in cs
  {
    match path
    case LeftOf(_, _, x, _) => if z == x then cs[x].(left := n) else cs[z]
    case RightOf(_, _, _, x) => if z == x then cs[x].(right := n) else cs[z]
    case Top => cs[z]
  }

  ghost predicate Relinked(cs: Cells, cs': Cells, path: Path, n: Node) {
    forall z :: z in Around(path) && z in cs ==> z in cs' && cs'[z] == RelinkedCell(cs, path, n, z)
  }

  lemma RelinkPath(cs: Cells, cs': Cells, nil: Node, path: Path, n: Node, n': Node, b: Node)
    requires SepPath(path) && IsPath(cs, nil, path, n, b) && Relinked(cs, cs', path, n')
    ensures IsPath(cs', nil, path, n', b)
  {
    match path
    case Top =>
    case LeftOf(up, c, x, s) =>
      FrameTree(cs, cs', nil, s, x);
      FramePath(cs, cs', nil, up, x, b);
    case RightOf(up, c, s, x) =>
      FrameTree(cs, cs', nil, s, x);
      FramePath(cs, cs', nil, up, x, b);
  }

  /** A new parent for the subtree's root. */
  lemma ReparentTree(cs: Cells, cs': Cells, nil: Node, t: Shape, p: Node, p': Node)
    requires Sep(t) && IsTree(cs, nil, t, p)
    requires forall z :: z in Nodes(t) && z in cs ==>
        z in cs' && cs'[z] == (if z == Ptr(nil, t) then cs[z].(parent := p') else cs[z])
    ensures IsTree(cs', nil, t, p')
  {
    if t.Fork? {
      FrameTree(cs, cs', nil, t.left, t.node);
      FrameTree(cs, cs', nil, t.right, t.node);
    }
  }

  /** The root pointer is the hole only when the path is empty. */
  lemma {:induction false} TopIsAround(path: Path, n: Node)
    ensures path.Top? ==> TopPtr(path, n) == n
    ensures !path.Top? ==> TopPtr(path, n) in Around(path)
  {
    if !path.Top? {
      TopIsAround(path.up, path.node);
    }
  }

  // ---------- moving the focus ----------

  ghost function Parent(path: Path, t: Shape): Shape
    requires !path.Top?
  {
    if path.LeftOf? then Fork(path.color, t, path.node, path.right) else Fork(path.color, path.left, path.node, t)
  }

  lemma ZipUp(cs: Cells, nil: Node, root: Node, path: Path, t: Shape)
    requires Zip(cs, nil, root, path, t) && !path.Top?
    ensures Zip(cs, nil, root, path.up, Parent(path, t))
  {
  }

  lemma ZipDown(cs: Cells, nil: Node, root: Node, path: Path, t: Shape)
    requires Zip(cs, nil, root, path, t) && t.Fork?
    ensures Zip(cs, nil, root, LeftOf(path, t.color, t.node, t.right), t.left)
    ensures Zip(cs, nil, root, RightOf(path, t.color, t.left, t.node), t.right)
  {
  }

  /** One link down: the focus moves from a fork to its left or its right subtree. */
  lemma StepDown(cs: Cells, nil: Node, root: Node, path: Path, t: Shape)
    requires Zip(cs, nil, root, path, t) && t.Fork?
    ensures var l, r := LeftOf(path, t.color, t.node, t.right), RightOf(path, t.color, t.left, t.node);
            && Zip(cs, nil, root, l, t.left) && Zip(cs, nil, root, r, t.right)
            && Plug(l, t.left) == Plug(path, t) == Plug(r, t.right)
            && Above(l, nil) == t.node == Above(r, nil)
            && InOrder(t) == InOrder(t.left) + [t.node] + InOrder(t.right)
            && Before(l) == Before(path) && After(l) == [t.node] + InOrder(t.right) + After(path)
            && Before(r) == Before(path) + InOrder(t.left) + [t.node] && After(r) == After(path)
  {
    ZipDown(cs, nil, root, path, t);
    hide Zip;
  }

  // ---------- rotations ----------

  ghost function RotateLeft(t: Shape): Shape {
    match t
    case Fork(cx, a, x, Fork(cy, b, y, c)) => Fork(cy, Fork(cx, a, x, b), y, c)
    case _ => t
  }

  ghost function RotateRight(t: Shape): Shape {
    match t
    case Fork(cx, Fork(cy, a, y, b), x, c) => Fork(cy, a, y, Fork(cx, b, x, c))
    case _ => t
  }

  datatype Side = L | R

  /** `x`, its child `y`, the inner grandchild `b` and the parent `p` can be turned around each other. */
  ghost predicate Rotatable(cs: Cells, nil: Node, root: Node, x: Node, y: Node?, b: Node?, p: Node?) {
    && nil in cs && x in cs && y in cs && b in cs && p in cs
    && x != nil && y != nil && x != y && b != x && b != y && p != x && p != y
    && (b == nil || b != p) && (p == nil <==> x == root)
  }

  /** The cell of `z` once the child `y` of `x` has taken its place, `x` has become the
      `side` child of `y`, and the inner grandchild `b` has moved from `y` to `x`. */
  ghost function RotatedCell(cs: Cells, nil: Node, x: Node, y: Node, b: Node, p: Node, side: Side, z: Node): Cell
    requires {x, y, b, p, z} <= cs.Keys
  {
    if z == x then (if side.L? then cs[x].(right := b, parent := y) else cs[x].(left := b, parent := y))
    else if z == y then (if side.L? then cs[y].(left := x, parent := p) else cs[y].(right := x, parent := p))
    else if z == nil then cs[z]
    else if z == b then cs[b].(parent := x)
    else if z == p then (if cs[p].left == x then cs[p].(left := y) else cs[p].(right := y))
    else cs[z]
  }

  ghost predicate IsRotated(cs: Cells, cs': Cells, nil: Node, x: Node, y: Node, b: Node, p: Node, side: Side)
    requires {x, y, b, p} <= cs.Keys
  {
    cs'.Keys == cs.Keys && forall z :: z in cs ==> cs'[z] == RotatedCell(cs, nil, x, y, b, p, side, z)
  }

  lemma CanRotateLeft(cs: Cells, nil: Node, root: Node, path: Path, t: Shape)
    requires Zip(cs, nil, root, path, t) && t.Fork? && t.right.Fork?
    ensures Rotatable(cs, nil, root, t.node, t.right.node, Ptr(nil, t.right.left), Above(path, nil))
    ensures cs[t.node].parent == Above(path, nil)
    ensures cs[t.node].right == t.right.node && cs[t.right.node].left == Ptr(nil, t.right.left)
  {
    assert Sep(t.right) && IsTree(cs, nil, t.right, t.node);
    assert IsTree(cs, nil, t.right.left, t.right.node);
    TopIsAround(path, t.node);
  }

  lemma CanRotateRight(cs: Cells, nil: Node, root: Node, path: Path, t: Shape)
    requires Zip(cs, nil, root, path, t) && t.Fork? && t.left.Fork?
    ensures Rotatable(cs, nil, root, t.node, t.left.node, Ptr(nil, t.left.right), Above(path, nil))
    ensures cs[t.node].parent == Above(path, nil)
    ensures cs[t.node].left == t.left.node && cs[t.left.node].right == Ptr(nil, t.left.right)
  {
    assert Sep(t.left) && IsTree(cs, nil, t.left, t.node);
    assert IsTree(cs, nil, t.left.right, t.left.node);
    TopIsAround(path, t.node);
  }

  lemma LeftOuter(cs: Cells, cs': Cells, nil: Node, root: Node, path: Path, t: Shape)
    requires Zip(cs, nil, root, path, t) && t.Fork? && t.right.Fork?
    requires Rotatable(cs, nil, root, t.node, t.right.node, Ptr(nil, t.right.left), Above(path, nil))
    requires IsRotated(cs, cs', nil, t.node, t.right.node, Ptr(nil, t.right.left), Above(path, nil), L)
    ensures IsTree(cs', nil, t.left, t.node) && IsTree(cs', nil, t.right.right, t.right.node)
  {
    assert Sep(t.right) && IsTree(cs, nil, t.right, t.node);
    FrameTree(cs, cs', nil, t.left, t.node);
    FrameTree(cs, cs', nil, t.right.right, t.right.node);
  }

  lemma LeftMoved(cs: Cells, cs': Cells, nil: Node, root: Node, path: Path, t: Shape)
    requires Zip(cs, nil, root, path, t) && t.Fork? && t.right.Fork?
    requires Rotatable(cs, nil, root, t.node, t.right.node, Ptr(nil, t.right.left), Above(path, nil))
    requires IsRotated(cs, cs', nil, t.node, t.right.node, Ptr(nil, t.right.left), Above(path, nil), L)
    ensures IsTree(cs', nil, t.right.left, t.node)
  {
    assert Sep(t.right) && IsTree(cs, nil, t.right, t.node);
    ReparentTree(cs, cs', nil, t.right.left, t.right.node, t.node);
  }

  lemma LeftPath(cs: Cells, cs': Cells, nil: Node, root: Node, path: Path, t: Shape)
    requires Zip(cs, nil, root, path, t) && t.Fork? && t.right.Fork?
    requires Rotatable(cs, nil, root, t.node, t.right.node, Ptr(nil, t.right.left), Above(path, nil))
    requires IsRotated(cs, cs', nil, t.node, t.right.node, Ptr(nil, t.right.left), Above(path, nil), L)
    ensures IsPath(cs', nil, path, t.right.node, nil)
  {
    assert t.right.left.Fork? ==> t.right.left.node in Nodes(t.right);
    assert Nodes(t.right) <= Nodes(t);
    RelinkPath(cs, cs', nil, path, t.node, t.right.node, nil);
  }

  lemma LeftFrames(cs: Cells, cs': Cells, nil: Node, root: Node, path: Path, t: Shape)
    requires Zip(cs, nil, root, path, t) && t.Fork? && t.right.Fork?
    requires Rotatable(cs, nil, root, t.node, t.right.node, Ptr(nil, t.right.left), Above(path, nil))
    requires IsRotated(cs, cs', nil, t.node, t.right.node, Ptr(nil, t.right.left), Above(path, nil), L)
    ensures IsTree(cs', nil, t.left, t.node) && IsTree(cs', nil, t.right.right, t.right.node)
    ensures IsTree(cs', nil, t.right.left, t.node) && IsPath(cs', nil, path, t.right.node, nil)
  {
    hide Zip, Rotatable, IsRotated, IsTree, IsPath;
    LeftOuter(cs, cs', nil, root, path, t);
    LeftMoved(cs, cs', nil, root, path, t);
    LeftPath(cs, cs', nil, root, path, t);
  }

  lemma RotatedLeft(cs: Cells, cs': Cells, nil: Node, root: Node, root': Node, path: Path, t: Shape)
    requires Zip(cs, nil, root, path, t) && t.Fork? && t.right.Fork?
    requires Rotatable(cs, nil, root, t.node, t.right.node, Ptr(nil, t.right.left), Above(path, nil))
    requires IsRotated(cs, cs', nil, t.node, t.right.node, Ptr(nil, t.right.left), Above(path, nil), L)
    requires root' == (if root == t.node then t.right.node else root)
    ensures Zip(cs', nil, root', path, RotateLeft(t))
  {
    assert Sep(t.right) && IsTree(cs, nil, t.right, t.node);
    RotateLeftSep(t);
    LeftFrames(cs, cs', nil, root, path, t);
    TopIsAround(path, t.node);
  }

  lemma RightOuter(cs: Cells, cs': Cells, nil: Node, root: Node, path: Path, t: Shape)
    requires Zip(cs, nil, root, path, t) && t.Fork? && t.left.Fork?
    requires Rotatable(cs, nil, root, t.node, t.left.node, Ptr(nil, t.left.right), Above(path, nil))
    requires IsRotated(cs, cs', nil, t.node, t.left.node, Ptr(nil, t.left.right), Above(path, nil), R)
    ensures IsTree(cs', nil, t.left.left, t.left.node) && IsTree(cs', nil, t.right, t.node)
  {
    assert Sep(t.left) && IsTree(cs, nil, t.left, t.node);
    FrameTree(cs, cs', nil, t.left.left, t.left.node);
    FrameTree(cs, cs', nil, t.right, t.node);
  }

  lemma RightMoved(cs: Cells, cs': Cells, nil: Node, root: Node, path: Path, t: Shape)
    requires Zip(cs, nil, root, path, t) && t.Fork? && t.left.Fork?
    requires Rotatable(cs, nil, root, t.node, t.left.node, Ptr(nil, t.left.right), Above(path, nil))
    requires IsRotated(cs, cs', nil, t.node, t.left.node, Ptr(nil, t.left.right), Above(path, nil), R)
    ensures IsTree(cs', nil, t.left.right, t.node)
  {
    assert Sep(t.left) && IsTree(cs, nil, t.left, t.node);
    ReparentTree(cs, cs', nil, t.left.right, t.left.node, t.node);
  }

  lemma RightPath(cs: Cells, cs': Cells, nil: Node, root: Node, path: Path, t: Shape)
    requires Zip(cs, nil, root, path, t) && t.Fork? && t.left.Fork?
    requires Rotatable(cs, nil, root, t.node, t.left.node, Ptr(nil, t.left.right), Above(path, nil))
    requires IsRotated(cs, cs', nil, t.node, t.left.node, Ptr(nil, t.left.right), Above(path, nil), R)
    ensures IsPath(cs', nil, path, t.left.node, nil)
  {
    assert t.left.right.Fork? ==> t.left.right.node in Nodes(t.left);
    assert Nodes(t.left) <= Nodes(t);
    RelinkPath(cs, cs', nil, path, t.node, t.left.node, nil);
  }

  lemma RightFrames(cs: Cells, cs': Cells, nil: Node, root: Node, path: Path, t: Shape)
    requires Zip(cs, nil, root, path, t) && t.Fork? && t.left.Fork?
    requires Rotatable(cs, nil, root, t.node, t.left.node, Ptr(nil, t.left.right), Above(path, nil))
    requires IsRotated(cs, cs', nil, t.node, t.left.node, Ptr(nil, t.left.right), Above(path, nil), R)
    ensures IsTree(cs', nil, t.left.left, t.left.node) && IsTree(cs', nil, t.right, t.node)
    ensures IsTree(cs', nil, t.left.right, t.node) && IsPath(cs', nil, path, t.left.node, nil)
  {
    hide Zip, Rotatable, IsRotated, IsTree, IsPath;
    RightOuter(cs, cs', nil, root, path, t);
    RightMoved(cs, cs', nil, root, path, t);
    RightPath(cs, cs', nil, root, path, t);
  }

  lemma RotatedRight(cs: Cells, cs': Cells, nil: Node, root: Node, root': Node, path: Path, t: Shape)
    requires Zip(cs, nil, root, path, t) && t.Fork? && t.left.Fork?
    requires Rotatable(cs, nil, root, t.node, t.left.node, Ptr(nil, t.left.right), Above(path, nil))
    requires IsRotated(cs, cs', nil, t.node, t.left.node, Ptr(nil, t.left.right), Above(path, nil), R)
    requires root' == (if root == t.node then t.left.node else root)
    ensures Zip(cs', nil, root', path, RotateRight(t))
  {
    assert Sep(t.left) && IsTree(cs, nil, t.left, t.node);
    RotateRightSep(t);
    RightFrames(cs, cs', nil, root, path, t);
    TopIsAround(path, t.node);
  }

  lemma RotateLeftSep(t: Shape)
    requires Sep(t) && t.Fork? && Sep(t.right)
    ensures Sep(RotateLeft(t)) && Nodes(RotateLeft(t)) == Nodes(t)
  {
  }

  lemma RotateRightSep(t: Shape)
    requires Sep(t) && t.Fork? && Sep(t.left)
    ensures Sep(RotateRight(t)) && Nodes(RotateRight(t)) == Nodes(t)
  {
  }

  lemma RotateLeftOrder(t: Shape)
    ensures InOrder(RotateLeft(t)) == InOrder(t)
  {
    match t
    case Fork(_, a, x, Fork(_, b, y, c)) =>
      assert InOrder(a) + [x] + (InOrder(b) + [y] + InOrder(c)) == (InOrder(a) + [x] + InOrder(b)) + [y] + InOrder(c);
    case _ =>
  }

  lemma RotateRightOrder(t: Shape)
    ensures InOrder(RotateRight(t)) == InOrder(t)
  {
    match t
    case Fork(_, Fork(_, a, y, b), x, c) =>
      assert InOrder(a) + [y] + (InOrder(b) + [x] + InOrder(c)) == (InOrder(a) + [y] + InOrder(b)) + [x] + InOrder(c);
    case _ =>
  }

  // ---------- repainting ----------

  /** The shape with the colours of the snapshot. */
  ghost function Paint(cs: Cells, t: Shape): Shape {
    match t
    case Leaf => Leaf
    case Fork(c, l, x, r) => Fork(if x in cs then cs[x].color else c, Paint(cs, l), x, Paint(cs, r))
  }

  ghost predicate SameLinks(cs: Cells, cs': Cells, s: set<Node>) {
    forall x :: x in s && x in cs ==> x in cs' && cs'[x] == cs[x].(color := cs'[x].color)
  }

  lemma {:induction false} PaintTree(cs: Cells, cs': Cells, nil: Node, t: Shape, p: Node)
    requires Sep(t) && IsTree(cs, nil, t, p) && SameLinks(cs, cs', Nodes(t))
    ensures IsTree(cs', nil, Paint(cs', t), p)
    ensures Sep(Paint(cs', t)) && Nodes(Paint(cs', t)) == Nodes(t) && InOrder(Paint(cs', t)) == InOrder(t)
  {
    match t
    case Leaf =>
    case Fork(c, l, x, r) =>
      PaintTree(cs, cs', nil, l, x);
      PaintTree(cs, cs', nil, r, x);
  }

  lemma {:induction false} PaintFrame(cs: Cells, cs': Cells, nil: Node, t: Shape, p: Node)
    requires IsTree(cs, nil, t, p) && AgreeOn(cs, cs', Nodes(t))
    ensures Paint(cs', t) == t
  {
    match t
    case Leaf =>
    case Fork(c, l, x, r) =>
      PaintFrame(cs, cs', nil, l, x);
      PaintFrame(cs, cs', nil, r, x);
  }

  lemma PaintZip(cs: Cells, cs': Cells, nil: Node, root: Node, path: Path, t: Shape)
    requires Zip(cs, nil, root, path, t) && nil in cs'
    requires SameLinks(cs, cs', Nodes(t)) && AgreeOn(cs, cs', Around(path))
    ensures Zip(cs', nil, root, path, Paint(cs', t))
    ensures InOrder(Paint(cs', t)) == InOrder(t)
  {
    PaintTree(cs, cs', nil, t, Above(path, nil));
    FramePath(cs, cs', nil, path, Ptr(nil, t), nil);
  }

  /** Some cells have become black, some red, nothing else has changed. */
  ghost predicate Recolored(cs: Cells, cs': Cells, blacks: set<Node>, reds: set<Node>) {
    && cs'.Keys == cs.Keys
    && forall z :: z in cs ==>
         cs'[z] == cs[z].(color := if z in reds then Red else if z in blacks then Black else cs[z].color)
  }

  ghost function Dye(t: Shape, c: Color): Shape {
    if t.Leaf? then t else t.(color := c)
  }

  ghost function Sibling(path: Path): Shape
    requires !path.Top?
  {
    if path.LeftOf? then path.right else path.left
  }

  /** A subtree with none of the recoloured nodes keeps its colours. */
  lemma Unpainted(cs: Cells, cs': Cells, nil: Node, t: Shape, p: Node, blacks: set<Node>, reds: set<Node>)
    requires IsTree(cs, nil, t, p) && Recolored(cs, cs', blacks, reds) && Nodes(t) !! blacks + reds
    ensures Paint(cs', t) == t
  {
    PaintFrame(cs, cs', nil, t, p);
  }

  lemma Repainted(cs: Cells, cs': Cells, nil: Node, root: Node, path: Path, t: Shape, blacks: set<Node>,
        reds: set<Node>)
    requires Zip(cs, nil, root, path, t) && Recolored(cs, cs', blacks, reds)
    requires Around(path) !! blacks + reds
    ensures Zip(cs', nil, root, path, Paint(cs', t)) && InOrder(Paint(cs', t)) == InOrder(t)
    ensures Nodes(Paint(cs', t)) == Nodes(t)
  {
    PaintZip(cs, cs', nil, root, path, t);
    PaintTree(cs, cs', nil, t, Above(path, nil));
  }

  /** The links from the focus one step down. */
  lemma DownLinks(cs: Cells, nil: Node, root: Node, path: Path, t: Shape)
    requires Zip(cs, nil, root, path, t)
    ensures t.Fork? ==> t.node in cs && t.node != nil && cs[t.node].color == t.color
    ensures t.Fork? ==> cs[t.node].left == Ptr(nil, t.left) && cs[t.node].right == Ptr(nil, t.right)
    ensures t.Fork? ==> Ptr(nil, t.left) in cs && Ptr(nil, t.right) in cs
    ensures t.Fork? <==> Ptr(nil, t) != nil
  {
    if t.Fork? {
      assert IsTree(cs, nil, t.left, t.node) && IsTree(cs, nil, t.right, t.node);
    }
  }

  /** The links from the focus two steps up. */
  lemma UpLinks(cs: Cells, nil: Node, root: Node, path: Path, t: Shape)
    requires Zip(cs, nil, root, path, t) && t.Fork?
    ensures t.node in cs && cs[t.node].parent == Above(path, nil) && Above(path, nil) in cs
    ensures path.LeftOf? ==> cs[path.node].left == t.node && cs[path.node].right == Ptr(nil, path.right)
    ensures path.RightOf? ==> cs[path.node].right == t.node && cs[path.node].left == Ptr(nil, path.left)
    ensures path.RightOf? ==> cs[path.node].left != t.node
    ensures path.LeftOf? ==> cs[path.node].right != t.node
    ensures !path.Top? ==> cs[path.node].parent == Above(path.up, nil) && cs[path.node].color == path.color
    ensures !path.Top? && Sibling(path).Fork? ==>
        Sibling(path).node in cs && cs[Sibling(path).node].color == Sibling(path).color
  {
    if !path.Top? {
      assert IsTree(cs, nil, Sibling(path), path.node);
    }
  }

  // ---------- the whole tree ----------

  lemma {:induction false} ZipToTop(cs: Cells, nil: Node, root: Node, path: Path, t: Shape)
    requires Zip(cs, nil, root, path, t)
    ensures Zip(cs, nil, root, Top, Plug(path, t))
    ensures Nodes(Plug(path, t)) == Nodes(t) + Around(path)
    decreases path
  {
    if !path.Top? {
      ZipUp(cs, nil, root, path, t);
      ZipToTop(cs, nil, root, path.up, Parent(path, t));
      assert Plug(path, t) == Plug(path.up, Parent(path, t));
    }
  }

  /** Blackening the root of the whole tree. */
  lemma RootBlackened(cs: Cells, cs': Cells, nil: Node, root: Node, t: Shape)
    requires Zip(cs, nil, root, Top, t) && t.Fork? && Recolored(cs, cs', {root}, {})
    ensures Zip(cs', nil, root, Top, Dye(t, Black)) && InOrder(Dye(t, Black)) == InOrder(t)
  {
    Repainted(cs, cs', nil, root, Top, t, {root}, {});
    Unpainted(cs, cs', nil, t.left, t.node, {root}, {});
    Unpainted(cs, cs', nil, t.right, t.node, {root}, {});
  }

  lemma RootIs(cs: Cells, nil: Node, root: Node, t: Shape)
    requires Zip(cs, nil, root, Top, t)
    ensures root == Ptr(nil, t) && root in cs && nil in cs
    ensures t.Fork? ==> root != nil && cs[root].color == t.color
    ensures t.Leaf? ==> root == nil
    ensures Sep(t)
  {
  }

  ghost function Depth(path: Path): nat {
    if path.Top? then 0 else 1 + Depth(path.up)
  }

  ghost function Elements(s: seq<Node>): set<Node> {
    set z | z in s
  }

  lemma {:induction false} NodesAreOrder(t: Shape)
    ensures Nodes(t) == Elements(InOrder(t))
  {
    if t.Fork? {
      NodesAreOrder(t.left);
      NodesAreOrder(t.right);
    }
  }

  lemma {:induction false} PlugFork(path: Path, t: Shape)
    requires t.Fork?
    ensures Plug(path, t).Fork?
    decreases path
  {
    if !path.Top? {
      PlugFork(path.up, Parent(path, t));
      assert Plug(path, t) == Plug(path.up, Parent(path, t));
    }
  }

  lemma {:induction false} NodesInCells(cs: Cells, nil: Node, t: Shape, p: Node)
    requires IsTree(cs, nil, t, p)
    ensures Nodes(t) <= cs.Keys
  {
    if t.Fork? {
      NodesInCells(cs, nil, t.left, t.node);
      NodesInCells(cs, nil, t.right, t.node);
    }
  }

  /** A shape that has lost one element, and whose nodes avoid it. */
  lemma NodesShrink(cs: Cells, nil: Node, root: Node, t: Shape, t': Shape, a: seq<Node>, x: Node, b: seq<Node>)
    requires InOrder(t) == a + [x] + b && InOrder(t') == a + b && Zip(cs, nil, root, Top, t') && x !in cs
    ensures Nodes(t') == Nodes(t) - {x}
  {
    NodesGrow(t', t, a, x, b);
    NodesInCells(cs, nil, t', nil);
  }

  // ---------- sorted sequences ----------

  type Keys = map<Node, u64>

  /** Keys never decrease along the sequence. */
  ghost predicate Sorted(ks: Keys, s: seq<Node>) {
    forall i, j :: 0 <= i < j < |s| && s[i] in ks && s[j] in ks ==> ks[s[i]] <= ks[s[j]]
  }

  ghost predicate AllAtMost(ks: Keys, s: seq<Node>, k: u64) {
    forall z :: z in s && z in ks ==> ks[z] <= k
  }

  ghost predicate AllAbove(ks: Keys, s: seq<Node>, k: u64) {
    forall z :: z in s && z in ks ==> k < ks[z]
  }

  lemma NoKeys(ks: Keys, k: u64)
    ensures AllAtMost(ks, [], k) && AllAbove(ks, [], k)
  {
  }

  /** Descending past `x` decides the side of `x` and of one of its subtrees. */
  lemma SidesOf(ks: Keys, s: seq<Node>, a: seq<Node>, l: seq<Node>, x: Node, r: seq<Node>, b: seq<Node>, k: u64)
    requires s == a + (l + [x] + r) + b && Sorted(ks, s) && x in ks
    requires AllAtMost(ks, a, k) && AllAbove(ks, b, k)
    ensures k < ks[x] ==> AllAbove(ks, [x] + r + b, k)
    ensures ks[x] <= k ==> AllAtMost(ks, a + l + [x], k)
    ensures s == a + l + ([x] + r + b) == (a + l + [x]) + r + b
  {
    var m := |a| + |l|;
    assert s[m] == x;
    forall z | z in l && z in ks ensures ks[z] <= ks[x] {
      var i :| 0 <= i < |l| && l[i] == z;
      assert s[|a| + i] == z;
    }
    forall z | z in r && z in ks ensures ks[x] <= ks[z] {
      var i :| 0 <= i < |r| && r[i] == z;
      assert s[m + 1 + i] == z;
    }
  }

  lemma SortedInsert(ks: Keys, s: seq<Node>, a: seq<Node>, x: Node, b: seq<Node>)
    requires s == a + b && Sorted(ks, s) && x in ks && AllAtMost(ks, a, ks[x]) && AllAbove(ks, b, ks[x])
    ensures Sorted(ks, a + [x] + b)
    ensures s[..|a|] == a && s[|a|..] == b
  {
    var s' := a + [x] + b;
    forall i, j | 0 <= i < j < |s'| && s'[i] in ks && s'[j] in ks ensures ks[s'[i]] <= ks[s'[j]] {
      assert i < |a| ==> s'[i] == s[i] && s'[i] in a;
      assert j < |a| ==> s'[j] == s[j];
      assert i > |a| ==> s'[i] == s[i - 1];
      assert j > |a| ==> s'[j] == s[j - 1] && s'[j] in b;
    }
  }

  /** Keys of other nodes do not matter. */
  lemma KeysGrow(ks: Keys, ks': Keys, t: Shape, a: seq<Node>, b: seq<Node>, k: u64)
    requires Nodes(t) <= ks.Keys && InOrder(t) == a + b
    ensures forall z :: z in a || z in b ==> z in Nodes(t)
    requires forall z :: z in ks ==> z in ks' && ks'[z] == ks[z]
    ensures AllAtMost(ks, a, k) ==> AllAtMost(ks', a, k)
    ensures AllAbove(ks, b, k) ==> AllAbove(ks', b, k)
    ensures Sorted(ks, InOrder(t)) ==> Sorted(ks', InOrder(t))
  {
    NodesAreOrder(t);
    assert forall z :: z in a || z in b ==> z in InOrder(t);
    assert forall i :: 0 <= i < |InOrder(t)| ==> InOrder(t)[i] in Nodes(t);
  }

  lemma NodesGrow(t: Shape, t': Shape, a: seq<Node>, x: Node, b: seq<Node>)
    requires InOrder(t) == a + b && InOrder(t') == a + [x] + b
    ensures Nodes(t') == Nodes(t) + {x}
  {
    NodesAreOrder(t);
    NodesAreOrder(t');
    assert Elements(a + [x] + b) == Elements(a + b) + {x};
  }

  lemma SingletonOrder(t: Shape)
    requires t.Fork? && t.left.Leaf? && t.right.Leaf?
    ensures InOrder(t) == [t.node] && Nodes(t) == {t.node}
  {
  }

  lemma SortedRemove(ks: Keys, ks': Keys, a: seq<Node>, x: Node, b: seq<Node>)
    requires Sorted(ks, a + [x] + b)
    requires forall z :: z in ks' ==> z in ks && ks[z] == ks'[z]
    ensures Sorted(ks', a + b)
  {
    var s, s' := a + [x] + b, a + b;
    forall i, j | 0 <= i < j < |s'| && s'[i] in ks' && s'[j] in ks' ensures ks'[s'[i]] <= ks'[s'[j]] {
      var i', j' := if i < |a| then i else i + 1, if j < |a| then j else j + 1;
      assert s'[i] == s[i'] && s'[j] == s[j'];
    }
  }

  /** A separated shape lists every node once. */
  lemma {:induction false} OrderDistinct(t: Shape)
    requires Sep(t)
    ensures forall i, j :: 0 <= i < j < |InOrder(t)| ==> InOrder(t)[i] != InOrder(t)[j]
  {
    if t.Fork? {
      OrderDistinct(t.left);
      OrderDistinct(t.right);
      NodesAreOrder(t.left);
      NodesAreOrder(t.right);
      var l, r := InOrder(t.left), InOrder(t.right);
      assert forall i :: 0 <= i < |l| ==> l[i] in Elements(l);
      assert forall i :: 0 <= i < |r| ==> r[i] in Elements(r);
    }
  }

  ghost predicate AllBelow(ks: Keys, s: seq<Node>, k: u64) {
    forall z :: z in s && z in ks ==> ks[z] < k
  }

  lemma NoKeysStrict(ks: Keys, k: u64)
    ensures AllBelow(ks, [], k) && AllAbove(ks, [], k)
  {
  }

  /** Comparing the wanted key with the key of `x` rules out one side. */
  lemma SearchSides(ks: Keys, s: seq<Node>, a: seq<Node>, l: seq<Node>, x: Node, r: seq<Node>, b: seq<Node>, k: u64)
    requires s == a + (l + [x] + r) + b && Sorted(ks, s) && x in ks
    requires AllBelow(ks, a, k) && AllAbove(ks, b, k)
    ensures k < ks[x] ==> AllAbove(ks, [x] + r + b, k)
    ensures ks[x] < k ==> AllBelow(ks, a + l + [x], k)
    ensures s == a + l + ([x] + r + b) == (a + l + [x]) + r + b
  {
    var m := |a| + |l|;
    assert s[m] == x;
    forall z | z in l && z in ks ensures ks[z] <= ks[x] {
      var i :| 0 <= i < |l| && l[i] == z;
      assert s[|a| + i] == z;
    }
    forall z | z in r && z in ks ensures ks[x] <= ks[z] {
      var i :| 0 <= i < |r| && r[i] == z;
      assert s[m + 1 + i] == z;
    }
  }
}
