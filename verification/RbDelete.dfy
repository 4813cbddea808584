/** What deletion does to the shape: the splice that takes a node out, and the rounds of the fix-up. */
module RbDelete {
  import opened RbShape
  import opened RbBalance

  // ---------- paths inside paths ----------

  /** `inner` is a path inside the subtree that `outer` surrounds. */
  ghost function Append(inner: Path, outer: Path): Path {
    match inner
    case Top => outer
    case LeftOf(up, c, x, r) => LeftOf(Append(up, outer), c, x, r)
    case RightOf(up, c, l, x) => RightOf(Append(up, outer), c, l, x)
  }

  lemma {:induction false} AppendAround(inner: Path, outer: Path)
    ensures Around(Append(inner, outer)) == Around(inner) + Around(outer)
  {
    if !inner.Top? {
      AppendAround(inner.up, outer);
    }
  }

  lemma {:induction false} AppendOrder(inner: Path, outer: Path)
    ensures Before(Append(inner, outer)) == Before(outer) + Before(inner)
    ensures After(Append(inner, outer)) == After(inner) + After(outer)
  {
    match inner
    case Top =>
    case LeftOf(up, _, x, r) =>
      hide InOrder;
      AppendOrder(up, outer);
      Associate([x] + InOrder(r), After(up), After(outer));
    case RightOf(up, _, l, x) =>
      hide InOrder;
      AppendOrder(up, outer);
      Associate(Before(outer), Before(up), InOrder(l));
      Associate(Before(outer), Before(up) + InOrder(l), [x]);
  }

  lemma {:induction false} AppendSep(inner: Path, outer: Path)
    ensures SepPath(Append(inner, outer)) <==> SepPath(inner) && SepPath(outer) && Around(inner) !! Around(outer)
  {
    if !inner.Top? {
      AppendSep(inner.up, outer);
      AppendAround(inner.up, outer);
    }
  }

  lemma {:induction false} AppendLinks(cs: Cells, nil: Node, inner: Path, outer: Path, n: Node, b: Node)
    ensures IsPath(cs, nil, Append(inner, outer), n, b) <==>
      IsPath(cs, nil, inner, n, Above(outer, b)) && IsPath(cs, nil, outer, TopPtr(inner, n), b)
    ensures TopPtr(Append(inner, outer), n) == TopPtr(outer, TopPtr(inner, n))
    ensures Above(Append(inner, outer), b) == Above(inner, Above(outer, b))
  {
    if !inner.Top? {
      AppendLinks(cs, nil, inner.up, outer, inner.node, b);
    }
  }

  lemma {:induction false} AppendPlug(inner: Path, outer: Path, t: Shape)
    ensures Plug(Append(inner, outer), t) == Plug(outer, Plug(inner, t))
    decreases inner
  {
    if !inner.Top? {
      AppendPlug(inner.up, outer, Parent(inner, t));
      assert Plug(inner, t) == Plug(inner.up, Parent(inner, t));
    }
  }

  /** A new parent for the topmost node of a path. */
  lemma {:induction false} ReparentPath(cs: Cells, cs': Cells, nil: Node, path: Path, n: Node, b: Node, b': Node)
    requires SepPath(path) && IsPath(cs, nil, path, n, b)
    requires forall z :: z in Around(path) && z in cs ==>
      z in cs' && cs'[z] == (if z == TopPtr(path, n) then cs[z].(parent := b') else cs[z])
    ensures IsPath(cs', nil, path, n, b')
  {
    if !path.Top? {
      TopIsAround(path.up, path.node);
      FrameTree(cs, cs', nil, Sibling(path), path.node);
      ReparentPath(cs, cs', nil, path.up, path.node, b, b');
    }
  }

  // ---------- the splice ----------

  ghost predicate OneChild(t: Shape) {
    t.Fork? && (t.left.Leaf? || t.right.Leaf?)
  }

  ghost function OnlyChild(t: Shape): Shape
    requires t.Fork?
  {
    if t.left.Leaf? then t.right else t.left
  }

  /** The child of a node with at most one child takes its place. */
  lemma SplicedOne(cs: Cells, cs': Cells, nil: Node, root: Node, root': Node, path: Path, t: Shape)
    requires Zip(cs, nil, root, path, t) && OneChild(t) && nil in cs'
    requires Relinked(cs, cs', path, Ptr(nil, OnlyChild(t)))
    requires forall z :: z in Nodes(OnlyChild(t)) && z in cs ==>
      z in cs' && cs'[z] == (if z == Ptr(nil, OnlyChild(t)) then cs[z].(parent := Above(path, nil)) else cs[z])
    requires root' == if path.Top? then Ptr(nil, OnlyChild(t)) else root
    ensures Zip(cs', nil, root', path, OnlyChild(t))
    ensures Before(path) + InOrder(t) + After(path) ==
      Before(path) + (InOrder(t.left) + [t.node] + InOrder(t.right)) + After(path)
  {
    ReparentTree(cs, cs', nil, OnlyChild(t), t.node, Above(path, nil));
    RelinkPath(cs, cs', nil, path, t.node, Ptr(nil, OnlyChild(t)), nil);
  }

  /** The cell of `z` once `y`, so far outside the tree, has taken the place of `x`. */
  ghost function ReplacedCell(cs: Cells, nil: Node, path: Path, x: Node, y: Node, z: Node): Cell
    requires x in cs && z in cs
  {
    if z == y then cs[x]
    else if z == nil then cs[z]
    else if z == cs[x].left || z == cs[x].right then cs[z].(parent := y)
    else RelinkedCell(cs, path, y, z)
  }

  ghost predicate IsReplaced(cs: Cells, cs': Cells, nil: Node, path: Path, x: Node, y: Node) {
    && x in cs && nil in cs' && y in cs' && cs'[y] == cs[x]
    && forall z :: z in cs && z != x && z != nil && z != y ==>
        z in cs' && cs'[z] == ReplacedCell(cs, nil, path, x, y, z)
  }

  /** Away from the path, only the two children of `x` see a new parent. */
  lemma ReplacedBelow(cs: Cells, cs': Cells, nil: Node, path: Path, x: Node, y: Node, s: set<Node>)
    requires IsReplaced(cs, cs', nil, path, x, y)
    requires {x, y, nil} !! s && s !! Around(path)
    ensures forall z :: z in s && z in cs ==>
      z in cs' && cs'[z] == (if z == cs[x].left || z == cs[x].right then cs[z].(parent := y) else cs[z])
  {
  }

  lemma ReplacedAbove(cs: Cells, cs': Cells, nil: Node, path: Path, x: Node, y: Node)
    requires IsReplaced(cs, cs', nil, path, x, y)
    requires {x, y, nil} !! Around(path) && cs[x].left !in Around(path) && cs[x].right !in Around(path)
    ensures Relinked(cs, cs', path, y)
  {
  }

  lemma ReplacedTree(cs: Cells, cs': Cells, nil: Node, path: Path, t: Shape, x: Node, y: Node)
    requires Sep(t) && IsTree(cs, nil, t, x) && IsReplaced(cs, cs', nil, path, x, y)
    requires {x, y, nil} !! Nodes(t) && Nodes(t) !! Around(path)
    requires forall z :: z in Nodes(t) ==> ((z == cs[x].left || z == cs[x].right) <==> z == Ptr(nil, t))
    ensures IsTree(cs', nil, t, y)
  {
    hide IsReplaced, ReplacedCell, IsTree, Sep;
    ReplacedBelow(cs, cs', nil, path, x, y, Nodes(t));
    ReparentTree(cs, cs', nil, t, x, y);
  }

  /** Below `x` on the right: the path down to the focus and the focus itself. */
  lemma ReplacedRight(cs: Cells, cs': Cells, nil: Node, inner: Path, path: Path, x: Node, y: Node, t: Shape)
    requires Sep(t) && SepPath(inner) && Nodes(t) !! Around(inner) !! Around(path)
    requires {x, y, nil} !! Nodes(t) + Around(inner)
    requires IsTree(cs, nil, t, Above(inner, x)) && IsPath(cs, nil, inner, Ptr(nil, t), x)
    requires IsReplaced(cs, cs', nil, path, x, y)
    requires cs[x].left !in Nodes(t) + Around(inner) && cs[x].right == TopPtr(inner, Ptr(nil, t))
    ensures IsTree(cs', nil, t, Above(inner, y)) && IsPath(cs', nil, inner, Ptr(nil, t), y)
  {
    hide IsReplaced, ReplacedCell, IsTree, IsPath, Sep, SepPath;
    TopIsAround(inner, Ptr(nil, t));
    if inner.Top? {
      ReplacedTree(cs, cs', nil, path, t, x, y);
      EmptyPath(cs', nil, inner, Ptr(nil, t), y);
    } else {
      ReplacedBelow(cs, cs', nil, path, x, y, Nodes(t) + Around(inner));
      FrameTree(cs, cs', nil, t, inner.node);
      ReparentPath(cs, cs', nil, inner, Ptr(nil, t), x, y);
    }
  }

  lemma EmptyPath(cs: Cells, nil: Node, path: Path, n: Node, b: Node)
    requires path.Top?
    ensures IsPath(cs, nil, path, n, b)
  {
  }

  lemma ReplacedCellOf(cs: Cells, cs': Cells, nil: Node, path: Path, x: Node, y: Node)
    requires IsReplaced(cs, cs', nil, path, x, y)
    ensures x in cs && y in cs' && nil in cs' && cs'[y] == cs[x]
  {
  }

  /** The tree seen from a focus inside the right subtree of `x`, in pieces. */
  ghost predicate Pieces(cs: Cells, nil: Node, root: Node, inner: Path, path: Path, c: Color, l: Shape, x: Node,
        t: Shape) {
    && nil in cs && x in cs && x != nil
    && Sep(t) && Sep(l) && SepPath(inner) && SepPath(path)
    && Nodes(t) !! Nodes(l) !! Around(inner) !! Around(path)
    && {x, nil} !! Nodes(t) + Nodes(l) + Around(inner) + Around(path)
    && IsTree(cs, nil, t, Above(inner, x)) && IsTree(cs, nil, l, x)
    && IsPath(cs, nil, inner, Ptr(nil, t), x) && IsPath(cs, nil, path, x, nil)
    && cs[x] == Cell(Ptr(nil, l), TopPtr(inner, Ptr(nil, t)), Above(path, nil), c)
    && TopPtr(path, x) == root
  }

  lemma IsPieces(cs: Cells, nil: Node, root: Node, inner: Path, path: Path, c: Color, l: Shape, x: Node, t: Shape)
    ensures Zip(cs, nil, root, Append(inner, RightOf(path, c, l, x)), t) <==>
        Pieces(cs, nil, root, inner, path, c, l, x, t)
  {
    var outer := RightOf(path, c, l, x);
    AppendAround(inner, outer);
    AppendSep(inner, outer);
    AppendLinks(cs, nil, inner, outer, Ptr(nil, t), nil);
  }

  /** `y` takes the place of a node `x` above the focus. */
  lemma Replaced(cs: Cells, cs': Cells, nil: Node, root: Node, root': Node,
                 inner: Path, path: Path, c: Color, l: Shape, x: Node, y: Node, t: Shape)
    requires Zip(cs, nil, root, Append(inner, RightOf(path, c, l, x)), t)
    requires y !in Nodes(t) && y !in Around(Append(inner, RightOf(path, c, l, x))) && y != nil
    requires IsReplaced(cs, cs', nil, path, x, y)
    requires root' == if path.Top? then y else root
    ensures Zip(cs', nil, root', Append(inner, RightOf(path, c, l, y)), t)
  {
    hide IsReplaced, Zip, IsTree, IsPath, Sep, SepPath, Append;
    AppendAround(inner, RightOf(path, c, l, x));
    IsPieces(cs, nil, root, inner, path, c, l, x, t);
    ReplacedCellOf(cs, cs', nil, path, x, y);
    TopIsAround(inner, Ptr(nil, t));
    TopIsAround(path, x);
    TopIsAround(path, y);
    ReplacedAbove(cs, cs', nil, path, x, y);
    RelinkPath(cs, cs', nil, path, x, y, nil);
    ReplacedTree(cs, cs', nil, path, l, x, y);
    ReplacedRight(cs, cs', nil, inner, path, x, y, t);
    IsPieces(cs', nil, root', inner, path, c, l, y, t);
  }

  // ---------- the colour discipline of the splice ----------

  /** Renaming a node of the path keeps its colours. */
  lemma {:induction false} RenamedPath(inner: Path, path: Path, c: Color, l: Shape, x: Node, y: Node, h: nat)
    ensures PathBal(Append(inner, RightOf(path, c, l, x)), h) <==> PathBal(Append(inner, RightOf(path, c, l, y)), h)
    ensures PathOk(Append(inner, RightOf(path, c, l, x))) <==> PathOk(Append(inner, RightOf(path, c, l, y)))
    ensures RedAbove(Append(inner, RightOf(path, c, l, x))) <==> RedAbove(Append(inner, RightOf(path, c, l, y)))
    decreases inner
  {
    if !inner.Top? {
      RenamedPath(inner.up, path, c, l, x, y, if inner.color.Red? then h else h + 1);
    }
  }

  /** The state of the deletion fix-up: below the hole one black node is missing, unless the hole is the root. */
  ghost predicate DeleteOk(path: Path, t: Shape, h: nat) {
    Bal(t, h) && PathBal(path, h + 1) && NoRedRed(Dye(t, Black)) && PathOk(path)
  }

  /** Opening a valid tree at the node that the splice removes. */
  lemma SpliceColors(path: Path, t: Shape) returns (h: nat)
    requires RedBlack(Plug(path, t)) && OneChild(t)
    ensures Bal(t, h) && PathBal(path, h) && PathOk(path) && NoRedRed(OnlyChild(t))
    ensures t.color.Red? ==> Bal(OnlyChild(t), h) && !IsRed(OnlyChild(t))
    ensures t.color.Black? ==> h > 0 && DeleteOk(path, OnlyChild(t), h - 1)
    ensures path.Top? ==> t.color.Black?
  {
    var k: nat :| Bal(Plug(path, t), k);
    h := OpenBal(path, t, k);
    OpenNoRedRed(path, t);
  }

  lemma RedSplice(path: Path, t: Shape, h: nat)
    requires Bal(t, h) && PathBal(path, h) && PathOk(path) && NoRedRed(t) && !IsRed(t) && !path.Top?
    ensures RedBlack(Plug(path, t))
  {
    PlugBal(path, t, h);
    PlugNoRedRed(path, t);
  }

  lemma DeleteDone(path: Path, t: Shape, h: nat)
    requires DeleteOk(path, t, h) && (path.Top? || IsRed(t))
    ensures RedBlack(Plug(path, Dye(t, Black)))
  {
    var k := if IsRed(t) then h + 1 else h;
    assert Bal(Dye(t, Black), k);
    if path.Top? {
      assert RedBlack(Dye(t, Black));
    } else {
      PlugBal(path, Dye(t, Black), h + 1);
      PlugNoRedRed(path, Dye(t, Black));
    }
  }

  // ---------- the rounds of the fix-up ----------

  /** The path with another colour for its first node and another sibling subtree. */
  ghost function Reset(path: Path, c: Color, s: Shape): Path
    requires !path.Top?
  {
    if path.LeftOf? then LeftOf(path.up, c, path.node, s) else RightOf(path.up, c, s, path.node)
  }

  /** The focus moved to the sibling. */
  ghost function Across(path: Path, t: Shape): Path
    requires !path.Top?
  {
    if path.LeftOf? then RightOf(path.up, path.color, t, path.node) else LeftOf(path.up, path.color, path.node, t)
  }

  /** The child of `s` on the side of the focus, and the one away from it. */
  ghost function Near(path: Path, s: Shape): Shape
    requires s.Fork?
  {
    if path.LeftOf? then s.left else s.right
  }

  ghost function Far(path: Path, s: Shape): Shape
    requires s.Fork?
  {
    if path.LeftOf? then s.right else s.left
  }

  /** A subtree with the two children of the sibling on their sides. */
  ghost function Nephews(path: Path, c: Color, near: Shape, x: Node, far: Shape): Shape
    requires !path.Top?
  {
    if path.LeftOf? then Fork(c, near, x, far) else Fork(c, far, x, near)
  }

  /** The sibling is never the sentinel. */
  lemma SiblingThere(path: Path, t: Shape, h: nat)
    requires DeleteOk(path, t, h) && !path.Top?
    ensures Sibling(path).Fork?
  {
  }

  /** A red sibling is turned up; the new sibling is black. */
  lemma RedSiblingKeeps(path: Path, t: Shape, h: nat)
    requires DeleteOk(path, t, h) && !path.Top? && IsRed(Sibling(path))
    ensures var s := Sibling(path);
      DeleteOk(Sunk(path), t, h) && !IsRed(Sibling(Sunk(path)))
  {
    assert path.color.Black?;
  }

  /** The path to the focus after a red sibling is turned up: the parent, now red, hangs below the former sibling. */
  ghost function Sunk(path: Path): Path
    requires !path.Top? && Sibling(path).Fork?
  {
    var s := Sibling(path);
    if path.LeftOf? then LeftOf(LeftOf(path.up, Black, s.node, s.right), Red, path.node, s.left)
    else RightOf(RightOf(path.up, Black, s.left, s.node), Red, s.right, path.node)
  }

  lemma SunkSeen(cs: Cells, nil: Node, root: Node, path: Path, t: Shape)
    requires !path.Top? && Sibling(path).Fork?
    requires Zip(cs, nil, root, path.up, Parent(Sunk(path).up, Parent(Sunk(path), t)))
    ensures Zip(cs, nil, root, Sunk(path), t)
    ensures Plug(Sunk(path), t) == Plug(path.up, Parent(Sunk(path).up, Parent(Sunk(path), t)))
  {
    ZipDown(cs, nil, root, path.up, Parent(Sunk(path).up, Parent(Sunk(path), t)));
    hide Zip;
    ZipDown(cs, nil, root, Sunk(path).up, Parent(Sunk(path), t));
  }

  /** With two black nephews the sibling turns red and the missing black moves up. */
  lemma BlackNephewsKeep(path: Path, t: Shape, h: nat, s: Shape)
    requires DeleteOk(path, t, h) && !path.Top? && s == Sibling(path) && s.Fork? && !IsRed(s) && !IsRed(t)
    requires !IsRed(Near(path, s)) && !IsRed(Far(path, s))
    ensures DeleteOk(path.up, Parent(Reset(path, path.color, Dye(s, Red)), t), if path.color.Red? then h else h + 1)
  {
  }

  /** The last rotation supplies the missing black: `near` goes to the focus' side, `far` turns black. */
  lemma LastTurnKeeps(path: Path, t: Shape, h: nat, near: Shape, x: Node, far: Shape)
    requires DeleteOk(path, t, h) && !path.Top? && !IsRed(t)
    requires Bal(near, h) && NoRedRed(near) && Bal(Dye(far, Black), h + 1) && NoRedRed(Dye(far, Black))
    ensures var w := Plug(path.up, Nephews(path, path.color,
                                            Parent(Reset(path, Black, near), t), x, Dye(far, Black)));
      NoRedRed(w) && exists k: nat :: Bal(w, k)
  {
    var p := Parent(Reset(path, Black, near), t);
    var f := Nephews(path, path.color, p, x, Dye(far, Black));
    assert Bal(p, h + 1) && NoRedRed(p);
    var k := if path.color.Red? then h + 1 else h + 2;
    assert Bal(f, k) && NoRedRed(f);
    PlugBal(path.up, f, k);
    PlugNoRedRed(path.up, f);
  }

  /** At least one nephew is red: what the inner rotation (if the near one is red) makes of the sibling. */
  lemma NephewsSplit(path: Path, t: Shape, h: nat, s: Shape)
    requires DeleteOk(path, t, h) && !path.Top? && s == Sibling(path) && s.Fork? && !IsRed(s)
    ensures !IsRed(Near(path, s)) && IsRed(Far(path, s)) ==>
      var near, far := Near(path, s), Far(path, s);
      Bal(near, h) && NoRedRed(near) && Bal(Dye(far, Black), h + 1) && NoRedRed(Dye(far, Black))
    ensures IsRed(Near(path, s)) ==>
      var near := Near(path, Near(path, s));
      var far := Nephews(path, Red, Far(path, Near(path, s)), s.node, Far(path, s));
      Bal(near, h) && NoRedRed(near) && Bal(Dye(far, Black), h + 1) && NoRedRed(Dye(far, Black))
  {
    assert Bal(s, h + 1) && NoRedRed(s);
    assert Bal(Far(path, s), h) && NoRedRed(Far(path, s));
    if IsRed(Near(path, s)) {
      assert Bal(Near(path, s), h) && NoRedRed(Near(path, s));
    }
  }

  // ---------- the links during a round ----------

  /** The links around the hole. */
  lemma HoleLinks(cs: Cells, nil: Node, root: Node, path: Path, t: Shape)
    requires Zip(cs, nil, root, path, t) && !path.Top?
    ensures path.node in cs && path.node != nil && Above(path.up, nil) in cs
    ensures cs[path.node].parent == Above(path.up, nil) && cs[path.node].color == path.color
    ensures path.LeftOf? ==> cs[path.node].left == Ptr(nil, t) && cs[path.node].right == Ptr(nil, Sibling(path))
    ensures path.RightOf? ==> cs[path.node].right == Ptr(nil, t) && cs[path.node].left == Ptr(nil, Sibling(path))
    ensures t.Fork? ==> t.node in cs && cs[t.node].parent == path.node && cs[t.node].color == t.color
    ensures Sibling(path).Fork? ==>
        Sibling(path).node in cs && Sibling(path).node != nil && cs[Sibling(path).node].color == Sibling(path).color
  {
    assert IsPath(cs, nil, path.up, path.node, nil);
    assert IsTree(cs, nil, Sibling(path), path.node);
  }

  lemma ZipAcross(cs: Cells, nil: Node, root: Node, path: Path, t: Shape)
    requires Zip(cs, nil, root, path, t) && !path.Top?
    ensures Zip(cs, nil, root, Across(path, t), Sibling(path))
  {
  }

  /** Painting the parent and the sibling's subtree, away from the focus. */
  lemma SiblingPainted(cs: Cells, cs': Cells, nil: Node, root: Node, path: Path, t: Shape, blacks: set<Node>,
        reds: set<Node>)
    requires Zip(cs, nil, root, path, t) && !path.Top? && Recolored(cs, cs', blacks, reds)
    requires blacks + reds <= {path.node} + Nodes(Sibling(path))
    ensures path.node in cs && Zip(cs', nil, root, Reset(path, cs'[path.node].color, Paint(cs', Sibling(path))), t)
    ensures InOrder(Parent(Reset(path, cs'[path.node].color, Paint(cs', Sibling(path))), t)) == InOrder(Parent(path, t))
    ensures IsTree(cs, nil, Sibling(path), path.node) && Sep(Sibling(path))
  {
    FrameTree(cs, cs', nil, t, path.node);
    PaintTree(cs, cs', nil, Sibling(path), path.node);
    FramePath(cs, cs', nil, path.up, path.node, nil);
  }

  /** A painted node above unpainted children. */
  lemma PaintedFork(cs: Cells, cs': Cells, nil: Node, s: Shape, p: Node, blacks: set<Node>, reds: set<Node>)
    requires Sep(s) && s.Fork? && IsTree(cs, nil, s, p) && Recolored(cs, cs', blacks, reds)
    ensures s.node in cs && s.node in cs'
        && Paint(cs', s) == Fork(cs'[s.node].color, Paint(cs', s.left), s.node, Paint(cs', s.right))
    ensures Nodes(s.left) !! blacks + reds ==> Paint(cs', s.left) == s.left
    ensures Nodes(s.right) !! blacks + reds ==> Paint(cs', s.right) == s.right
    ensures s.left.Fork? && blacks + reds <= {s.node, s.left.node} ==>
      s.left.node in cs' && Paint(cs', s)
          == Fork(cs'[s.node].color, s.left.(color := cs'[s.left.node].color), s.node, s.right)
    ensures s.right.Fork? && blacks + reds <= {s.node, s.right.node} ==>
      s.right.node in cs' && Paint(cs', s)
          == Fork(cs'[s.node].color, s.left, s.node, s.right.(color := cs'[s.right.node].color))
  {
    PaintedOne(cs, cs', nil, s.left, s.node, blacks, reds);
    PaintedOne(cs, cs', nil, s.right, s.node, blacks, reds);
  }

  lemma PaintedOne(cs: Cells, cs': Cells, nil: Node, t: Shape, p: Node, blacks: set<Node>, reds: set<Node>)
    requires Sep(t) && IsTree(cs, nil, t, p) && Recolored(cs, cs', blacks, reds)
    ensures t.Fork? ==> t.node in cs'
    ensures Nodes(t) !! blacks + reds ==> Paint(cs', t) == t
    ensures t.Fork? && Nodes(t) * (blacks + reds) <= {t.node} ==> Paint(cs', t) == t.(color := cs'[t.node].color)
  {
    if Nodes(t) !! blacks + reds {
      Unpainted(cs, cs', nil, t, p, blacks, reds);
    } else if t.Fork? && Nodes(t) * (blacks + reds) <= {t.node} {
      Unpainted(cs, cs', nil, t.left, t.node, blacks, reds);
      Unpainted(cs, cs', nil, t.right, t.node, blacks, reds);
    }
  }

  lemma RedSiblingPainted(cs: Cells, cs': Cells, nil: Node, root: Node, path: Path, t: Shape)
    requires Zip(cs, nil, root, path, t) && !path.Top? && Sibling(path).Fork?
    requires Recolored(cs, cs', {Sibling(path).node}, {path.node})
    ensures Zip(cs', nil, root, Reset(path, Red, Dye(Sibling(path), Black)), t)
    ensures InOrder(Parent(Reset(path, Red, Dye(Sibling(path), Black)), t)) == InOrder(Parent(path, t))
  {
    var blacks, reds := {Sibling(path).node}, {path.node};
    SiblingPainted(cs, cs', nil, root, path, t, blacks, reds);
    PaintedOne(cs, cs', nil, Sibling(path), path.node, blacks, reds);
  }

  lemma RedNephewPainted(cs: Cells, cs': Cells, nil: Node, root: Node, path: Path, t: Shape)
    requires Zip(cs, nil, root, path, t) && !path.Top? && Sibling(path).Fork? && Near(path, Sibling(path)).Fork?
    requires Recolored(cs, cs', {Near(path, Sibling(path)).node}, {Sibling(path).node})
    ensures var u := Sibling(path);
      var path' := Reset(path, path.color, Nephews(path, Red, Dye(Near(path, u), Black), u.node, Far(path, u)));
      Zip(cs', nil, root, path', t) && InOrder(Parent(path', t)) == InOrder(Parent(path, t))
  {
    var u := Sibling(path);
    var blacks, reds := {Near(path, u).node}, {u.node};
    SiblingPainted(cs, cs', nil, root, path, t, blacks, reds);
    PaintedFork(cs, cs', nil, u, path.node, blacks, reds);
  }

  lemma SiblingSameOrder(path: Path, t: Shape, s': Shape)
    requires !path.Top? && InOrder(s') == InOrder(Sibling(path))
    ensures InOrder(Plug(Reset(path, path.color, s'), t)) == InOrder(Plug(path, t))
  {
    var path' := Reset(path, path.color, s');
    PlugSameOrder(path.up, Parent(path, t), Parent(path', t));
    assert Plug(path, t) == Plug(path.up, Parent(path, t));
    assert Plug(path', t) == Plug(path.up, Parent(path', t));
  }

  lemma SiblingReddened(cs: Cells, cs': Cells, nil: Node, root: Node, path: Path, t: Shape)
    requires Zip(cs, nil, root, path, t) && !path.Top? && Sibling(path).Fork?
    requires Recolored(cs, cs', {}, {Sibling(path).node})
    ensures Zip(cs', nil, root, Reset(path, path.color, Dye(Sibling(path), Red)), t)
    ensures InOrder(Parent(Reset(path, path.color, Dye(Sibling(path), Red)), t)) == InOrder(Parent(path, t))
  {
    var blacks, reds := {}, {Sibling(path).node};
    SiblingPainted(cs, cs', nil, root, path, t, blacks, reds);
    PaintedOne(cs, cs', nil, Sibling(path), path.node, blacks, reds);
  }

  lemma FarDistinct(cs: Cells, nil: Node, root: Node, path: Path, t: Shape)
    requires Zip(cs, nil, root, path, t) && !path.Top? && Sibling(path).Fork? && Far(path, Sibling(path)).Fork?
    ensures var u := Sibling(path);
      path.node != u.node && path.node != Far(path, u).node && u.node != Far(path, u).node
  {
    assert Sep(Sibling(path));
  }

  /** The parent's subtree after the last rotation. */
  ghost function LastTurned(path: Path, t: Shape): Shape
    requires !path.Top? && Sibling(path).Fork?
  {
    var u := Sibling(path);
    Nephews(path, path.color, Parent(Reset(path, Black, Near(path, u)), t), u.node, Dye(Far(path, u), Black))
  }

  lemma LastTurnPainted(cs: Cells, cs': Cells, nil: Node, root: Node, path: Path, t: Shape)
    requires Zip(cs, nil, root, path, t) && !path.Top? && Sibling(path).Fork? && Far(path, Sibling(path)).Fork?
    requires var u := Sibling(path);
      Recolored(cs, cs', {path.node, Far(path, u).node} + (if path.color.Red? then {} else {u.node}),
                if path.color.Red? then {u.node} else {})
    ensures var u := Sibling(path);
      var path' := Reset(path, Black, Nephews(path, path.color, Near(path, u), u.node, Dye(Far(path, u), Black)));
      Zip(cs', nil, root, path', t) && InOrder(Parent(path', t)) == InOrder(Parent(path, t))
  {
    var u := Sibling(path);
    var blacks := {path.node, Far(path, u).node} + if path.color.Red? then {} else {u.node};
    var reds := if path.color.Red? then {u.node} else {};
    SiblingPainted(cs, cs', nil, root, path, t, blacks, reds);
    assert Sep(u.left) && Sep(u.right) && IsTree(cs, nil, u.left, u.node) && IsTree(cs, nil, u.right, u.node);
    PaintedOne(cs, cs', nil, u.left, u.node, blacks, reds);
    PaintedOne(cs, cs', nil, u.right, u.node, blacks, reds);
  }

  /** After the last rotation the whole tree, seen from its root, is in order. */
  lemma LastTurnDone(path: Path, t: Shape, h: nat, path': Path) returns (k: nat)
    requires DeleteOk(path, t, h) && !path.Top? && !IsRed(t)
    requires Sibling(path).Fork? && !IsRed(Sibling(path))
        && (IsRed(Near(path, Sibling(path))) || IsRed(Far(path, Sibling(path))))
    requires path' == if IsRed(Near(path, Sibling(path))) then InnerTurned(path) else path
    ensures !path'.Top? && Sibling(path').Fork? && Far(path', Sibling(path')).Fork?
    ensures path'.up == path.up && path'.color == path.color && path'.node == path.node
        && (path'.LeftOf? <==> path.LeftOf?)
    ensures DeleteOk(Top, Plug(path.up, LastTurned(path', t)), k) && Plug(path.up, LastTurned(path', t)).Fork?
  {
    var u := Sibling(path);
    var v := Sibling(path');
    NephewsSplit(path, t, h, u);
    LastTurnKeeps(path, t, h, Near(path, v), v.node, Far(path, v));
    var w := Plug(path.up, LastTurned(path', t));
    k :| Bal(w, k);
    PlugFork(path.up, LastTurned(path', t));
    assert NoRedRed(Dye(w, Black));
  }

  /** The path after a red near nephew has been turned up in the sibling's place. */
  ghost function InnerTurned(path: Path): Path
    requires !path.Top? && Sibling(path).Fork?
  {
    var u := Sibling(path);
    var u' := if Near(path, u).Fork? then Nephews(path, Red, Dye(Near(path, u), Black), u.node, Far(path, u)) else u;
    Reset(path, path.color, if path.LeftOf? then RotateRight(u') else RotateLeft(u'))
  }

  ghost function FixMeasure(path: Path, t: Shape): nat {
    if path.Top? || IsRed(t) then 0 else 1 + Depth(path)
  }

  lemma NephewColors(cs: Cells, nil: Node, root: Node, path: Path, t: Shape)
    requires Zip(cs, nil, root, path, t) && !path.Top? && Sibling(path).Fork? && cs[nil].color == Black
    ensures var u := Sibling(path);
      && u.node in cs && cs[u.node].left in cs && cs[u.node].right in cs
      && (cs[cs[u.node].left].color == Red <==> IsRed(u.left))
      && (cs[cs[u.node].right].color == Red <==> IsRed(u.right))
  {
    assert IsTree(cs, nil, Sibling(path), path.node);
    assert IsTree(cs, nil, Sibling(path).left, Sibling(path).node);
    assert IsTree(cs, nil, Sibling(path).right, Sibling(path).node);
  }

  lemma TopLinks(cs: Cells, nil: Node, root: Node, t: Shape)
    requires Zip(cs, nil, root, Top, t)
    ensures root == Ptr(nil, t) && root in cs && (t.Fork? ==> cs[root].parent == nil && cs[root].color == t.color)
  {
  }

  // ---------- the splice of a node with two children ----------

  /** The cell of `z` once `temp` hangs in the place of `subst`, below `q`. */
  ghost function SplicedCell(cs: Cells, subst: Node, temp: Node, q: Node, z: Node): Cell
    requires q in cs && z in cs
  {
    if z == q then (if cs[q].left == subst then cs[q].(left := temp) else cs[q].(right := temp))
    else if z == temp then cs[z].(parent := q)
    else cs[z]
  }

  /** ... and `subst`, with the colour of `node`, has then taken the place of `node`. */
  ghost function SwappedCell(cs: Cells, nil: Node, node: Node, subst: Node, temp: Node, q: Node, p: Node, z: Node): Cell
    requires {node, q, p, z} <= cs.Keys
  {
    var n, c := SplicedCell(cs, subst, temp, q, node), SplicedCell(cs, subst, temp, q, z);
    if z == subst then n
    else if z == nil then c
    else if z == n.left || z == n.right then c.(parent := subst)
    else if z == p then (if cs[p].left == node then c.(left := subst) else c.(right := subst))
    else c
  }

  ghost predicate IsSwapped(cs: Cells, cs': Cells, nil: Node, node: Node, subst: Node, temp: Node, q: Node, p: Node)
    requires {node, q, p} <= cs.Keys
  {
    cs'.Keys == cs.Keys &&
    forall z :: z in cs && z != node && z != nil ==> cs'[z] == SwappedCell(cs, nil, node, subst, temp, q, p, z)
  }

  /** `temp` has taken the place of `x` below `q`; the cell of `x` itself does not matter. */
  ghost predicate IsSplicedOut(cs: Cells, cs': Cells, x: Node, temp: Node, q: Node)
    requires q in cs
  {
    cs'.Keys == cs.Keys && forall z :: z in cs && z != x ==> cs'[z] == SplicedCell(cs, x, temp, q, z)
  }

  /** The only child takes the place of its parent. */
  lemma SplicedOut(cs: Cells, cs': Cells, nil: Node, root: Node, path: Path, t: Shape)
    requires Zip(cs, nil, root, path, t) && OneChild(t) && !path.Top? && path.node in cs
    requires IsSplicedOut(cs, cs', t.node, Ptr(nil, OnlyChild(t)), path.node)
    ensures Zip(cs', nil, root, path, OnlyChild(t))
  {
    HoleLinks(cs, nil, root, path, t);
    if path.RightOf? {
      assert IsTree(cs, nil, path.left, path.node);
    }
    SplicedOne(cs, cs', nil, root, root, path, t);
  }

  /** The node that will be replaced, seen from a focus inside its right subtree. */
  lemma OuterLinks(cs: Cells, nil: Node, root: Node, inner: Path, path: Path, c: Color, l: Shape, x: Node, t: Shape)
    requires Zip(cs, nil, root, Append(inner, RightOf(path, c, l, x)), t)
    ensures x in cs && x != nil && cs[x] == Cell(Ptr(nil, l), TopPtr(inner, Ptr(nil, t)), Above(path, nil), c)
    ensures Ptr(nil, l) in cs && Above(path, nil) in cs && cs[x].right in cs && Above(inner, x) in cs
    ensures !path.Top? ==> path.node != nil && (cs[path.node].left == x <==> path.LeftOf?)
    ensures (path.Top? <==> root == x) && (path.Top? <==> Above(path, nil) == nil)
    ensures Above(Append(inner, RightOf(path, c, l, x)), nil) == Above(inner, x)
    ensures Above(path, nil) != Above(inner, x) && Above(inner, x) != nil && Above(path, nil) != x
    ensures inner.Top? <==> Above(inner, x) == x
    ensures cs[x].left != x && cs[x].right != x
    ensures l.Fork? ==> cs[x].left in Around(Append(inner, RightOf(path, c, l, x)))
    ensures !inner.Top? ==> cs[x].right in Around(Append(inner, RightOf(path, c, l, x)))
    ensures {Above(inner, x), x} <= Around(Append(inner, RightOf(path, c, l, x)))
    ensures !path.Top? ==> path.node in Around(Append(inner, RightOf(path, c, l, x)))
    ensures l.Fork? ==> cs[x].left != Above(inner, x) && cs[x].left != Above(path, nil) && cs[x].left != cs[x].right
    ensures cs[x].right != nil ==> cs[x].right != Above(path, nil)
  {
    IsPieces(cs, nil, root, inner, path, c, l, x, t);
    AppendLinks(cs, nil, inner, RightOf(path, c, l, x), Ptr(nil, t), nil);
    AppendAround(inner, RightOf(path, c, l, x));
    hide Zip, Append;
    PieceLinks(cs, nil, root, inner, path, c, l, x, t);
  }

  lemma PieceLinks(cs: Cells, nil: Node, root: Node, inner: Path, path: Path, c: Color, l: Shape, x: Node, t: Shape)
    requires Pieces(cs, nil, root, inner, path, c, l, x, t)
    ensures Ptr(nil, l) in cs && Above(path, nil) in cs && cs[x].right in cs && Above(inner, x) in cs
    ensures !path.Top? ==> path.node != nil && (cs[path.node].left == x <==> path.LeftOf?)
    ensures (path.Top? <==> root == x) && (path.Top? <==> Above(path, nil) == nil)
    ensures Above(path, nil) != Above(inner, x) && Above(inner, x) != nil && Above(path, nil) != x
    ensures inner.Top? <==> Above(inner, x) == x
    ensures cs[x].left != x && cs[x].right != x
    ensures l.Fork? ==> cs[x].left in Nodes(l)
    ensures !inner.Top? ==> cs[x].right in Around(inner)
    ensures Above(inner, x) in Around(inner) + {x} && (!path.Top? ==> path.node in Around(path))
    ensures l.Fork? ==> cs[x].left != Above(inner, x) && cs[x].left != Above(path, nil) && cs[x].left != cs[x].right
    ensures cs[x].right != nil ==> cs[x].right != Above(path, nil)
  {
    TopIsAround(path, x);
    TopIsAround(inner, Ptr(nil, t));
    TopInCells(cs, nil, inner, Ptr(nil, t), x);
  }

  /** The replaced node is no longer part of the tree. */
  lemma Gone(cs: Cells, nil: Node, root: Node, inner: Path, path: Path, c: Color, l: Shape, x: Node, y: Node, t: Shape)
    requires Zip(cs, nil, root, Append(inner, RightOf(path, c, l, x)), t) && t.Fork? && y == t.node
    ensures x !in Nodes(t.right) + Around(Append(inner, RightOf(path, c, l, y))) && x != y
  {
    IsPieces(cs, nil, root, inner, path, c, l, x, t);
    AppendAround(inner, RightOf(path, c, l, y));
    hide Zip;
  }

  lemma {:induction false} TopInCells(cs: Cells, nil: Node, path: Path, n: Node, b: Node)
    requires IsPath(cs, nil, path, n, b) && n in cs
    ensures TopPtr(path, n) in cs
  {
    if !path.Top? {
      TopInCells(cs, nil, path.up, path.node, b);
    }
  }

  /** `temp` hangs in the place of `subst` below `q`; its parent link already names the node above it at the end. */
  ghost predicate IsTakenOut(cs: Cells, cs': Cells, node: Node, subst: Node, temp: Node, q: Node)
    requires q in cs
  {
    cs'.Keys == cs.Keys &&
    forall z :: z in cs ==>
      (cs'[z] ==
       if z == q then (if cs[q].left == subst then cs[q].(left := temp) else cs[q].(right := temp))
       else if z == temp then cs[z].(parent := if q == node then subst else q)
       else cs[z])
  }

  /** `subst` has the links and the colour of `node`, and the neighbours of `node` are linked to it. */
  ghost predicate IsPutIn(cs: Cells, cs': Cells, nil: Node, node: Node, subst: Node, p: Node)
    requires {node, p} <= cs.Keys
  {
    cs'.Keys == cs.Keys &&
    forall z :: z in cs && z != node ==>
      (cs'[z] ==
       if z == subst then cs[node]
       else if z == nil then cs[z]
       else if z == cs[node].left || z == cs[node].right then cs[z].(parent := subst)
       else if z == p then (if cs[p].left == node then cs[z].(left := subst) else cs[z].(right := subst))
       else cs[z])
  }

  /** The links of `node` after `subst` has left its place. */
  lemma TakenLinks(cs: Cells, cs': Cells, node: Node, subst: Node, temp: Node, q: Node)
    requires q in cs && node in cs && temp in cs && IsTakenOut(cs, cs', node, subst, temp, q) && temp != node
        && temp != q
    ensures node in cs' && cs'[node].parent == cs[node].parent && cs'[node].color == cs[node].color
    ensures q != node ==> cs'[node] == cs[node]
    ensures q == node && cs[node].left != subst ==> cs'[node].left == cs[node].left && cs'[node].right == temp
    ensures cs'[temp].parent == if q == node then subst else q
  {
  }

  lemma PutLinks(cs: Cells, cs': Cells, nil: Node, node: Node, subst: Node, p: Node, temp: Node)
    requires {node, p, temp, nil} <= cs.Keys && IsPutIn(cs, cs', nil, node, subst, p) && temp != node && temp != subst
        && node != nil && subst != nil
    requires cs[node].left == temp || cs[node].right == temp ==> cs[temp].parent == subst
    ensures cs'[temp].parent == cs[temp].parent && cs'[nil] == cs[nil]
  {
  }

  lemma TakenAndPut(cs: Cells, cs1: Cells, cs': Cells, nil: Node, node: Node, subst: Node, temp: Node, q: Node, p: Node)
    requires {node, q, p} <= cs.Keys && p != q && temp != q && (p == temp ==> p == nil)
    requires IsTakenOut(cs, cs1, node, subst, temp, q) && IsPutIn(cs1, cs', nil, node, subst, p)
    requires q == node ==> cs[node].left != subst
    requires temp != node && temp != subst && (p == nil || p in cs)
    ensures IsSwapped(cs, cs', nil, node, subst, temp, q, p)
  {
  }

  /** The nodes that the exchange touches are different ones, as far as they are not the sentinel. */
  ghost predicate Swappable(nil: Node, root: Node, node: Node, subst: Node, temp: Node, q: Node?, p: Node?, l: Node?,
        r: Node?) {
    && node != nil && subst != nil && subst != node && q != nil && l != nil && r != nil
    && temp != node && temp != subst && temp != q && (temp == p ==> temp == nil) && temp != l
        && (q != node ==> temp != r)
    && subst != p && subst != q && subst != l && node != p && (q != node ==> r != subst)
    && p != q && l != q && l != p && l != r && r != p && node != l && node != r
    && (p == nil <==> node == root)
  }

  lemma CanSwap(cs: Cells, nil: Node, root: Node, inner: Path, path: Path, c: Color, l: Shape, x: Node, m: Shape)
    requires Zip(cs, nil, root, Append(inner, RightOf(path, c, l, x)), m) && l.Fork? && m.Fork? && m.left.Leaf?
    ensures {x, m.node, Ptr(nil, m.right), Above(inner, x), Above(path, nil)} <= cs.Keys && cs[x].left in cs
        && cs[x].right in cs
    ensures cs[m.node].parent == Above(inner, x) && cs[x].parent == Above(path, nil)
    ensures Swappable(nil, root, x, m.node, Ptr(nil, m.right), Above(inner, x), Above(path, nil), cs[x].left,
          cs[x].right)
    ensures inner.Top? <==> Above(inner, x) == x
  {
    hide Zip, Around, Nodes, Append;
    var whole := Append(inner, RightOf(path, c, l, x));
    OuterLinks(cs, nil, root, inner, path, c, l, x, m);
    ApartFromFocus(cs, nil, root, whole, m);
    UpLinks(cs, nil, root, whole, m);
    DownLinks(cs, nil, root, whole, m);
    NilApart(cs, nil, root, whole, m);
  }

  lemma Swapped(cs: Cells, cs': Cells, nil: Node, root: Node, root': Node,
                inner: Path, path: Path, c: Color, l: Shape, node: Node, t: Shape)
    requires Zip(cs, nil, root, Append(inner, RightOf(path, c, l, node)), t) && t.Fork? && t.left.Leaf?
    requires {node, Above(inner, node), Above(path, nil)} <= cs.Keys
    requires IsSwapped(cs, cs', nil, node, t.node, Ptr(nil, t.right), Above(inner, node), Above(path, nil))
    requires root' == if root == node then t.node else root
    ensures Zip(cs', nil, root', Append(inner, RightOf(path, c, l, t.node)), t.right)
  {
    hide Zip, Append, Around, Nodes;
    var whole := Append(inner, RightOf(path, c, l, node));
    var temp, q, p := Ptr(nil, t.right), Above(inner, node), Above(path, nil);
    OuterLinks(cs, nil, root, inner, path, c, l, node, t);
    ApartFromFocus(cs, nil, root, whole, t);
    var cs1: Cells := map z | z in cs :: SplicedCell(cs, t.node, temp, q, z);
    NotTopAppend(inner, RightOf(path, c, l, node));
    SplicedOut(cs, cs1, nil, root, whole, t);
    OuterLinks(cs1, nil, root, inner, path, c, l, node, t.right);
    assert IsReplaced(cs1, cs', nil, path, node, t.node);
    Replaced(cs1, cs', nil, root, root', inner, path, c, l, node, t.node, t.right);
  }

  lemma NotTopAppend(inner: Path, outer: Path)
    requires !outer.Top?
    ensures !Append(inner, outer).Top?
  {
  }

  /** The focus' root is nowhere else in the tree. */
  lemma ApartFromFocus(cs: Cells, nil: Node, root: Node, path: Path, t: Shape)
    requires Zip(cs, nil, root, path, t) && t.Fork?
    ensures t.node in cs && t.node != nil && t.node !in Around(path) && t.node !in Nodes(t.left)
        && t.node !in Nodes(t.right)
    ensures Above(path, nil) != t.node && nil in cs && Ptr(nil, t.right) != t.node
    ensures Ptr(nil, t.right) !in Around(path) && Ptr(nil, t.left) !in Around(path) && Ptr(nil, t.left) != t.node
    ensures !path.Top? ==> Above(path, nil) in Around(path)
  {
  }

  // ---------- the end of the deletion ----------

  lemma DyeOrder(t: Shape, c: Color)
    ensures InOrder(Dye(t, c)) == InOrder(t)
  {
  }

  /** The only child of the root becomes the root, painted black. */
  lemma RootDropped(cs: Cells, cs': Cells, nil: Node, root: Node, root': Node, t: Shape)
    requires Zip(cs, nil, root, Top, t) && OneChild(t) && root' == Ptr(nil, OnlyChild(t)) && nil in cs'
    requires forall z :: z in cs && z != nil && z != t.node ==>
      z in cs' && cs'[z] == if z == root' then cs[z].(parent := nil, color := Black) else cs[z]
    ensures Zip(cs', nil, root', Top, Dye(OnlyChild(t), Black))
  {
    var c := OnlyChild(t);
    if c.Fork? {
      assert IsTree(cs, nil, c, t.node) && Sep(c);
      FrameTree(cs, cs', nil, c.left, c.node);
      FrameTree(cs, cs', nil, c.right, c.node);
    }
  }

  /** Blackening the focus. */
  lemma FocusBlackened(cs: Cells, cs': Cells, nil: Node, root: Node, path: Path, t: Shape)
    requires Zip(cs, nil, root, path, t) && Recolored(cs, cs', {Ptr(nil, t)}, {})
    ensures Zip(cs', nil, root, path, Dye(t, Black)) && InOrder(Dye(t, Black)) == InOrder(t)
  {
    if t.Leaf? {
      FramePath(cs, cs', nil, path, nil, nil);
    } else {
      Repainted(cs, cs', nil, root, path, t, {t.node}, {});
      PaintedOne(cs, cs', nil, t, Above(path, nil), {t.node}, {});
    }
  }

  /** The links of the sentinel and of nodes outside the tree do not matter. */
  lemma ZipFrame(cs: Cells, cs': Cells, nil: Node, root: Node, path: Path, t: Shape)
    requires Zip(cs, nil, root, path, t) && nil in cs' && AgreeOn(cs, cs', Nodes(t) + Around(path))
    ensures Zip(cs', nil, root, path, t)
  {
    FrameTree(cs, cs', nil, t, Above(path, nil));
    FramePath(cs, cs', nil, path, Ptr(nil, t), nil);
  }

  /** The focus is the root pointer only when nothing surrounds it. */
  lemma FocusIsRoot(cs: Cells, nil: Node, root: Node, path: Path, t: Shape)
    requires Zip(cs, nil, root, path, t) && Ptr(nil, t) in cs
    ensures Ptr(nil, t) == root <==> path.Top?
    ensures t.Fork? ==> cs[t.node].color == t.color
  {
    TopIsAround(path, Ptr(nil, t));
  }

  lemma EmptyOrFork(cs: Cells, nil: Node, root: Node, path: Path, t: Shape)
    requires Zip(cs, nil, root, path, t) && t.Fork?
    ensures t.node in cs && cs[t.node].left == Ptr(nil, t.left) && (t.left.Fork? <==> cs[t.node].left != nil)
  {
  }

  /** An only child is recognised by the sentinel on the other side. */
  lemma LeafThere(cs: Cells, nil: Node, root: Node, path: Path, t: Shape)
    requires Zip(cs, nil, root, path, t) && t.Fork?
    ensures Ptr(nil, t.left) == nil <==> t.left.Leaf?
    ensures Ptr(nil, t.right) == nil <==> t.right.Leaf?
    ensures t.left.Leaf? || t.right.Leaf? ==>
        Ptr(nil, OnlyChild(t)) == if t.left.Leaf? then Ptr(nil, t.right) else Ptr(nil, t.left)
  {
  }

  lemma NilApart(cs: Cells, nil: Node, root: Node, path: Path, t: Shape)
    requires Zip(cs, nil, root, path, t)
    ensures nil !in Nodes(t) + Around(path)
  {
  }

  lemma SideOfHole(cs: Cells, nil: Node, root: Node, path: Path, t: Shape)
    requires Zip(cs, nil, root, path, t) && !path.Top? && Sibling(path).Fork? && path.node in cs
    ensures cs[path.node].left == Ptr(nil, t) <==> path.LeftOf?
  {
  }

  /** Where a node of the shape sits. */
  /** The subtree below a node. */
  ghost function Below(t: Shape, x: Node): Shape {
    match t
    case Leaf => t
    case Fork(_, l, n, r) => if n == x then t else if x in InOrder(l) then Below(l, x) else Below(r, x)
  }

  lemma {:induction false} Locate(t: Shape, x: Node) returns (path: Path, u: Shape)
    requires x in InOrder(t)
    ensures Plug(path, u) == t && u.Fork? && u.node == x && u == Below(t, x)
  {
    if t.node == x {
      path, u := Top, t;
    } else if x in InOrder(t.left) {
      path, u := Locate(t.left, x);
      AppendPlug(path, LeftOf(Top, t.color, t.node, t.right), u);
      path := Append(path, LeftOf(Top, t.color, t.node, t.right));
    } else {
      path, u := Locate(t.right, x);
      AppendPlug(path, RightOf(Top, t.color, t.left, t.node), u);
      path := Append(path, RightOf(Top, t.color, t.left, t.node));
    }
  }

  /** The whole tree, seen from any of its places. */
  lemma {:induction false} ZipFromTop(cs: Cells, nil: Node, root: Node, path: Path, t: Shape)
    requires Zip(cs, nil, root, Top, Plug(path, t))
    ensures Zip(cs, nil, root, path, t)
    decreases path
  {
    if !path.Top? {
      assert Plug(path, t) == Plug(path.up, Parent(path, t));
      ZipFromTop(cs, nil, root, path.up, Parent(path, t));
      ZipDown(cs, nil, root, path.up, Parent(path, t));
    }
  }

  lemma RenamedDelete(inner: Path, path: Path, c: Color, l: Shape, x: Node, y: Node, t: Shape, h: nat)
    ensures var p, p' := Append(inner, RightOf(path, c, l, x)), Append(inner, RightOf(path, c, l, y));
      && (PathBal(p, h) <==> PathBal(p', h)) && (PathOk(p) <==> PathOk(p'))
      && (h > 0 ==> (DeleteOk(p, t, h - 1) <==> DeleteOk(p', t, h - 1)))
  {
    RenamedPath(inner, path, c, l, x, y, h);
  }

  /** The in-order sequence loses exactly the deleted node. */
  lemma ExchangeOrder(inner: Path, path: Path, t: Shape, m: Shape)
    requires t.Fork? && m.Fork? && m.left.Leaf? && Before(inner) == [] && Plug(inner, m) == t.right
    ensures InOrder(Plug(Append(inner, RightOf(path, t.color, t.left, m.node)), m.right)) ==
      Before(path) + InOrder(t.left) + InOrder(t.right) + After(path)
  {
    var outer := RightOf(path, t.color, t.left, m.node);
    PlugOrder(Append(inner, outer), m.right);
    AppendOrder(inner, outer);
    PlugOrder(inner, m);
    assert InOrder(m) == [m.node] + InOrder(m.right);
    Regroup(Before(path), InOrder(t.left), m.node, InOrder(m.right), After(inner), After(path));
  }

  lemma Regroup<T>(a: seq<T>, b: seq<T>, x: T, r: seq<T>, d: seq<T>, e: seq<T>)
    ensures (a + b + [x] + []) + r + (d + e) == a + b + ([] + ([x] + r) + d) + e
  {
  }
}
