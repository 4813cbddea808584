/** What one round of the insertion fix-up does to the shape. */
module RbInsert {
  import opened RbShape
  import opened RbBalance

  /** The grandparent's subtree after a red uncle has been recoloured. */
  ghost function UncleRecolored(path: Path, t: Shape): Shape
    requires !path.Top? && !path.up.Top?
  {
    var p := Dye(Parent(path, t), Black);
    var u := Dye(Sibling(path.up), Black);
    if path.up.LeftOf? then Fork(Red, p, path.up.node, u) else Fork(Red, u, path.up.node, p)
  }

  lemma UncleRecoloredLinks(cs: Cells, cs': Cells, nil: Node, root: Node, path: Path, t: Shape)
    requires Zip(cs, nil, root, path, t)
    requires !path.Top? && !path.up.Top? && Sibling(path.up).Fork?
    requires Recolored(cs, cs', {path.node, Sibling(path.up).node}, {path.up.node})
    ensures Zip(cs', nil, root, path.up.up, UncleRecolored(path, t))
    ensures InOrder(UncleRecolored(path, t)) == InOrder(Parent(path.up, Parent(path, t)))
    ensures Nodes(UncleRecolored(path, t)) == Nodes(Parent(path.up, Parent(path, t)))
  {
    var p := Parent(path, t);
    var g := Parent(path.up, p);
    var u := Sibling(path.up);
    var blacks, reds := {path.node, u.node}, {path.up.node};
    ZipUp(cs, nil, root, path, t);
    ZipUp(cs, nil, root, path.up, p);
    Repainted(cs, cs', nil, root, path.up.up, g, blacks, reds);
    assert IsTree(cs, nil, p, g.node) && IsTree(cs, nil, u, g.node) && Sep(p) && Sep(u);
    Unpainted(cs, cs', nil, t, p.node, blacks, reds);
    Unpainted(cs, cs', nil, Sibling(path), p.node, blacks, reds);
    Unpainted(cs, cs', nil, u.left, u.node, blacks, reds);
    Unpainted(cs, cs', nil, u.right, u.node, blacks, reds);
    assert Paint(cs', u) == Dye(u, Black);
    assert Paint(cs', p) == Dye(p, Black);
  }

  /** The grandparent's subtree once the parent is black and the grandparent red. */
  ghost function ParentBlackened(path: Path, t: Shape): Shape
    requires !path.Top? && !path.up.Top?
  {
    var p := Dye(Parent(path, t), Black);
    if path.up.LeftOf? then Fork(Red, p, path.up.node, Sibling(path.up))
        else Fork(Red, Sibling(path.up), path.up.node, p)
  }

  lemma ParentBlackenedLinks(cs: Cells, cs': Cells, nil: Node, root: Node, path: Path, t: Shape)
    requires Zip(cs, nil, root, path, t)
    requires !path.Top? && !path.up.Top?
    requires Recolored(cs, cs', {path.node}, {path.up.node})
    ensures Zip(cs', nil, root, path.up.up, ParentBlackened(path, t))
    ensures InOrder(ParentBlackened(path, t)) == InOrder(Parent(path.up, Parent(path, t)))
    ensures Nodes(ParentBlackened(path, t)) == Nodes(Parent(path.up, Parent(path, t)))
  {
    var p := Parent(path, t);
    var g := Parent(path.up, p);
    var u := Sibling(path.up);
    var blacks, reds := {path.node}, {path.up.node};
    ZipUp(cs, nil, root, path, t);
    ZipUp(cs, nil, root, path.up, p);
    Repainted(cs, cs', nil, root, path.up.up, g, blacks, reds);
    assert IsTree(cs, nil, p, g.node) && IsTree(cs, nil, u, g.node) && Sep(p) && Sep(u);
    Unpainted(cs, cs', nil, t, p.node, blacks, reds);
    Unpainted(cs, cs', nil, Sibling(path), p.node, blacks, reds);
    Unpainted(cs, cs', nil, u, g.node, blacks, reds);
    assert Paint(cs', p) == Dye(p, Black);
  }

  /** A fresh red node fills an empty place. */
  lemma Attached(cs: Cells, cs': Cells, nil: Node, root: Node, root': Node, path: Path, node: Node)
    requires Zip(cs, nil, root, path, Leaf) && node !in Around(path) && node != nil
    requires nil in cs' && node in cs' && cs'[node] == Cell(nil, nil, Above(path, nil), Red)
    requires Relinked(cs, cs', path, node)
    requires root' == if path.Top? then node else root
    ensures Zip(cs', nil, root', path, Fork(Red, Leaf, node, Leaf))
  {
    RelinkPath(cs, cs', nil, path, nil, node, nil);
  }

  // ---------- the colour discipline during the fix-up ----------

  /** The only possible fault is a red edge between the focus and its parent. */
  ghost predicate InsertOk(path: Path, t: Shape, h: nat) {
    IsRed(t) && NoRedRed(t) && Bal(t, h) && PathBal(path, h) && PathOk(path)
  }

  /** A red node in an empty place of a valid tree. */
  lemma InsertStart(path: Path, node: Node)
    requires RedBlack(Plug(path, Leaf))
    ensures InsertOk(path, Fork(Red, Leaf, node, Leaf), 0)
  {
    var k: nat :| Bal(Plug(path, Leaf), k);
    var h := OpenBal(path, Leaf, k);
    OpenNoRedRed(path, Leaf);
  }

  lemma InsertAbove(path: Path, t: Shape, h: nat)
    requires InsertOk(path, t, h) && RedAbove(path)
    ensures !path.up.Top? && path.up.color.Black? && t.Fork? && t.color.Red? && path.color.Red?
    ensures Depth(path) == 2 + Depth(path.up.up)
  {
    assert Depth(path) == 1 + Depth(path.up);
  }

  lemma UncleRedKeeps(path: Path, t: Shape, h: nat)
    requires InsertOk(path, t, h) && RedAbove(path) && IsRed(Sibling(path.up))
    ensures InsertOk(path.up.up, UncleRecolored(path, t), h + 1)
  {
    assert PathOk(path.up) && PathBal(path.up, h);
    assert PathOk(path.up.up);
  }

  /** Turning an inner child outwards keeps the state of the fix-up. */
  lemma InnerTurnKeeps(path: Path, t: Shape, h: nat)
    requires InsertOk(path, t, h) && RedAbove(path)
    ensures path.RightOf? ==>
        InsertOk(LeftOf(path.up, Red, t.node, t.right), Fork(Red, path.left, path.node, t.left), h)
    ensures path.LeftOf? ==>
        InsertOk(RightOf(path.up, Red, t.left, t.node), Fork(Red, t.right, path.node, path.right), h)
  {
  }

  /** The final rotation removes the red edge. */
  lemma OuterTurnKeeps(path: Path, t: Shape, h: nat)
    requires InsertOk(path, t, h) && RedAbove(path) && !IsRed(Sibling(path.up))
    ensures path.LeftOf? ==>
        InsertOk(LeftOf(path.up.up, Black, path.node, Fork(Red, path.right, path.up.node, Sibling(path.up))), t, h)
    ensures path.RightOf? ==>
        InsertOk(RightOf(path.up.up, Black, Fork(Red, Sibling(path.up), path.up.node, path.left), path.node), t, h)
  {
    assert PathOk(path.up) && PathBal(path.up, h);
  }

  lemma InsertDone(path: Path, t: Shape, h: nat)
    requires InsertOk(path, t, h) && !RedAbove(path)
    ensures RedBlack(Dye(Plug(path, t), Black)) && Plug(path, t).Fork?
  {
    PlugBal(path, t, h);
    PlugNoRedRed(path, t);
    var k: nat :| Bal(Plug(path, t), k);
    PlugFork(path, t);
    Blacken(Plug(path, t), k);
  }
}
