/** The intrusive red-black tree: nodes with parent links and one black sentinel. */
module RedBlackTree {
  import opened RbShape
  import opened RbBalance
  import opened RbInsert
  import opened RbDelete

  /** A snapshot of the node fields. */
  ghost function Snap(s: set<Node>): (cs: Cells)
    reads s
    ensures cs.Keys == s
  {
    map x | x in s :: Cell(x.left, x.right, x.parent, x.color)
  }

  ghost function KeyMap(s: set<Node>): (ks: Keys)
    reads s
    ensures ks.Keys == s
  {
    map x | x in s :: x.key
  }

  lemma KeysAround(s: set<Node>, a: seq<Node>, b: seq<Node>, k: u64)
    requires AllAtMost(KeyMap(s), a, k) && AllAbove(KeyMap(s), b, k)
    requires forall z :: z in a || z in b ==> z in s
    ensures forall z :: z in a ==> z.key <= k
    ensures forall z :: z in b ==> k < z.key
  {
  }

  lemma KeyExcluded(s: set<Node>, a: seq<Node>, b: seq<Node>, k: u64)
    requires AllBelow(KeyMap(s), a, k) && AllAbove(KeyMap(s), b, k)
    ensures forall z :: z in a + b && z in s ==> z.key != k
  {
  }

  // ---------- descending to the place of a key ----------

  /**
   * On the way down in the tree `w`: all that is passed to the left has a key at most `key`, all to the right a
   * greater.
   */
  ghost predicate Descending(cs: Cells, nil: Node, root: Node, ks: Keys, key: u64, w: Shape, path: Path, t: Shape) {
    && Zip(cs, nil, root, path, t) && Plug(path, t) == w && ks.Keys == cs.Keys
    && Sorted(ks, Before(path) + InOrder(t) + After(path)) && InOrder(w) == Before(path) + InOrder(t) + After(path)
    && AllAtMost(ks, Before(path), key) && AllAbove(ks, After(path), key)
    && (!path.Top? ==> path.node in ks)
    && (path.LeftOf? ==> key < ks[path.node]) && (path.RightOf? ==> ks[path.node] <= key)
    && (if path.Top? then t == w else root != nil) && (w.Fork? <==> root != nil) && (t.Fork? <==> Ptr(nil, t) != nil)
  }

  lemma DescendFrom(cs: Cells, nil: Node, root: Node, ks: Keys, key: u64, w: Shape)
    requires Zip(cs, nil, root, Top, w) && ks.Keys == cs.Keys && Sorted(ks, InOrder(w))
    ensures Descending(cs, nil, root, ks, key, w, Top, w) && root == Ptr(nil, w) && (w.Fork? <==> root != nil)
  {
    assert Before(Top) + InOrder(w) + After(Top) == InOrder(w);
    hide Zip, Sorted, InOrder, AllAtMost, AllAbove;
    RootIs(cs, nil, root, w);
    DownLinks(cs, nil, root, Top, w);
    NoKeys(ks, key);
  }

  /** One comparison: to the left of a greater key, to the right otherwise. */
  lemma DescendStep(cs: Cells, nil: Node, root: Node, ks: Keys, key: u64, w: Shape, path: Path, t: Shape)
    requires Descending(cs, nil, root, ks, key, w, path, t) && t.Fork?
    ensures t.node in cs && t.node in ks && t.node != nil
    ensures cs[t.node].left == Ptr(nil, t.left) && cs[t.node].right == Ptr(nil, t.right)
    ensures t.left.Fork? <==> Ptr(nil, t.left) != nil
    ensures t.right.Fork? <==> Ptr(nil, t.right) != nil
    ensures key < ks[t.node] ==> Descending(cs, nil, root, ks, key, w, LeftOf(path, t.color, t.node, t.right), t.left)
    ensures ks[t.node] <= key ==> Descending(cs, nil, root, ks, key, w, RightOf(path, t.color, t.left, t.node), t.right)
  {
    hide Zip, Sorted, InOrder, AllAtMost, AllAbove, Plug, Before, After;
    var l, r := LeftOf(path, t.color, t.node, t.right), RightOf(path, t.color, t.left, t.node);
    DownLinks(cs, nil, root, path, t);
    StepDown(cs, nil, root, path, t);
    DownLinks(cs, nil, root, l, t.left);
    DownLinks(cs, nil, root, r, t.right);
    SidesOf(ks, InOrder(w), Before(path), InOrder(t.left), t.node, InOrder(t.right), After(path), key);
    assert [t.node] + InOrder(t.right) + After(path) == After(l);
  }

  lemma DescendTo(cs: Cells, nil: Node, root: Node, ks: Keys, key: u64, w: Shape, path: Path)
    requires Descending(cs, nil, root, ks, key, w, path, Leaf)
    ensures Zip(cs, nil, root, path, Leaf) && Plug(path, Leaf) == w && Before(path) + After(path) == InOrder(w)
    ensures AllAtMost(ks, Before(path), key) && AllAbove(ks, After(path), key)
    ensures !path.Top? ==> path.node in ks
    ensures (path.LeftOf? ==> key < ks[path.node]) && (path.RightOf? ==> ks[path.node] <= key)
    ensures path.Top? <==> root == nil
  {
    assert Before(path) + InOrder(Leaf) == Before(path);
    hide Zip, Sorted, AllAtMost, AllAbove;
    if path.Top? {
      RootIs(cs, nil, root, Leaf);
    }
  }

  // ---------- searching a key ----------

  /** On the way down: all keys to the left are less than `key`, all to the right greater, after `steps` links. */
  ghost predicate Searching(cs: Cells, nil: Node, root: Node, ks: Keys, key: u64, w: Shape, path: Path, t: Shape,
                            steps: nat) {
    && Zip(cs, nil, root, path, t) && ks.Keys == cs.Keys
    && Sorted(ks, InOrder(w)) && InOrder(w) == Before(path) + InOrder(t) + After(path)
    && AllBelow(ks, Before(path), key) && AllAbove(ks, After(path), key)
    && steps + Height(t) <= Height(w)
  }

  lemma SearchFrom(cs: Cells, nil: Node, root: Node, ks: Keys, key: u64, w: Shape)
    requires Zip(cs, nil, root, Top, w) && ks.Keys == cs.Keys && Sorted(ks, InOrder(w))
    ensures Searching(cs, nil, root, ks, key, w, Top, w, 0) && root == Ptr(nil, w) && (w.Fork? <==> root != nil)
  {
    assert Before(Top) + InOrder(w) + After(Top) == InOrder(w);
    hide Zip, Sorted, InOrder, AllBelow, AllAbove;
    RootIs(cs, nil, root, w);
    DownLinks(cs, nil, root, Top, w);
    NoKeysStrict(ks, key);
  }

  lemma SearchStep(cs: Cells, nil: Node, root: Node, ks: Keys, key: u64, w: Shape, path: Path, t: Shape, steps: nat)
    requires Searching(cs, nil, root, ks, key, w, path, t, steps) && t.Fork?
    ensures t.node in cs && t.node in ks && t.node != nil
    ensures cs[t.node].left == Ptr(nil, t.left) && cs[t.node].right == Ptr(nil, t.right)
    ensures t.left.Fork? <==> Ptr(nil, t.left) != nil
    ensures t.right.Fork? <==> Ptr(nil, t.right) != nil
    ensures key < ks[t.node] ==>
              Searching(cs, nil, root, ks, key, w, LeftOf(path, t.color, t.node, t.right), t.left, steps + 1)
    ensures ks[t.node] < key ==>
              Searching(cs, nil, root, ks, key, w, RightOf(path, t.color, t.left, t.node), t.right, steps + 1)
  {
    hide Zip, Sorted, InOrder, AllBelow, AllAbove, Plug, Before, After;
    var l, r := LeftOf(path, t.color, t.node, t.right), RightOf(path, t.color, t.left, t.node);
    DownLinks(cs, nil, root, path, t);
    StepDown(cs, nil, root, path, t);
    DownLinks(cs, nil, root, l, t.left);
    DownLinks(cs, nil, root, r, t.right);
    SearchSides(ks, InOrder(w), Before(path), InOrder(t.left), t.node, InOrder(t.right), After(path), key);
  }

  lemma SearchTo(cs: Cells, nil: Node, root: Node, ks: Keys, key: u64, w: Shape, path: Path, t: Shape, steps: nat)
    requires Searching(cs, nil, root, ks, key, w, path, t, steps)
    ensures AllBelow(ks, Before(path), key) && AllAbove(ks, After(path), key) && steps <= Height(w)
    ensures t.Leaf? ==> InOrder(w) == Before(path) + After(path)
    ensures t.Fork? ==> t.node in InOrder(w)
  {
    hide Zip, Sorted, InOrder, AllBelow, AllAbove;
    OpenOrder(t);
    assert t.Leaf? ==> Before(path) + [] == Before(path);
  }

  class RbTree {
    var root: Node
    const sentinel: Node
    ghost var shape: Shape

    constructor ()
      ensures Valid() && fresh(sentinel) && Order() == []
    {
      var s := new Node(0);
      root, sentinel, shape := s, s, Leaf;
      new;
      sentinel.left := sentinel;
      sentinel.right := sentinel;
      sentinel.parent := sentinel;
      sentinel.color := Black;
      assert Bal(Leaf, 0);
    }

    ghost function Repr(): set<Node>
      reads this
    {
      Nodes(shape) + {sentinel}
    }

    /** The nodes of the tree from the least key to the greatest. */
    ghost function Order(): seq<Node>
      reads this
    {
      InOrder(shape)
    }

    /** The sentinel is black and its own neighbour. */
    ghost predicate SentinelOk()
      reads sentinel
    {
      sentinel.color == Black && sentinel.left == sentinel && sentinel.right == sentinel && sentinel.parent == sentinel
    }

    ghost predicate Valid()
      reads this, Repr()
    {
      && Zip(Snap(Repr()), sentinel, root, Top, shape)
      && SentinelOk()
      && RedBlack(shape)
      && Sorted(KeyMap(Repr()), Order())
    }

    /** The nodes of `s` form one tree, seen from the subtree `t`. */
    ghost predicate At(s: set<Node>, path: Path, t: Shape)
      reads this, s
    {
      Zip(Snap(s), sentinel, root, path, t)
    }

    // ---------- rotations ----------

    method LeftRotate(x: Node, ghost s: set<Node>)
      requires x in s && sentinel in s && x.right in s
      requires x != sentinel && x.right != sentinel ==>
          Rotatable(Snap(s), sentinel, root, x, x.right, x.right.left, x.parent)
      modifies this`root, s`left, s`right, s`parent
      ensures if x == sentinel || old(x.right) == sentinel then
          root == old(root) && Snap(s) == old(Snap(s))
        else
          root == (if old(root) == x then old(x.right) else old(root)) &&
          IsRotated(old(Snap(s)), Snap(s), sentinel, x, old(x.right), old(x.right.left), old(x.parent), L)
    {
      if x == sentinel {
        return;
      }
      var y := x.right;
      if y == sentinel {
        return;
      }
      x.right := y.left;
      if y.left != sentinel {
        y.left.parent := x;
      }
      y.parent := x.parent;
      if x == root {
        root := y;
      } else if x == x.parent.left {
        x.parent.left := y;
      } else {
        x.parent.right := y;
      }
      x.parent := y;
      y.left := x;
    }

    method RightRotate(x: Node, ghost s: set<Node>)
      requires x in s && sentinel in s && x.left in s
      requires x != sentinel && x.left != sentinel ==>
          Rotatable(Snap(s), sentinel, root, x, x.left, x.left.right, x.parent)
      modifies this`root, s`left, s`right, s`parent
      ensures if x == sentinel || old(x.left) == sentinel then
          root == old(root) && Snap(s) == old(Snap(s))
        else
          root == (if old(root) == x then old(x.left) else old(root)) &&
          IsRotated(old(Snap(s)), Snap(s), sentinel, x, old(x.left), old(x.left.right), old(x.parent), R)
    {
      if x == sentinel {
        return;
      }
      var y := x.left;
      if y == sentinel {
        return;
      }
      x.left := y.right;
      if y.right != sentinel {
        y.right.parent := x;
      }
      y.parent := x.parent;
      if x == root {
        root := y;
      } else if x == x.parent.left {
        x.parent.left := y;
      } else {
        x.parent.right := y;
      }
      x.parent := y;
      y.right := x;
    }

    /** The left rotation, seen on the shape. */
    method TurnLeft(x: Node, ghost path: Path, ghost t: Shape, ghost s: set<Node>)
      requires At(s, path, t) && t.Fork? && t.right.Fork? && x == t.node
      modifies this`root, s`left, s`right, s`parent
      ensures At(s, path, RotateLeft(t)) && InOrder(RotateLeft(t)) == InOrder(t)
      ensures sentinel.parent == old(sentinel.parent) && sentinel.left == old(sentinel.left)
          && sentinel.right == old(sentinel.right)
    {
      ghost var cs := Snap(s);
      CanRotateLeft(cs, sentinel, root, path, t);
      LeftRotate(x, s);
      RotatedLeft(cs, Snap(s), sentinel, old(root), root, path, t);
      RotateLeftOrder(t);
      assert Snap(s)[sentinel] == cs[sentinel];
    }

    method TurnRight(x: Node, ghost path: Path, ghost t: Shape, ghost s: set<Node>)
      requires At(s, path, t) && t.Fork? && t.left.Fork? && x == t.node
      modifies this`root, s`left, s`right, s`parent
      ensures At(s, path, RotateRight(t)) && InOrder(RotateRight(t)) == InOrder(t)
      ensures sentinel.parent == old(sentinel.parent) && sentinel.left == old(sentinel.left)
          && sentinel.right == old(sentinel.right)
    {
      ghost var cs := Snap(s);
      CanRotateRight(cs, sentinel, root, path, t);
      RightRotate(x, s);
      RotatedRight(cs, Snap(s), sentinel, old(root), root, path, t);
      RotateRightOrder(t);
      assert Snap(s)[sentinel] == cs[sentinel];
    }

    // ---------- insertion ----------

    /** Recolouring of a red uncle; the grandparent becomes the new focus. */
    method PaintUncle(node: Node, x: Node, ghost s: set<Node>) returns (up: Node)
      requires node in s && x in s && node.parent in s && node.parent.parent in s
      modifies s`color
      ensures up == node.parent.parent
      ensures Recolored(old(Snap(s)), Snap(s), {node.parent, x}, {up})
    {
      node.parent.color := Black;
      x.color := Black;
      node.parent.parent.color := Red;
      up := node.parent.parent;
    }

    /** Black parent, red grandparent. */
    method PaintParent(node: Node, ghost s: set<Node>)
      requires node in s && node.parent in s && node.parent.parent in s
      modifies s`color
      ensures Recolored(old(Snap(s)), Snap(s), {node.parent}, {node.parent.parent})
    {
      node.parent.color := Black;
      node.parent.parent.color := Red;
    }

    /** The state of the insertion fix-up at `node`. */
    ghost predicate Inserting(s: set<Node>, path: Path, t: Shape, h: nat, node: Node)
      reads this, s
    {
      At(s, path, t) && InsertOk(path, t, h) && t.Fork? && node == t.node && sentinel in s && SentinelOk()
    }

    method RecolorRound(node: Node, x: Node, ghost path: Path, ghost t: Shape, ghost h: nat, ghost s: set<Node>)
      returns (node': Node, ghost path': Path, ghost t': Shape, ghost h': nat)
      requires Inserting(s, path, t, h, node) && RedAbove(path) && IsRed(Sibling(path.up)) && x == Sibling(path.up).node
      modifies s`color
      ensures Inserting(s, path', t', h', node') && Depth(path') < Depth(path)
      ensures InOrder(Plug(path', t')) == InOrder(Plug(path, t))
    {
      hide Zip, InsertOk, InOrder;
      ghost var cs := Snap(s);
      ghost var p := Parent(path, t);
      InsertAbove(path, t, h);
      UpLinks(cs, sentinel, root, path, t);
      ZipUp(cs, sentinel, root, path, t);
      UpLinks(cs, sentinel, root, path.up, p);
      node' := PaintUncle(node, x, s);
      UncleRecoloredLinks(cs, Snap(s), sentinel, root, path, t);
      UncleRedKeeps(path, t, h);
      path', t', h' := path.up.up, UncleRecolored(path, t), h + 1;
      PlugSameOrder(path', t', Parent(path.up, p));
      assert Snap(s)[sentinel] == cs[sentinel];
    }

    /** An inner child of a left parent is turned out; the parent becomes the focus. */
    method TurnLeftInner(node: Node, ghost path: Path, ghost t: Shape, ghost h: nat, ghost s: set<Node>)
      returns (node': Node, ghost path': Path, ghost t': Shape)
      requires Inserting(s, path, t, h, node) && RedAbove(path) && path.RightOf?
      modifies this`root, s`left, s`right, s`parent
      ensures Inserting(s, path', t', h, node') && path'.LeftOf? && RedAbove(path') && path'.up == path.up
      ensures Depth(path') == Depth(path) && InOrder(Plug(path', t')) == InOrder(Plug(path, t))
    {
      hide Zip, InsertOk, InOrder;
      InsertAbove(path, t, h);
      UpLinks(Snap(s), sentinel, root, path, t);
      node' := node.parent;
      ghost var p := Parent(path, t);
      ZipUp(Snap(s), sentinel, root, path, t);
      TurnLeft(node', path.up, p, s);
      InnerTurnKeeps(path, t, h);
      path', t' := LeftOf(path.up, Red, t.node, t.right), Fork(Red, path.left, path.node, t.left);
      ZipDown(Snap(s), sentinel, root, path.up, RotateLeft(p));
      PlugSameOrder(path.up, p, RotateLeft(p));
    }

    /** The closing round below a left parent: the grandparent is turned down. */
    method TurnLeftOuter(node: Node, ghost path: Path, ghost t: Shape, ghost h: nat, ghost s: set<Node>)
      returns (ghost path': Path)
      requires Inserting(s, path, t, h, node) && RedAbove(path) && path.LeftOf? && path.up.LeftOf?
          && !IsRed(Sibling(path.up))
      modifies this`root, s`left, s`right, s`parent, s`color
      ensures Inserting(s, path', t, h, node) && Depth(path') < Depth(path)
      ensures InOrder(Plug(path', t)) == InOrder(Plug(path, t))
    {
      hide Zip, InsertOk, InOrder;
      InsertAbove(path, t, h);
      UpLinks(Snap(s), sentinel, root, path, t);
      ghost var p, g := Parent(path, t), Parent(path.up, Parent(path, t));
      ZipUp(Snap(s), sentinel, root, path, t);
      UpLinks(Snap(s), sentinel, root, path.up, p);
      ghost var cs := Snap(s);
      PaintParent(node, s);
      ParentBlackenedLinks(cs, Snap(s), sentinel, root, path, t);
      ghost var b := ParentBlackened(path, t);
      TurnRight(node.parent.parent, path.up.up, b, s);
      OuterTurnKeeps(path, t, h);
      path' := LeftOf(path.up.up, Black, path.node, Fork(Red, path.right, path.up.node, Sibling(path.up)));
      PlugSameOrder(path.up.up, g, RotateRight(b));
      ZipDown(Snap(s), sentinel, root, path.up.up, RotateRight(b));
      assert cs[sentinel] == old(Snap(s))[sentinel];
    }

    /** One round of the fix-up below a parent that is a left child. */
    method FixLeft(node: Node, ghost path: Path, ghost t: Shape, ghost h: nat, ghost s: set<Node>)
      returns (node': Node, ghost path': Path, ghost t': Shape, ghost h': nat)
      requires Inserting(s, path, t, h, node) && RedAbove(path) && path.up.LeftOf?
      modifies this`root, s`left, s`right, s`parent, s`color
      ensures Inserting(s, path', t', h', node') && Depth(path') < Depth(path)
      ensures InOrder(Plug(path', t')) == InOrder(Plug(path, t))
    {
      hide Zip, InsertOk, InOrder;
      InsertAbove(path, t, h);
      UpLinks(Snap(s), sentinel, root, path, t);
      ZipUp(Snap(s), sentinel, root, path, t);
      UpLinks(Snap(s), sentinel, root, path.up, Parent(path, t));
      var x := node.parent.parent.right;
      if x.color == Red {
        node', path', t', h' := RecolorRound(node, x, path, t, h, s);
      } else {
        node', path', t', h' := node, path, t, h;
        if node == node.parent.right {
          node', path', t' := TurnLeftInner(node, path, t, h, s);
        }
        path' := TurnLeftOuter(node', path', t', h, s);
      }
    }

    /** An inner child of a right parent is turned out; the parent becomes the focus. */
    method TurnRightInner(node: Node, ghost path: Path, ghost t: Shape, ghost h: nat, ghost s: set<Node>)
      returns (node': Node, ghost path': Path, ghost t': Shape)
      requires Inserting(s, path, t, h, node) && RedAbove(path) && path.LeftOf?
      modifies this`root, s`left, s`right, s`parent
      ensures Inserting(s, path', t', h, node') && path'.RightOf? && RedAbove(path') && path'.up == path.up
      ensures Depth(path') == Depth(path) && InOrder(Plug(path', t')) == InOrder(Plug(path, t))
    {
      hide Zip, InsertOk, InOrder;
      InsertAbove(path, t, h);
      UpLinks(Snap(s), sentinel, root, path, t);
      node' := node.parent;
      ghost var p := Parent(path, t);
      ZipUp(Snap(s), sentinel, root, path, t);
      TurnRight(node', path.up, p, s);
      InnerTurnKeeps(path, t, h);
      path', t' := RightOf(path.up, Red, t.left, t.node), Fork(Red, t.right, path.node, path.right);
      ZipDown(Snap(s), sentinel, root, path.up, RotateRight(p));
      PlugSameOrder(path.up, p, RotateRight(p));
    }

    /** The closing round below a right parent: the grandparent is turned down. */
    method TurnRightOuter(node: Node, ghost path: Path, ghost t: Shape, ghost h: nat, ghost s: set<Node>)
      returns (ghost path': Path)
      requires Inserting(s, path, t, h, node) && RedAbove(path) && path.RightOf? && path.up.RightOf?
          && !IsRed(Sibling(path.up))
      modifies this`root, s`left, s`right, s`parent, s`color
      ensures Inserting(s, path', t, h, node) && Depth(path') < Depth(path)
      ensures InOrder(Plug(path', t)) == InOrder(Plug(path, t))
    {
      hide Zip, InsertOk, InOrder;
      InsertAbove(path, t, h);
      UpLinks(Snap(s), sentinel, root, path, t);
      ghost var p, g := Parent(path, t), Parent(path.up, Parent(path, t));
      ZipUp(Snap(s), sentinel, root, path, t);
      UpLinks(Snap(s), sentinel, root, path.up, p);
      ghost var cs := Snap(s);
      PaintParent(node, s);
      ParentBlackenedLinks(cs, Snap(s), sentinel, root, path, t);
      ghost var b := ParentBlackened(path, t);
      TurnLeft(node.parent.parent, path.up.up, b, s);
      OuterTurnKeeps(path, t, h);
      path' := RightOf(path.up.up, Black, Fork(Red, Sibling(path.up), path.up.node, path.left), path.node);
      PlugSameOrder(path.up.up, g, RotateLeft(b));
      ZipDown(Snap(s), sentinel, root, path.up.up, RotateLeft(b));
      assert cs[sentinel] == old(Snap(s))[sentinel];
    }

    /** One round of the fix-up below a parent that is a right child. */
    method FixRight(node: Node, ghost path: Path, ghost t: Shape, ghost h: nat, ghost s: set<Node>)
      returns (node': Node, ghost path': Path, ghost t': Shape, ghost h': nat)
      requires Inserting(s, path, t, h, node) && RedAbove(path) && path.up.RightOf?
      modifies this`root, s`left, s`right, s`parent, s`color
      ensures Inserting(s, path', t', h', node') && Depth(path') < Depth(path)
      ensures InOrder(Plug(path', t')) == InOrder(Plug(path, t))
    {
      hide Zip, InsertOk, InOrder;
      InsertAbove(path, t, h);
      UpLinks(Snap(s), sentinel, root, path, t);
      ZipUp(Snap(s), sentinel, root, path, t);
      UpLinks(Snap(s), sentinel, root, path.up, Parent(path, t));
      var x := node.parent.parent.left;
      if x.color == Red {
        node', path', t', h' := RecolorRound(node, x, path, t, h, s);
      } else {
        node', path', t', h' := node, path, t, h;
        if node == node.parent.left {
          node', path', t' := TurnRightInner(node, path, t, h, s);
        }
        path' := TurnRightOuter(node', path', t', h, s);
      }
    }

    method BlackenRoot(node: Node, ghost path: Path, ghost t: Shape, ghost h: nat, ghost s: set<Node>)
      requires Inserting(s, path, t, h, node) && !RedAbove(path)
      modifies this`shape, s`color
      ensures At(s, Top, shape) && RedBlack(shape) && Order() == InOrder(Plug(path, t)) && SentinelOk()
    {
      hide Zip, InsertOk, InOrder;
      ghost var w := Plug(path, t);
      ghost var cs := Snap(s);
      ZipToTop(cs, sentinel, root, path, t);
      InsertDone(path, t, h);
      RootIs(cs, sentinel, root, w);
      root.color := Black;
      RootBlackened(cs, Snap(s), sentinel, root, w);
      shape := Dye(w, Black);
    }

    /** The insertion fix-up: from a red node with possibly a red parent to a valid tree. */
    method FixInsert(node0: Node, ghost path0: Path, ghost t0: Shape, ghost h0: nat, ghost s: set<Node>)
      requires Inserting(s, path0, t0, h0, node0)
      modifies this`root, this`shape, s`left, s`right, s`parent, s`color
      ensures At(s, Top, shape) && RedBlack(shape)
      ensures Order() == InOrder(Plug(path0, t0)) && SentinelOk()
    {
      hide Zip, InsertOk, InOrder;
      var node := node0;
      ghost var path, t, h := path0, t0, h0;
      UpLinks(Snap(s), sentinel, root, path, t);
      while node.parent.color == Red
        invariant Inserting(s, path, t, h, node)
        invariant node.parent == Above(path, sentinel) && node.parent in s
            && (node.parent.color == Red <==> RedAbove(path))
        invariant InOrder(Plug(path, t)) == InOrder(Plug(path0, t0))
        decreases Depth(path)
      {
        InsertAbove(path, t, h);
        ZipUp(Snap(s), sentinel, root, path, t);
        UpLinks(Snap(s), sentinel, root, path.up, Parent(path, t));
        if node.parent == node.parent.parent.left {
          node, path, t, h := FixLeft(node, path, t, h, s);
        } else {
          node, path, t, h := FixRight(node, path, t, h, s);
        }
        UpLinks(Snap(s), sentinel, root, path, t);
      }
      BlackenRoot(node, path, t, h, s);
    }

    ghost function Touched(node: Node?): set<Node>
      reads this
    {
      Repr() + if node == null then {} else {node}
    }

    /** The place for a key: after the last node with a key at most as large. */
    method Descend(key: u64, ghost ks: Keys) returns (up: Node, ghost path: Path)
      requires Valid() && ks == KeyMap(Repr())
      ensures At(Repr(), path, Leaf) && up == Above(path, sentinel)
      ensures Plug(path, Leaf) == shape && Before(path) + After(path) == Order()
      ensures AllAtMost(ks, Before(path), key) && AllAbove(ks, After(path), key)
      ensures (path.LeftOf? ==> key < up.key) && (path.RightOf? ==> up.key <= key)
      ensures path.Top? <==> root == sentinel
    {
      hide Zip, RedBlack, Sorted, AllAtMost, AllAbove, Descending, Plug, InOrder;
      var x := root;
      up := sentinel;
      ghost var cs := Snap(Repr());
      ghost var t := shape;
      path := Top;
      DescendFrom(cs, sentinel, root, ks, key, shape);
      while x != sentinel
        invariant Descending(cs, sentinel, root, ks, key, shape, path, t)
        invariant x == Ptr(sentinel, t) && up == Above(path, sentinel) && (t.Fork? <==> x != sentinel)
        decreases t
      {
        DescendStep(cs, sentinel, root, ks, key, shape, path, t);
        if key < x.key {
          up := x;
          x := x.left;
          path, t := LeftOf(path, t.color, t.node, t.right), t.left;
        } else {
          up := x;
          x := x.right;
          path, t := RightOf(path, t.color, t.left, t.node), t.right;
        }
      }
      DescendTo(cs, sentinel, root, ks, key, shape, path);
    }

    /** Links a red node in the empty place found for its key. */
    method Attach(node: Node, up: Node, ghost path: Path)
      requires At(Repr(), path, Leaf) && node !in Repr() && node !in Around(path) && up == Above(path, sentinel)
      requires (path.LeftOf? ==> node.key < up.key) && (path.RightOf? ==> up.key <= node.key)
      requires path.Top? <==> root == sentinel
      modifies this`root, Repr()`left, Repr()`right, node`left, node`right, node`parent, node`color
      ensures At(Repr() + {node}, path, Fork(Red, Leaf, node, Leaf))
      ensures Snap(Repr())[sentinel] == old(Snap(Repr()))[sentinel]
    {
      ghost var cs := Snap(Repr());
      assert up in Repr() && (up == sentinel <==> path.Top?);
      node.parent := up;
      node.left := sentinel;
      node.right := sentinel;
      node.color := Red;
      if root == sentinel {
        root := node;
      } else if node.key < up.key {
        up.left := node;
      } else {
        up.right := node;
      }
      ghost var cs' := Snap(Repr() + {node});
      assert Relinked(cs, cs', path, node);
      Attached(cs, cs', sentinel, old(root), root, path, node);
    }

    /** Descend, attach and fix up: all of the insertion but the keys. */
    method Link(node: Node, ghost ks: Keys) returns (ghost a: seq<Node>, ghost b: seq<Node>)
      requires Valid() && ks == KeyMap(Repr()) && node != sentinel && node !in Repr()
      modifies this`root, this`shape, Touched(node)`left, Touched(node)`right, Touched(node)`parent, Touched(node)`color
      ensures At(old(Repr()) + {node}, Top, shape) && RedBlack(shape) && SentinelOk()
      ensures old(Order()) == a + b && Order() == a + [node] + b
      ensures AllAtMost(ks, a, node.key) && AllAbove(ks, b, node.key)
    {
      hide Zip, RedBlack, Sorted, InOrder, Nodes, Plug, AllAtMost, AllAbove;
      var up;
      ghost var path;
      up, path := Descend(node.key, ks);
      a, b := Before(path), After(path);
      Hang(node, up, path);
      PlugOrder(path, Fork(Red, Leaf, node, Leaf));
      SingletonOrder(Fork(Red, Leaf, node, Leaf));
    }

    /** Attach in an empty place, and fix up. */
    method Hang(node: Node, up: Node, ghost path: Path)
      requires Valid() && node != sentinel && node !in Repr()
      requires At(Repr(), path, Leaf) && Plug(path, Leaf) == shape && up == Above(path, sentinel)
      requires (path.LeftOf? ==> node.key < up.key) && (path.RightOf? ==> up.key <= node.key)
      requires path.Top? <==> root == sentinel
      modifies this`root, this`shape, Touched(node)`left, Touched(node)`right, Touched(node)`parent, Touched(node)`color
      ensures At(old(Repr()) + {node}, Top, shape) && RedBlack(shape) && SentinelOk()
      ensures Order() == InOrder(Plug(path, Fork(Red, Leaf, node, Leaf)))
    {
      hide Zip, RedBlack, Sorted, InsertOk, InOrder, Nodes, Plug;
      ghost var s := Repr() + {node};
      ZipToTop(Snap(Repr()), sentinel, root, path, Leaf);
      Attach(node, up, path);
      InsertStart(path, node);
      FixInsert(node, path, Fork(Red, Leaf, node, Leaf), 0, s);
    }

    /** Inserts after the last node whose key is at most as large. */
    method Insert(node: Node?) returns (ghost a: seq<Node>, ghost b: seq<Node>)
      requires Valid() && (node != null ==> node !in Order())
      modifies this`root, this`shape, Touched(node)`left, Touched(node)`right, Touched(node)`parent, Touched(node)`color
      ensures Valid() && old(Order()) == a + b
      ensures Order() == if node == null || node == sentinel then a + b else a + [node] + b
      ensures node != null && node != sentinel ==>
        (forall z :: z in a ==> z.key <= node.key) && (forall z :: z in b ==> node.key < z.key)
    {
      hide Zip, RedBlack, Sorted, InOrder, Nodes, AllAtMost, AllAbove;
      if node == null || node == sentinel {
        return Order(), [];
      }
      ghost var before, order, ks0, s := shape, Order(), KeyMap(Repr()), Repr() + {node};
      ghost var ks := KeyMap(s);
      NodesAreOrder(shape);
      a, b := Link(node, ks0);
      assert KeyMap(s) == ks;
      KeysGrow(ks0, ks, before, a, b, node.key);
      SortedInsert(ks, order, a, node, b);
      NodesGrow(before, shape, a, node, b);
      KeysAround(s, a, b, node.key);
      assert Repr() == s;
    }

    // ---------- deletion ----------

    /** The state of the deletion fix-up at `temp`, which may be the sentinel. */
    ghost predicate Deleting(s: set<Node>, path: Path, t: Shape, h: nat, temp: Node)
      reads this, s
    {
      && At(s, path, t) && DeleteOk(path, t, h) && temp == Ptr(sentinel, t)
      && sentinel in s && sentinel.color == Black && sentinel.left == sentinel && sentinel.right == sentinel
      && temp in s && temp.parent == Above(path, sentinel)
    }

    /** The sibling takes the parent's colour, the parent and the far nephew turn black. */
    method PaintLast(p: Node, w: Node, f: Node, ghost s: set<Node>)
      requires p in s && w in s && f in s && p != w && w != f
      modifies s`color
      ensures Recolored(old(Snap(s)), Snap(s), {p, f} + (if old(p.color).Red? then {} else {w}),
            if old(p.color).Red? then {w} else {})
    {
      w.color := p.color;
      p.color := Black;
      f.color := Black;
    }

    /** Two black nephews: the sibling turns red, the missing black moves to the parent. */
    method BlackNephews(temp: Node, w: Node, ghost path: Path, ghost t: Shape, ghost h: nat, ghost s: set<Node>)
      returns (up: Node, ghost t': Shape, ghost h': nat)
      requires Deleting(s, path, t, h, temp) && !path.Top? && !IsRed(t)
      requires Sibling(path).Fork? && !IsRed(Sibling(path)) && w == Sibling(path).node
      requires !IsRed(Near(path, Sibling(path))) && !IsRed(Far(path, Sibling(path)))
      modifies s`color
      ensures Deleting(s, path.up, t', h', up) && (path.color.Red? ==> IsRed(t'))
      ensures InOrder(Plug(path.up, t')) == InOrder(Plug(path, t))
    {
      hide Zip, DeleteOk, InOrder, Paint, Nodes, Around;
      ghost var cs := Snap(s);
      HoleLinks(cs, sentinel, root, path, t);
      w.color := Red;
      up := temp.parent;
      SiblingReddened(cs, Snap(s), sentinel, root, path, t);
      ghost var path' := Reset(path, path.color, Dye(Sibling(path), Red));
      t', h' := Parent(path', t), if path.color.Red? then h else h + 1;
      ZipUp(Snap(s), sentinel, root, path', t);
      BlackNephewsKeep(path, t, h, Sibling(path));
      PlugSameOrder(path.up, Parent(path, t), t');
    }

    /** A red sibling of a left focus: it turns up, and a black one takes its place. */
    method RedSiblingLeft(temp: Node, w0: Node, ghost path: Path, ghost t: Shape, ghost h: nat, ghost s: set<Node>)
      returns (w': Node, ghost path': Path)
      requires Deleting(s, path, t, h, temp) && path.LeftOf? && IsRed(Sibling(path)) && w0 == Sibling(path).node
      modifies this`root, s`left, s`right, s`parent, s`color
      ensures Deleting(s, path', t, h, temp) && path'.LeftOf? && path'.color.Red? && Depth(path') <= 1 + Depth(path)
      ensures Sibling(path').Fork? && !IsRed(Sibling(path')) && w' == Sibling(path').node
      ensures InOrder(Plug(path', t)) == InOrder(Plug(path, t))
    {
      hide Zip, DeleteOk, InOrder, Paint, Nodes, Around;
      ghost var cs, w := Snap(s), Sibling(path);
      HoleLinks(cs, sentinel, root, path, t);
      w0.color := Black;
      temp.parent.color := Red;
      RedSiblingPainted(cs, Snap(s), sentinel, root, path, t);
      ghost var path1 := Reset(path, Red, Dye(w, Black));
      ghost var p := Parent(path1, t);
      ZipUp(Snap(s), sentinel, root, path1, t);
      TurnLeft(temp.parent, path.up, p, s);
      path' := Sunk(path);
      assert RotateLeft(p) == Parent(path'.up, Parent(path', t));
      SunkSeen(Snap(s), sentinel, root, path, t);
      RedSiblingKeeps(path, t, h);
      SiblingThere(path', t, h);
      HoleLinks(Snap(s), sentinel, root, path', t);
      PlugSameOrder(path.up, Parent(path, t), p);
      PlugSameOrder(path.up, p, RotateLeft(p));
      w' := temp.parent.right;
    }

    /** A red near nephew of a left focus is turned up in the sibling's place. */
    method RedNephewLeft(temp: Node, w: Node, ghost path: Path, ghost t: Shape, ghost h: nat, ghost s: set<Node>)
      returns (w': Node, ghost s': Shape)
      requires Deleting(s, path, t, h, temp) && path.LeftOf? && Sibling(path).Fork? && !IsRed(Sibling(path))
          && w == Sibling(path).node
      requires IsRed(Near(path, Sibling(path)))
      modifies this`root, s`left, s`right, s`parent, s`color
      ensures s' == RotateRight(Nephews(path, Red, Dye(Near(path, Sibling(path)), Black), w, Far(path, Sibling(path))))
      ensures At(s, Reset(path, path.color, s'), t) && w' == Ptr(sentinel, s') && temp.parent == path.node
      ensures InOrder(Plug(Reset(path, path.color, s'), t)) == InOrder(Plug(path, t))
      ensures sentinel.color == Black && sentinel.left == sentinel && sentinel.right == sentinel
    {
      hide Zip, DeleteOk, InOrder, Paint, Nodes, Around;
      ghost var cs, u := Snap(s), Sibling(path);
      HoleLinks(cs, sentinel, root, path, t);
      ZipAcross(cs, sentinel, root, path, t);
      DownLinks(cs, sentinel, root, Across(path, t), u);
      ZipDown(cs, sentinel, root, Across(path, t), u);
      DownLinks(cs, sentinel, root, LeftOf(Across(path, t), u.color, u.node, u.right), u.left);
      w.color := Red;
      w.left.color := Black;
      RedNephewPainted(cs, Snap(s), sentinel, root, path, t);
      ghost var u1 := Nephews(path, Red, Dye(u.left, Black), w, u.right);
      ghost var path1 := Reset(path, path.color, u1);
      ZipAcross(Snap(s), sentinel, root, path1, t);
      TurnRight(w, Across(path1, t), u1, s);
      s' := RotateRight(u1);
      ZipAcross(Snap(s), sentinel, root, Across(path1, t), s');
      HoleLinks(Snap(s), sentinel, root, Reset(path, path.color, s'), t);
      PlugSameOrder(path.up, Parent(path, t), Parent(path1, t));
      SiblingSameOrder(path1, t, s');
      w' := temp.parent.right;
    }

    /** The last rotation of a left focus. */
    method LastTurnLeft(temp: Node, w: Node, ghost path: Path, ghost t: Shape, ghost s: set<Node>)
      requires At(s, path, t) && path.LeftOf? && temp == Ptr(sentinel, t) && temp in s && temp.parent == path.node
          && sentinel in s
      requires Sibling(path).Fork? && w == Sibling(path).node && Far(path, Sibling(path)).Fork?
          && sentinel.color == Black
      modifies this`root, s`left, s`right, s`parent, s`color
      ensures At(s, path.up, LastTurned(path, t))
      ensures InOrder(Plug(path.up, LastTurned(path, t))) == InOrder(Plug(path, t))
      ensures sentinel.color == Black && sentinel.left == old(sentinel.left) && sentinel.right == old(sentinel.right)
    {
      hide Zip, InOrder, Paint, Nodes, Around;
      ghost var cs, u := Snap(s), Sibling(path);
      HoleLinks(cs, sentinel, root, path, t);
      ZipAcross(cs, sentinel, root, path, t);
      DownLinks(cs, sentinel, root, Across(path, t), u);
      ZipDown(cs, sentinel, root, Across(path, t), u);
      DownLinks(cs, sentinel, root, RightOf(Across(path, t), u.color, u.left, u.node), u.right);
      FarDistinct(cs, sentinel, root, path, t);
      PaintLast(temp.parent, w, w.right, s);
      LastTurnPainted(cs, Snap(s), sentinel, root, path, t);
      ghost var path1 := Reset(path, Black, Nephews(path, path.color, u.left, w, Dye(u.right, Black)));
      ghost var p := Parent(path1, t);
      ZipUp(Snap(s), sentinel, root, path1, t);
      assert RotateLeft(p) == LastTurned(path, t);
      TurnLeft(temp.parent, path.up, p, s);
      PlugSameOrder(path.up, Parent(path, t), p);
      PlugSameOrder(path.up, p, RotateLeft(p));
    }

    /** A red sibling of a right focus: it turns up, and a black one takes its place. */
    method RedSiblingRight(temp: Node, w0: Node, ghost path: Path, ghost t: Shape, ghost h: nat, ghost s: set<Node>)
      returns (w': Node, ghost path': Path)
      requires Deleting(s, path, t, h, temp) && path.RightOf? && IsRed(Sibling(path)) && w0 == Sibling(path).node
      modifies this`root, s`left, s`right, s`parent, s`color
      ensures Deleting(s, path', t, h, temp) && path'.RightOf? && path'.color.Red? && Depth(path') <= 1 + Depth(path)
      ensures Sibling(path').Fork? && !IsRed(Sibling(path')) && w' == Sibling(path').node
      ensures InOrder(Plug(path', t)) == InOrder(Plug(path, t))
    {
      hide Zip, DeleteOk, InOrder, Paint, Nodes, Around;
      ghost var cs, w := Snap(s), Sibling(path);
      HoleLinks(cs, sentinel, root, path, t);
      w0.color := Black;
      temp.parent.color := Red;
      RedSiblingPainted(cs, Snap(s), sentinel, root, path, t);
      ghost var path1 := Reset(path, Red, Dye(w, Black));
      ghost var p := Parent(path1, t);
      ZipUp(Snap(s), sentinel, root, path1, t);
      TurnRight(temp.parent, path.up, p, s);
      path' := Sunk(path);
      assert RotateRight(p) == Parent(path'.up, Parent(path', t));
      SunkSeen(Snap(s), sentinel, root, path, t);
      RedSiblingKeeps(path, t, h);
      SiblingThere(path', t, h);
      HoleLinks(Snap(s), sentinel, root, path', t);
      PlugSameOrder(path.up, Parent(path, t), p);
      PlugSameOrder(path.up, p, RotateRight(p));
      w' := temp.parent.left;
    }

    /** A red near nephew of a right focus is turned up in the sibling's place. */
    method RedNephewRight(temp: Node, w: Node, ghost path: Path, ghost t: Shape, ghost h: nat, ghost s: set<Node>)
      returns (w': Node, ghost s': Shape)
      requires Deleting(s, path, t, h, temp) && path.RightOf? && Sibling(path).Fork? && !IsRed(Sibling(path))
          && w == Sibling(path).node
      requires IsRed(Near(path, Sibling(path)))
      modifies this`root, s`left, s`right, s`parent, s`color
      ensures s' == RotateLeft(Nephews(path, Red, Dye(Near(path, Sibling(path)), Black), w, Far(path, Sibling(path))))
      ensures At(s, Reset(path, path.color, s'), t) && w' == Ptr(sentinel, s') && temp.parent == path.node
      ensures InOrder(Plug(Reset(path, path.color, s'), t)) == InOrder(Plug(path, t))
      ensures sentinel.color == Black && sentinel.left == sentinel && sentinel.right == sentinel
    {
      hide Zip, DeleteOk, InOrder, Paint, Nodes, Around;
      ghost var cs, u := Snap(s), Sibling(path);
      HoleLinks(cs, sentinel, root, path, t);
      ZipAcross(cs, sentinel, root, path, t);
      DownLinks(cs, sentinel, root, Across(path, t), u);
      ZipDown(cs, sentinel, root, Across(path, t), u);
      DownLinks(cs, sentinel, root, RightOf(Across(path, t), u.color, u.left, u.node), u.right);
      w.color := Red;
      w.right.color := Black;
      RedNephewPainted(cs, Snap(s), sentinel, root, path, t);
      ghost var u1 := Nephews(path, Red, Dye(u.right, Black), w, u.left);
      ghost var path1 := Reset(path, path.color, u1);
      ZipAcross(Snap(s), sentinel, root, path1, t);
      TurnLeft(w, Across(path1, t), u1, s);
      s' := RotateLeft(u1);
      ZipAcross(Snap(s), sentinel, root, Across(path1, t), s');
      HoleLinks(Snap(s), sentinel, root, Reset(path, path.color, s'), t);
      PlugSameOrder(path.up, Parent(path, t), Parent(path1, t));
      SiblingSameOrder(path1, t, s');
      w' := temp.parent.left;
    }

    /** The last rotation of a right focus. */
    method LastTurnRight(temp: Node, w: Node, ghost path: Path, ghost t: Shape, ghost s: set<Node>)
      requires At(s, path, t) && path.RightOf? && temp == Ptr(sentinel, t) && temp in s && temp.parent == path.node
          && sentinel in s
      requires Sibling(path).Fork? && w == Sibling(path).node && Far(path, Sibling(path)).Fork?
          && sentinel.color == Black
      modifies this`root, s`left, s`right, s`parent, s`color
      ensures At(s, path.up, LastTurned(path, t))
      ensures InOrder(Plug(path.up, LastTurned(path, t))) == InOrder(Plug(path, t))
      ensures sentinel.color == Black && sentinel.left == old(sentinel.left) && sentinel.right == old(sentinel.right)
    {
      hide Zip, InOrder, Paint, Nodes, Around;
      ghost var cs, u := Snap(s), Sibling(path);
      HoleLinks(cs, sentinel, root, path, t);
      ZipAcross(cs, sentinel, root, path, t);
      DownLinks(cs, sentinel, root, Across(path, t), u);
      ZipDown(cs, sentinel, root, Across(path, t), u);
      DownLinks(cs, sentinel, root, LeftOf(Across(path, t), u.color, u.node, u.right), u.left);
      FarDistinct(cs, sentinel, root, path, t);
      PaintLast(temp.parent, w, w.left, s);
      LastTurnPainted(cs, Snap(s), sentinel, root, path, t);
      ghost var path1 := Reset(path, Black, Nephews(path, path.color, u.right, w, Dye(u.left, Black)));
      ghost var p := Parent(path1, t);
      ZipUp(Snap(s), sentinel, root, path1, t);
      assert RotateRight(p) == LastTurned(path, t);
      TurnRight(temp.parent, path.up, p, s);
      PlugSameOrder(path.up, Parent(path, t), p);
      PlugSameOrder(path.up, p, RotateRight(p));
    }

    /** A left focus with a red nephew: the missing black is supplied and the focus jumps to the root. */
    method FinishRoundLeft(temp: Node, w0: Node, ghost path: Path, ghost t: Shape, ghost h: nat, ghost s: set<Node>)
      returns (temp': Node, ghost t': Shape, ghost h': nat)
      requires Deleting(s, path, t, h, temp) && path.LeftOf? && !IsRed(t) && w0.left in s
      requires Sibling(path).Fork? && !IsRed(Sibling(path)) && w0 == Sibling(path).node
      requires IsRed(Near(path, Sibling(path))) || IsRed(Far(path, Sibling(path)))
      requires w0.left.color == Red <==> IsRed(Sibling(path).left)
      modifies this`root, s`left, s`right, s`parent, s`color
      ensures Deleting(s, Top, t', h', temp') && InOrder(t') == InOrder(Plug(path, t))
    {
      hide Zip, DeleteOk, InOrder, Paint, Nodes, Around, LastTurned;
      var w := w0;
      HoleLinks(Snap(s), sentinel, root, path, t);
      ghost var q := if IsRed(Near(path, Sibling(path))) then InnerTurned(path) else path;
      h' := LastTurnDone(path, t, h, q);
      if w.left.color == Red {
        ghost var u;
        w, u := RedNephewLeft(temp, w, path, t, h, s);
      }
      LastTurnLeft(temp, w, q, t, s);
      temp', t' := root, Plug(path.up, LastTurned(q, t));
      ZipToTop(Snap(s), sentinel, root, path.up, LastTurned(q, t));
      TopLinks(Snap(s), sentinel, root, t');
    }

    /** One round of the deletion fix-up at a left child. */
    method DeleteRoundLeft(temp: Node, ghost path: Path, ghost t: Shape, ghost h: nat, ghost s: set<Node>)
      returns (temp': Node, ghost path': Path, ghost t': Shape, ghost h': nat)
      requires Deleting(s, path, t, h, temp) && path.LeftOf? && !IsRed(t)
      modifies this`root, s`left, s`right, s`parent, s`color
      ensures Deleting(s, path', t', h', temp') && FixMeasure(path', t') < FixMeasure(path, t)
      ensures InOrder(Plug(path', t')) == InOrder(Plug(path, t))
    {
      hide Zip, DeleteOk, InOrder, Paint, Nodes, Around, LastTurned;
      SiblingThere(path, t, h);
      HoleLinks(Snap(s), sentinel, root, path, t);
      var w := temp.parent.right;
      ghost var q := path;
      if w.color == Red {
        w, q := RedSiblingLeft(temp, w, path, t, h, s);
      }
      NephewColors(Snap(s), sentinel, root, q, t);
      HoleLinks(Snap(s), sentinel, root, q, t);
      if w.left.color == Black && w.right.color == Black {
        temp', t', h' := BlackNephews(temp, w, q, t, h, s);
        path' := q.up;
      } else {
        temp', t', h' := FinishRoundLeft(temp, w, q, t, h, s);
        path' := Top;
      }
    }

    /** A right focus with a red nephew: the missing black is supplied and the focus jumps to the root. */
    method FinishRoundRight(temp: Node, w0: Node, ghost path: Path, ghost t: Shape, ghost h: nat, ghost s: set<Node>)
      returns (temp': Node, ghost t': Shape, ghost h': nat)
      requires Deleting(s, path, t, h, temp) && path.RightOf? && !IsRed(t) && w0.right in s
      requires Sibling(path).Fork? && !IsRed(Sibling(path)) && w0 == Sibling(path).node
      requires IsRed(Near(path, Sibling(path))) || IsRed(Far(path, Sibling(path)))
      requires w0.right.color == Red <==> IsRed(Sibling(path).right)
      modifies this`root, s`left, s`right, s`parent, s`color
      ensures Deleting(s, Top, t', h', temp') && InOrder(t') == InOrder(Plug(path, t))
    {
      hide Zip, DeleteOk, InOrder, Paint, Nodes, Around, LastTurned;
      var w := w0;
      HoleLinks(Snap(s), sentinel, root, path, t);
      ghost var q := if IsRed(Near(path, Sibling(path))) then InnerTurned(path) else path;
      h' := LastTurnDone(path, t, h, q);
      if w.right.color == Red {
        ghost var u;
        w, u := RedNephewRight(temp, w, path, t, h, s);
      }
      LastTurnRight(temp, w, q, t, s);
      temp', t' := root, Plug(path.up, LastTurned(q, t));
      ZipToTop(Snap(s), sentinel, root, path.up, LastTurned(q, t));
      TopLinks(Snap(s), sentinel, root, t');
    }

    /** One round of the deletion fix-up at a right child. */
    method DeleteRoundRight(temp: Node, ghost path: Path, ghost t: Shape, ghost h: nat, ghost s: set<Node>)
      returns (temp': Node, ghost path': Path, ghost t': Shape, ghost h': nat)
      requires Deleting(s, path, t, h, temp) && path.RightOf? && !IsRed(t)
      modifies this`root, s`left, s`right, s`parent, s`color
      ensures Deleting(s, path', t', h', temp') && FixMeasure(path', t') < FixMeasure(path, t)
      ensures InOrder(Plug(path', t')) == InOrder(Plug(path, t))
    {
      hide Zip, DeleteOk, InOrder, Paint, Nodes, Around, LastTurned;
      SiblingThere(path, t, h);
      HoleLinks(Snap(s), sentinel, root, path, t);
      var w := temp.parent.left;
      ghost var q := path;
      if w.color == Red {
        w, q := RedSiblingRight(temp, w, path, t, h, s);
      }
      NephewColors(Snap(s), sentinel, root, q, t);
      HoleLinks(Snap(s), sentinel, root, q, t);
      if w.left.color == Black && w.right.color == Black {
        temp', t', h' := BlackNephews(temp, w, q, t, h, s);
        path' := q.up;
      } else {
        temp', t', h' := FinishRoundRight(temp, w, q, t, h, s);
        path' := Top;
      }
    }

    /** The least node below `node`. */
    method MinNode(node: Node, ghost outer: Path, ghost t0: Shape, ghost s: set<Node>)
      returns (m: Node, ghost inner: Path, ghost t: Shape)
      requires At(s, outer, t0) && t0.Fork? && node == t0.node
      ensures At(s, Append(inner, outer), t) && t.Fork? && t.left.Leaf? && m == t.node
      ensures Before(inner) == [] && Plug(inner, t) == t0
    {
      hide Zip, InOrder;
      ghost var cs := Snap(s);
      m, inner, t := node, Top, t0;
      EmptyOrFork(cs, sentinel, root, outer, t);
      while m.left != sentinel
        invariant Zip(cs, sentinel, root, Append(inner, outer), t) && t.Fork? && m == t.node
        invariant Before(inner) == [] && Plug(inner, t) == t0
        invariant m in s && m.left == Ptr(sentinel, t.left) && (t.left.Fork? <==> m.left != sentinel)
        decreases t
      {
        ZipDown(cs, sentinel, root, Append(inner, outer), t);
        DownLinks(cs, sentinel, root, LeftOf(Append(inner, outer), t.color, t.node, t.right), t.left);
        m, inner, t := m.left, LeftOf(inner, t.color, t.node, t.right), t.left;
        EmptyOrFork(cs, sentinel, root, Append(inner, outer), t);
      }
      EmptyOrFork(cs, sentinel, root, Append(inner, outer), t);
    }

    /** A node with at most one child, below the root, gives its place to that child. */
    method SpliceOne(node: Node, temp: Node, ghost s: set<Node>)
      requires {node, temp} <= s && node.parent in s && temp != node && temp != node.parent && node != node.parent
      modifies s`left, s`right, s`parent
      ensures IsSplicedOut(old(Snap(s)), Snap(s), node, temp, old(node.parent)) && temp.parent == old(node.parent)
      ensures node.left == null && node.right == null && node.parent == null
    {
      if node == node.parent.left {
        node.parent.left := temp;
      } else {
        node.parent.right := temp;
      }
      temp.parent := node.parent;
      node.left := null;
      node.right := null;
      node.parent := null;
    }

    /** The successor `subst` leaves its place to `temp`. */
    method TakeOut(node: Node, subst: Node, temp: Node, ghost s: set<Node>)
      requires {node, subst, temp} <= s && subst.parent in s && temp != subst.parent
      modifies s`left, s`right, s`parent
      ensures IsTakenOut(old(Snap(s)), Snap(s), node, subst, temp, old(subst.parent))
    {
      if subst == subst.parent.left {
        subst.parent.left := temp;
      } else {
        subst.parent.right := temp;
      }
      if subst.parent == node {
        temp.parent := subst;
      } else {
        temp.parent := subst.parent;
      }
    }

    /** The successor takes the links and the colour of `node`. */
    method PutIn(node: Node, subst: Node, ghost s: set<Node>)
      requires {node, subst, sentinel} <= s && node.left in s && node.right in s && node.parent in s
      requires subst != node && subst != node.parent && node != node.parent && node.parent != node.left
      requires node.left != node && node.right != node && node.left != subst && node.right != subst && subst != sentinel
      requires (node.right == node.parent ==> node.right == sentinel) && (node.parent == sentinel <==> node == root)
          && node != sentinel
      modifies this`root, s`left, s`right, s`parent, s`color
      ensures IsPutIn(old(Snap(s)), Snap(s), sentinel, node, subst, old(node.parent))
      ensures root == if old(root) == node then subst else old(root)
      ensures node.left == null && node.right == null && node.parent == null
      ensures Snap(s)[sentinel] == old(Snap(s)[sentinel])
    {
      subst.left := node.left;
      subst.right := node.right;
      subst.parent := node.parent;
      subst.color := node.color;
      if node == root {
        root := subst;
      } else if node == node.parent.left {
        node.parent.left := subst;
      } else {
        node.parent.right := subst;
      }
      if subst.left != sentinel {
        subst.left.parent := subst;
      }
      if subst.right != sentinel {
        subst.right.parent := subst;
      }
      node.left := null;
      node.right := null;
      node.parent := null;
    }

    /** The deletion fix-up. */
    method FixDelete(temp0: Node, ghost path0: Path, ghost t0: Shape, ghost h0: nat, ghost s: set<Node>)
      requires Deleting(s, path0, t0, h0, temp0)
      modifies this`root, this`shape, s`left, s`right, s`parent, s`color
      ensures At(s, Top, shape) && RedBlack(shape) && SentinelOk()
      ensures Order() == InOrder(Plug(path0, t0))
    {
      hide Zip, DeleteOk, InOrder, Nodes, Around;
      var temp := temp0;
      ghost var path, t, h := path0, t0, h0;
      FocusIsRoot(Snap(s), sentinel, root, path, t);
      while temp != root && temp.color == Black
        invariant Deleting(s, path, t, h, temp)
        invariant (temp == root <==> path.Top?) && (temp.color == Red <==> IsRed(t))
        invariant InOrder(Plug(path, t)) == InOrder(Plug(path0, t0))
        decreases FixMeasure(path, t)
      {
        HoleLinks(Snap(s), sentinel, root, path, t);
        SiblingThere(path, t, h);
        SideOfHole(Snap(s), sentinel, root, path, t);
        if temp == temp.parent.left {
          temp, path, t, h := DeleteRoundLeft(temp, path, t, h, s);
        } else {
          temp, path, t, h := DeleteRoundRight(temp, path, t, h, s);
        }
        FocusIsRoot(Snap(s), sentinel, root, path, t);
      }
      CloseDelete(temp, path, t, h, s);
    }

    /** The focus turns black and the sentinel's parent link is reset. */
    method CloseDelete(temp: Node, ghost path: Path, ghost t: Shape, ghost h: nat, ghost s: set<Node>)
      requires Deleting(s, path, t, h, temp) && (path.Top? || IsRed(t))
      modifies this`shape, s`color, s`parent
      ensures At(s, Top, shape) && RedBlack(shape) && SentinelOk()
      ensures Order() == InOrder(Plug(path, t))
    {
      hide Zip, DeleteOk, InOrder, RedBlack;
      ghost var cs := Snap(s);
      temp.color := Black;
      FocusBlackened(cs, Snap(s), sentinel, root, path, t);
      ghost var cs1 := Snap(s);
      NilApart(cs1, sentinel, root, path, Dye(t, Black));
      sentinel.parent := sentinel;
      ZipFrame(cs1, Snap(s), sentinel, root, path, Dye(t, Black));
      shape := Plug(path, Dye(t, Black));
      ZipToTop(Snap(s), sentinel, root, path, Dye(t, Black));
      DeleteDone(path, t, h);
      PlugSameOrder(path, t, Dye(t, Black));
    }

    /** What follows the splice: nothing more for a red node, the fix-up for a black one. */
    method Rebalance(color: Color, temp: Node, ghost path: Path, ghost t: Shape, ghost h: nat, ghost s: set<Node>)
      requires At(s, path, t) && temp == Ptr(sentinel, t) && temp in s && temp.parent == Above(path, sentinel)
          && !path.Top?
      requires sentinel in s && sentinel.color == Black && sentinel.left == sentinel && sentinel.right == sentinel
      requires color.Red? ==> Bal(t, h) && PathBal(path, h) && PathOk(path) && NoRedRed(t) && !IsRed(t)
      requires color.Black? ==> h > 0 && DeleteOk(path, t, h - 1)
      modifies this`root, this`shape, s`left, s`right, s`parent, s`color
      ensures At(s, Top, shape) && RedBlack(shape) && SentinelOk()
      ensures Order() == InOrder(Plug(path, t))
    {
      hide Zip, DeleteOk, InOrder, RedBlack;
      if color == Red {
        ghost var cs := Snap(s);
        NilApart(cs, sentinel, root, path, t);
        sentinel.parent := sentinel;
        ZipFrame(cs, Snap(s), sentinel, root, path, t);
        ZipToTop(Snap(s), sentinel, root, path, t);
        RedSplice(path, t, h);
        shape := Plug(path, t);
        return;
      }
      FixDelete(temp, path, t, h - 1, s);
    }

    /** Deletion of a root with at most one child. */
    method DeleteRoot(node: Node, temp: Node, ghost t: Shape, ghost s: set<Node>)
      requires At(s, Top, t) && RedBlack(t) && OneChild(t) && node == t.node && temp == Ptr(sentinel, OnlyChild(t))
      requires temp in s && sentinel in s && SentinelOk()
      modifies this`root, this`shape, s`left, s`right, s`parent, s`color
      ensures At(s - {node}, Top, shape) && RedBlack(shape) && SentinelOk() && Order() == InOrder(OnlyChild(t))
      ensures node.left == null && node.right == null && node.parent == null
    {
      hide Zip, InOrder, RedBlack, DeleteOk;
      ghost var cs, c := Snap(s), OnlyChild(t);
      ghost var h := SpliceColors(Top, t);
      ApartFromFocus(cs, sentinel, root, Top, t);
      root := temp;
      temp.color := Black;
      temp.parent := sentinel;
      node.left := null;
      node.right := null;
      node.parent := null;
      sentinel.parent := sentinel;
      RootDropped(cs, Snap(s - {node}), sentinel, old(root), temp, t);
      DeleteDone(Top, c, h - 1);
      shape := Dye(c, Black);
      DyeOrder(c, Black);
    }

    /** The splice of a node with at most one child, seen on the shape. */
    method Drop(node: Node, temp: Node, ghost path: Path, ghost t: Shape, ghost s: set<Node>)
      requires At(s, path, t) && OneChild(t) && node == t.node && temp == Ptr(sentinel, OnlyChild(t))
      requires {node, temp, sentinel} <= s && !path.Top?
      modifies s`left, s`right, s`parent
      ensures At(s - {node}, path, OnlyChild(t)) && temp.parent == path.node
      ensures node.left == null && node.right == null && node.parent == null
      ensures sentinel.left == old(sentinel.left) && sentinel.right == old(sentinel.right)
    {
      hide Zip, Around, Nodes;
      ghost var cs := Snap(s);
      UpLinks(cs, sentinel, root, path, t);
      ApartFromFocus(cs, sentinel, root, path, t);
      HoleLinks(cs, sentinel, root, path, t);
      SpliceOne(node, temp, s);
      SplicedOut(cs, Snap(s), sentinel, root, path, t);
      ZipFrame(Snap(s), Snap(s - {node}), sentinel, root, path, OnlyChild(t));
      assert sentinel != temp ==> Snap(s)[sentinel] == cs[sentinel];
    }

    /** Deletion of a node with at most one child. */
    method DeleteOne(node: Node, temp: Node, ghost path: Path, ghost t: Shape, ghost s: set<Node>)
      requires At(s, path, t) && RedBlack(Plug(path, t)) && OneChild(t) && node == t.node
          && temp == Ptr(sentinel, OnlyChild(t))
      requires {node, temp, sentinel} <= s && SentinelOk()
      modifies this`root, this`shape, s`left, s`right, s`parent, s`color
      ensures At(s - {node}, Top, shape) && RedBlack(shape) && SentinelOk()
      ensures Order() == InOrder(Plug(path, OnlyChild(t)))
      ensures node.left == null && node.right == null && node.parent == null
    {
      hide Zip, InOrder, RedBlack, DeleteOk, Around, Nodes;
      FocusIsRoot(Snap(s), sentinel, root, path, t);
      if node == root {
        DeleteRoot(node, temp, t, s);
        return;
      }
      ghost var cs := Snap(s);
      ghost var h := SpliceColors(path, t);
      UpLinks(cs, sentinel, root, path, t);
      ApartFromFocus(cs, sentinel, root, path, t);
      var color := node.color;
      Drop(node, temp, path, t, s);
      Rebalance(color, temp, path, OnlyChild(t), h, s - {node});
    }

    /** The links of the exchange of `node` for its successor `subst`. */
    method SwapLinks(node: Node, subst: Node, temp: Node, ghost s: set<Node>)
      requires {node, subst, temp, sentinel} <= s && subst.parent in s && node.left in s && node.right in s
          && node.parent in s
      requires Swappable(sentinel, root, node, subst, temp, subst.parent, node.parent, node.left, node.right)
      modifies this`root, s`left, s`right, s`parent, s`color
      ensures IsSwapped(old(Snap(s)), Snap(s), sentinel, node, subst, temp, old(subst.parent), old(node.parent))
      ensures root == if old(root) == node then subst else old(root)
      ensures node.left == null && node.right == null && node.parent == null
      ensures temp.parent == (if old(subst.parent) == node then subst else old(subst.parent))
      ensures sentinel.color == old(sentinel.color) && sentinel.left == old(sentinel.left)
          && sentinel.right == old(sentinel.right)
    {
      hide IsSwapped, IsPutIn;
      ghost var cs, q, p := Snap(s), subst.parent, node.parent;
      TakeOut(node, subst, temp, s);
      ghost var cs1 := Snap(s);
      TakenLinks(cs, cs1, node, subst, temp, q);
      PutIn(node, subst, s);
      TakenAndPut(cs, cs1, Snap(s), sentinel, node, subst, temp, q, p);
      PutLinks(cs1, Snap(s), sentinel, node, subst, p, temp);
    }

    /** The exchange of `node` for the least node `subst` of its right subtree. */
    method Exchange(node: Node, subst: Node, temp: Node, ghost inner: Path, ghost path: Path, ghost t: Shape,
          ghost m: Shape, ghost s: set<Node>)
      requires t.Fork? && t.left.Fork? && node == t.node && m.Fork? && m.left.Leaf? && subst == m.node
          && temp == Ptr(sentinel, m.right)
      requires At(s, Append(inner, RightOf(path, t.color, t.left, node)), m)
      requires {node, temp, sentinel} <= s
      modifies this`root, s`left, s`right, s`parent, s`color
      ensures At(s - {node}, Append(inner, RightOf(path, t.color, t.left, subst)), m.right)
      ensures temp.parent == Above(inner, subst)
      ensures node.left == null && node.right == null && node.parent == null
      ensures sentinel.color == old(sentinel.color) && sentinel.left == old(sentinel.left)
          && sentinel.right == old(sentinel.right)
    {
      hide Zip, InOrder, Around, Nodes, IsSwapped, Append, Swappable;
      ghost var cs := Snap(s);
      CanSwap(cs, sentinel, root, inner, path, t.color, t.left, node, m);
      SwapLinks(node, subst, temp, s);
      Swapped(cs, Snap(s), sentinel, old(root), root, inner, path, t.color, t.left, node, m);
      Gone(cs, sentinel, old(root), inner, path, t.color, t.left, node, subst, m);
      ZipFrame(Snap(s), Snap(s - {node}), sentinel, root, Append(inner, RightOf(path, t.color, t.left, subst)),
            m.right);
    }

    /** Deletion of a node with two children: the least node of the right subtree takes its place. */
    method DeleteTwo(node: Node, ghost path: Path, ghost t: Shape, ghost s: set<Node>)
      requires At(s, path, t) && RedBlack(Plug(path, t)) && t.Fork? && t.left.Fork? && t.right.Fork? && node == t.node
      requires {node, sentinel} <= s && SentinelOk()
      modifies this`root, this`shape, s`left, s`right, s`parent, s`color
      ensures At(s - {node}, Top, shape) && RedBlack(shape) && SentinelOk()
      ensures Order() == Before(path) + InOrder(t.left) + InOrder(t.right) + After(path)
      ensures node.left == null && node.right == null && node.parent == null
    {
      hide Zip, InOrder, RedBlack, DeleteOk, Around, Nodes, Append, PathBal, PathOk, Bal, NoRedRed, Before, After;
      ghost var cs, s' := Snap(s), s - {node};
      DownLinks(cs, sentinel, root, path, t);
      ZipDown(cs, sentinel, root, path, t);
      ghost var outer := RightOf(path, t.color, t.left, node);
      var subst;
      ghost var inner, m;
      subst, inner, m := MinNode(node.right, outer, t.right, s);
      AppendPlug(inner, outer, m);
      ghost var whole := Append(inner, outer);
      DownLinks(cs, sentinel, root, whole, m);
      ghost var h := SpliceColors(whole, m);
      var temp := subst.right;
      var color := subst.color;
      Exchange(node, subst, temp, inner, path, t, m, s);
      ghost var outer' := RightOf(path, t.color, t.left, subst);
      RenamedDelete(inner, path, t.color, t.left, node, subst, m.right, h);
      AppendLinks(cs, sentinel, inner, outer', temp, sentinel);
      NotTopAppend(inner, outer');
      Rebalance(color, temp, Append(inner, outer'), m.right, h, s');
      ExchangeOrder(inner, path, t, m);
    }

    /** Not in a tree: some link is null. */
    ghost predicate Unlinked(node: Node)
      reads node
    {
      node.left == null || node.right == null || node.parent == null
    }

    /** Takes a node of the tree out: all of the deletion but the keys. */
    method Unhook(node: Node) returns (ghost a: seq<Node>, ghost b: seq<Node>)
      requires Valid() && node in Order()
      modifies this`root, this`shape, Repr()`left, Repr()`right, Repr()`parent, Repr()`color
      ensures At(old(Repr()) - {node}, Top, shape) && RedBlack(shape) && SentinelOk()
      ensures old(Order()) == a + [node] + b && Order() == a + b
      ensures node.left == null && node.right == null && node.parent == null
    {
      hide Zip, RedBlack, Nodes, Around, Sorted, InOrder, Before, After, NoRedRed, Bal;
      ghost var s := Repr();
      ghost var path, t := Locate(shape, node);
      ZipFromTop(Snap(s), sentinel, root, path, t);
      PlugOrder(path, t);
      OpenOrder(t);
      OpenOrder(t.left);
      OpenOrder(t.right);
      DownLinks(Snap(s), sentinel, root, path, t);
      ZipDown(Snap(s), sentinel, root, path, t);
      a, b := Before(path) + InOrder(t.left), InOrder(t.right) + After(path);
      if node.left == sentinel {
        LeafThere(Snap(s), sentinel, root, path, t);
        DeleteOne(node, node.right, path, t, s);
        PlugOrder(path, t.right);
      } else if node.right == sentinel {
        LeafThere(Snap(s), sentinel, root, path, t);
        DeleteOne(node, node.left, path, t, s);
        PlugOrder(path, t.left);
      } else {
        DeleteTwo(node, path, t, s);
      }
    }

    /** Takes exactly `node` out of the tree; a node that is in no tree is left alone. */
    method Delete(node: Node?) returns (ghost a: seq<Node>, ghost b: seq<Node>)
      requires Valid() && (node != null && node != sentinel && node !in Order() ==> Unlinked(node))
      modifies this`root, this`shape, Repr()`left, Repr()`right, Repr()`parent, Repr()`color
      ensures Valid() && Order() == a + b
      ensures if node == null || node !in old(Order()) then old(Order()) == a + b
        else old(Order()) == a + [node] + b && node.left == null && node.right == null && node.parent == null
    {
      hide Zip, InOrder, RedBlack, Sorted, Nodes, Around;
      NodesAreOrder(shape);
      NilApart(Snap(Repr()), sentinel, root, Top, shape);
      if node == null || node == sentinel {
        return Order(), [];
      }
      if node in Order() {
        ghost var path, t := Locate(shape, node);
        ZipFromTop(Snap(Repr()), sentinel, root, path, t);
        DownLinks(Snap(Repr()), sentinel, root, path, t);
        UpLinks(Snap(Repr()), sentinel, root, path, t);
      }
      if node.left == null || node.right == null || node.parent == null {
        return Order(), [];
      }
      ghost var before, s, ks := shape, Repr(), KeyMap(Repr());
      a, b := Unhook(node);
      NodesShrink(Snap(s - {node}), sentinel, root, before, shape, a, node, b);
      assert Repr() == s - {node};
      assert KeyMap(s) == ks;
      SortedRemove(ks, KeyMap(Repr()), a, node, b);
    }

    // ---------- searching and walking ----------

    /** Finds a node with the key if there is one; `steps` counts the links followed. */
    method Search(key: u64) returns (r: Node?, ghost steps: nat)
      requires Valid()
      ensures r != null ==> r in Order() && r.key == key
      ensures r == null ==> forall z :: z in Order() ==> z.key != key
      ensures Pow2(steps) <= (|Order()| + 1) * (|Order()| + 1)
    {
      hide Zip, RedBlack, Sorted, AllBelow, AllAbove, Nodes, Around, InOrder, Searching;
      ghost var cs, ks := Snap(Repr()), KeyMap(Repr());
      var node := root;
      ghost var path, t := Top, shape;
      steps := 0;
      NodesAreOrder(shape);
      HeightBound(shape);
      SizeIsLength(shape);
      SearchFrom(cs, sentinel, root, ks, key, shape);
      while node != sentinel
        invariant Searching(cs, sentinel, root, ks, key, shape, path, t, steps)
        invariant node == Ptr(sentinel, t) && (t.Fork? <==> node != sentinel)
        decreases t
      {
        SearchStep(cs, sentinel, root, ks, key, shape, path, t, steps);
        if key == node.key {
          break;
        } else if key < node.key {
          node := node.left;
          path, t := LeftOf(path, t.color, t.node, t.right), t.left;
        } else {
          node := node.right;
          path, t := RightOf(path, t.color, t.left, t.node), t.right;
        }
        steps := steps + 1;
      }
      SearchTo(cs, sentinel, root, ks, key, shape, path, t, steps);
      PowMono(steps, Height(shape));
      if node == sentinel {
        r := null;
        KeyExcluded(Repr(), Before(path), After(path), key);
      } else {
        r := node;
      }
    }

    /** The least node below `node`: for the root, the first node of the tree. */
    method Min(node: Node?) returns (r: Node?)
      requires Valid() && (node != null && node != sentinel && node !in Order() ==> Unlinked(node))
      ensures node == root ==> r == if Order() == [] then null else Order()[0]
      ensures node != null && node in Order() ==>
          InOrder(Below(shape, node)) != [] && r == InOrder(Below(shape, node))[0]
      ensures node == null || node == sentinel || node !in Order() ==> r == null
    {
      hide Zip, RedBlack, Sorted, Nodes, Around;
      ghost var cs := Snap(Repr());
      RootIs(cs, sentinel, root, shape);
      NodesAreOrder(shape);
      NilApart(cs, sentinel, root, Top, shape);
      if node == null || node == sentinel {
        return null;
      }
      ghost var path, t := Top, shape;
      if node in Order() {
        path, t := Locate(shape, node);
        ZipFromTop(cs, sentinel, root, path, t);
        DownLinks(cs, sentinel, root, path, t);
        UpLinks(cs, sentinel, root, path, t);
        FocusIsRoot(cs, sentinel, root, path, t);
      }
      if node.left == null || node.right == null || node.parent == null {
        return null;
      }
      ghost var inner, m;
      r, inner, m := MinNode(node, path, t, Repr());
      PlugOrder(inner, m);
    }

    /** From the last node of the focus up to the node that follows it. */
    method Climb(node0: Node, ghost path0: Path, ghost t0: Shape, ghost i: nat) returns (r: Node?)
      requires Valid() && At(Repr(), path0, t0) && t0.Fork? && node0 == t0.node
      requires Before(path0) + InOrder(t0) + After(path0) == Order() && i == |Before(path0)| + |InOrder(t0)| - 1
      ensures r == if i + 1 < |Order()| then Order()[i + 1] else null
    {
      hide Zip, RedBlack, Sorted, Nodes, InOrder, SentinelOk;
      ghost var cs, order := Snap(Repr()), Order();
      var node := node0;
      ghost var path, t := path0, t0;
      UpLinks(cs, sentinel, root, path, t);
      while true
        invariant Zip(cs, sentinel, root, path, t) && t.Fork? && t.node == node && node in cs
        invariant Before(path) + InOrder(t) + After(path) == order
        invariant i == |Before(path)| + |InOrder(t)| - 1
        decreases path
      {
        UpLinks(cs, sentinel, root, path, t);
        FocusIsRoot(cs, sentinel, root, path, t);
        if node == root {
          return null;
        }
        ZipUp(cs, sentinel, root, path, t);
        if node == node.parent.left {
          assert After(path)[0] == path.node;
          return node.parent;
        }
        OpenOrder(Parent(path, t));
        node := node.parent;
        path, t := path.up, Parent(path, t);
        UpLinks(cs, sentinel, root, path, t);
      }
    }

    /** The node that follows in key order. */
    method Next(node0: Node?) returns (r: Node?)
      requires Valid() && (node0 != null && node0 != sentinel && node0 !in Order() ==> Unlinked(node0))
      ensures forall i :: 0 <= i < |Order()| && node0 == Order()[i] ==>
          r == if i + 1 < |Order()| then Order()[i + 1] else null
      ensures Order() != [] && node0 == Order()[0] ==> r == if 1 < |Order()| then Order()[1] else null
      ensures node0 == null || node0 == sentinel || node0 !in Order() ==> r == null
    {
      hide Zip, RedBlack, Sorted, Nodes, Around;
      ghost var cs := Snap(Repr());
      NodesAreOrder(shape);
      NilApart(cs, sentinel, root, Top, shape);
      RootIs(cs, sentinel, root, shape);
      OrderDistinct(shape);
      if node0 == null || node0 == sentinel {
        return null;
      }
      ghost var path, t := Top, shape;
      if node0 in Order() {
        path, t := Locate(shape, node0);
        ZipFromTop(cs, sentinel, root, path, t);
        PlugOrder(path, t);
        DownLinks(cs, sentinel, root, path, t);
        UpLinks(cs, sentinel, root, path, t);
      }
      if node0.left == null || node0.right == null || node0.parent == null {
        return null;
      }
      var node: Node := node0;
      ghost var i := |Before(path)| + |InOrder(t.left)|;
      assert Order()[i] == node;
      if node.right != sentinel {
        ZipDown(cs, sentinel, root, path, t);
        ghost var inner, m;
        r, inner, m := MinNode(node.right, RightOf(path, t.color, t.left, t.node), t.right, Repr());
        PlugOrder(inner, m);
        return;
      }
      OpenOrder(t);
      OpenOrder(t.right);
      r := Climb(node, path, t, i);
    }

    // ---------- what a caller may use of a valid tree ----------

    lemma Members()
      requires Valid()
      ensures Repr() == Elements(Order()) + {sentinel} && sentinel !in Order()
      ensures if Order() == [] then root == sentinel else root in Order()
    {
      hide RedBlack;
      RootIs(Snap(Repr()), sentinel, root, shape);
      NodesAreOrder(shape);
    }

    lemma Distinct()
      requires Valid()
      ensures forall i, j :: 0 <= i < j < |Order()| ==> Order()[i] != Order()[j]
    {
      hide RedBlack;
      RootIs(Snap(Repr()), sentinel, root, shape);
      OrderDistinct(shape);
    }

    lemma KeysAscend()
      requires Valid()
      ensures forall i, j :: 0 <= i < j < |Order()| ==> Order()[i].key <= Order()[j].key
    {
      hide RedBlack;
      NodesAreOrder(shape);
      forall i, j | 0 <= i < j < |Order()| ensures Order()[i].key <= Order()[j].key {
        assert Order()[i] in Elements(Order()) && Order()[j] in Elements(Order());
      }
    }

    lemma Linked(z: Node)
      requires Valid() && z in Order()
      ensures !Unlinked(z)
    {
      hide RedBlack;
      var path, t := Locate(shape, z);
      ZipFromTop(Snap(Repr()), sentinel, root, path, t);
      DownLinks(Snap(Repr()), sentinel, root, path, t);
      UpLinks(Snap(Repr()), sentinel, root, path, t);
    }

    lemma LinkedRepr(z: Node)
      requires Valid() && z in Repr()
      ensures !Unlinked(z)
    {
      hide RbTree.Valid;
      Members();
      if z == sentinel {
        SentinelLinked();
      } else {
        Linked(z);
      }
    }

    lemma SentinelLinked()
      requires Valid()
      ensures !Unlinked(sentinel)
    {
    }
  }
}
