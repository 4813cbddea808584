/** The colour discipline of the red-black tree, for whole shapes and for shapes with a hole. */
module RbBalance {
  import opened RbShape

  ghost predicate IsRed(t: Shape) {
    t.Fork? && t.color.Red?
  }

  /** Every way down meets the same number `h` of black nodes. */
  ghost predicate Bal(t: Shape, h: nat) {
    match t
    case Leaf => h == 0
    case Fork(c, l, _, r) =>
      if c.Red? then Bal(l, h) && Bal(r, h) else h > 0 && Bal(l, h - 1) && Bal(r, h - 1)
  }

  /** No red node has a red child. */
  ghost predicate NoRedRed(t: Shape) {
    match t
    case Leaf => true
    case Fork(c, l, _, r) => NoRedRed(l) && NoRedRed(r) && (c.Red? ==> !IsRed(l) && !IsRed(r))
  }

  ghost predicate RedBlack(t: Shape) {
    NoRedRed(t) && !IsRed(t) && exists h: nat :: Bal(t, h)
  }

  // ---------- around a hole ----------

  ghost predicate RedAbove(path: Path) {
    !path.Top? && path.color.Red?
  }

  /** The path is balanced when a subtree of black height `h` fills the hole. */
  ghost predicate PathBal(path: Path, h: nat)
    decreases path
  {
    path.Top? ||
    (Bal(Sibling(path), h) && PathBal(path.up, if path.color.Red? then h else h + 1))
  }

  /** No red-red edge on the path, its top node is black. */
  ghost predicate PathOk(path: Path) {
    path.Top? ||
    (NoRedRed(Sibling(path)) && PathOk(path.up)
     && (path.color.Red? ==> !IsRed(Sibling(path)) && !RedAbove(path.up) && !path.up.Top?))
  }

  lemma {:induction false} PlugBal(path: Path, t: Shape, h: nat)
    requires Bal(t, h) && PathBal(path, h)
    ensures exists k: nat :: Bal(Plug(path, t), k)
    decreases path
  {
    if path.Top? {
      assert Bal(Plug(path, t), h);
    } else {
      PlugBal(path.up, Parent(path, t), if path.color.Red? then h else h + 1);
      assert Plug(path, t) == Plug(path.up, Parent(path, t));
    }
  }

  lemma {:induction false} PlugNoRedRed(path: Path, t: Shape)
    requires NoRedRed(t) && PathOk(path) && !(IsRed(t) && RedAbove(path))
    ensures NoRedRed(Plug(path, t))
    ensures !path.Top? ==> !IsRed(Plug(path, t))
    decreases path
  {
    if !path.Top? {
      PlugNoRedRed(path.up, Parent(path, t));
    }
  }

  /** A valid tree opened at any place leaves a valid path and a valid subtree. */
  lemma {:induction false} OpenBal(path: Path, t: Shape, k: nat) returns (h: nat)
    requires Bal(Plug(path, t), k)
    ensures Bal(t, h) && PathBal(path, h)
    decreases path
  {
    if path.Top? {
      h := k;
    } else {
      h := OpenBal(path.up, Parent(path, t), k);
      if path.color.Black? {
        h := h - 1;
      }
    }
  }

  lemma {:induction false} OpenNoRedRed(path: Path, t: Shape)
    requires NoRedRed(Plug(path, t)) && !IsRed(Plug(path, t))
    ensures NoRedRed(t) && PathOk(path) && !(IsRed(t) && (RedAbove(path) || path.Top?))
    decreases path
  {
    if !path.Top? {
      OpenNoRedRed(path.up, Parent(path, t));
    }
  }

  lemma Blacken(t: Shape, h: nat)
    requires t.Fork? && NoRedRed(t) && Bal(t, h)
    ensures RedBlack(t.(color := Black))
  {
    var t' := t.(color := Black);
    assert Bal(t', if t.color.Red? then h + 1 else h);
  }

  // ---------- height ----------

  ghost function Size(t: Shape): nat {
    if t.Leaf? then 0 else Size(t.left) + 1 + Size(t.right)
  }

  ghost function Pow2(n: nat): nat {
    if n == 0 then 1 else 2 * Pow2(n - 1)
  }

  /** A shape of black height `h` holds at least 2^h - 1 nodes. */
  lemma {:induction false} SizeOfBal(t: Shape, h: nat)
    requires Bal(t, h)
    ensures Pow2(h) <= Size(t) + 1
  {
    if t.Fork? {
      var k := if t.color.Red? then h else h - 1;
      SizeOfBal(t.left, k);
      SizeOfBal(t.right, k);
    }
  }

  ghost function Height(t: Shape): nat {
    if t.Leaf? then 0
    else 1 + if Height(t.left) < Height(t.right) then Height(t.right) else Height(t.left)
  }

  lemma {:induction false} HeightOfBal(t: Shape, h: nat)
    requires Bal(t, h) && NoRedRed(t)
    ensures Height(t) <= 2 * h + (if IsRed(t) then 1 else 0)
  {
    if t.Fork? {
      var k := if t.color.Red? then h else h - 1;
      HeightOfBal(t.left, k);
      HeightOfBal(t.right, k);
    }
  }

  lemma {:induction false} PowSum(a: nat, b: nat)
    ensures Pow2(a + b) == Pow2(a) * Pow2(b)
  {
    if b > 0 {
      PowSum(a, b - 1);
      assert Pow2(a) * Pow2(b) == Pow2(a) * (2 * Pow2(b - 1));
    }
  }

  lemma {:induction false} PowMono(a: nat, b: nat)
    requires a <= b
    ensures Pow2(a) <= Pow2(b)
  {
    if a < b {
      PowMono(a, b - 1);
    }
  }

  /** The height is at most 2 log2(n + 1): two to the height is at most (n + 1)^2. */
  lemma HeightBound(t: Shape)
    requires RedBlack(t)
    ensures Pow2(Height(t)) <= (Size(t) + 1) * (Size(t) + 1)
  {
    var h: nat :| Bal(t, h);
    SizeOfBal(t, h);
    HeightOfBal(t, h);
    PowSum(h, h);
    PowMono(Height(t), h + h);
    var n := Size(t) + 1;
    Square(Pow2(h), n);
  }

  lemma Square(a: nat, b: nat)
    requires a <= b
    ensures a * a <= b * b
  {
    assert a * a <= a * b <= b * b;
  }

  lemma {:induction false} SizeIsLength(t: Shape)
    ensures Size(t) == |InOrder(t)|
  {
    if t.Fork? {
      SizeIsLength(t.left);
      SizeIsLength(t.right);
    }
  }
}
