/** The colour half of a red-black tree: black heights, what a context still needs from its
    hole, and the height bound that follows. */
module RbBalance {
  import opened RbModel

  ghost predicate IsRed(t: Tree) { t.Bin? && t.red }

  /** No red node has a red child, and every path to a leaf meets k black nodes. */
  ghost predicate Balanced(t: Tree, k: nat) {
    match t
    case Leaf => k == 0
    case Bin(l, _, true, r) => !IsRed(l) && !IsRed(r) && Balanced(l, k) && Balanced(r, k)
    case Bin(l, _, false, r) => k > 0 && Balanced(l, k - 1) && Balanced(r, k - 1)
  }

  ghost predicate RedFrame(c: Ctx) { !c.Top? && c.red }

  /** Filling the hole with a tree of black height k gives a balanced tree with a black
      root, provided a red tree goes below a black node only. */
  ghost predicate BalancedCtx(c: Ctx, k: nat) {
    c.Top? ||
    if c.red then
      !IsRed(c.other) && Balanced(c.other, k) && !c.up.Top? && !c.up.red && BalancedCtx(c.up, k)
    else
      Balanced(c.other, k) && BalancedCtx(c.up, k + 1)
  }

  ghost predicate RedBlack(t: Tree) { !IsRed(t) && exists k: nat :: Balanced(t, k) }

  lemma {:induction false} PlugBalanced(c: Ctx, t: Tree, k: nat)
    requires BalancedCtx(c, k) && Balanced(t, k)
    requires IsRed(t) ==> !c.Top? && !c.red
    ensures RedBlack(Plug(c, t))
    decreases c
  {
    if !c.Top? {
      PlugBalanced(c.up, Join(c, t), if c.red then k else k + 1);
    }
  }

  ghost function Height(t: Tree): nat {
    match t
    case Leaf => 0
    case Bin(l, _, _, r) => 1 + if Height(l) > Height(r) then Height(l) else Height(r)
  }

  /** A focus lies no deeper than the tree is high. */
  lemma {:induction false} CtxDepth(c: Ctx, t: Tree)
    ensures CtxLen(c) + Height(t) <= Height(Plug(c, t))
    decreases c
  {
    if !c.Top? {
      CtxDepth(c.up, Join(c, t));
    }
  }

  ghost function Pow2(k: nat): nat { if k == 0 then 1 else 2 * Pow2(k - 1) }

  /** d <= 2*log2(n+1) */
  ghost predicate LogBounded(d: nat, n: nat) {
    exists k: nat :: Pow2(k) <= n + 1 && d <= 2 * k
  }

  lemma {:induction false} BlackHeight(t: Tree, k: nat)
    requires Balanced(t, k)
    ensures Pow2(k) <= |Inorder(t)| + 1
    ensures Height(t) <= 2 * k + if IsRed(t) then 1 else 0
  {
    if t.Bin? {
      var j := if t.red then k else k - 1;
      BlackHeight(t.left, j);
      BlackHeight(t.right, j);
    }
  }

  /** A red-black tree of n nodes is at most 2*log2(n+1) high. */
  lemma HeightBound(t: Tree)
    requires RedBlack(t)
    ensures LogBounded(Height(t), |Inorder(t)|)
  {
    var k: nat :| Balanced(t, k);
    BlackHeight(t, k);
  }

  lemma DepthBounded(c: Ctx, t: Tree)
    requires RedBlack(Plug(c, t))
    ensures LogBounded(CtxLen(c) + if t.Bin? then 1 else 0, |Inorder(Plug(c, t))|)
  {
    HeightBound(Plug(c, t));
    CtxDepth(c, t);
    var n := |Inorder(Plug(c, t))|;
    var k: nat :| Pow2(k) <= n + 1 && Height(Plug(c, t)) <= 2 * k;
    hide Inorder;
  }

  // Insertion: a red tree t of black height k below a possibly red frame.

  ghost predicate RedBelow(c: Ctx, t: Tree, k: nat) {
    IsRed(t) && Balanced(t, k) && BalancedCtx(c, k)
  }

  lemma RedRedShape(c: Ctx, t: Tree, k: nat)
    requires RedBelow(c, t, k) && RedFrame(c)
    ensures !c.up.Top? && !c.up.red && !IsRed(c.other)
  {}

  /** Red uncle: the grandparent turns red, and the violation moves two levels up. */
  ghost function Recoloured(c: Ctx, t: Tree): Tree
    requires !c.Top? && !c.up.Top? && c.up.other.Bin?
  {
    var p := Join(c, t);
    var g := Join(Beside(c.up, c.up.other.(red := false)), p.(red := false));
    g.(red := true)
  }

  lemma RecolouredStep(c: Ctx, t: Tree, k: nat)
    requires RedBelow(c, t, k) && RedFrame(c) && !c.up.Top? && IsRed(c.up.other)
    ensures RedBelow(c.up.up, Recoloured(c, t), k + 1)
    ensures Whole(c.up.up, Recoloured(c, t)) == Whole(c, t)
    ensures CtxLen(c.up.up) < CtxLen(c)
  {
    var pt, pt' := Join(c, t), Join(c, t).(red := false);
    assert BalancedCtx(c.up, k);
    assert Balanced(pt', k + 1) && Balanced(c.up.other.(red := false), k + 1);
    WholeUp(c, t);
    WholeUp(c.up, pt);
    assert Inorder(pt') == Inorder(pt);
    assert Inorder(c.up.other.(red := false)) == Inorder(c.up.other);
    assert Inorder(Recoloured(c, t)) == Inorder(Join(c.up, pt));
  }

  /** Inner grandchild: one rotation makes it the parent of its old parent. */
  ghost function Outer(c: Ctx, t: Tree): (r: (Ctx, Tree))
    requires !c.Top? && t.Bin?
  {
    if c.InRight? then (InLeft(c.up, t.n, t.red, t.right), Bin(c.other, c.n, c.red, t.left))
    else (InRight(c.up, t.n, t.red, t.left), Bin(t.right, c.n, c.red, c.other))
  }

  lemma OuterStep(c: Ctx, t: Tree, k: nat)
    requires RedBelow(c, t, k) && RedFrame(c)
    ensures var (c', t') := Outer(c, t);
      RedBelow(c', t', k) && RedFrame(c') && c'.up == c.up && Whole(c', t') == Whole(c, t)
  {
    var (c', t') := Outer(c, t);
    WholeUp(c, t);
    WholeUp(c', t');
    if c.InRight? { RotateLeftInorder(Join(c, t)); } else { RotateRightInorder(Join(c, t)); }
  }

  /** Outer grandchild: the parent turns black above the red grandparent, which ends the loop. */
  ghost function Settled(c: Ctx): Ctx
    requires !c.Top? && !c.up.Top?
  {
    if c.InLeft? then InLeft(c.up.up, c.n, false, Bin(c.other, c.up.n, true, c.up.other))
    else InRight(c.up.up, c.n, false, Bin(c.up.other, c.up.n, true, c.other))
  }

  lemma SettledStep(c: Ctx, t: Tree, k: nat)
    requires RedBelow(c, t, k) && RedFrame(c) && !c.up.Top? && !IsRed(c.up.other) && c.InLeft? == c.up.InLeft?
    ensures RedBelow(Settled(c), t, k) && !RedFrame(Settled(c)) && Whole(Settled(c), t) == Whole(c, t)
    ensures CtxLen(Settled(c)) < CtxLen(c)
  {
    WholeUp(c, t);
    assert BalancedCtx(c.up, k);
    var g := Join(c.up, Join(c, t));
    WholeUp(c.up, Join(c, t));
    WholeUp(Settled(c), t);
    if c.InLeft? { RotateRightInorder(g); } else { RotateLeftInorder(g); }
  }

  /** The end of the loop: with the root set black the whole is a red-black tree. */
  lemma RedBelowDone(c: Ctx, t: Tree, k: nat)
    requires RedBelow(c, t, k) && !RedFrame(c)
    ensures var w := Plug(c, t); w.Bin? && RedBlack(w.(red := false)) && Inorder(w.(red := false)) == Whole(c, t)
  {
    WholeTop(c, t);
    if c.Top? {
      assert Balanced(t.(red := false), k + 1);
    } else {
      PlugBalanced(c, t, k);
      PlugBin(c, t);
      assert Plug(c, t).(red := false) == Plug(c, t);
    }
  }

  lemma {:induction false} PlugBin(c: Ctx, t: Tree)
    requires t.Bin?
    ensures Plug(c, t).Bin?
    decreases c
  {
    if !c.Top? {
      PlugBin(c.up, Join(c, t));
    }
  }

  // Erasure: t is one black node short of what its context needs, unless t is red and can
  // simply be set black.

  ghost predicate Deficit(c: Ctx, t: Tree, k: nat) {
    BalancedCtx(c, k + 1) && if IsRed(t) then Balanced(t.(red := false), k + 1) else Balanced(t, k)
  }

  lemma DeficitSibling(c: Ctx, t: Tree, k: nat)
    requires Deficit(c, t, k) && !c.Top?
    ensures c.other.Bin? && (c.red ==> !IsRed(c.other))
    ensures IsRed(c.other) ==> c.other.left.Bin? && c.other.right.Bin?
  {
    assert Balanced(c.other, k + 1);
    if IsRed(c.other) {
      assert Balanced(c.other.left, k + 1) && Balanced(c.other.right, k + 1);
    }
  }

  /** Red sibling: it is rotated above the parent, which turns red; the new sibling is black. */
  ghost function Lifted(c: Ctx): (r: Ctx)
    requires !c.Top? && c.other.Bin?
    ensures !r.Top? && r.n == c.n && r.InLeft? == c.InLeft? && CtxLen(r.up) == CtxLen(c)
  {
    var s := c.other;
    if c.InLeft? then InLeft(InLeft(c.up, s.n, false, s.right), c.n, true, s.left)
    else InRight(InRight(c.up, s.n, false, s.left), c.n, true, s.right)
  }

  lemma LiftedStep(c: Ctx, t: Tree, k: nat)
    requires Deficit(c, t, k) && !IsRed(t) && !c.Top? && IsRed(c.other)
    ensures Deficit(Lifted(c), t, k) && !IsRed(Lifted(c).other) && Lifted(c).red
    ensures Whole(Lifted(c), t) == Whole(c, t)
  {
    DeficitSibling(c, t, k);
    assert Balanced(c.other, k + 1);
    WholeUp(c, t);
    WholeUp(Lifted(c), t);
    WholeUp(Lifted(c).up, Join(Lifted(c), t));
    if c.InLeft? { RotateLeftInorder(Join(c, t)); } else { RotateRightInorder(Join(c, t)); }
  }

  ghost predicate BlackChildren(t: Tree) { t.Bin? && !IsRed(t.left) && !IsRed(t.right) }

  /** Black sibling with black children: it turns red, and the parent is short instead. */
  ghost function Sunk(c: Ctx, t: Tree): (r: Tree)
    requires !c.Top? && c.other.Bin?
    ensures r.Bin? && r.n == c.n
  {
    Join(Beside(c, c.other.(red := true)), t)
  }

  lemma SunkStep(c: Ctx, t: Tree, k: nat)
    requires Deficit(c, t, k) && !IsRed(t) && !c.Top? && !IsRed(c.other) && BlackChildren(c.other)
    ensures Deficit(c.up, Sunk(c, t), if c.red then k else k + 1)
    ensures Whole(c.up, Sunk(c, t)) == Whole(c, t) && IsRed(Sunk(c, t)) == c.red
  {
    var s := c.other;
    assert Balanced(s, k + 1);
    assert Balanced(s.(red := true), k);
    assert Inorder(s.(red := true)) == Inorder(s);
    WholeUp(c, t);
    assert Inorder(Sunk(c, t)) == Inorder(Join(c, t));
  }

  ghost function Far(c: Ctx): Tree
    requires !c.Top? && c.other.Bin?
  {
    if c.InLeft? then c.other.right else c.other.left
  }

  ghost function Near(c: Ctx): Tree
    requires !c.Top? && c.other.Bin?
  {
    if c.InLeft? then c.other.left else c.other.right
  }

  /** Black sibling whose only red child is the near one: that child is rotated to the top. */
  ghost function Straightened(c: Ctx): (r: Ctx)
    requires !c.Top? && c.other.Bin? && Near(c).Bin?
    ensures !r.Top? && r.other.Bin?
  {
    var s, x := c.other, Near(c);
    Beside(c, if c.InLeft? then Bin(x.left, x.n, false, Bin(x.right, s.n, true, s.right))
              else Bin(Bin(s.left, s.n, true, x.left), x.n, false, x.right))
  }

  lemma StraightenedStep(c: Ctx, t: Tree, k: nat)
    requires Deficit(c, t, k) && !c.Top? && !IsRed(c.other) && !BlackChildren(c.other)
    requires c.other.Bin? && !IsRed(Far(c))
    ensures Near(c).Bin? && Deficit(Straightened(c), t, k) && !IsRed(Straightened(c).other) && IsRed(Far(Straightened(c)))
    ensures Whole(Straightened(c), t) == Whole(c, t)
  {
    var s, x := c.other, Near(c);
    assert IsRed(x) && Balanced(s, k + 1) && Balanced(x, k);
    assert Balanced(Straightened(c).other, k + 1);
    if c.InLeft? { RotateRightInorder(s); } else { RotateLeftInorder(s); }
    assert Inorder(Straightened(c).other) == Inorder(s);
  }

  /** Black sibling with a red far child: one rotation of the parent restores everything. */
  ghost function Mended(c: Ctx, t: Tree): (r: Tree)
    requires !c.Top? && c.other.Bin? && Far(c).Bin?
    ensures r.Bin?
  {
    var s, f := c.other, Far(c).(red := false);
    if c.InLeft? then Bin(Bin(t, c.n, false, s.left), s.n, c.red, f)
    else Bin(f, s.n, c.red, Bin(s.right, c.n, false, t))
  }

  lemma MendedStep(c: Ctx, t: Tree, k: nat)
    requires Deficit(c, t, k) && !IsRed(t) && !c.Top? && c.other.Bin? && !IsRed(c.other) && IsRed(Far(c))
    ensures var w := Plug(c.up, Mended(c, t)); w.Bin? && RedBlack(w) && Inorder(w) == Whole(c, t)
  {
    assert Balanced(c.other, k + 1);
    var m := Mended(c, t);
    assert Balanced(Far(c), k) && Balanced(Far(c).(red := false), k + 1);
    assert Balanced(m, if c.red then k + 1 else k + 2);
    PlugBalanced(c.up, m, if c.red then k + 1 else k + 2);
    PlugBin(c.up, m);
    WholeTop(c.up, m);
    WholeUp(c, t);
    assert Inorder(Far(c).(red := false)) == Inorder(Far(c));
    if c.InLeft? { RotateLeftInorder(Join(c, t)); } else { RotateRightInorder(Join(c, t)); }
    assert Inorder(m) == Inorder(Join(c, t));
  }

  ghost function Blackened(t: Tree): Tree {
    if t.Bin? then t.(red := false) else t
  }

  /** The end of the loop: at the root, or on a red node, blackening the node settles the debt. */
  lemma DeficitDone(c: Ctx, t: Tree, k: nat)
    requires Deficit(c, t, k) && (c.Top? || IsRed(t))
    ensures RedBlack(Plug(c, Blackened(t))) && Inorder(Plug(c, Blackened(t))) == Whole(c, t)
  {
    var t' := Blackened(t);
    assert Inorder(t') == Inorder(t);
    WholeTop(c, t');
    if c.Top? {
      assert Balanced(t', k) || Balanced(t', k + 1);
    } else {
      PlugBalanced(c, t', k + 1);
    }
  }
}
