/** src/rbtree.c and the inline helpers of src/rbtree.h, in place on node objects. */
module RbTree {
  import opened RbModel
  import opened RbBalance
  import opened RbSplice

  /** `struct rb_root`, with the tree it stands for and the positions of its nodes as ghosts. */
  class RbRoot {
    var node: RbNode?
    ghost var tree: Tree
    ghost var pos: Position

    constructor ()
      ensures Valid() && Seq() == []
    {
      node := null;
      tree := Leaf;
      pos := _ => 0.5;
      new;
      assert Balanced(tree, 0);
    }

    ghost function Seq(): seq<RbNode>
      reads this
    {
      Inorder(tree)
    }

    ghost function Nodes(): set<RbNode>
      reads this
    {
      set n | n in Inorder(tree)
    }

    /** The linked nodes are a red-black tree, no node occurring twice. */
    ghost predicate Valid()
      reads this, Nodes()
    {
      Focus(Snap(Nodes()), node, pos, Top, tree) && RedBlack(tree)
    }
  }

  /** `rb_set_parent` and the two child assignments, each seen as one update of the snapshot. */
  lemma SnapAt(n: RbNode, s: set<RbNode>)
    requires n in s
    ensures n in Snap(s) && Snap(s)[n] == Cell(n.parent, n.red, n.left, n.right)
  {}

  lemma SnapKeys(s: set<RbNode>)
    ensures Snap(s).Keys == s
  {}

  /** The links around a focused node, read off the objects. */
  lemma Links(root: RbRoot, s: set<RbNode>, pos: Position, c: Ctx, t: Tree)
    requires Focus(Snap(s), root.node, pos, c, t) && t.Bin?
    ensures t.n in s && t.n.parent == CtxParent(c) && t.n.red == t.red && t.n.left == Ptr(t.left) && t.n.right == Ptr(t.right)
    ensures c.Top? <==> root.node == t.n
    ensures !c.Top? ==> c.n in s && c.n.red == c.red && c.n.parent == CtxParent(c.up)
    ensures !c.Top? ==> (c.n.left == t.n <==> c.InLeft?) && (c.n.right == t.n <==> c.InRight?)
    ensures !c.Top? ==> Ptr(c.other) == if c.InLeft? then c.n.right else c.n.left
    ensures !c.Top? && c.other.Bin? ==> c.other.n in s && c.other.n.red == c.other.red
    ensures t.left.Bin? ==> t.left.n in s && t.left.n.red == t.left.red
    ensures t.right.Bin? ==> t.right.n in s && t.right.n.red == t.right.red
  {
    FocusReads(Snap(s), root.node, pos, c, t);
  }

  /** The links around a hole that is not at the top: its parent and its sibling. */
  lemma HoleLinks(root: RbRoot, s: set<RbNode>, pos: Position, c: Ctx, t: Tree)
    requires Focus(Snap(s), root.node, pos, c, t) && !c.Top? && c.other.Bin?
    ensures c.n in s && c.n.red == c.red && c.n.parent == CtxParent(c.up)
    ensures c.n.left == Ptr(t) <==> c.InLeft?
    ensures c.other.n == if c.InLeft? then c.n.right else c.n.left
    ensures var o := c.other;
      o.n in s && o.n.red == o.red && o.n.left == Ptr(o.left) && o.n.right == Ptr(o.right) &&
      (o.left.Bin? ==> o.left.n in s && o.left.n.red == o.left.red) &&
      (o.right.Bin? ==> o.right.n in s && o.right.n.red == o.right.red)
    ensures root.node != null && root.node != Ptr(t)
  {
    FocusRoot(Snap(s), root.node, pos, c, t);
    FocusSibling(Snap(s), root.node, pos, c, t);
    FocusReads(Snap(s), root.node, pos, Sibling(c, t), c.other);
    CtxInterval(c, pos);
  }

  lemma HoleFacts(root: RbRoot, s: set<RbNode>, pos: Position, c: Ctx, t: Tree, k: nat)
    requires Focus(Snap(s), root.node, pos, c, t) && Deficit(c, t, k)
    ensures (t.Bin? ==> t.n in s && t.n.red == t.red) && (c.Top? <==> root.node == Ptr(t))
  {
    if !c.Top? {
      DeficitSibling(c, t, k);
      HoleLinks(root, s, pos, c, t);
    }
  }

  lemma TopDeficit(t: Tree) returns (k: nat)
    requires RedBlack(t)
    ensures Deficit(Top, t, k)
  {
    k :| Balanced(t, k);
  }

  method SetParent(node: RbNode, to: RbNode?, ghost s: set<RbNode>)
    requires node in s
    modifies node`parent
    ensures Snap(s) == old(Snap(s))[node := old(Snap(s))[node].(parent := to)]
  {
    node.parent := to;
  }

  method SetLeft(node: RbNode, to: RbNode?, ghost s: set<RbNode>)
    requires node in s
    modifies node`left
    ensures Snap(s) == old(Snap(s))[node := old(Snap(s))[node].(left := to)]
  {
    node.left := to;
  }

  method SetRight(node: RbNode, to: RbNode?, ghost s: set<RbNode>)
    requires node in s
    modifies node`right
    ensures Snap(s) == old(Snap(s))[node := old(Snap(s))[node].(right := to)]
  {
    node.right := to;
  }

  /** Whichever child link of the parent (or the root) led to `from` now leads to `to`. */
  method ReplaceLeftFirst(parent: RbNode?, from: RbNode, to: RbNode?, root: RbRoot, ghost s: set<RbNode>)
    requires parent != null ==> parent in s
    modifies s, root
    ensures root.node == if parent == null then to else old(root.node)
    ensures Snap(s) == if parent == null then old(Snap(s)) else ReplaceChild(old(Snap(s)), parent, from, to)
  {
    if parent != null {
      if from == parent.left {
        parent.left := to;
      } else {
        parent.right := to;
      }
    } else {
      root.node := to;
    }
  }

  /** The same, asking for the right child first, as the right rotation does. */
  method ReplaceRightFirst(parent: RbNode?, from: RbNode, to: RbNode?, root: RbRoot, ghost s: set<RbNode>)
    requires parent != null ==> parent in s
    modifies s, root
    ensures root.node == if parent == null then to else old(root.node)
    ensures Snap(s) == if parent == null then old(Snap(s)) else ReplaceChildR(old(Snap(s)), parent, from, to)
  {
    if parent != null {
      if from == parent.right {
        parent.right := to;
      } else {
        parent.left := to;
      }
    } else {
      root.node := to;
    }
  }

  method RotateLeft(node: RbNode, root: RbRoot, ghost s: set<RbNode>, ghost pos: Position, ghost c: Ctx, ghost t: Tree)
    requires Focus(Snap(s), root.node, pos, c, t) && t.Bin? && t.n == node && t.right.Bin?
    modifies s, root
    ensures Focus(Snap(s), root.node, pos, c, RotatedLeftTree(t))
  {
    hide Focus;
    hide Snap;
    ghost var h, top := Snap(s), root.node;
    RotateLeftDone(h, root.node, pos, c, t);
    SnapKeys(s);
    SnapAt(node, s);
    var right := node.right;
    var parent := node.parent;
    SnapAt(right, s);
    SetRight(node, right.left, s);
    if right.left != null {
      SetParent(right.left, node, s);
    }
    SetLeft(right, node, s);
    SetParent(right, parent, s);
    assert Snap(s) == RotateLeftInner(h, node);
    ReplaceLeftFirst(parent, node, right, root, s);
    SetParent(node, right, s);
    assert Snap(s) == RotateLeftWrites(h, node);
    assert root.node == if c.Top? then t.right.n else top;
  }

  method RotateRight(node: RbNode, root: RbRoot, ghost s: set<RbNode>, ghost pos: Position, ghost c: Ctx, ghost t: Tree)
    requires Focus(Snap(s), root.node, pos, c, t) && t.Bin? && t.n == node && t.left.Bin?
    modifies s, root
    ensures Focus(Snap(s), root.node, pos, c, RotatedRightTree(t))
  {
    hide Focus;
    hide Snap;
    ghost var h, top := Snap(s), root.node;
    RotateRightDone(h, root.node, pos, c, t);
    SnapKeys(s);
    SnapAt(node, s);
    var left := node.left;
    var parent := node.parent;
    SnapAt(left, s);
    SetLeft(node, left.right, s);
    if left.right != null {
      SetParent(left.right, node, s);
    }
    SetRight(left, node, s);
    SetParent(left, parent, s);
    assert Snap(s) == RotateRightInner(h, node);
    ReplaceRightFirst(parent, node, left, root, s);
    SetParent(node, left, s);
    assert Snap(s) == RotateRightWrites(h, node);
    assert root.node == if c.Top? then t.left.n else top;
  }

  method SetColour(node: RbNode, red: bool, ghost root: RbRoot, ghost s: set<RbNode>, ghost pos: Position, ghost c: Ctx, ghost t: Tree)
    requires Focus(Snap(s), root.node, pos, c, t) && t.Bin? && t.n == node
    modifies node`red
    ensures Focus(Snap(s), root.node, pos, c, t.(red := red))
  {
    ColourFocus(Snap(s), root.node, pos, c, t, red);
    ghost var h := Snap(s);
    node.red := red;
    assert Snap(s) == h[node := h[node].(red := red)];
  }

  method Recolour(parent: RbNode, uncle: RbNode, gparent: RbNode, ghost root: RbRoot, ghost s: set<RbNode>, ghost pos: Position, ghost c: Ctx, ghost t: Tree)
    requires Focus(Snap(s), root.node, pos, c, t)
    requires !c.Top? && !c.up.Top? && c.up.other.Bin?
    requires parent == c.n && gparent == c.up.n && uncle == c.up.other.n
    modifies parent`red, uncle`red, gparent`red
    ensures Focus(Snap(s), root.node, pos, c.up.up, Recoloured(c, t))
  {
    hide Focus;
    ghost var up, pt := c.up, Join(c, t);
    FocusUp(Snap(s), root.node, pos, c, t);
    FocusSibling(Snap(s), root.node, pos, up, pt);
    SetColour(uncle, false, root, s, pos, Sibling(up, pt), up.other);
    ghost var ut := up.other.(red := false);
    FocusSibling(Snap(s), root.node, pos, Sibling(up, pt), ut);
    ghost var up1 := Beside(up, ut);
    assert Sibling(Sibling(up, pt), ut) == up1;
    SetColour(parent, false, root, s, pos, up1, pt);
    ghost var pt1 := pt.(red := false);
    FocusUp(Snap(s), root.node, pos, up1, pt1);
    SetColour(gparent, true, root, s, pos, up.up, Join(up1, pt1));
  }

  /** The black-uncle half of the left case: at most one rotation to bring the red pair outside,
      two colours, and the rotation of the grandparent. */
  method SettleLeft(node0: RbNode, parent0: RbNode, gparent: RbNode, root: RbRoot, ghost s: set<RbNode>, ghost pos: Position,
                 ghost c0: Ctx, ghost t0: Tree, ghost k: nat) returns (node: RbNode, ghost c: Ctx, ghost t: Tree)
    requires Focus(Snap(s), root.node, pos, c0, t0) && RedBelow(c0, t0, k) && RedFrame(c0)
    requires c0.up.InLeft? && !IsRed(c0.up.other)
    requires node0 == t0.n && parent0 == c0.n && gparent == c0.up.n
    modifies s, root
    ensures Focus(Snap(s), root.node, pos, c, t) && RedBelow(c, t, k) && !RedFrame(c) && t.n == node
    ensures Whole(c, t) == Whole(c0, t0) && CtxLen(c) < CtxLen(c0)
  {
    hide Focus;
    hide Snap;
    hide Balanced;
    hide BalancedCtx;
    hide Whole;
    node, c, t := node0, c0, t0;
    var parent := parent0;
    Links(root, s, pos, c, t);
    FocusUp(Snap(s), root.node, pos, c, t);
    Links(root, s, pos, c.up, Join(c, t));
    if parent.right == node {
      OuterStep(c, t, k);
      RotateLeft(parent, root, s, pos, c.up, Join(c, t));
      c, t := Outer(c, t).0, Outer(c, t).1;
      FocusLeft(Snap(s), root.node, pos, c.up, Join(c, t));
      node, parent := parent, node;
      FocusUp(Snap(s), root.node, pos, c, t);
    }
    SettledStep(c, t, k);
    ghost var p, up := Join(c, t), c.up;
    SetColour(parent, false, root, s, pos, up, p);
    p := p.(red := false);
    FocusUp(Snap(s), root.node, pos, up, p);
    Links(root, s, pos, up.up, Join(up, p));
    SetColour(gparent, true, root, s, pos, up.up, Join(up, p));
    RotateRight(gparent, root, s, pos, up.up, Join(up, p).(red := true));
    c := Settled(c);
    FocusLeft(Snap(s), root.node, pos, c.up, Join(c, t));
  }

  /** The black-uncle half of the right case: at most one rotation to bring the red pair outside,
      two colours, and the rotation of the grandparent. */
  method SettleRight(node0: RbNode, parent0: RbNode, gparent: RbNode, root: RbRoot, ghost s: set<RbNode>, ghost pos: Position,
                 ghost c0: Ctx, ghost t0: Tree, ghost k: nat) returns (node: RbNode, ghost c: Ctx, ghost t: Tree)
    requires Focus(Snap(s), root.node, pos, c0, t0) && RedBelow(c0, t0, k) && RedFrame(c0)
    requires c0.up.InRight? && !IsRed(c0.up.other)
    requires node0 == t0.n && parent0 == c0.n && gparent == c0.up.n
    modifies s, root
    ensures Focus(Snap(s), root.node, pos, c, t) && RedBelow(c, t, k) && !RedFrame(c) && t.n == node
    ensures Whole(c, t) == Whole(c0, t0) && CtxLen(c) < CtxLen(c0)
  {
    hide Focus;
    hide Snap;
    hide Balanced;
    hide BalancedCtx;
    hide Whole;
    node, c, t := node0, c0, t0;
    var parent := parent0;
    Links(root, s, pos, c, t);
    FocusUp(Snap(s), root.node, pos, c, t);
    Links(root, s, pos, c.up, Join(c, t));
    if parent.left == node {
      OuterStep(c, t, k);
      RotateRight(parent, root, s, pos, c.up, Join(c, t));
      c, t := Outer(c, t).0, Outer(c, t).1;
      FocusRight(Snap(s), root.node, pos, c.up, Join(c, t));
      node, parent := parent, node;
      FocusUp(Snap(s), root.node, pos, c, t);
    }
    SettledStep(c, t, k);
    ghost var p, up := Join(c, t), c.up;
    SetColour(parent, false, root, s, pos, up, p);
    p := p.(red := false);
    FocusUp(Snap(s), root.node, pos, up, p);
    Links(root, s, pos, up.up, Join(up, p));
    SetColour(gparent, true, root, s, pos, up.up, Join(up, p));
    RotateLeft(gparent, root, s, pos, up.up, Join(up, p).(red := true));
    c := Settled(c);
    FocusRight(Snap(s), root.node, pos, c.up, Join(c, t));
  }

  /** `rb_insert_color`, started on a red node whose parent may be red as well. */
  method InsertColor(node0: RbNode, root: RbRoot, ghost s: set<RbNode>, ghost pos: Position, ghost c0: Ctx, ghost t0: Tree, ghost k0: nat)
    returns (ghost t': Tree)
    requires Focus(Snap(s), root.node, pos, c0, t0) && t0.Bin? && t0.n == node0
    requires RedBelow(c0, t0, k0)
    modifies s, root
    ensures Focus(Snap(s), root.node, pos, Top, t') && RedBlack(t')
    ensures Inorder(t') == Whole(c0, t0)
  {
    hide Focus;
    hide Snap;
    var node := node0;
    ghost var c, t, k := c0, t0, k0;
    Links(root, s, pos, c, t);
    while node.parent != null && node.parent.red
      invariant Focus(Snap(s), root.node, pos, c, t) && t.Bin? && t.n == node
      invariant node in s && node.parent == CtxParent(c) && (!c.Top? ==> c.n in s && c.n.red == c.red)
      invariant RedBelow(c, t, k)
      invariant Whole(c, t) == Whole(c0, t0)
      decreases CtxLen(c)
    {
      RedRedShape(c, t, k);
      Links(root, s, pos, c, t);
      FocusUp(Snap(s), root.node, pos, c, t);
      Links(root, s, pos, c.up, Join(c, t));
      hide Balanced;
      hide BalancedCtx;
      hide Whole;
      var parent := node.parent;
      var gparent := parent.parent;
      if parent == gparent.left {
        var uncle := gparent.right;
        if uncle != null && uncle.red {
          RecolouredStep(c, t, k);
          Recolour(parent, uncle, gparent, root, s, pos, c, t);
          node, c, t, k := gparent, c.up.up, Recoloured(c, t), k + 1;
        } else {
          node, c, t := SettleLeft(node, parent, gparent, root, s, pos, c, t, k);
        }
      } else {
        var uncle := gparent.left;
        if uncle != null && uncle.red {
          RecolouredStep(c, t, k);
          Recolour(parent, uncle, gparent, root, s, pos, c, t);
          node, c, t, k := gparent, c.up.up, Recoloured(c, t), k + 1;
        } else {
          node, c, t := SettleRight(node, parent, gparent, root, s, pos, c, t, k);
        }
      }
      Links(root, s, pos, c, t);
    }
    RedBelowDone(c, t, k);
    FocusTop(Snap(s), root.node, pos, c, t);
    t' := Plug(c, t);
    Links(root, s, pos, Top, t');
    SetColour(root.node, false, root, s, pos, Top, t');
    t' := t'.(red := false);
  }

  /** Red sibling (left case): after the rotation the sibling is a black node. */
  method LiftLeft(parent: RbNode, other: RbNode, root: RbRoot, ghost s: set<RbNode>, ghost pos: Position, ghost c: Ctx, ghost t: Tree)
    requires Focus(Snap(s), root.node, pos, c, t) && c.InLeft? && IsRed(c.other) && c.other.left.Bin?
    requires parent == c.n && other == c.other.n
    modifies s, root
    ensures Focus(Snap(s), root.node, pos, Lifted(c), t)
  {
    hide Focus;
    hide Snap;
    HoleLinks(root, s, pos, c, t);
    ghost var o := c.other.(red := false);
    FocusSibling(Snap(s), root.node, pos, c, t);
    SetColour(other, false, root, s, pos, Sibling(c, t), c.other);
    FocusUp(Snap(s), root.node, pos, Sibling(c, t), o);
    ghost var p := Join(Sibling(c, t), o);
    SetColour(parent, true, root, s, pos, c.up, p);
    p := p.(red := true);
    RotateLeft(parent, root, s, pos, c.up, p);
    FocusLeft(Snap(s), root.node, pos, c.up, RotatedLeftTree(p));
    FocusLeft(Snap(s), root.node, pos, Lifted(c).up, RotatedLeftTree(p).left);
  }

  /** The first half of a round (left case): the sibling, made black by a rotation if it was red. */
  method BlackSiblingLeft(parent: RbNode, root: RbRoot, ghost s: set<RbNode>, ghost pos: Position, ghost c0: Ctx, ghost t: Tree, ghost k: nat)
    returns (other: RbNode, ghost c: Ctx)
    requires Focus(Snap(s), root.node, pos, c0, t) && c0.InLeft? && Deficit(c0, t, k) && !IsRed(t) && parent == c0.n
    modifies s, root
    ensures Focus(Snap(s), root.node, pos, c, t) && c.InLeft? && Deficit(c, t, k) && parent == c.n
    ensures c.other.Bin? && !IsRed(c.other) && other == c.other.n && Whole(c, t) == Whole(c0, t)
    ensures c == c0 || (c.red && CtxLen(c.up) == CtxLen(c0))
    ensures BlackChildren(c.other) <==> (other.left == null || !other.left.red) && (other.right == null || !other.right.red)
  {
    hide Focus;
    hide Snap;
    hide Deficit;
    hide Whole;
    c := c0;
    DeficitSibling(c, t, k);
    HoleLinks(root, s, pos, c, t);
    other := parent.right;
    if other.red {
      LiftedStep(c, t, k);
      LiftLeft(parent, other, root, s, pos, c, t);
      c := Lifted(c);
      DeficitSibling(c, t, k);
      HoleLinks(root, s, pos, c, t);
      other := parent.right;
    }
  }

  /** Only the near nephew is red (left case): the rotation of the sibling makes the far one red. */
  method StraightenLeft(other: RbNode, root: RbRoot, ghost s: set<RbNode>, ghost pos: Position, ghost c: Ctx, ghost t: Tree)
    requires Focus(Snap(s), root.node, pos, c, t) && c.InLeft? && c.other.Bin? && c.other.left.Bin?
    requires other == c.other.n
    modifies s, root
    ensures Focus(Snap(s), root.node, pos, Straightened(c), t)
  {
    hide Focus;
    hide Snap;
    HoleLinks(root, s, pos, c, t);
    ghost var o, sib := c.other, Sibling(c, t);
    FocusSibling(Snap(s), root.node, pos, c, t);
    FocusLeft(Snap(s), root.node, pos, sib, o);
    ghost var near := InLeft(sib, o.n, o.red, o.right);
    SetColour(other.left, false, root, s, pos, near, o.left);
    FocusUp(Snap(s), root.node, pos, near, o.left.(red := false));
    o := Join(near, o.left.(red := false));
    SetColour(other, true, root, s, pos, sib, o);
    o := o.(red := true);
    RotateRight(other, root, s, pos, sib, o);
    FocusSibling(Snap(s), root.node, pos, sib, RotatedRightTree(o));
  }

  /** The far nephew is red (left case): three colours and the rotation of the parent. */
  method MendLeft(parent: RbNode, other: RbNode, root: RbRoot, ghost s: set<RbNode>, ghost pos: Position, ghost c: Ctx, ghost t: Tree)
    requires Focus(Snap(s), root.node, pos, c, t) && c.InLeft? && c.other.Bin? && c.other.right.Bin?
    requires parent == c.n && other == c.other.n
    modifies s, root
    ensures Focus(Snap(s), root.node, pos, c.up, Mended(c, t))
  {
    hide Focus;
    hide Snap;
    HoleLinks(root, s, pos, c, t);
    ghost var o, sib := c.other.(red := c.red), InRight(c.up, c.n, false, t);
    FocusSibling(Snap(s), root.node, pos, c, t);
    SetColour(other, parent.red, root, s, pos, Sibling(c, t), c.other);
    FocusUp(Snap(s), root.node, pos, Sibling(c, t), o);
    SetColour(parent, false, root, s, pos, c.up, Join(Sibling(c, t), o));
    FocusRight(Snap(s), root.node, pos, c.up, Join(sib, o));
    Links(root, s, pos, sib, o);
    ghost var far := InRight(sib, o.n, o.red, o.left);
    FocusRight(Snap(s), root.node, pos, sib, o);
    SetColour(other.right, false, root, s, pos, far, o.right);
    FocusUp(Snap(s), root.node, pos, far, o.right.(red := false));
    o := Join(far, o.right.(red := false));
    FocusUp(Snap(s), root.node, pos, sib, o);
    RotateLeft(parent, root, s, pos, c.up, Join(sib, o));
  }

  /** Red sibling (right case): after the rotation the sibling is a black node. */
  method LiftRight(parent: RbNode, other: RbNode, root: RbRoot, ghost s: set<RbNode>, ghost pos: Position, ghost c: Ctx, ghost t: Tree)
    requires Focus(Snap(s), root.node, pos, c, t) && c.InRight? && IsRed(c.other) && c.other.right.Bin?
    requires parent == c.n && other == c.other.n
    modifies s, root
    ensures Focus(Snap(s), root.node, pos, Lifted(c), t)
  {
    hide Focus;
    hide Snap;
    HoleLinks(root, s, pos, c, t);
    ghost var o := c.other.(red := false);
    FocusSibling(Snap(s), root.node, pos, c, t);
    SetColour(other, false, root, s, pos, Sibling(c, t), c.other);
    FocusUp(Snap(s), root.node, pos, Sibling(c, t), o);
    ghost var p := Join(Sibling(c, t), o);
    SetColour(parent, true, root, s, pos, c.up, p);
    p := p.(red := true);
    RotateRight(parent, root, s, pos, c.up, p);
    FocusRight(Snap(s), root.node, pos, c.up, RotatedRightTree(p));
    FocusRight(Snap(s), root.node, pos, Lifted(c).up, RotatedRightTree(p).right);
  }

  /** The first half of a round (right case): the sibling, made black by a rotation if it was red. */
  method BlackSiblingRight(parent: RbNode, root: RbRoot, ghost s: set<RbNode>, ghost pos: Position, ghost c0: Ctx, ghost t: Tree, ghost k: nat)
    returns (other: RbNode, ghost c: Ctx)
    requires Focus(Snap(s), root.node, pos, c0, t) && c0.InRight? && Deficit(c0, t, k) && !IsRed(t) && parent == c0.n
    modifies s, root
    ensures Focus(Snap(s), root.node, pos, c, t) && c.InRight? && Deficit(c, t, k) && parent == c.n
    ensures c.other.Bin? && !IsRed(c.other) && other == c.other.n && Whole(c, t) == Whole(c0, t)
    ensures c == c0 || (c.red && CtxLen(c.up) == CtxLen(c0))
    ensures BlackChildren(c.other) <==> (other.left == null || !other.left.red) && (other.right == null || !other.right.red)
  {
    hide Focus;
    hide Snap;
    hide Deficit;
    hide Whole;
    c := c0;
    DeficitSibling(c, t, k);
    HoleLinks(root, s, pos, c, t);
    other := parent.left;
    if other.red {
      LiftedStep(c, t, k);
      LiftRight(parent, other, root, s, pos, c, t);
      c := Lifted(c);
      DeficitSibling(c, t, k);
      HoleLinks(root, s, pos, c, t);
      other := parent.left;
    }
  }

  /** Only the near nephew is red (right case): the rotation of the sibling makes the far one red. */
  method StraightenRight(other: RbNode, root: RbRoot, ghost s: set<RbNode>, ghost pos: Position, ghost c: Ctx, ghost t: Tree)
    requires Focus(Snap(s), root.node, pos, c, t) && c.InRight? && c.other.Bin? && c.other.right.Bin?
    requires other == c.other.n
    modifies s, root
    ensures Focus(Snap(s), root.node, pos, Straightened(c), t)
  {
    hide Focus;
    hide Snap;
    HoleLinks(root, s, pos, c, t);
    ghost var o, sib := c.other, Sibling(c, t);
    FocusSibling(Snap(s), root.node, pos, c, t);
    FocusRight(Snap(s), root.node, pos, sib, o);
    ghost var near := InRight(sib, o.n, o.red, o.left);
    SetColour(other.right, false, root, s, pos, near, o.right);
    FocusUp(Snap(s), root.node, pos, near, o.right.(red := false));
    o := Join(near, o.right.(red := false));
    SetColour(other, true, root, s, pos, sib, o);
    o := o.(red := true);
    RotateLeft(other, root, s, pos, sib, o);
    FocusSibling(Snap(s), root.node, pos, sib, RotatedLeftTree(o));
  }

  /** The far nephew is red (right case): three colours and the rotation of the parent. */
  method MendRight(parent: RbNode, other: RbNode, root: RbRoot, ghost s: set<RbNode>, ghost pos: Position, ghost c: Ctx, ghost t: Tree)
    requires Focus(Snap(s), root.node, pos, c, t) && c.InRight? && c.other.Bin? && c.other.left.Bin?
    requires parent == c.n && other == c.other.n
    modifies s, root
    ensures Focus(Snap(s), root.node, pos, c.up, Mended(c, t))
  {
    hide Focus;
    hide Snap;
    HoleLinks(root, s, pos, c, t);
    ghost var o, sib := c.other.(red := c.red), InLeft(c.up, c.n, false, t);
    FocusSibling(Snap(s), root.node, pos, c, t);
    SetColour(other, parent.red, root, s, pos, Sibling(c, t), c.other);
    FocusUp(Snap(s), root.node, pos, Sibling(c, t), o);
    SetColour(parent, false, root, s, pos, c.up, Join(Sibling(c, t), o));
    FocusLeft(Snap(s), root.node, pos, c.up, Join(sib, o));
    Links(root, s, pos, sib, o);
    ghost var far := InLeft(sib, o.n, o.red, o.right);
    FocusLeft(Snap(s), root.node, pos, sib, o);
    SetColour(other.left, false, root, s, pos, far, o.left);
    FocusUp(Snap(s), root.node, pos, far, o.left.(red := false));
    o := Join(far, o.left.(red := false));
    FocusUp(Snap(s), root.node, pos, sib, o);
    RotateRight(parent, root, s, pos, c.up, Join(sib, o));
  }

  /** A black sibling with a red child (left case): everything is settled here. */
  method FinishLeft(parent: RbNode, other0: RbNode, root: RbRoot, ghost s: set<RbNode>, ghost pos: Position, ghost c0: Ctx, ghost t: Tree, ghost k: nat)
    returns (ghost w: Tree, ghost k': nat)
    requires Focus(Snap(s), root.node, pos, c0, t) && c0.InLeft?
    requires Deficit(c0, t, k) && !IsRed(t) && c0.other.Bin? && !IsRed(c0.other) && !BlackChildren(c0.other)
    requires parent == c0.n && other0 == c0.other.n
    modifies s, root
    ensures Focus(Snap(s), root.node, pos, Top, w) && Deficit(Top, w, k') && Inorder(w) == Whole(c0, t)
    ensures w.Bin? && w.n == root.node && w.n in s && w.n.red == w.red
  {
    hide Focus;
    hide Snap;
    hide Deficit;
    hide Whole;
    var other := other0;
    ghost var c := c0;
    HoleLinks(root, s, pos, c, t);
    if other.right == null || !other.right.red {
      StraightenedStep(c, t, k);
      StraightenLeft(other, root, s, pos, c, t);
      c := Straightened(c);
      HoleLinks(root, s, pos, c, t);
      other := parent.right;
    }
    MendedStep(c, t, k);
    MendLeft(parent, other, root, s, pos, c, t);
    FocusTop(Snap(s), root.node, pos, c.up, Mended(c, t));
    w := Plug(c.up, Mended(c, t));
    k' := TopDeficit(w);
    Links(root, s, pos, Top, w);
  }

  /** A black sibling with a red child (right case): everything is settled here. */
  method FinishRight(parent: RbNode, other0: RbNode, root: RbRoot, ghost s: set<RbNode>, ghost pos: Position, ghost c0: Ctx, ghost t: Tree, ghost k: nat)
    returns (ghost w: Tree, ghost k': nat)
    requires Focus(Snap(s), root.node, pos, c0, t) && c0.InRight?
    requires Deficit(c0, t, k) && !IsRed(t) && c0.other.Bin? && !IsRed(c0.other) && !BlackChildren(c0.other)
    requires parent == c0.n && other0 == c0.other.n
    modifies s, root
    ensures Focus(Snap(s), root.node, pos, Top, w) && Deficit(Top, w, k') && Inorder(w) == Whole(c0, t)
    ensures w.Bin? && w.n == root.node && w.n in s && w.n.red == w.red
  {
    hide Focus;
    hide Snap;
    hide Deficit;
    hide Whole;
    var other := other0;
    ghost var c := c0;
    HoleLinks(root, s, pos, c, t);
    if other.left == null || !other.left.red {
      StraightenedStep(c, t, k);
      StraightenRight(other, root, s, pos, c, t);
      c := Straightened(c);
      HoleLinks(root, s, pos, c, t);
      other := parent.left;
    }
    MendedStep(c, t, k);
    MendRight(parent, other, root, s, pos, c, t);
    FocusTop(Snap(s), root.node, pos, c.up, Mended(c, t));
    w := Plug(c.up, Mended(c, t));
    k' := TopDeficit(w);
    Links(root, s, pos, Top, w);
  }

  /** A black sibling with black children turns red, and the parent is short instead. */
  method Sink(other: RbNode, parent: RbNode, root: RbRoot, ghost s: set<RbNode>, ghost pos: Position, ghost c: Ctx, ghost t: Tree)
    requires Focus(Snap(s), root.node, pos, c, t) && !c.Top? && c.other.Bin? && other == c.other.n && parent == c.n
    modifies s
    ensures Focus(Snap(s), root.node, pos, c.up, Sunk(c, t))
    ensures parent in s && parent.red == Sunk(c, t).red && parent.parent == CtxParent(c.up)
    ensures c.up.Top? <==> root.node == parent
  {
    hide Focus;
    HoleLinks(root, s, pos, c, t);
    FocusSibling(Snap(s), root.node, pos, c, t);
    SetColour(other, true, root, s, pos, Sibling(c, t), c.other);
    FocusUp(Snap(s), root.node, pos, Sibling(c, t), c.other.(red := true));
    Links(root, s, pos, c.up, Sunk(c, t));
  }

  /** `__rb_erase_color`, started where one black node has just gone missing. */
  method EraseColor(node0: RbNode?, parent0: RbNode?, root: RbRoot, ghost s: set<RbNode>, ghost pos: Position, ghost c0: Ctx, ghost t0: Tree, ghost k0: nat)
    returns (ghost t': Tree)
    requires Focus(Snap(s), root.node, pos, c0, t0) && Ptr(t0) == node0 && CtxParent(c0) == parent0
    requires Deficit(c0, t0, k0)
    modifies s, root
    ensures Focus(Snap(s), root.node, pos, Top, t') && RedBlack(t')
    ensures Inorder(t') == Whole(c0, t0)
  {
    hide Focus;
    hide Snap;
    hide Deficit;
    hide Whole;
    hide Lifted;
    hide Sunk;
    hide Plug;
    hide RedBlack;
    var node, parent := node0, parent0;
    ghost var c, t, k := c0, t0, k0;
    HoleFacts(root, s, pos, c, t, k);
    while (node == null || !node.red) && node != root.node
      invariant Focus(Snap(s), root.node, pos, c, t) && Ptr(t) == node && CtxParent(c) == parent
      invariant Deficit(c, t, k)
      invariant Whole(c, t) == Whole(c0, t0)
      invariant (t.Bin? ==> t.n in s && t.n.red == t.red) && (c.Top? <==> root.node == Ptr(t))
      decreases if IsRed(t) then 0 else 1 + CtxLen(c)
    {
      DeficitSibling(c, t, k);
      HoleLinks(root, s, pos, c, t);
      if parent.left == node {
        var other;
        other, c := BlackSiblingLeft(parent, root, s, pos, c, t, k);
        if (other.left == null || !other.left.red) && (other.right == null || !other.right.red) {
          SunkStep(c, t, k);
          Sink(other, parent, root, s, pos, c, t);
          node := parent;
          c, t, k := c.up, Sunk(c, t), if c.red then k else k + 1;
          parent := node.parent;
        } else {
          t, k := FinishLeft(parent, other, root, s, pos, c, t, k);
          c := Top;
          WholeAtTop(t);
          node := root.node;
          break;
        }
      } else {
        var other;
        other, c := BlackSiblingRight(parent, root, s, pos, c, t, k);
        if (other.left == null || !other.left.red) && (other.right == null || !other.right.red) {
          SunkStep(c, t, k);
          Sink(other, parent, root, s, pos, c, t);
          node := parent;
          c, t, k := c.up, Sunk(c, t), if c.red then k else k + 1;
          parent := node.parent;
        } else {
          t, k := FinishRight(parent, other, root, s, pos, c, t, k);
          c := Top;
          WholeAtTop(t);
          node := root.node;
          break;
        }
      }
    }
    DeficitDone(c, t, k);
    if node != null {
      SetColour(node, false, root, s, pos, c, t);
    }
    FocusTop(Snap(s), root.node, pos, c, Blackened(t));
    t' := Plug(c, Blackened(t));
  }

  /** A node with at most one child leaves the structure. */
  method Unlink(node: RbNode, child: RbNode?, root: RbRoot, ghost s: set<RbNode>, ghost pos: Position, ghost c: Ctx, ghost t: Tree)
    requires Focus(Snap(s), root.node, pos, c, t) && t.Bin? && t.n == node && (t.left.Leaf? || t.right.Leaf?)
    requires child == Ptr(OnlyChild(t))
    modifies s, root
    ensures Focus(Snap(s), root.node, pos, c, OnlyChild(t))
  {
    hide Focus;
    hide Snap;
    ghost var h, top := Snap(s), root.node;
    Links(root, s, pos, c, t);
    SnapKeys(s);
    FocusReads(h, top, pos, c, t);
    ChildApart(h, top, pos, c, t);
    var parent := node.parent;
    if child != null {
      SetParent(child, parent, s);
    }
    ReplaceLeftFirst(parent, node, child, root, s);
    SpliceFocus(h, Snap(s), top, root.node, pos, c, t);
  }

  lemma ChildApart(h: Heap, root: RbNode?, pos: Position, c: Ctx, t: Tree)
    requires Focus(h, root, pos, c, t) && t.Bin?
    ensures t.left.Bin? ==> t.left.n in h && t.left.n != t.n && t.left.n != CtxParent(c)
    ensures t.right.Bin? ==> t.right.n in h && t.right.n != t.n && t.right.n != CtxParent(c)
  {
    assert Rep(h, t.left, t.n) && Rep(h, t.right, t.n);
    assert Within(t.left, pos, Lo(c, pos), pos(t.n)) && Within(t.right, pos, pos(t.n), Hi(c, pos));
    CtxInterval(c, pos);
  }

  /** The leftmost node of the focused tree, reached by the loop of `rb_erase` and `rb_next`. */
  method Leftmost(start: RbNode, root: RbRoot, ghost s: set<RbNode>, ghost pos: Position, ghost base: Ctx, ghost t: Tree)
    returns (node: RbNode, ghost d: Ctx, ghost yt: Tree)
    requires Focus(Snap(s), root.node, pos, base, t) && t.Bin? && t.n == start
    ensures Focus(Snap(s), root.node, pos, d, yt) && yt.Bin? && yt.n == node && yt.left.Leaf? && node in s
    ensures Spine(d, base) && PlugTo(d, base, yt) == t
  {
    hide Focus;
    hide Snap;
    node, d, yt := start, base, t;
    Links(root, s, pos, d, yt);
    while node.left != null
      invariant Focus(Snap(s), root.node, pos, d, yt) && yt.Bin? && yt.n == node && node.left == Ptr(yt.left) && node in s
      invariant Spine(d, base) && PlugTo(d, base, yt) == t
      decreases yt
    {
      FocusLeft(Snap(s), root.node, pos, d, yt);
      SpineLength(d, base);
      d, yt := InLeft(d, yt.n, yt.red, yt.right), yt.left;
      node := node.left;
      Links(root, s, pos, d, yt);
    }
  }

  /** The successor leaves its parent and takes the node's right child as its own. */
  method Detach(old_: RbNode, node: RbNode, child: RbNode?, parent: RbNode, ghost s: set<RbNode>)
    requires CanTransplant(Snap(s), old_, node) && node.parent == parent != old_ && node.right == child
    requires child != old_ && parent != node && child != node && old_ != node && old_.right != old_
    modifies s
    ensures old_.left == old(old_.left)
    ensures Snap(s) == DetachWrites(old(Snap(s)), old_, node)
  {
    SnapKeys(s);
    SnapAt(old_, s);
    SnapAt(node, s);
    hide Snap;
    if child != null {
      SetParent(child, parent, s);
    }
    SetLeft(parent, child, s);
    SetRight(node, old_.right, s);
    SetParent(old_.right, node, s);
  }

  /** The successor takes the node's parent, colour and left child. */
  method Inherit(old_: RbNode, node: RbNode, ghost s: set<RbNode>)
    requires old_ in s && node in s && old_.left != null && old_.left in s && old_ != node
    modifies s
    ensures Snap(s) == InheritWrites(old(Snap(s)), old_, node, old(old_.left))
  {
    ghost var h := Snap(s);
    node.parent, node.red := old_.parent, old_.red;
    assert Snap(s) == h[node := h[node].(parent := h[old_].parent, red := h[old_].red)];
    SnapKeys(s);
    hide Snap;
    SetLeft(node, old_.left, s);
    SetParent(old_.left, node, s);
  }

  /** A node with two children gives its place, links and colour to its successor; what
      comes back is the hole the successor left. */
  method ReplaceBySuccessor(old_: RbNode, root: RbRoot, ghost s: set<RbNode>, ghost pos: Position, ghost c: Ctx, ghost t: Tree)
    returns (child: RbNode?, parent: RbNode?, red: bool, ghost d: Ctx, ghost yt: Tree)
    requires Focus(Snap(s), root.node, pos, c, t) && t.Bin? && t.n == old_ && t.left.Bin? && t.right.Bin?
    modifies s, root
    ensures yt.Bin? && yt.left.Leaf? && red == yt.red
    ensures Spine(d, InRight(c, t.n, t.red, t.left)) && PlugTo(d, InRight(c, t.n, t.red, t.left), yt) == t.right
    ensures var d' := Graft(d, InRight(c, t.n, t.red, t.left), InRight(c, yt.n, t.red, t.left));
      Focus(Snap(s), root.node, pos, d', yt.right) && child == Ptr(yt.right) && parent == CtxParent(d')
  {
    hide Focus;
    hide Snap;
    ghost var h, top, base := Snap(s), root.node, InRight(c, t.n, t.red, t.left);
    Links(root, s, pos, c, t);
    FocusRight(h, top, pos, c, t);
    var node: RbNode;
    node, d, yt := Leftmost(old_.right, root, s, pos, base, t.right);
    SuccessionApart(h, top, pos, c, t, d, yt);
    SuccessionReads(h, top, pos, c, t, d, yt);
    TransplantFocus(h, top, pos, c, t, d, yt);
    SnapKeys(s);
    SnapAt(old_, s);
    ReplaceLeftFirst(old_.parent, old_, node, root, s);
    SnapKeys(s);
    SnapAt(node, s);
    SnapAt(old_, s);
    child := node.right;
    parent := node.parent;
    red := node.red;
    if parent == old_ {
      parent := node;
    } else {
      Detach(old_, node, child, parent, s);
    }
    Inherit(old_, node, s);
    assert Snap(s) == TransplantWrites(h, old_, node);
  }

  /** `rb_erase` at a focused node. */
  method EraseAt(node: RbNode, root: RbRoot, ghost s: set<RbNode>, ghost pos: Position, ghost c: Ctx, ghost t: Tree, ghost k: nat)
    returns (ghost t': Tree)
    requires Focus(Snap(s), root.node, pos, c, t) && t.Bin? && t.n == node && RbAround(c, t, k)
    modifies s, root
    ensures Focus(Snap(s), root.node, pos, Top, t') && RedBlack(t')
    ensures Inorder(t') == Without(c, t)
  {
    hide Focus;
    hide Snap;
    Links(root, s, pos, c, t);
    var child, parent, red;
    ghost var d, hole, j;
    if node.left != null && node.right != null {
      ghost var yt;
      child, parent, red, d, yt := ReplaceBySuccessor(node, root, s, pos, c, t);
      j := SuccessorOwing(c, t, d, yt, k);
      d, hole := Graft(d, InRight(c, t.n, t.red, t.left), InRight(c, yt.n, t.red, t.left)), yt.right;
    } else {
      child := if node.left == null then node.right else node.left;
      parent := node.parent;
      red := node.red;
      Unlink(node, child, root, s, pos, c, t);
      OnlyChildOwing(c, t, k);
      d, hole, j := c, OnlyChild(t), if t.red then k else k - 1;
    }
    if !red {
      t' := EraseColor(child, parent, root, s, pos, d, hole, j);
    } else {
      FocusTop(Snap(s), root.node, pos, d, hole);
      WholeTop(d, hole);
      t' := Plug(d, hole);
    }
  }

  /** `rb_link_node`: `*rb_link` is the root, or the left or right link of the parent. */
  method LinkNode(node: RbNode, parent: RbNode?, left: bool, root: RbRoot, ghost s: set<RbNode>, ghost pos: Position, ghost c: Ctx)
    requires Focus(Snap(s), root.node, pos, c, Leaf) && node !in s
    requires parent == CtxParent(c) && (!c.Top? ==> left == c.InLeft?)
    modifies s, node, root
    ensures Focus(Snap(s + {node}), root.node, Placed(pos, node, Middle(c, pos)), c, Bin(Leaf, node, true, Leaf))
  {
    ghost var h, top := Snap(s), root.node;
    assert c.Top? || c.n in s;
    node.parent, node.red := parent, true;
    node.left, node.right := null, null;
    if parent == null {
      root.node := node;
    } else if left {
      parent.left := node;
    } else {
      parent.right := node;
    }
    LinkFocus(h, Snap(s + {node}), top, root.node, pos, c, node);
  }

  /** `rb_replace_node` at a focused victim: the new node takes its place, links and colour. */
  method ReplaceNodeAt(victim: RbNode, new_: RbNode, root: RbRoot, ghost s: set<RbNode>, ghost pos: Position, ghost c: Ctx, ghost t: Tree)
    requires Focus(Snap(s), root.node, pos, c, t) && t.Bin? && t.n == victim && new_ !in s
    modifies s, new_, root
    ensures Focus(Snap(s + {new_}), root.node, Placed(pos, new_, pos(victim)), c, WithNode(t, new_))
  {
    ghost var h, top := Snap(s), root.node;
    SnapKeys(s);
    SnapAt(victim, s);
    ReplaceWritesFocus(h, top, pos, c, t, new_);
    hide Focus;
    hide Snap;
    ReplaceLeftFirst(victim.parent, victim, new_, root, s);
    SnapAt(victim, s);
    if victim.left != null {
      SetParent(victim.left, new_, s);
    }
    if victim.right != null {
      SetParent(victim.right, new_, s);
    }
    SnapAt(victim, s);
    CopyCell(victim, new_, s);
  }

  /** `*new = *victim` */
  method CopyCell(victim: RbNode, new_: RbNode, ghost s: set<RbNode>)
    requires victim in s && new_ !in s
    modifies new_
    ensures Snap(s + {new_}) == old(Snap(s))[new_ := old(Snap(s))[victim]]
  {
    new_.parent, new_.red, new_.left, new_.right := victim.parent, victim.red, victim.left, victim.right;
  }
}
