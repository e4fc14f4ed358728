/** The operations of src/rbtree.c as their callers see them: on the sequence of nodes in
    order, with the balanced shape behind it. */
module RbOrder {
  import opened RbModel
  import opened RbBalance
  import opened RbSplice
  import opened RbTree

  ghost function SetOf(q: seq<RbNode>): set<RbNode> { set n | n in q }

  // Between the focused view and the sequence.

  lemma {:induction false} RepNodes(h: Heap, t: Tree, p: RbNode?)
    requires Rep(h, t, p)
    ensures forall n :: n in Inorder(t) ==> n in h
  {
    if t.Bin? {
      RepNodes(h, t.left, t.n);
      RepNodes(h, t.right, t.n);
    }
  }

  lemma {:induction false} RestrictRep(h: Heap, h': Heap, t: Tree, p: RbNode?)
    requires Rep(h, t, p)
    requires forall n :: n in Inorder(t) && n in h ==> n in h' && h'[n] == h[n]
    ensures Rep(h', t, p)
  {
    if t.Bin? {
      assert t.n in Inorder(t);
      assert forall n :: n in Inorder(t.left) || n in Inorder(t.right) ==> n in Inorder(t);
      RestrictRep(h, h', t.left, t.n);
      RestrictRep(h, h', t.right, t.n);
    }
  }

  ghost predicate Increasing(q: seq<RbNode>, pos: Position) {
    forall i, j :: 0 <= i < j < |q| ==> pos(q[i]) < pos(q[j])
  }

  lemma {:induction false} WithinIncreasing(t: Tree, pos: Position, lo: real, hi: real)
    requires Within(t, pos, lo, hi)
    ensures Increasing(Inorder(t), pos)
    ensures forall n :: n in Inorder(t) ==> lo < pos(n) < hi
  {
    if t.Bin? {
      WithinIncreasing(t.left, pos, lo, pos(t.n));
      WithinIncreasing(t.right, pos, pos(t.n), hi);
      var l, r := Inorder(t.left), Inorder(t.right);
      assert Inorder(t) == l + [t.n] + r;
      forall i, j | 0 <= i < j < |Inorder(t)| ensures pos(Inorder(t)[i]) < pos(Inorder(t)[j]) {
        assert i < |l| ==> Inorder(t)[i] == l[i] && l[i] in l;
        assert j < |l| ==> Inorder(t)[j] == l[j];
        assert i > |l| ==> Inorder(t)[i] == r[i - |l| - 1];
        assert j > |l| ==> Inorder(t)[j] == r[j - |l| - 1] && r[j - |l| - 1] in r;
      }
    }
  }

  /** Every node of the focused tree can be focused itself. */
  lemma {:induction false} FindFocus(h: Heap, root: RbNode?, pos: Position, c: Ctx, t: Tree, k: nat, n: RbNode)
    returns (c': Ctx, t': Tree, k': nat)
    requires Focus(h, root, pos, c, t) && RbAround(c, t, k) && n in Inorder(t)
    ensures Focus(h, root, pos, c', t') && RbAround(c', t', k') && t'.Bin? && t'.n == n
    ensures Whole(c', t') == Whole(c, t)
    decreases t
  {
    c', t', k' := c, t, k;
    if t.n != n {
      var j := if t.red then k else k - 1;
      assert n in Inorder(t.left) || n in Inorder(t.right);
      if n in Inorder(t.left) {
        FocusLeft(h, root, pos, c, t);
        var d := InLeft(c, t.n, t.red, t.right);
        WholeUp(d, t.left);
        c', t', k' := FindFocus(h, root, pos, d, t.left, j, n);
      } else {
        FocusRight(h, root, pos, c, t);
        var d := InRight(c, t.n, t.red, t.left);
        WholeUp(d, t.right);
        c', t', k' := FindFocus(h, root, pos, d, t.right, j, n);
      }
    }
  }

  /** The index at which a focused node stands. */
  ghost function IndexOf(c: Ctx, t: Tree): nat
    requires t.Bin?
  {
    |Before(c)| + |Inorder(t.left)|
  }

  lemma SplitAt(a: seq<RbNode>, n: RbNode, b: seq<RbNode>)
    ensures var q := a + [n] + b; q[|a|] == n && q[..|a|] == a && q[|a| + 1..] == b
  {}

  lemma IndexSplit(c: Ctx, t: Tree)
    requires t.Bin?
    ensures var q, i := Whole(c, t), IndexOf(c, t);
      i < |q| && q[i] == t.n && q[..i] == Before(c) + Inorder(t.left) && q[i + 1..] == Inorder(t.right) + After(c)
  {
    var a, b := Before(c) + Inorder(t.left), Inorder(t.right) + After(c);
    assert Whole(c, t) == a + [t.n] + b;
    SplitAt(a, t.n, b);
  }

  lemma WithoutSplit(c: Ctx, t: Tree, i: nat)
    requires t.Bin? && i == IndexOf(c, t)
    ensures i < |Whole(c, t)| && Without(c, t) == Whole(c, t)[..i] + Whole(c, t)[i + 1..]
  {
    IndexSplit(c, t);
  }

  /** At the top, focused or not, only the tree's own nodes matter. */
  lemma Shrink(h: Heap, h': Heap, root: RbNode?, pos: Position, t: Tree)
    requires Focus(h, root, pos, Top, t)
    requires forall n :: n in Inorder(t) && n in h ==> n in h' && h'[n] == h[n]
    ensures Focus(h', root, pos, Top, t)
  {
    RestrictRep(h, h', t, null);
  }

  /** Focus on a node of a valid tree. */
  lemma FocusOn(root: RbRoot, n: RbNode) returns (c: Ctx, t: Tree, k: nat)
    requires root.Valid() && n in root.Seq()
    ensures Focus(Snap(root.Nodes()), root.node, root.pos, c, t) && RbAround(c, t, k)
    ensures t.Bin? && t.n == n && Whole(c, t) == root.Seq()
    ensures var i := IndexOf(c, t); i < |root.Seq()| && root.Seq()[i] == n && Increasing(root.Seq(), root.pos)
  {
    var k0: nat :| Balanced(root.tree, k0);
    WholeAtTop(root.tree);
    c, t, k := FindFocus(Snap(root.Nodes()), root.node, root.pos, Top, root.tree, k0, n);
    IndexSplit(c, t);
    WithinIncreasing(root.tree, root.pos, 0.0, 1.0);
  }

  lemma RemovedSet(q: seq<RbNode>, pos: Position, i: nat)
    requires i < |q| && Increasing(q, pos)
    ensures SetOf(q[..i] + q[i + 1..]) == SetOf(q) - {q[i]}
  {
    var r := q[..i] + q[i + 1..];
    forall n | n in q && n != q[i] ensures n in r {
      var j :| 0 <= j < |q| && q[j] == n;
      if j < i { assert r[j] == n; } else { assert r[j - 1] == n; }
    }
    forall n | n in r ensures n in q && n != q[i] {
      var j :| 0 <= j < |r| && r[j] == n;
      if j < i { assert q[j] == n; } else { assert q[j + 1] == n; }
    }
  }

  lemma UniqueIndex(q: seq<RbNode>, pos: Position, i: nat, j: nat)
    requires Increasing(q, pos) && i < |q| && j < |q| && q[i] == q[j]
    ensures i == j
  {}

  lemma FocusErase(root: RbRoot, i: nat) returns (c: Ctx, t: Tree, k: nat)
    requires root.Valid() && i < |root.Seq()|
    ensures Focus(Snap(root.Nodes()), root.node, root.pos, c, t) && RbAround(c, t, k) && t.Bin? && t.n == root.Seq()[i]
    ensures Without(c, t) == root.Seq()[..i] + root.Seq()[i + 1..]
    ensures SetOf(Without(c, t)) == root.Nodes() - {root.Seq()[i]}
  {
    c, t, k := FocusOn(root, root.Seq()[i]);
    hide Focus;
    hide RbAround;
    hide Without;
    hide Whole;
    hide IndexOf;
    UniqueIndex(root.Seq(), root.pos, i, IndexOf(c, t));
    WithoutSplit(c, t, i);
    RemovedSet(root.Seq(), root.pos, i);
    hide Increasing;
  }

  /** A structure built on more nodes than it uses is valid on those it uses. */
  lemma Installed(root: RbRoot, s: set<RbNode>)
    requires Focus(Snap(s), root.node, root.pos, Top, root.tree) && RedBlack(root.tree) && root.Nodes() <= s
    ensures root.Valid()
  {
    Shrink(Snap(s), Snap(root.Nodes()), root.node, root.pos, root.tree);
  }

  /** `rb_erase`: the node leaves the sequence, everything else stays where it is, and the
      tree stays a red-black tree. */
  method Erase(node: RbNode, root: RbRoot, ghost i: nat)
    requires root.Valid() && i < |root.Seq()| && root.Seq()[i] == node
    modifies root, root.Nodes()
    ensures root.Valid() && root.Seq() == old(root.Seq())[..i] + old(root.Seq())[i + 1..]
    ensures root.Nodes() == old(root.Nodes()) - {node} && root.pos == old(root.pos)
  {
    ghost var s, pos := root.Nodes(), root.pos;
    ghost var c, t, k := FocusErase(root, i);
    hide Focus;
    hide Snap;
    hide RbAround;
    hide Without;
    ghost var w := EraseAt(node, root, s, pos, c, t, k);
    root.tree, root.pos := w, pos;
    assert root.Nodes() == SetOf(Inorder(w));
    Installed(root, s);
  }

  lemma LinkedLeaf(c: Ctx, k: nat, n: RbNode)
    requires RbAround(c, Leaf, k)
    ensures RedBelow(c, Bin(Leaf, n, true, Leaf), 0)
  {
    assert Balanced(Leaf, k);
  }

  /** `rb_link_node` followed by `rb_insert_color`: the node appears at the empty place (c, Leaf). */
  method Insert(node: RbNode, parent: RbNode?, left: bool, root: RbRoot, ghost c: Ctx, ghost k: nat)
    requires root.Valid() && node !in root.Nodes()
    requires Focus(Snap(root.Nodes()), root.node, root.pos, c, Leaf) && RbAround(c, Leaf, k)
    requires parent == CtxParent(c) && (!c.Top? ==> left == c.InLeft?)
    modifies root, root.Nodes(), node
    ensures root.Valid() && root.Seq() == Whole(c, Bin(Leaf, node, true, Leaf))
    ensures root.Nodes() == SetOf(Whole(c, Bin(Leaf, node, true, Leaf)))
  {
    hide Focus;
    hide Snap;
    hide RbAround;
    hide RedBelow;
    hide Whole;
    ghost var s, pos := root.Nodes(), root.pos;
    ghost var leaf, pos' := Bin(Leaf, node, true, Leaf), Placed(pos, node, Middle(c, pos));
    LinkedLeaf(c, k, node);
    LinkNode(node, parent, left, root, s, pos, c);
    ghost var w := InsertColor(node, root, s + {node}, pos', c, leaf, 0);
    root.tree, root.pos := w, pos';
    FocusNodes(Snap(s + {node}), root.node, pos', w);
    SnapKeys(s + {node});
    Installed(root, s + {node});
  }

  lemma FocusNodes(h: Heap, root: RbNode?, pos: Position, t: Tree)
    requires Focus(h, root, pos, Top, t)
    ensures SetOf(Inorder(t)) <= h.Keys
  {
    RepNodes(h, t, null);
  }

  // Walking.

  lemma ReadFocus(root: RbRoot, c: Ctx, t: Tree)
    requires Focus(Snap(root.Nodes()), root.node, root.pos, c, t) && t.Bin?
    ensures t.n in root.Nodes() && t.n.parent == CtxParent(c) && t.n.left == Ptr(t.left) && t.n.right == Ptr(t.right)
    ensures !c.Top? ==> (c.n.left == t.n <==> c.InLeft?) && (c.n.right == t.n <==> c.InRight?)
    ensures t.n.parent != t.n
  {
    Links(root, root.Nodes(), root.pos, c, t);
    CtxInterval(c, root.pos);
  }

  method FirstOf(start: RbNode, root: RbRoot, ghost c0: Ctx, ghost t0: Tree) returns (n: RbNode)
    requires Focus(Snap(root.Nodes()), root.node, root.pos, c0, t0) && t0.Bin? && t0.n == start
    ensures n == Inorder(t0)[0]
  {
    hide Snap;
    n := start;
    ghost var c, t := c0, t0;
    ReadFocus(root, c, t);
    hide Focus;
    while n.left != null
      invariant Focus(Snap(root.Nodes()), root.node, root.pos, c, t) && t.Bin? && t.n == n && n.left == Ptr(t.left)
      invariant Inorder(t)[0] == Inorder(t0)[0]
      decreases t
    {
      FocusLeft(Snap(root.Nodes()), root.node, root.pos, c, t);
      c, t := InLeft(c, t.n, t.red, t.right), t.left;
      n := n.left;
      ReadFocus(root, c, t);
    }
  }

  method LastOf(start: RbNode, root: RbRoot, ghost c0: Ctx, ghost t0: Tree) returns (n: RbNode)
    requires Focus(Snap(root.Nodes()), root.node, root.pos, c0, t0) && t0.Bin? && t0.n == start
    ensures n == Inorder(t0)[|Inorder(t0)| - 1]
  {
    hide Snap;
    n := start;
    ghost var c, t := c0, t0;
    ReadFocus(root, c, t);
    hide Focus;
    while n.right != null
      invariant Focus(Snap(root.Nodes()), root.node, root.pos, c, t) && t.Bin? && t.n == n && n.right == Ptr(t.right)
      invariant Inorder(t)[|Inorder(t)| - 1] == Inorder(t0)[|Inorder(t0)| - 1]
      decreases t
    {
      FocusRight(Snap(root.Nodes()), root.node, root.pos, c, t);
      c, t := InRight(c, t.n, t.red, t.left), t.right;
      n := n.right;
      ReadFocus(root, c, t);
    }
  }

  /** `rb_first` */
  method First(root: RbRoot) returns (r: RbNode?)
    requires root.Valid()
    ensures r == if root.Seq() == [] then null else root.Seq()[0]
  {
    if root.node == null {
      return null;
    }
    r := FirstOf(root.node, root, Top, root.tree);
  }

  /** `rb_last` */
  method Last(root: RbRoot) returns (r: RbNode?)
    requires root.Valid()
    ensures r == if root.Seq() == [] then null else root.Seq()[|root.Seq()| - 1]
  {
    if root.node == null {
      return null;
    }
    r := LastOf(root.node, root, Top, root.tree);
  }

  lemma FocusIndex(root: RbRoot, i: nat) returns (c: Ctx, t: Tree)
    requires root.Valid() && i < |root.Seq()|
    ensures Focus(Snap(root.Nodes()), root.node, root.pos, c, t) && t.Bin? && t.n == root.Seq()[i]
    ensures root.Seq()[i + 1..] == Inorder(t.right) + After(c) && root.Seq()[..i] == Before(c) + Inorder(t.left)
  {
    var k;
    c, t, k := FocusOn(root, root.Seq()[i]);
    UniqueIndex(root.Seq(), root.pos, i, IndexOf(c, t));
    IndexSplit(c, t);
  }

  lemma NotOwnParent(root: RbRoot, i: nat)
    requires root.Valid() && i < |root.Seq()|
    ensures root.Seq()[i].parent != root.Seq()[i]
  {
    var c, t := FocusIndex(root, i);
    ReadFocus(root, c, t);
    hide Focus;
  }

  /** `rb_next`: the node one place further in order, or null after the last one; null
      too for a node taken out of any tree, which is marked as its own parent. */
  method Next(start: RbNode, root: RbRoot, ghost i: nat) returns (r: RbNode?)
    requires start.parent == start || (root.Valid() && i < |root.Seq()| && root.Seq()[i] == start)
    ensures start.parent == start ==> r == null
    ensures start.parent != start ==> r == if i + 1 < |root.Seq()| then root.Seq()[i + 1] else null
    ensures root.Valid() && i < |root.Seq()| && root.Seq()[i] == start ==> start.parent != start
  {
    if start.parent == start {
      if root.Valid() && i < |root.Seq()| && root.Seq()[i] == start { NotOwnParent(root, i); }
      return null;
    }
    r := StepOn(start, root, i);
  }

  /** Its walk: down to the leftmost node on the right, or up. */
  method StepOn(start: RbNode, root: RbRoot, ghost i: nat) returns (r: RbNode?)
    requires root.Valid() && i < |root.Seq()| && root.Seq()[i] == start
    ensures r == if i + 1 < |root.Seq()| then root.Seq()[i + 1] else null
  {
    ghost var c, t := FocusIndex(root, i);
    hide Snap;
    ReadFocus(root, c, t);
    hide Focus;
    if start.right != null {
      FocusRight(Snap(root.Nodes()), root.node, root.pos, c, t);
      r := FirstOf(start.right, root, InRight(c, t.n, t.red, t.left), t.right);
      return;
    }
    r := ClimbRight(start, root, c, t);
  }

  /** The walk upwards out of right children, to the node after everything below it. */
  method ClimbRight(start: RbNode, root: RbRoot, ghost c0: Ctx, ghost t0: Tree) returns (r: RbNode?)
    requires Focus(Snap(root.Nodes()), root.node, root.pos, c0, t0) && t0.Bin? && t0.n == start
    ensures r == if After(c0) == [] then null else After(c0)[0]
  {
    ghost var c, t := c0, t0;
    hide Snap;
    ReadFocus(root, c, t);
    hide Focus;
    var node := start;
    r := node.parent;
    while r != null && node == r.right
      invariant Focus(Snap(root.Nodes()), root.node, root.pos, c, t) && t.Bin? && t.n == node && r == CtxParent(c)
      invariant !c.Top? ==> (c.n.right == t.n <==> c.InRight?)
      invariant After(c0) == After(c)
      decreases CtxLen(c)
    {
      FocusUp(Snap(root.Nodes()), root.node, root.pos, c, t);
      c, t := c.up, Join(c, t);
      ReadFocus(root, c, t);
      node := r;
      r := node.parent;
    }
  }

  /** `rb_prev`: the node one place back in order, or null before the first one; null
      too for a node that is its own parent. */
  method Prev(start: RbNode, root: RbRoot, ghost i: nat) returns (r: RbNode?)
    requires start.parent == start || (root.Valid() && i < |root.Seq()| && root.Seq()[i] == start)
    ensures start.parent == start ==> r == null
    ensures start.parent != start ==> r == if i > 0 then root.Seq()[i - 1] else null
    ensures root.Valid() && i < |root.Seq()| && root.Seq()[i] == start ==> start.parent != start
  {
    if start.parent == start {
      if root.Valid() && i < |root.Seq()| && root.Seq()[i] == start { NotOwnParent(root, i); }
      return null;
    }
    r := StepBack(start, root, i);
  }

  lemma LastOfSum(q: seq<RbNode>, i: nat, b: seq<RbNode>, l: seq<RbNode>)
    requires i <= |q| && q[..i] == b + l
    ensures i == |b| + |l|
    ensures i > 0 ==> q[i - 1] == if l != [] then l[|l| - 1] else b[|b| - 1]
  {
    if i > 0 { assert q[..i][i - 1] == (b + l)[i - 1]; }
  }

  /** Its walk: down to the rightmost node on the left, or up. */
  method StepBack(start: RbNode, root: RbRoot, ghost i: nat) returns (r: RbNode?)
    requires root.Valid() && i < |root.Seq()| && root.Seq()[i] == start
    ensures r == if i > 0 then root.Seq()[i - 1] else null
  {
    ghost var c, t := FocusIndex(root, i);
    LastOfSum(root.Seq(), i, Before(c), Inorder(t.left));
    hide Snap;
    ReadFocus(root, c, t);
    hide Focus;
    if start.left != null {
      FocusLeft(Snap(root.Nodes()), root.node, root.pos, c, t);
      r := LastOf(start.left, root, InLeft(c, t.n, t.red, t.right), t.left);
      return;
    }
    r := ClimbLeft(start, root, c, t);
  }

  /** The walk upwards out of left children, to the node before everything below it. */
  method ClimbLeft(start: RbNode, root: RbRoot, ghost c0: Ctx, ghost t0: Tree) returns (r: RbNode?)
    requires Focus(Snap(root.Nodes()), root.node, root.pos, c0, t0) && t0.Bin? && t0.n == start
    ensures r == if Before(c0) == [] then null else Before(c0)[|Before(c0)| - 1]
  {
    ghost var c, t := c0, t0;
    hide Snap;
    ReadFocus(root, c, t);
    hide Focus;
    var node := start;
    r := node.parent;
    while r != null && node == r.left
      invariant Focus(Snap(root.Nodes()), root.node, root.pos, c, t) && t.Bin? && t.n == node && r == CtxParent(c)
      invariant !c.Top? ==> (c.n.left == t.n <==> c.InLeft?)
      invariant Before(c0) == Before(c)
      decreases CtxLen(c)
    {
      FocusUp(Snap(root.Nodes()), root.node, root.pos, c, t);
      c, t := c.up, Join(c, t);
      ReadFocus(root, c, t);
      node := r;
      r := node.parent;
    }
  }

  /** The loop every caller writes, from `rb_first` along `rb_next`: each node once, in order. */
  method Traverse(root: RbRoot) returns (visited: seq<RbNode>)
    requires root.Valid()
    ensures visited == root.Seq()
  {
    hide Inorder;
    hide Focus;
    hide RedBlack;
    ghost var q, h := root.Seq(), Snap(root.Nodes());
    visited := [];
    var n := First(root);
    while n != null
      invariant q == root.Seq() && Snap(root.Nodes()) == h
      invariant Focus(h, root.node, root.pos, Top, root.tree) && RedBlack(root.tree)
      invariant |visited| <= |q| && visited == q[..|visited|]
      invariant n == if |visited| < |q| then q[|visited|] else null
      decreases |q| - |visited|
    {
      visited := visited + [n];
      n := Next(n, root, |visited| - 1);
    }
  }

  lemma WithNodeAround(c: Ctx, t: Tree, k: nat, y: RbNode)
    requires RbAround(c, t, k) && t.Bin?
    ensures RedBlack(Plug(c, WithNode(t, y)))
    ensures Inorder(Plug(c, WithNode(t, y))) == Whole(c, t)[IndexOf(c, t) := y]
  {
    PlugBalanced(c, WithNode(t, y), k);
    WholeTop(c, WithNode(t, y));
    WholeWithNode(c, t, y);
  }

  lemma WholeWithNode(c: Ctx, t: Tree, y: RbNode)
    requires t.Bin?
    ensures IndexOf(c, t) < |Whole(c, t)| && Whole(c, WithNode(t, y)) == Whole(c, t)[IndexOf(c, t) := y]
  {
    IndexSplit(c, t);
    IndexSplit(c, WithNode(t, y));
    UpdatedAt(Whole(c, t), Whole(c, WithNode(t, y)), IndexOf(c, t), y);
  }

  lemma UpdatedAt(q: seq<RbNode>, q': seq<RbNode>, i: nat, y: RbNode)
    requires i < |q| && i < |q'| && q[..i] == q'[..i] && q[i + 1..] == q'[i + 1..] && q'[i] == y
    ensures q' == q[i := y]
  {
    forall j | i < j < |q| ensures j < |q'| && q[j] == q'[j] {
      assert |q'| == |q| && q[j] == q[i + 1..][j - i - 1] && q'[j] == q'[i + 1..][j - i - 1];
    }
    forall j | 0 <= j < i ensures q[j] == q'[j] {
      assert q[j] == q[..i][j] && q'[j] == q'[..i][j];
    }
    assert |q| == i + 1 + |q[i + 1..]|;
  }

  /** `rb_replace_node`: one place in the order changes hands. */
  method ReplaceNode(victim: RbNode, new_: RbNode, root: RbRoot, ghost i: nat)
    requires root.Valid() && i < |root.Seq()| && root.Seq()[i] == victim && new_ !in root.Nodes()
    modifies root, root.Nodes(), new_
    ensures root.Valid() && root.Seq() == old(root.Seq())[i := new_]
  {
    hide Focus;
    hide Snap;
    hide Whole;
    hide Increasing;
    hide RbAround;
    hide IndexOf;
    hide RedBlack;
    ghost var s, pos := root.Nodes(), root.pos;
    ghost var c, t, k := FocusOn(root, victim);
    UniqueIndex(root.Seq(), root.pos, i, IndexOf(c, t));
    WithNodeAround(c, t, k, new_);
    ReplaceNodeAt(victim, new_, root, s, pos, c, t);
    ghost var w, pos' := Plug(c, WithNode(t, new_)), Placed(pos, new_, pos(victim));
    FocusTop(Snap(s + {new_}), root.node, pos', c, WithNode(t, new_));
    root.tree, root.pos := w, pos';
    FocusNodes(Snap(s + {new_}), root.node, pos', w);
    SnapKeys(s + {new_});
    Installed(root, s + {new_});
  }
}
