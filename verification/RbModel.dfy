/** The shape behind the linked nodes of src/rbtree.c: a ghost tree whose labels are the
    node objects themselves, one-hole contexts, and the relation between a tree and a
    snapshot of the nodes' link fields. Everything here is a value, so each fact about a
    relinking step is an ordinary lemma. */
module RbModel {

  /** The three words of `struct rb_node`; the packed parent/colour word is split into its
      two halves (module RbPacking shows that the packing loses nothing). */
  class RbNode {
    var parent: RbNode?
    var red: bool
    var left: RbNode?
    var right: RbNode?

    /** `rb_init_node`: an unlinked node is its own parent. */
    constructor ()
      ensures parent == this && red && left == null && right == null
    {
      left, right, red := null, null, true;
      parent := this;
    }
  }

  datatype Cell = Cell(parent: RbNode?, red: bool, left: RbNode?, right: RbNode?)

  type Heap = map<RbNode, Cell>

  ghost function Snap(s: set<RbNode>): Heap
    reads s
  {
    map n | n in s :: Cell(n.parent, n.red, n.left, n.right)
  }

  datatype Tree = Leaf | Bin(left: Tree, n: RbNode, red: bool, right: Tree)

  /** A tree with a hole, innermost frame first. */
  datatype Ctx = Top
               | InLeft(up: Ctx, n: RbNode, red: bool, other: Tree)
               | InRight(up: Ctx, n: RbNode, red: bool, other: Tree)

  ghost function Plug(c: Ctx, t: Tree): Tree {
    match c
    case Top => t
    case InLeft(up, n, red, r) => Plug(up, Bin(t, n, red, r))
    case InRight(up, n, red, l) => Plug(up, Bin(l, n, red, t))
  }

  ghost function Ptr(t: Tree): RbNode? {
    match t
    case Leaf => null
    case Bin(_, n, _, _) => n
  }

  ghost function CtxParent(c: Ctx): RbNode? {
    if c.Top? then null else c.n
  }

  ghost function CtxLen(c: Ctx): nat {
    if c.Top? then 0 else 1 + CtxLen(c.up)
  }

  /** A position for every node, strictly between 0 and 1. Positions that increase in
      order say at once that no node occurs twice and which nodes a subtree may contain. */
  type Position = RbNode -> real

  ghost predicate Within(t: Tree, pos: Position, lo: real, hi: real) {
    match t
    case Leaf => true
    case Bin(l, n, _, r) => lo < pos(n) < hi && Within(l, pos, lo, pos(n)) && Within(r, pos, pos(n), hi)
  }

  /** The open interval of positions left for the hole of a context. */
  ghost function Lo(c: Ctx, pos: Position): real {
    match c
    case Top => 0.0
    case InLeft(up, _, _, _) => Lo(up, pos)
    case InRight(_, n, _, _) => pos(n)
  }

  ghost function Hi(c: Ctx, pos: Position): real {
    match c
    case Top => 1.0
    case InLeft(_, n, _, _) => pos(n)
    case InRight(up, _, _, _) => Hi(up, pos)
  }

  ghost predicate WithinCtx(c: Ctx, pos: Position) {
    c.Top? ||
    (WithinCtx(c.up, pos) && Lo(c.up, pos) < pos(c.n) < Hi(c.up, pos) &&
     if c.InLeft? then Within(c.other, pos, pos(c.n), Hi(c.up, pos))
     else Within(c.other, pos, Lo(c.up, pos), pos(c.n)))
  }

  ghost function Inorder(t: Tree): seq<RbNode> {
    match t
    case Leaf => []
    case Bin(l, n, _, r) => Inorder(l) + [n] + Inorder(r)
  }

  /** What stands before and after the hole in order. */
  ghost function Before(c: Ctx): seq<RbNode> {
    match c
    case Top => []
    case InLeft(up, _, _, _) => Before(up)
    case InRight(up, n, _, l) => Before(up) + Inorder(l) + [n]
  }

  ghost function After(c: Ctx): seq<RbNode> {
    match c
    case Top => []
    case InLeft(up, n, _, r) => [n] + Inorder(r) + After(up)
    case InRight(up, _, _, _) => After(up)
  }

  /** The snapshot holds tree t hanging below parent p. */
  ghost predicate Rep(h: Heap, t: Tree, p: RbNode?) {
    match t
    case Leaf => true
    case Bin(l, n, red, r) =>
      n in h && h[n] == Cell(p, red, Ptr(l), Ptr(r)) && Rep(h, l, n) && Rep(h, r, n)
  }

  /** The snapshot holds context c, with `hole` hanging in it and `root` at the top. */
  ghost predicate RepCtx(h: Heap, c: Ctx, hole: RbNode?, root: RbNode?) {
    match c
    case Top => root == hole
    case InLeft(up, n, red, r) =>
      n in h && h[n] == Cell(CtxParent(up), red, hole, Ptr(r)) && Rep(h, r, n) && RepCtx(h, up, n, root)
    case InRight(up, n, red, l) =>
      n in h && h[n] == Cell(CtxParent(up), red, Ptr(l), hole) && Rep(h, l, n) && RepCtx(h, up, n, root)
  }

  /** The linked structure from `root` is Plug(c, t), no node occurring twice. */
  ghost predicate Focus(h: Heap, root: RbNode?, pos: Position, c: Ctx, t: Tree) {
    && Rep(h, t, CtxParent(c)) && RepCtx(h, c, Ptr(t), root)
    && WithinCtx(c, pos) && Within(t, pos, Lo(c, pos), Hi(c, pos))
  }

  // Framing: a subtree sees only the cells at positions of its own interval, a context
  // only those outside the interval of its hole.

  ghost predicate AgreeIn(h: Heap, h': Heap, pos: Position, lo: real, hi: real) {
    forall n :: n in h && lo < pos(n) < hi ==> n in h' && h'[n] == h[n]
  }

  ghost predicate AgreeOut(h: Heap, h': Heap, pos: Position, lo: real, hi: real) {
    forall n :: n in h && !(lo < pos(n) < hi) ==> n in h' && h'[n] == h[n]
  }

  lemma {:induction false} FrameRep(h: Heap, h': Heap, pos: Position, t: Tree, p: RbNode?, lo: real, hi: real)
    requires Rep(h, t, p) && Within(t, pos, lo, hi) && AgreeIn(h, h', pos, lo, hi)
    ensures Rep(h', t, p)
  {
    if t.Bin? {
      FrameRep(h, h', pos, t.left, t.n, lo, pos(t.n));
      FrameRep(h, h', pos, t.right, t.n, pos(t.n), hi);
    }
  }

  lemma CtxInterval(c: Ctx, pos: Position)
    requires WithinCtx(c, pos)
    ensures Lo(c, pos) < Hi(c, pos)
  {}

  lemma {:induction false} FrameCtx(h: Heap, h': Heap, pos: Position, c: Ctx, hole: RbNode?, root: RbNode?)
    requires RepCtx(h, c, hole, root) && WithinCtx(c, pos)
    requires AgreeOut(h, h', pos, Lo(c, pos), Hi(c, pos))
    ensures RepCtx(h', c, hole, root)
  {
    match c
    case Top =>
    case InLeft(up, n, _, r) =>
      FrameRep(h, h', pos, r, n, pos(n), Hi(up, pos));
      FrameCtx(h, h', pos, up, n, root);
    case InRight(up, n, _, l) =>
      FrameRep(h, h', pos, l, n, Lo(up, pos), pos(n));
      FrameCtx(h, h', pos, up, n, root);
  }

  /** Hanging something else into the hole touches the innermost frame's cell, or the root. */
  ghost predicate Rehung(h: Heap, h': Heap, c: Ctx, root: RbNode?, root': RbNode?, hole': RbNode?) {
    match c
    case Top => root' == hole'
    case InLeft(_, n, _, _) => root' == root && n in h && n in h' && h'[n] == h[n].(left := hole')
    case InRight(_, n, _, _) => root' == root && n in h && n in h' && h'[n] == h[n].(right := hole')
  }

  lemma Rehang(h: Heap, h': Heap, pos: Position, c: Ctx, hole: RbNode?, hole': RbNode?,
               root: RbNode?, root': RbNode?)
    requires RepCtx(h, c, hole, root) && WithinCtx(c, pos)
    requires Rehung(h, h', c, root, root', hole')
    requires forall n :: n in h && !(Lo(c, pos) < pos(n) < Hi(c, pos)) && n != CtxParent(c) ==> n in h' && h'[n] == h[n]
    ensures RepCtx(h', c, hole', root')
  {
    match c
    case Top =>
    case InLeft(up, n, _, r) =>
      FrameRep(h, h', pos, r, n, pos(n), Hi(up, pos));
      FrameCtx(h, h', pos, up, n, root);
    case InRight(up, n, _, l) =>
      FrameRep(h, h', pos, l, n, Lo(up, pos), pos(n));
      FrameCtx(h, h', pos, up, n, root);
  }

  /** Hanging a subtree below another parent touches its root cell only. */
  lemma Reparent(h: Heap, h': Heap, pos: Position, t: Tree, p: RbNode?, q: RbNode?, lo: real, hi: real)
    requires Rep(h, t, p) && Within(t, pos, lo, hi)
    requires t.Bin? ==> t.n in h' && h'[t.n] == h[t.n].(parent := q)
    requires forall n :: n in h && lo < pos(n) < hi && n != Ptr(t) ==> n in h' && h'[n] == h[n]
    ensures Rep(h', t, q)
  {
    if t.Bin? {
      FrameRep(h, h', pos, t.left, t.n, lo, pos(t.n));
      FrameRep(h, h', pos, t.right, t.n, pos(t.n), hi);
    }
  }

  ghost function ReplaceChild(h: Heap, p: RbNode, from: RbNode, to: RbNode?): Heap
    requires p in h
  {
    h[p := if h[p].left == from then h[p].(left := to) else h[p].(right := to)]
  }

  ghost function ReplaceChildR(h: Heap, p: RbNode, from: RbNode, to: RbNode?): Heap
    requires p in h
  {
    h[p := if h[p].right == from then h[p].(right := to) else h[p].(left := to)]
  }

  // Rotations.

  ghost function RotatedLeftTree(t: Tree): (r: Tree)
    requires t.Bin? && t.right.Bin?
  {
    Bin(Bin(t.left, t.n, t.red, t.right.left), t.right.n, t.right.red, t.right.right)
  }

  ghost function RotatedRightTree(t: Tree): (r: Tree)
    requires t.Bin? && t.left.Bin?
  {
    Bin(t.left.left, t.left.n, t.left.red, Bin(t.left.right, t.n, t.red, t.right))
  }

  /** The nodes a left rotation at x touches are there and are different nodes. */
  ghost predicate CanRotateLeft(h: Heap, x: RbNode) {
    && x in h && h[x].right != null && h[x].right in h
    && var y, p := h[x].right, h[x].parent; var b := h[y].left;
    && x != y && (b != null ==> b in h && b != x && b != y)
    && (p != null ==> p in h && p != x && p != y && p != b)
  }

  /** Everything `__rb_rotate_left` changes: four nodes at most, and the root when x was the root. */
  ghost predicate RotatedLeft(h: Heap, h': Heap, root: RbNode?, root': RbNode?, x: RbNode)
    requires CanRotateLeft(h, x)
  {
    var y, p := h[x].right, h[x].parent;
    var b := h[y].left;
    && h'.Keys == h.Keys
    && h'[x] == h[x].(parent := y, right := b)
    && h'[y] == h[y].(parent := p, left := x)
    && (b != null ==> h'[b] == h[b].(parent := x))
    && (p != null ==> h'[p] == if h[p].left == x then h[p].(left := y) else h[p].(right := y))
    && root' == (if p == null then y else root)
    && forall n :: n in h && n != x && n != y && n != b && n != p ==> h'[n] == h[n]
  }

  /** The writes of `__rb_rotate_left`, in its order: first those on the rotated pair... */
  ghost function RotateLeftInner(h: Heap, x: RbNode): Heap
    requires CanRotateLeft(h, x)
  {
    var y, p := h[x].right, h[x].parent;
    var b := h[y].left;
    var h1 := h[x := h[x].(right := b)];
    var h2 := if b == null then h1 else h1[b := h1[b].(parent := x)];
    var h3 := h2[y := h2[y].(left := x)];
    h3[y := h3[y].(parent := p)]
  }

  /** ... then the link from above and the link back up. */
  ghost function RotateLeftWrites(h: Heap, x: RbNode): Heap
    requires CanRotateLeft(h, x)
  {
    var y, p := h[x].right, h[x].parent;
    var h4 := RotateLeftInner(h, x);
    var h5 := if p == null then h4 else ReplaceChild(h4, p, x, y);
    h5[x := h5[x].(parent := y)]
  }

  lemma RotateLeftChanges(h: Heap, x: RbNode, root: RbNode?)
    requires CanRotateLeft(h, x)
    ensures RotatedLeft(h, RotateLeftWrites(h, x), root, if h[x].parent == null then h[x].right else root, x)
  {}

  lemma RotateLeftReady(h: Heap, root: RbNode?, pos: Position, c: Ctx, t: Tree)
    requires Focus(h, root, pos, c, t) && t.Bin? && t.right.Bin?
    ensures CanRotateLeft(h, t.n) && h[t.n].right == t.right.n && h[t.right.n].left == Ptr(t.right.left)
    ensures h[t.n].parent == CtxParent(c)
    ensures !c.Top? ==> c.n in h && (h[c.n].left == t.n <==> c.InLeft?)
    ensures !c.Top? ==> !(Lo(c, pos) < pos(c.n) < Hi(c, pos))
    ensures Lo(c, pos) < pos(t.n) < pos(t.right.n) < Hi(c, pos)
    ensures t.right.left.Bin? ==> pos(t.n) < pos(t.right.left.n) < pos(t.right.n)
  {
    var b := t.right.left;
    assert Rep(h, t.right, t.n) && Rep(h, b, t.right.n);
    assert Within(t.right, pos, pos(t.n), Hi(c, pos)) && Within(b, pos, pos(t.n), pos(t.right.n));
    CtxInterval(c, pos);
  }

  lemma RotateLeftFocus(h: Heap, h': Heap, root: RbNode?, root': RbNode?, pos: Position, c: Ctx, t: Tree)
    requires Focus(h, root, pos, c, t) && t.Bin? && t.right.Bin?
    requires CanRotateLeft(h, t.n) && RotatedLeft(h, h', root, root', t.n)
    ensures Focus(h', root', pos, c, RotatedLeftTree(t))
  {
    RotateLeftReady(h, root, pos, c, t);
    var x, yt := t.n, t.right;
    var y, b := yt.n, yt.left;
    var lo, hi := Lo(c, pos), Hi(c, pos);
    assert Rep(h, yt, x) && Within(yt, pos, pos(x), hi);
    assert RepCtx(h', c, y, root') by {
      assert Rehung(h, h', c, root, root', y);
      Rehang(h, h', pos, c, x, y, root, root');
    }
    FrameRep(h, h', pos, t.left, x, lo, pos(x));
    Reparent(h, h', pos, b, y, x, pos(x), pos(y));
    FrameRep(h, h', pos, yt.right, y, pos(y), hi);
  }
  /** The nodes a right rotation at x touches are there and are different nodes. */
  ghost predicate CanRotateRight(h: Heap, x: RbNode) {
    && x in h && h[x].left != null && h[x].left in h
    && var y, p := h[x].left, h[x].parent; var b := h[y].right;
    && x != y && (b != null ==> b in h && b != x && b != y)
    && (p != null ==> p in h && p != x && p != y && p != b)
  }

  /** Everything `__rb_rotate_right` changes. */
  ghost predicate RotatedRight(h: Heap, h': Heap, root: RbNode?, root': RbNode?, x: RbNode)
    requires CanRotateRight(h, x)
  {
    var y, p := h[x].left, h[x].parent;
    var b := h[y].right;
    && h'.Keys == h.Keys
    && h'[x] == h[x].(parent := y, left := b)
    && h'[y] == h[y].(parent := p, right := x)
    && (b != null ==> h'[b] == h[b].(parent := x))
    && (p != null ==> h'[p] == if h[p].right == x then h[p].(right := y) else h[p].(left := y))
    && root' == (if p == null then y else root)
    && forall n :: n in h && n != x && n != y && n != b && n != p ==> h'[n] == h[n]
  }

  /** The writes of `__rb_rotate_right`, in its order: first those on the rotated pair... */
  ghost function RotateRightInner(h: Heap, x: RbNode): Heap
    requires CanRotateRight(h, x)
  {
    var y, p := h[x].left, h[x].parent;
    var b := h[y].right;
    var h1 := h[x := h[x].(left := b)];
    var h2 := if b == null then h1 else h1[b := h1[b].(parent := x)];
    var h3 := h2[y := h2[y].(right := x)];
    h3[y := h3[y].(parent := p)]
  }

  /** ... then the link from above and the link back up. */
  ghost function RotateRightWrites(h: Heap, x: RbNode): Heap
    requires CanRotateRight(h, x)
  {
    var y, p := h[x].left, h[x].parent;
    var h4 := RotateRightInner(h, x);
    var h5 := if p == null then h4 else ReplaceChildR(h4, p, x, y);
    h5[x := h5[x].(parent := y)]
  }

  lemma RotateRightChanges(h: Heap, x: RbNode, root: RbNode?)
    requires CanRotateRight(h, x)
    ensures RotatedRight(h, RotateRightWrites(h, x), root, if h[x].parent == null then h[x].left else root, x)
  {}

  lemma RotateRightReady(h: Heap, root: RbNode?, pos: Position, c: Ctx, t: Tree)
    requires Focus(h, root, pos, c, t) && t.Bin? && t.left.Bin?
    ensures CanRotateRight(h, t.n) && h[t.n].left == t.left.n && h[t.left.n].right == Ptr(t.left.right)
    ensures h[t.n].parent == CtxParent(c)
    ensures !c.Top? ==> c.n in h && (h[c.n].right == t.n <==> c.InRight?)
    ensures !c.Top? ==> !(Lo(c, pos) < pos(c.n) < Hi(c, pos))
    ensures Lo(c, pos) < pos(t.left.n) < pos(t.n) < Hi(c, pos)
    ensures t.left.right.Bin? ==> pos(t.left.n) < pos(t.left.right.n) < pos(t.n)
  {
    var b := t.left.right;
    assert Rep(h, t.left, t.n) && Rep(h, b, t.left.n);
    assert Within(t.left, pos, Lo(c, pos), pos(t.n)) && Within(b, pos, pos(t.left.n), pos(t.n));
    CtxInterval(c, pos);
  }

  lemma RotateRightFocus(h: Heap, h': Heap, root: RbNode?, root': RbNode?, pos: Position, c: Ctx, t: Tree)
    requires Focus(h, root, pos, c, t) && t.Bin? && t.left.Bin?
    requires CanRotateRight(h, t.n) && RotatedRight(h, h', root, root', t.n)
    ensures Focus(h', root', pos, c, RotatedRightTree(t))
  {
    RotateRightReady(h, root, pos, c, t);
    var x, yt := t.n, t.left;
    var y, b := yt.n, yt.right;
    var lo, hi := Lo(c, pos), Hi(c, pos);
    assert Rep(h, yt, x) && Within(yt, pos, lo, pos(x));
    assert RepCtx(h', c, y, root') by {
      assert Rehung(h, h', c, root, root', y);
      Rehang(h, h', pos, c, x, y, root, root');
    }
    FrameRep(h, h', pos, t.right, x, pos(x), hi);
    Reparent(h, h', pos, b, y, x, pos(y), pos(x));
    FrameRep(h, h', pos, yt.left, y, lo, pos(y));
  }

  // Moving the focus, and recolouring at it.

  ghost function Join(c: Ctx, t: Tree): (r: Tree)
    requires !c.Top?
    ensures r.Bin?
  {
    if c.InLeft? then Bin(t, c.n, c.red, c.other) else Bin(c.other, c.n, c.red, t)
  }

  lemma FocusUp(h: Heap, root: RbNode?, pos: Position, c: Ctx, t: Tree)
    requires Focus(h, root, pos, c, t) && !c.Top?
    ensures Focus(h, root, pos, c.up, Join(c, t))
  {}

  lemma FocusLeft(h: Heap, root: RbNode?, pos: Position, c: Ctx, t: Tree)
    requires Focus(h, root, pos, c, t) && t.Bin?
    ensures Focus(h, root, pos, InLeft(c, t.n, t.red, t.right), t.left)
  {}

  lemma FocusRight(h: Heap, root: RbNode?, pos: Position, c: Ctx, t: Tree)
    requires Focus(h, root, pos, c, t) && t.Bin?
    ensures Focus(h, root, pos, InRight(c, t.n, t.red, t.left), t.right)
  {}

  /** The same node's other side. */
  ghost function Sibling(c: Ctx, t: Tree): Ctx
    requires !c.Top?
  {
    if c.InLeft? then InRight(c.up, c.n, c.red, t) else InLeft(c.up, c.n, c.red, t)
  }

  /** The innermost frame with another tree on its far side. */
  ghost function Beside(c: Ctx, other: Tree): Ctx
    requires !c.Top?
  {
    if c.InLeft? then InLeft(c.up, c.n, c.red, other) else InRight(c.up, c.n, c.red, other)
  }

  lemma FocusSibling(h: Heap, root: RbNode?, pos: Position, c: Ctx, t: Tree)
    requires Focus(h, root, pos, c, t) && !c.Top?
    ensures Focus(h, root, pos, Sibling(c, t), c.other)
  {}

  /** What the links around a focused node read as. */
  lemma FocusReads(h: Heap, root: RbNode?, pos: Position, c: Ctx, t: Tree)
    requires Focus(h, root, pos, c, t) && t.Bin?
    ensures t.n in h && h[t.n] == Cell(CtxParent(c), t.red, Ptr(t.left), Ptr(t.right))
    ensures !c.Top? ==> c.n in h && h[c.n].red == c.red && h[c.n].parent == CtxParent(c.up)
    ensures !c.Top? ==> (h[c.n].left == t.n <==> c.InLeft?) && (h[c.n].right == t.n <==> c.InRight?)
    ensures c.InLeft? ==> h[c.n].right == Ptr(c.other)
    ensures c.InRight? ==> h[c.n].left == Ptr(c.other)
    ensures t.left.Bin? ==> t.left.n in h && h[t.left.n].red == t.left.red
    ensures t.right.Bin? ==> t.right.n in h && h[t.right.n].red == t.right.red
    ensures !c.Top? && c.other.Bin? ==> c.other.n in h && h[c.other.n].red == c.other.red
    ensures c.Top? <==> root == t.n
  {
    CtxInterval(c, pos);
    assert Rep(h, t.left, t.n) && Rep(h, t.right, t.n);
    if !c.Top? {
      FocusRoot(h, root, pos, c, t);
    }
  }

  lemma {:induction false} FocusRoot(h: Heap, root: RbNode?, pos: Position, c: Ctx, t: Tree)
    requires Focus(h, root, pos, c, t) && !c.Top?
    ensures root != null && !(Lo(c, pos) < pos(root) < Hi(c, pos))
    decreases c
  {
    FocusUp(h, root, pos, c, t);
    if !c.up.Top? {
      FocusRoot(h, root, pos, c.up, Join(c, t));
    }
  }

  lemma ColourFocus(h: Heap, root: RbNode?, pos: Position, c: Ctx, t: Tree, red: bool)
    requires Focus(h, root, pos, c, t) && t.Bin?
    ensures t.n in h && Focus(h[t.n := h[t.n].(red := red)], root, pos, c, t.(red := red))
  {
    var h' := h[t.n := h[t.n].(red := red)];
    FrameRep(h, h', pos, t.left, t.n, Lo(c, pos), pos(t.n));
    FrameRep(h, h', pos, t.right, t.n, pos(t.n), Hi(c, pos));
    FrameCtx(h, h', pos, c, t.n, root);
  }

  lemma {:induction false} FocusTop(h: Heap, root: RbNode?, pos: Position, c: Ctx, t: Tree)
    requires Focus(h, root, pos, c, t)
    ensures Focus(h, root, pos, Top, Plug(c, t))
    decreases c
  {
    if !c.Top? {
      FocusUp(h, root, pos, c, t);
      FocusTop(h, root, pos, c.up, Join(c, t));
    }
  }

  // Order of the whole structure around a focus.

  ghost function Whole(c: Ctx, t: Tree): seq<RbNode> {
    Before(c) + Inorder(t) + After(c)
  }

  lemma WholeAtTop(t: Tree)
    ensures Whole(Top, t) == Inorder(t)
  {}

  lemma Regroup(a: seq<RbNode>, x: RbNode, b: seq<RbNode>, y: RbNode, d: seq<RbNode>)
    ensures a + [x] + (b + [y] + d) == (a + [x] + b) + [y] + d
  {}

  lemma RegroupAround(a: seq<RbNode>, t: seq<RbNode>, x: RbNode, o: seq<RbNode>, b: seq<RbNode>)
    ensures a + (t + [x] + o) + b == a + t + ([x] + o + b)
    ensures a + (o + [x] + t) + b == a + o + [x] + t + b
  {}

  lemma WholeUp(c: Ctx, t: Tree)
    requires !c.Top?
    ensures Whole(c.up, Join(c, t)) == Whole(c, t)
  {
    RegroupAround(Before(c.up), Inorder(t), c.n, Inorder(c.other), After(c.up));
  }

  lemma {:induction false} WholeTop(c: Ctx, t: Tree)
    ensures Inorder(Plug(c, t)) == Whole(c, t)
    decreases c
  {
    if !c.Top? {
      WholeUp(c, t);
      WholeTop(c.up, Join(c, t));
    }
  }

  /** The pointer writes of `__rb_rotate_left` turn the linked structure into the rotated tree. */
  lemma RotateLeftDone(h: Heap, root: RbNode?, pos: Position, c: Ctx, t: Tree)
    requires Focus(h, root, pos, c, t) && t.Bin? && t.right.Bin?
    ensures CanRotateLeft(h, t.n) && h[t.n].right == t.right.n && h[t.n].parent == CtxParent(c)
    ensures Focus(RotateLeftWrites(h, t.n), if c.Top? then t.right.n else root, pos, c, RotatedLeftTree(t))
  {
    RotateLeftReady(h, root, pos, c, t);
    RotateLeftChanges(h, t.n, root);
    RotateLeftFocus(h, RotateLeftWrites(h, t.n), root, if c.Top? then t.right.n else root, pos, c, t);
  }

  lemma RotateLeftInorder(t: Tree)
    requires t.Bin? && t.right.Bin?
    ensures Inorder(RotatedLeftTree(t)) == Inorder(t)
  {
    Regroup(Inorder(t.left), t.n, Inorder(t.right.left), t.right.n, Inorder(t.right.right));
  }

  /** The pointer writes of `__rb_rotate_right` turn the linked structure into the rotated tree. */
  lemma RotateRightDone(h: Heap, root: RbNode?, pos: Position, c: Ctx, t: Tree)
    requires Focus(h, root, pos, c, t) && t.Bin? && t.left.Bin?
    ensures CanRotateRight(h, t.n) && h[t.n].left == t.left.n && h[t.n].parent == CtxParent(c)
    ensures Focus(RotateRightWrites(h, t.n), if c.Top? then t.left.n else root, pos, c, RotatedRightTree(t))
  {
    RotateRightReady(h, root, pos, c, t);
    RotateRightChanges(h, t.n, root);
    RotateRightFocus(h, RotateRightWrites(h, t.n), root, if c.Top? then t.left.n else root, pos, c, t);
  }

  lemma RotateRightInorder(t: Tree)
    requires t.Bin? && t.left.Bin?
    ensures Inorder(RotatedRightTree(t)) == Inorder(t)
  {
    Regroup(Inorder(t.left.left), t.left.n, Inorder(t.left.right), t.n, Inorder(t.right));
  }
}
