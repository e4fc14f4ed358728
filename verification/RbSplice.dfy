/** Taking a node out of the linked structure, and putting one node in another's place:
    the two moves `rb_erase` is made of. */
module RbSplice {
  import opened RbModel
  import opened RbBalance

  /** The focused node's place is taken by its only child. */
  ghost predicate SplicedOut(h: Heap, h': Heap, root: RbNode?, root': RbNode?, c: Ctx, x: RbNode, child: Tree) {
    && (child.Bin? ==> child.n in h && child.n in h' && h'[child.n] == h[child.n].(parent := CtxParent(c)))
    && Rehung(h, h', c, root, root', Ptr(child))
    && forall n :: n in h && n != x && n != CtxParent(c) && n != Ptr(child) ==> n in h' && h'[n] == h[n]
  }

  ghost function OnlyChild(t: Tree): Tree
    requires t.Bin?
  {
    if t.left.Leaf? then t.right else t.left
  }

  lemma SpliceFocus(h: Heap, h': Heap, root: RbNode?, root': RbNode?, pos: Position, c: Ctx, t: Tree)
    requires Focus(h, root, pos, c, t) && t.Bin? && (t.left.Leaf? || t.right.Leaf?)
    requires SplicedOut(h, h', root, root', c, t.n, OnlyChild(t))
    ensures Focus(h', root', pos, c, OnlyChild(t))
  {
    var ch, lo, hi := OnlyChild(t), Lo(c, pos), Hi(c, pos);
    var clo, chi := if t.left.Leaf? then pos(t.n) else lo, if t.left.Leaf? then hi else pos(t.n);
    CtxInterval(c, pos);
    assert Rep(h, ch, t.n) && Within(ch, pos, clo, chi);
    WidenWithin(ch, pos, clo, chi, lo, hi);
    Reparent(h, h', pos, ch, t.n, CtxParent(c), clo, chi);
    Rehang(h, h', pos, c, t.n, Ptr(ch), root, root');
  }

  lemma {:induction false} WidenWithin(t: Tree, pos: Position, lo: real, hi: real, lo': real, hi': real)
    requires Within(t, pos, lo, hi) && lo' <= lo && hi <= hi'
    ensures Within(t, pos, lo', hi')
  {
    if t.Bin? {
      WidenWithin(t.left, pos, lo, pos(t.n), lo', pos(t.n));
      WidenWithin(t.right, pos, pos(t.n), hi, pos(t.n), hi');
    }
  }

  /** y takes the links, the colour and the place of z. */
  ghost predicate Replaced(h: Heap, h': Heap, root: RbNode?, root': RbNode?, c: Ctx, t: Tree, y: RbNode)
    requires t.Bin?
  {
    && t.n in h && y in h' && h'[y] == h[t.n]
    && (t.left.Bin? ==> t.left.n in h && t.left.n in h' && h'[t.left.n] == h[t.left.n].(parent := y))
    && (t.right.Bin? ==> t.right.n in h && t.right.n in h' && h'[t.right.n] == h[t.right.n].(parent := y))
    && Rehung(h, h', c, root, root', y)
    && forall n :: n in h && n !in {t.n, y, CtxParent(c), Ptr(t.left), Ptr(t.right)} ==> n in h' && h'[n] == h[n]
  }

  ghost function WithNode(t: Tree, y: RbNode): (r: Tree)
    requires t.Bin?
    ensures r.Bin?
  {
    Bin(t.left, y, t.red, t.right)
  }

  lemma ReplaceFocus(h: Heap, h': Heap, root: RbNode?, root': RbNode?, pos: Position, c: Ctx, t: Tree, y: RbNode)
    requires Focus(h, root, pos, c, t) && t.Bin? && Replaced(h, h', root, root', c, t, y)
    requires pos(t.n) <= pos(y) < Hi(c, pos) && Within(t.right, pos, pos(y), Hi(c, pos))
    ensures Focus(h', root', pos, c, WithNode(t, y))
  {
    var lo, hi, z := Lo(c, pos), Hi(c, pos), t.n;
    CtxInterval(c, pos);
    WidenWithin(t.left, pos, lo, pos(z), lo, pos(y));
    if t.left.Bin? { assert lo < pos(t.left.n) < pos(z); }
    if t.right.Bin? { assert pos(y) < pos(t.right.n) < hi; }
    Reparent(h, h', pos, t.left, z, y, lo, pos(z));
    Reparent(h, h', pos, t.right, z, y, pos(y), hi);
    Rehang(h, h', pos, c, z, y, root, root');
  }

  // The left spine from a node's right child down to its successor.

  /** c is base with zero or more steps to the left below it. */
  ghost predicate Spine(c: Ctx, base: Ctx) {
    c == base || (c.InLeft? && Spine(c.up, base))
  }

  ghost function PlugTo(c: Ctx, base: Ctx, t: Tree): Tree
    requires Spine(c, base)
  {
    if c == base then t else PlugTo(c.up, base, Join(c, t))
  }

  lemma SpineLength(c: Ctx, base: Ctx)
    requires Spine(c, base)
    ensures CtxLen(c) >= CtxLen(base)
  {}

  ghost function Graft(c: Ctx, base: Ctx, base': Ctx): Ctx
    requires Spine(c, base)
  {
    if c == base then base' else InLeft(Graft(c.up, base, base'), c.n, c.red, c.other)
  }

  lemma {:induction false} SpineWithin(c: Ctx, base: Ctx, pos: Position, t: Tree, lo: real)
    requires Spine(c, base) && WithinCtx(c, pos) && Within(t, pos, lo, Hi(c, pos)) && lo < Hi(c, pos)
    requires Lo(base, pos) < lo
    ensures Within(PlugTo(c, base, t), pos, lo, Hi(base, pos)) && lo < Hi(base, pos)
    decreases c
  {
    if c != base {
      SpineWithin(c.up, base, pos, Join(c, t), lo);
    }
  }

  lemma {:induction false} FocusBase(h: Heap, root: RbNode?, pos: Position, c: Ctx, base: Ctx, t: Tree)
    requires Spine(c, base) && Focus(h, root, pos, c, t)
    ensures Focus(h, root, pos, base, PlugTo(c, base, t))
    decreases c
  {
    if c != base {
      FocusUp(h, root, pos, c, t);
      FocusBase(h, root, pos, c.up, base, Join(c, t));
    }
  }

  lemma {:induction false} FocusSpine(h: Heap, root: RbNode?, pos: Position, c: Ctx, base: Ctx, base': Ctx, t: Tree)
    requires Spine(c, base) && Focus(h, root, pos, base', PlugTo(c, base, t))
    ensures Focus(h, root, pos, Graft(c, base, base'), t)
    decreases c
  {
    if c != base {
      FocusSpine(h, root, pos, c.up, base, base', Join(c, t));
      FocusLeft(h, root, pos, Graft(c.up, base, base'), Join(c, t));
    }
  }

  lemma {:induction false} GraftBalanced(c: Ctx, base: Ctx, base': Ctx, k: nat)
    requires Spine(c, base) && BalancedCtx(c, k)
    requires base.InRight? && base'.InRight? && base'.up == base.up && base'.red == base.red && base'.other == base.other
    ensures BalancedCtx(Graft(c, base, base'), k)
    decreases c
  {
    if c != base {
      GraftBalanced(c.up, base, base', if c.red then k else k + 1);
    }
  }

  lemma {:induction false} GraftWhole(c: Ctx, base: Ctx, base': Ctx, t: Tree)
    requires Spine(c, base)
    ensures Whole(Graft(c, base, base'), t) == Whole(base', PlugTo(c, base, t))
    decreases c
  {
    if c != base {
      WholeUp(Graft(c, base, base'), t);
      GraftWhole(c.up, base, base', Join(c, t));
    }
  }

  lemma {:induction false} PlugToRoot(c: Ctx, base: Ctx, t: Tree, t': Tree)
    requires Spine(c, base) && c != base
    ensures PlugTo(c, base, t).Bin? && Ptr(PlugTo(c, base, t)) == Ptr(PlugTo(c, base, t'))
    decreases c
  {
    if c.up != base {
      PlugToRoot(c.up, base, Join(c, t), Join(c, t'));
    }
  }

  // The relinking of `rb_erase` when the node has two children.

  ghost predicate CanTransplant(h: Heap, z: RbNode, y: RbNode) {
    && z in h && y in h && h[z].left != null && h[z].right != null && h[z].left in h && h[z].right in h
    && (h[z].parent != null ==> h[z].parent in h)
    && h[y].parent != null && h[y].parent in h && (h[y].right != null ==> h[y].right in h)
  }

  /** The successor y leaves its place, unless it is z's own right child. */
  ghost function DetachWrites(h: Heap, z: RbNode, y: RbNode): (r: Heap)
    requires CanTransplant(h, z, y)
    ensures h.Keys <= r.Keys
  {
    var child, q := h[y].right, h[y].parent;
    if q == z then h
    else
      var h1 := if child == null then h else h[child := h[child].(parent := q)];
      var h2 := h1[q := h1[q].(left := child)];
      var h3 := h2[y := h2[y].(right := h2[z].right)];
      h3[h[z].right := h3[h[z].right].(parent := y)]
  }

  /** y takes over z's parent, colour and left child. */
  ghost function InheritWrites(h: Heap, z: RbNode, y: RbNode, left: RbNode): Heap
    requires z in h && y in h && left in h
  {
    var h4 := h[y := h[y].(parent := h[z].parent, red := h[z].red)];
    var h5 := h4[y := h4[y].(left := left)];
    h5[left := h5[left].(parent := y)]
  }

  ghost function TransplantWrites(h: Heap, z: RbNode, y: RbNode): Heap
    requires CanTransplant(h, z, y)
  {
    var h0 := if h[z].parent == null then h else ReplaceChild(h, h[z].parent, z, y);
    InheritWrites(DetachWrites(h0, z, y), z, y, h[z].left)
  }

  lemma {:induction false} SpineBounds(c: Ctx, base: Ctx, pos: Position)
    requires Spine(c, base) && WithinCtx(c, pos)
    ensures Lo(c, pos) == Lo(base, pos) && Hi(c, pos) <= Hi(base, pos) && WithinCtx(base, pos)
    decreases c
  {
    if c != base {
      CtxInterval(c.up, pos);
      SpineBounds(c.up, base, pos);
    }
  }

  /** The focus on z = t.n, and below it on its in-order successor y = yt.n. */
  ghost predicate Succession(h: Heap, root: RbNode?, pos: Position, c: Ctx, t: Tree, d: Ctx, yt: Tree) {
    && Focus(h, root, pos, c, t) && t.Bin? && t.left.Bin? && t.right.Bin?
    && Focus(h, root, pos, d, yt) && yt.Bin? && yt.left.Leaf?
    && Spine(d, InRight(c, t.n, t.red, t.left)) && PlugTo(d, InRight(c, t.n, t.red, t.left), yt) == t.right
  }

  lemma SuccessionReads(h: Heap, root: RbNode?, pos: Position, c: Ctx, t: Tree, d: Ctx, yt: Tree)
    requires Succession(h, root, pos, c, t, d, yt)
    ensures t.n in h && h[t.n] == Cell(CtxParent(c), t.red, t.left.n, t.right.n)
    ensures yt.n in h && h[yt.n] == Cell(CtxParent(d), yt.red, null, Ptr(yt.right))
    ensures t.left.n in h && t.right.n in h && d.n in h
    ensures yt.right.Bin? ==> yt.right.n in h && h[yt.right.n].parent == yt.n && pos(yt.n) < pos(yt.right.n) < Hi(d, pos)
    ensures Lo(c, pos) < pos(t.left.n) < pos(t.n) < pos(yt.n) < Hi(d, pos) <= Hi(c, pos)
    ensures pos(t.n) < pos(t.right.n) < Hi(c, pos)
    ensures !c.Top? ==> c.n in h && !(Lo(c, pos) < pos(c.n) < Hi(c, pos)) && (h[c.n].left == t.n <==> c.InLeft?)
    ensures var base := InRight(c, t.n, t.red, t.left);
      if d == base then d.n == t.n && t.right == yt
      else d.InLeft? && Hi(d, pos) == pos(d.n) < Hi(c, pos) && pos(d.n) <= pos(t.right.n)
  {
    var base := InRight(c, t.n, t.red, t.left);
    FocusReads(h, root, pos, c, t);
    FocusReads(h, root, pos, d, yt);
    SpineBounds(d, base, pos);
    CtxInterval(c, pos);
    assert Rep(h, yt.right, yt.n);
    assert Within(yt.right, pos, pos(yt.n), Hi(d, pos)) && Within(t.right, pos, pos(t.n), Hi(c, pos));
    if d != base {
      SpineDeep(d, base, pos, yt);
    }
  }

  lemma {:induction false} SpineDeep(d: Ctx, base: Ctx, pos: Position, t: Tree)
    requires Spine(d, base) && d != base && WithinCtx(d, pos) && t.Bin? && Within(t, pos, Lo(d, pos), Hi(d, pos))
    ensures d.InLeft? && pos(t.n) < pos(d.n) < Hi(base, pos)
    ensures PlugTo(d, base, t).Bin? && pos(d.n) <= pos(PlugTo(d, base, t).n)
    decreases d
  {
    SpineBounds(d.up, base, pos);
    if d.up != base {
      SpineDeep(d.up, base, pos, Join(d, t));
    }
  }

  /** The structure with the successor spliced out, before it takes over the node's place. */
  ghost function Spliced(h: Heap, z: RbNode, y: RbNode): Heap
    requires CanTransplant(h, z, y)
  {
    var child, q := h[y].right, h[y].parent;
    var h1 := if child == null then h else h[child := h[child].(parent := q)];
    if q == z then h1[z := h1[z].(right := child)] else h1[q := h1[q].(left := child)]
  }

  lemma SplicedFocus(h: Heap, root: RbNode?, pos: Position, c: Ctx, t: Tree, d: Ctx, yt: Tree)
    requires Succession(h, root, pos, c, t, d, yt)
    ensures CanTransplant(h, t.n, yt.n)
    ensures var t' := Bin(t.left, t.n, t.red, PlugTo(d, InRight(c, t.n, t.red, t.left), yt.right));
      Focus(Spliced(h, t.n, yt.n), root, pos, c, t')
  {
    var base := InRight(c, t.n, t.red, t.left);
    SuccessionReads(h, root, pos, c, t, d, yt);
    var hs := Spliced(h, t.n, yt.n);
    SpliceFocus(h, hs, root, root, pos, d, yt);
    FocusBase(hs, root, pos, d, base, yt.right);
    FocusUp(hs, root, pos, base, PlugTo(d, base, yt.right));
  }

  ghost predicate Transplanted(h: Heap, root: RbNode?, c: Ctx, t: Tree, d: Ctx, yt: Tree)
    requires t.Bin? && yt.Bin? && CanTransplant(h, t.n, yt.n) && Spine(d, InRight(c, t.n, t.red, t.left))
  {
    var t' := Bin(t.left, t.n, t.red, PlugTo(d, InRight(c, t.n, t.red, t.left), yt.right));
    Replaced(Spliced(h, t.n, yt.n), TransplantWrites(h, t.n, yt.n), root, if c.Top? then yt.n else root, c, t', yt.n)
  }

  /** The nodes the relinking touches are different nodes, but that the successor's parent
      may be z or z's right child. */
  ghost predicate ApartForTransplant(h: Heap, z: RbNode, y: RbNode)
    requires CanTransplant(h, z, y)
  {
    var p, l, r, q, ch := h[z].parent, h[z].left, h[z].right, h[y].parent, h[y].right;
    && p !in {z, y, l, r, q} && (p != null ==> p != ch)
    && l !in {z, y, r, q, ch} && z != y && z != r && z != ch && y != ch && y != q
    && if q == z then r == y else r != y && ch != q && ch != r
  }

  ghost predicate TransplantChanges(h: Heap, h': Heap, z: RbNode, y: RbNode)
    requires CanTransplant(h, z, y) && h.Keys <= h'.Keys
  {
    var p, l, r, q, ch := h[z].parent, h[z].left, h[z].right, h[y].parent, h[y].right;
    && h'[y] == Cell(p, h[z].red, l, if q == z then ch else r)
    && h'[l] == h[l].(parent := y)
    && (p != null ==> h'[p] == if h[p].left == z then h[p].(left := y) else h[p].(right := y))
    && (q != z ==>
          && (ch != null ==> h'[ch] == h[ch].(parent := q))
          && h'[q] == h[q].(left := ch, parent := if q == r then y else h[q].parent)
          && h'[r] == h[r].(parent := y, left := if q == r then ch else h[r].left))
    && forall n :: n in h && n !in {y, l, p} && (q == z || n !in {ch, q, r}) ==> h'[n] == h[n]
  }

  lemma TransplantCells(h: Heap, z: RbNode, y: RbNode)
    requires CanTransplant(h, z, y) && ApartForTransplant(h, z, y)
    ensures h.Keys <= TransplantWrites(h, z, y).Keys
    ensures TransplantChanges(h, TransplantWrites(h, z, y), z, y)
  {}

  lemma SuccessionApart(h: Heap, root: RbNode?, pos: Position, c: Ctx, t: Tree, d: Ctx, yt: Tree)
    requires Succession(h, root, pos, c, t, d, yt)
    ensures CanTransplant(h, t.n, yt.n) && ApartForTransplant(h, t.n, yt.n)
  {
    SuccessionReads(h, root, pos, c, t, d, yt);
    hide Succession;
  }

  lemma ReplacesByCells(h: Heap, h': Heap, root: RbNode?, c: Ctx, t: Tree, y: RbNode)
    requires t.Bin? && t.left.Bin? && CanTransplant(h, t.n, y) && ApartForTransplant(h, t.n, y)
    requires h.Keys <= h'.Keys && TransplantChanges(h, h', t.n, y)
    requires h[t.n].left == t.left.n && h[t.n].parent == CtxParent(c) && h[y].left == null
    requires !c.Top? ==> (h[c.n].left == t.n <==> c.InLeft?)
    requires var ch := h[y].right; ch != null ==> h[ch].parent == y
    requires Ptr(t.right) == if h[y].parent == t.n then h[y].right else h[t.n].right
    ensures Replaced(Spliced(h, t.n, y), h', root, if c.Top? then y else root, c, t, y)
  {
    var z, hs, root' := t.n, Spliced(h, t.n, y), if c.Top? then y else root;
    var p, l, r, q, ch := h[z].parent, h[z].left, h[z].right, h[y].parent, h[y].right;
    assert h'[y] == hs[z];
    assert Rehung(hs, h', c, root, root', y);
    if q == z {
      assert ch != null ==> h'[ch] == h[ch] && hs[ch] == h[ch].(parent := z);
    } else {
      assert h'[r] == hs[r].(parent := y);
    }
  }

  lemma TransplantReplaces(h: Heap, root: RbNode?, pos: Position, c: Ctx, t: Tree, d: Ctx, yt: Tree)
    requires Succession(h, root, pos, c, t, d, yt)
    ensures CanTransplant(h, t.n, yt.n) && Transplanted(h, root, c, t, d, yt)
  {
    var base := InRight(c, t.n, t.red, t.left);
    SuccessionReads(h, root, pos, c, t, d, yt);
    SuccessionApart(h, root, pos, c, t, d, yt);
    if d != base {
      PlugToRoot(d, base, yt, yt.right);
    }
    TransplantCells(h, t.n, yt.n);
    ReplacesByCells(h, TransplantWrites(h, t.n, yt.n), root, c, Bin(t.left, t.n, t.red, PlugTo(d, base, yt.right)), yt.n);
  }

  /** After `rb_erase`'s relinking the successor stands in the node's place, and the hole it
      left holds its right child. */
  lemma TransplantFocus(h: Heap, root: RbNode?, pos: Position, c: Ctx, t: Tree, d: Ctx, yt: Tree)
    requires Succession(h, root, pos, c, t, d, yt)
    ensures CanTransplant(h, t.n, yt.n)
    ensures var base, base' := InRight(c, t.n, t.red, t.left), InRight(c, yt.n, t.red, t.left);
      Focus(TransplantWrites(h, t.n, yt.n), if c.Top? then yt.n else root, pos, Graft(d, base, base'), yt.right)
  {
    var y, base, base' := yt.n, InRight(c, t.n, t.red, t.left), InRight(c, yt.n, t.red, t.left);
    var r' := PlugTo(d, base, yt.right);
    var t' := Bin(t.left, t.n, t.red, r');
    SuccessionReads(h, root, pos, c, t, d, yt);
    SplicedFocus(h, root, pos, c, t, d, yt);
    var h', root' := TransplantWrites(h, t.n, y), if c.Top? then y else root;
    TransplantReplaces(h, root, pos, c, t, d, yt);
    SpineWithin(d, base, pos, yt.right, pos(y));
    ReplaceFocus(Spliced(h, t.n, y), h', root, root', pos, c, t', y);
    FocusRight(h', root', pos, c, WithNode(t', y));
    FocusSpine(h', root', pos, d, base, base', yt.right);
  }

  // What erasure leaves, and which black node it takes away.

  /** The sequence around the focus with the focused node taken out. */
  ghost function Without(c: Ctx, t: Tree): seq<RbNode>
    requires t.Bin?
  {
    (Before(c) + Inorder(t.left)) + (Inorder(t.right) + After(c))
  }

  ghost predicate RbAround(c: Ctx, t: Tree, k: nat) {
    Balanced(t, k) && BalancedCtx(c, k) && (IsRed(t) ==> !c.Top? && !c.red)
  }

  /** What remains to be done once the hole (c, t) is left by a node of the given colour. */
  ghost predicate Owing(c: Ctx, t: Tree, red: bool, k: nat) {
    if red then RedBlack(Plug(c, t)) else Deficit(c, t, k)
  }

  lemma DeficitOf(c: Ctx, t: Tree, k: nat)
    requires BalancedCtx(c, k + 1) && Balanced(t, k)
    ensures Deficit(c, t, k)
  {
    if IsRed(t) {
      assert Balanced(t.left, k) && Balanced(t.right, k);
    }
  }

  lemma OnlyChildOwing(c: Ctx, t: Tree, k: nat)
    requires RbAround(c, t, k) && t.Bin? && (t.left.Leaf? || t.right.Leaf?)
    ensures Owing(c, OnlyChild(t), t.red, if t.red then k else k - 1)
    ensures Whole(c, OnlyChild(t)) == Without(c, t)
  {
    if t.red {
      PlugBalanced(c, OnlyChild(t), k);
    } else {
      DeficitOf(c, OnlyChild(t), k - 1);
    }
  }

  lemma {:induction false} AroundSpine(c: Ctx, base: Ctx, t: Tree, k: nat) returns (j: nat)
    requires Spine(c, base) && base.InRight? && RbAround(base, PlugTo(c, base, t), k)
    ensures RbAround(c, t, j)
    decreases c
  {
    j := k;
    if c != base {
      j := AroundSpine(c.up, base, Join(c, t), k);
      j := if c.red then j else j - 1;
    }
  }

  lemma SuccessorOwing(c: Ctx, t: Tree, d: Ctx, yt: Tree, k: nat) returns (j: nat)
    requires RbAround(c, t, k) && t.Bin? && yt.Bin? && yt.left.Leaf?
    requires Spine(d, InRight(c, t.n, t.red, t.left)) && PlugTo(d, InRight(c, t.n, t.red, t.left), yt) == t.right
    ensures var d' := Graft(d, InRight(c, t.n, t.red, t.left), InRight(c, yt.n, t.red, t.left));
      Owing(d', yt.right, yt.red, j) && Whole(d', yt.right) == Without(c, t)
  {
    var base, base' := InRight(c, t.n, t.red, t.left), InRight(c, yt.n, t.red, t.left);
    var i := AroundSpine(d, base, yt, if t.red then k else k - 1);
    GraftBalanced(d, base, base', i);
    j := if yt.red then i else i - 1;
    var d' := Graft(d, base, base');
    if yt.red {
      GraftFrame(d, base, base');
      PlugBalanced(d', yt.right, i);
    } else {
      DeficitOf(d', yt.right, j);
    }
    GraftWhole(d, base, base', yt.right);
    SpineInorder(d, base, yt);
  }

  lemma GraftFrame(d: Ctx, base: Ctx, base': Ctx)
    requires Spine(d, base) && !base.Top? && !base'.Top? && base.red == base'.red
    ensures !d.Top? && !Graft(d, base, base').Top? && Graft(d, base, base').red == d.red
  {}

  lemma {:induction false} SpineInorder(d: Ctx, base: Ctx, yt: Tree)
    requires Spine(d, base) && yt.Bin? && yt.left.Leaf?
    ensures Inorder(PlugTo(d, base, yt)) == [yt.n] + Inorder(PlugTo(d, base, yt.right))
  {
    SpineSuffix(d, base, yt);
    SpineSuffix(d, base, yt.right);
  }

  /** What the spine adds stands to the right of the hole. */
  ghost function SpineTail(d: Ctx, base: Ctx): seq<RbNode>
    requires Spine(d, base)
  {
    if d == base then [] else [d.n] + Inorder(d.other) + SpineTail(d.up, base)
  }

  lemma {:induction false} SpineSuffix(d: Ctx, base: Ctx, t: Tree)
    requires Spine(d, base)
    ensures Inorder(PlugTo(d, base, t)) == Inorder(t) + SpineTail(d, base)
    decreases d
  {
    if d != base {
      SpineSuffix(d.up, base, Join(d, t));
    }
  }

  // Linking a new node into an empty place.

  ghost function Placed(pos: Position, n: RbNode, at: real): Position {
    (m: RbNode) => if m == n then at else pos(m)
  }

  ghost function Middle(c: Ctx, pos: Position): real { (Lo(c, pos) + Hi(c, pos)) / 2.0 }

  lemma {:induction false} PlacedRep(h: Heap, t: Tree, p: RbNode?, pos: Position, n: RbNode, at: real, lo: real, hi: real)
    requires Rep(h, t, p) && n !in h && Within(t, pos, lo, hi)
    ensures Within(t, Placed(pos, n, at), lo, hi)
  {
    if t.Bin? {
      PlacedRep(h, t.left, t.n, pos, n, at, lo, pos(t.n));
      PlacedRep(h, t.right, t.n, pos, n, at, pos(t.n), hi);
    }
  }

  lemma {:induction false} PlacedCtx(h: Heap, c: Ctx, hole: RbNode?, root: RbNode?, pos: Position, n: RbNode, at: real)
    requires RepCtx(h, c, hole, root) && n !in h && WithinCtx(c, pos)
    ensures WithinCtx(c, Placed(pos, n, at))
    ensures Lo(c, Placed(pos, n, at)) == Lo(c, pos) && Hi(c, Placed(pos, n, at)) == Hi(c, pos)
  {
    if !c.Top? {
      PlacedCtx(h, c.up, c.n, root, pos, n, at);
      if c.InLeft? {
        PlacedRep(h, c.other, c.n, pos, n, at, pos(c.n), Hi(c.up, pos));
      } else {
        PlacedRep(h, c.other, c.n, pos, n, at, Lo(c.up, pos), pos(c.n));
      }
    }
  }

  /** `rb_link_node`: a red leaf in the place the search ended at. */
  lemma LinkFocus(h: Heap, h': Heap, root: RbNode?, root': RbNode?, pos: Position, c: Ctx, n: RbNode)
    requires Focus(h, root, pos, c, Leaf) && n !in h
    requires n in h' && h'[n] == Cell(CtxParent(c), true, null, null)
    requires Rehung(h, h', c, root, root', n)
    requires forall m :: m in h && m != CtxParent(c) ==> m in h' && h'[m] == h[m]
    ensures Focus(h', root', Placed(pos, n, Middle(c, pos)), c, Bin(Leaf, n, true, Leaf))
  {
    CtxInterval(c, pos);
    PlacedCtx(h, c, null, root, pos, n, Middle(c, pos));
    Rehang(h, h', pos, c, null, n, root, root');
  }

  lemma PlacedFocus(h: Heap, root: RbNode?, pos: Position, c: Ctx, t: Tree, n: RbNode, at: real)
    requires Focus(h, root, pos, c, t) && n !in h
    ensures Focus(h, root, Placed(pos, n, at), c, t)
    ensures Lo(c, Placed(pos, n, at)) == Lo(c, pos) && Hi(c, Placed(pos, n, at)) == Hi(c, pos)
  {
    PlacedCtx(h, c, Ptr(t), root, pos, n, at);
    PlacedRep(h, t, CtxParent(c), pos, n, at, Lo(c, pos), Hi(c, pos));
  }

  /** The writes of `rb_replace_node`, in its order. */
  ghost function ReplaceWrites(h: Heap, z: RbNode, y: RbNode): (r: Heap)
    requires z in h && (h[z].parent != null ==> h[z].parent in h)
    requires (h[z].left != null ==> h[z].left in h) && (h[z].right != null ==> h[z].right in h)
  {
    var h1 := if h[z].parent == null then h else ReplaceChild(h, h[z].parent, z, y);
    var h2 := if h[z].left == null then h1 else h1[h[z].left := h1[h[z].left].(parent := y)];
    var h3 := if h[z].right == null then h2 else h2[h[z].right := h2[h[z].right].(parent := y)];
    h3[y := h3[z]]
  }

  lemma ReplaceWritesFocus(h: Heap, root: RbNode?, pos: Position, c: Ctx, t: Tree, y: RbNode)
    requires Focus(h, root, pos, c, t) && t.Bin? && y !in h
    ensures t.n in h && h[t.n] == Cell(CtxParent(c), t.red, Ptr(t.left), Ptr(t.right)) && (c.Top? || c.n in h)
    ensures (t.left.Bin? ==> t.left.n in h && t.left.n != t.n) && (t.right.Bin? ==> t.right.n in h && t.right.n != t.n)
    ensures CtxParent(c) != t.n
    ensures Focus(ReplaceWrites(h, t.n, y), if c.Top? then y else root, Placed(pos, y, pos(t.n)), c, WithNode(t, y))
  {
    var pos' := Placed(pos, y, pos(t.n));
    PlacedFocus(h, root, pos, c, t, y, pos(t.n));
    FocusReads(h, root, pos', c, t);
    assert Rep(h, t.left, t.n) && Rep(h, t.right, t.n);
    assert Within(t.left, pos', Lo(c, pos'), pos'(t.n)) && Within(t.right, pos', pos'(t.n), Hi(c, pos'));
    CtxInterval(c, pos');
    ReplaceFocus(h, ReplaceWrites(h, t.n, y), root, if c.Top? then y else root, pos', c, t, y);
  }
}
