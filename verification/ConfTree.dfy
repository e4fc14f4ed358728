// src/config.c, src/config.h: configuration nodes linked by parent, head and
// next, removal from the parent's list, and the teardown of a subtree.
module ConfTree {

  datatype Kind = None | Scalar | Mapping | Sequence

  class ConfNode {
    const kind: Kind
    const name: string
    var parent: ConfNode?
    var head: ConfNode?
    var next: ConfNode?
    ghost var alive: bool

    constructor (kind: Kind, name: string)
      ensures this.kind == kind && this.name == name
      ensures parent == null && head == null && next == null && alive
    {
      this.kind := kind;
      this.name := name;
      parent, head, next := null, null, null;
      alive := true;
    }
  }

  // ---- Lists of siblings.

  function At(nodes: seq<ConfNode>, k: nat): ConfNode? {
    if k < |nodes| then nodes[k] else null
  }

  function Follower(nodes: seq<ConfNode>, i: nat): ConfNode? {
    At(nodes, i + 1)
  }

  ghost predicate Siblings(p: ConfNode, nodes: seq<ConfNode>)
    reads p, nodes
  {
    && p.head == At(nodes, 0)
    && forall i {:trigger Follower(nodes, i)} :: 0 <= i < |nodes| ==> nodes[i].next == Follower(nodes, i) && nodes[i].parent == p
  }

  ghost predicate NoDup(nodes: seq<ConfNode>) {
    forall i, j :: 0 <= i < j < |nodes| ==> nodes[i] != nodes[j]
  }

  function Without(nodes: seq<ConfNode>, k: nat): (rest: seq<ConfNode>)
    requires k < |nodes|
    ensures |rest| == |nodes| - 1
    ensures forall i :: 0 <= i < |rest| ==> rest[i] == nodes[if i < k then i else i + 1]
  {
    nodes[..k] + nodes[k + 1..]
  }

  lemma OnlyAt(nodes: seq<ConfNode>, k: nat)
    requires NoDup(nodes) && k < |nodes|
    ensures forall i :: 0 <= i < |nodes| && i != k ==> nodes[i] != nodes[k]
  {
  }

  // The walk of conf_remove_node: whether node is in the list, and the sibling
  // before it, null if it is first.
  method Predecessor(node: ConfNode, parent: ConfNode, ghost sibs: seq<ConfNode>, ghost k: nat)
      returns (found: bool, pred: ConfNode?)
    requires Siblings(parent, sibs) && Place(node, sibs, k)
    ensures found <==> k < |sibs|
    ensures found ==> if k == 0 then pred == null else pred == sibs[k - 1]
  {
    pred := null;
    var at := parent.head;
    ghost var i := 0;
    while at != node && at != null
      invariant i <= k && at == At(sibs, i)
      invariant if i == 0 then pred == null else pred == sibs[i - 1]
      decreases k - i
    {
      assert sibs[i].next == Follower(sibs, i);
      pred := at;
      at := at.next;
      i := i + 1;
    }
    found := at != null;
  }

  // node is the k-th sibling, or none of them.
  ghost predicate Place(node: ConfNode, sibs: seq<ConfNode>, k: nat) {
    && NoDup(sibs) && k <= |sibs|
    && (k < |sibs| ==> sibs[k] == node)
    && forall i :: 0 <= i < |sibs| && i != k ==> sibs[i] != node
  }

  // conf_remove_node: out of the parent's list, the others in order; nothing
  // happens to a node without parent, or missing from its parent's list.
  method RemoveNode(node: ConfNode, ghost sibs: seq<ConfNode>, ghost k: nat)
    requires node.parent != null ==> Siblings(node.parent, sibs) && Place(node, sibs, k) && node.parent !in sibs
    modifies (if node.parent != null then {node.parent} else {})`head, node`next, node`parent,
             if node.parent != null && k < |sibs| then sibs[..k] else []
    ensures old(node.parent) == null ==> node.parent == null && node.next == old(node.next)
    ensures old(node.parent) != null && k < |sibs| ==>
      && Siblings(old(node.parent), Without(sibs, k)) && node.parent == null && node.next == null
      && forall x :: x in sibs[..k] ==> x.alive == old(x.alive) && x.head == old(x.head)
    ensures old(node.parent) != null && k == |sibs| ==>
      Siblings(old(node.parent), sibs) && node.parent == old(node.parent) && node.next == old(node.next)
  {
    if node.parent != null {
      Unlink(node, node.parent, sibs, k);
    }
  }

  method Unlink(node: ConfNode, parent: ConfNode, ghost sibs: seq<ConfNode>, ghost k: nat)
    requires node.parent == parent && parent !in sibs
    requires Siblings(parent, sibs) && Place(node, sibs, k)
    modifies parent`head, node`next, node`parent, if k < |sibs| then sibs[..k] else []
    ensures k < |sibs| ==>
      && Siblings(parent, Without(sibs, k)) && node.parent == null && node.next == null
      && forall x :: x in sibs[..k] ==> x.alive == old(x.alive) && x.head == old(x.head)
    ensures k == |sibs| ==>
      Siblings(parent, sibs) && node.parent == old(node.parent) && node.next == old(node.next)
  {
    hide NoDup, Without;
    var found, pred := Predecessor(node, parent, sibs, k);
    if !found {
      return;
    }
    if k > 0 { OnlyAt(sibs, k - 1); }
    ghost var rest := Without(sibs, k);
    assert node.next == Follower(sibs, k);
    if pred == null {
      parent.head := node.next;
    } else {
      pred.next := node.next;
    }
    node.next := null;
    node.parent := null;
    forall i | 0 <= i < |rest|
      ensures rest[i].next == Follower(rest, i) && rest[i].parent == parent
    {
      var j := if i < k then i else i + 1;
      assert rest[i] == sibs[j] && Follower(sibs, j) == old(sibs[j].next);
    }
  }

  // ---- Trees.

  datatype Tree = Tree(node: ConfNode, kids: seq<Tree>)

  function Nodes(t: Tree): (s: seq<ConfNode>)
    ensures |s| >= 1
    decreases t, 0
  {
    [t.node] + KidNodes(t.kids)
  }

  function KidNodes(ks: seq<Tree>): seq<ConfNode>
    decreases ks, 1
  {
    if ks == [] then [] else Nodes(ks[0]) + KidNodes(ks[1..])
  }

  function Footprint(t: Tree): set<ConfNode>
    decreases t, 0
  {
    {t.node} + KidFootprint(t.kids)
  }

  function KidFootprint(ks: seq<Tree>): set<ConfNode>
    decreases ks, 1
  {
    if ks == [] then {} else Footprint(ks[0]) + KidFootprint(ks[1..])
  }

  lemma {:induction false} FootprintIs(t: Tree)
    ensures forall x :: x in Footprint(t) <==> x in Nodes(t)
    decreases t, 0
  {
    KidFootprintIs(t.kids);
  }

  lemma {:induction false} KidFootprintIs(ks: seq<Tree>)
    ensures forall x :: x in KidFootprint(ks) <==> x in KidNodes(ks)
    decreases ks, 1
  {
    if ks != [] {
      FootprintIs(ks[0]);
      KidFootprintIs(ks[1..]);
    }
  }

  function Heads(ks: seq<Tree>): (s: seq<ConfNode>)
    ensures |s| == |ks|
  {
    seq(|ks|, i requires 0 <= i < |ks| => ks[i].node)
  }

  // The order in which conf_free_root frees: children first, in list order.
  function PostOrder(t: Tree): seq<ConfNode>
    decreases t, 0
  {
    KidPostOrder(t.kids) + [t.node]
  }

  function KidPostOrder(ks: seq<Tree>): seq<ConfNode>
    decreases ks, 1
  {
    if ks == [] then [] else PostOrder(ks[0]) + KidPostOrder(ks[1..])
  }

  // t is the tree below t.node in the heap, all of it still allocated.
  ghost predicate Rep(t: Tree)
    reads Footprint(t)
    decreases t, 0
  {
    t.node.alive && t.node.head == At(Heads(t.kids), 0) && RepKids(t.kids, t.node)
  }

  ghost predicate RepKids(ks: seq<Tree>, p: ConfNode)
    reads KidFootprint(ks)
    decreases ks, 1
  {
    ks == [] ||
    (Rep(ks[0]) && ks[0].node.parent == p && ks[0].node.next == Follower(Heads(ks), 0) && RepKids(ks[1..], p))
  }

  // Freeing in post-order touches each node of the tree exactly once.
  lemma {:induction false} PostOrderCounts(t: Tree)
    ensures multiset(PostOrder(t)) == multiset(Nodes(t))
    decreases t, 0
  {
    KidPostOrderCounts(t.kids);
  }

  lemma {:induction false} KidPostOrderCounts(ks: seq<Tree>)
    ensures multiset(KidPostOrder(ks)) == multiset(KidNodes(ks))
    decreases ks, 1
  {
    if ks != [] {
      PostOrderCounts(ks[0]);
      KidPostOrderCounts(ks[1..]);
    }
  }

  lemma Parts(s: seq<ConfNode>, t: seq<ConfNode>)
    requires NoDup(s + t)
    ensures NoDup(s) && NoDup(t)
    ensures forall x :: x in s ==> x !in t
  {
    forall x | x in s
      ensures x !in t
    {
      var i :| 0 <= i < |s| && s[i] == x;
      forall j | 0 <= j < |t| ensures t[j] != x {
        assert (s + t)[i] != (s + t)[|s| + j];
      }
    }
    forall i, j | 0 <= i < j < |t| ensures t[i] != t[j] {
      assert (s + t)[|s| + i] != (s + t)[|s| + j];
    }
    forall i, j | 0 <= i < j < |s| ensures s[i] != s[j] {
      assert (s + t)[i] != (s + t)[j];
    }
  }

  lemma RootApart(p: ConfNode, s: seq<ConfNode>)
    ensures NoDup([p] + s) <==> NoDup(s) && p !in s
  {
    var u := [p] + s;
    assert forall i :: 0 <= i < |s| ==> u[i + 1] == s[i];
    if NoDup(u) {
      forall i | 0 <= i < |s| ensures s[i] != p { assert u[0] != u[i + 1]; }
      forall i, j | 0 <= i < j < |s| ensures s[i] != s[j] { assert u[i + 1] != u[j + 1]; }
    }
    if NoDup(s) && p !in s {
      forall i, j | 0 <= i < j < |u| ensures u[i] != u[j] {
        assert u[j] == s[j - 1];
        if i > 0 { assert u[i] == s[i - 1]; }
      }
    }
  }

  // The nodes of the first child, of the others, and their parent, are apart.
  lemma Apart(ks: seq<Tree>, p: ConfNode)
    requires ks != [] && NoDup(KidNodes(ks)) && p !in KidNodes(ks)
    ensures NoDup(Nodes(ks[0])) && NoDup(KidNodes(ks[1..])) && p !in KidNodes(ks[1..])
    ensures p !in Footprint(ks[0]) && p !in KidFootprint(ks[1..])
    ensures forall x :: x in Footprint(ks[0]) ==> x !in KidFootprint(ks[1..])
  {
    hide NoDup;
    FootprintIs(ks[0]);
    KidFootprintIs(ks[1..]);
    Parts(Nodes(ks[0]), KidNodes(ks[1..]));
    Disjoint(Footprint(ks[0]), KidFootprint(ks[1..]), Nodes(ks[0]), KidNodes(ks[1..]));
  }

  lemma Disjoint(a: set<ConfNode>, b: set<ConfNode>, s: seq<ConfNode>, t: seq<ConfNode>)
    requires forall x :: x in a <==> x in s
    requires forall x :: x in b <==> x in t
    requires forall x :: x in s ==> x !in t
    ensures forall x :: x in a ==> x !in b
  {
  }

  lemma {:induction false} HeadsInside(ks: seq<Tree>)
    ensures forall i :: 0 <= i < |ks| ==> ks[i].node in KidNodes(ks)
  {
    if ks != [] {
      HeadsInside(ks[1..]);
      assert Nodes(ks[0])[0] == ks[0].node;
      forall i | 0 <= i < |ks| ensures ks[i].node in KidNodes(ks) {
        if i > 0 { assert ks[1..][i - 1] == ks[i]; }
      }
    }
  }

  lemma {:induction false} HeadsApart(ks: seq<Tree>)
    requires NoDup(KidNodes(ks))
    ensures NoDup(Heads(ks))
  {
    if ks != [] {
      Parts(Nodes(ks[0]), KidNodes(ks[1..]));
      HeadsApart(ks[1..]);
      HeadsInside(ks[1..]);
      assert Nodes(ks[0])[0] == ks[0].node;
      forall i, j | 0 <= i < j < |ks| ensures Heads(ks)[i] != Heads(ks)[j] {
        assert ks[1..][j - 1] == ks[j];
        if i > 0 { assert Heads(ks[1..])[i - 1] != Heads(ks[1..])[j - 1]; }
      }
    }
  }

  // The children are their parent's list.
  lemma {:induction false} KidsAreSiblings(ks: seq<Tree>, p: ConfNode)
    requires p.head == At(Heads(ks), 0) && RepKids(ks, p)
    ensures Siblings(p, Heads(ks))
  {
    forall i | 0 <= i < |ks|
      ensures Heads(ks)[i].next == Follower(Heads(ks), i) && Heads(ks)[i].parent == p
    {
      KidLink(ks, p, i);
    }
  }

  lemma {:induction false} KidLink(ks: seq<Tree>, p: ConfNode, i: nat)
    requires i < |ks| && RepKids(ks, p)
    ensures ks[i].node.next == Follower(Heads(ks), i) && ks[i].node.parent == p
  {
    if i > 0 {
      KidLink(ks[1..], p, i - 1);
      assert Heads(ks[1..]) == Heads(ks)[1..];
    }
  }

  lemma HeadsWithout(ks: seq<Tree>)
    requires ks != []
    ensures Without(Heads(ks), 0) == Heads(ks[1..])
  {
  }

  lemma HeadsNotParent(ks: seq<Tree>, p: ConfNode)
    requires p !in KidNodes(ks)
    ensures p !in Heads(ks)
  {
    HeadsInside(ks);
  }

  // conf_free_root on the k-th node of its parent's list, on a root, or on a node
  // that its parent's list lacks (k == |sibs|). Returns the nodes freed, in order.
  method FreeRoot(root: ConfNode, ghost t: Tree, ghost sibs: seq<ConfNode>, ghost k: nat) returns (ghost freed: seq<ConfNode>)
    requires Rep(t) && t.node == root && NoDup(Nodes(t)) && forall x :: x in Footprint(t) ==> allocated(x)
    requires root.parent != null ==> InList(root, root.parent, t, sibs, k)
    modifies Footprint(t), (if root.parent != null then {root.parent} else {})`head,
             if root.parent != null && k < |sibs| then sibs[..k] else []
    ensures freed == PostOrder(t)
    ensures forall x :: x in Footprint(t) ==> !x.alive
    ensures old(root.parent) != null ==> Siblings(old(root.parent), Remaining(sibs, k))
    decreases t, 1
  {
    hide NoDup, Without, Siblings, Rep;
    ghost var p := root.parent;
    if root.parent != null {
      Detach(root, t, sibs, k);
    }
    freed := FreeDetached(root, t);
  }

  // The siblings without the k-th, which may be none of them.
  function Remaining(sibs: seq<ConfNode>, k: nat): seq<ConfNode> {
    if k < |sibs| then Without(sibs, k) else sibs
  }

  ghost predicate InList(root: ConfNode, p: ConfNode, t: Tree, sibs: seq<ConfNode>, k: nat)
    reads p, sibs
  {
    && Siblings(p, sibs) && Place(root, sibs, k)
    && p !in sibs && p !in Footprint(t)
    && forall i :: 0 <= i < |sibs| && i != k ==> sibs[i] !in Footprint(t)
  }

  // Its first step: the rest of the tree is as before.
  method Detach(root: ConfNode, ghost t: Tree, ghost sibs: seq<ConfNode>, ghost k: nat)
    requires Rep(t) && t.node == root && NoDup(Nodes(t)) && forall x :: x in Footprint(t) ==> allocated(x)
    requires root.parent != null && InList(root, root.parent, t, sibs, k)
    modifies root.parent`head, root`next, root`parent, if k < |sibs| then sibs[..k] else []
    ensures Siblings(old(root.parent), Remaining(sibs, k)) && Rep(t)
  {
    hide NoDup, Without, Siblings;
    RootApart(root, KidNodes(t.kids));
    KidFootprintIs(t.kids);
    assert forall x :: x in sibs[..k] ==> x !in Footprint(t);
    assert forall x :: x in KidFootprint(t.kids) ==> x in Footprint(t) && x != root && x != root.parent && x !in sibs[..k];
    assert RepKids(t.kids, root);
    RemoveNode(root, sibs, k);
    assert RepKids(t.kids, root);
  }

  method FreeDetached(root: ConfNode, ghost t: Tree) returns (ghost freed: seq<ConfNode>)
    requires Rep(t) && t.node == root && NoDup(Nodes(t)) && forall x :: x in Footprint(t) ==> allocated(x)
    modifies Footprint(t)
    ensures freed == PostOrder(t)
    ensures forall x :: x in Footprint(t) ==> !x.alive
    decreases t, 0
  {
    hide NoDup, Siblings;
    RootApart(root, KidNodes(t.kids));
    freed := [];
    ghost var ks := t.kids;
    var child := root.head;
    while child != null
      invariant child == root.head == At(Heads(ks), 0) && root.alive
      invariant RepKids(ks, root) && NoDup(KidNodes(ks)) && root !in KidNodes(ks)
      invariant KidFootprint(ks) <= KidFootprint(t.kids)
      invariant freed + KidPostOrder(ks) == KidPostOrder(t.kids)
      invariant forall x :: x in KidFootprint(t.kids) && x !in KidFootprint(ks) ==> !x.alive
      decreases ks
    {
      ghost var more;
      assert KidFootprint(ks) == Footprint(ks[0]) + KidFootprint(ks[1..]);
      ghost var first, rest, all := Footprint(ks[0]), KidFootprint(ks[1..]), KidFootprint(t.kids);
      child, more := FreeFirst(root, child, ks);
      assert forall x :: x in all && x !in first && x !in rest ==> !x.alive;
      freed := freed + more;
      ks := ks[1..];
    }
    if root.head != null {
      assert false;
    }
    assert root.alive;
    root.alive := false;
    freed := freed + [root];
    FootprintIs(t);
    KidFootprintIs(t.kids);
  }

  // One turn of its loop: the first child goes, the others stay as they were.
  method FreeFirst(root: ConfNode, child: ConfNode, ghost ks: seq<Tree>) returns (tmp: ConfNode?, ghost freed: seq<ConfNode>)
    requires ks != [] && RepKids(ks, root) && NoDup(KidNodes(ks)) && root !in KidNodes(ks)
    requires root.head == child == ks[0].node && root.alive
    requires forall x :: x in KidFootprint(ks) ==> allocated(x)
    modifies root`head, Footprint(ks[0])
    ensures tmp == root.head == At(Heads(ks[1..]), 0) && root.alive
    ensures RepKids(ks[1..], root) && NoDup(KidNodes(ks[1..])) && root !in KidNodes(ks[1..])
    ensures freed == PostOrder(ks[0]) && forall x :: x in Footprint(ks[0]) ==> !x.alive
    decreases ks, 0
  {
    hide NoDup, Siblings;
    Apart(ks, root);
    HeadsApart(ks);
    HeadsNotParent(ks, root);
    KidsAreSiblings(ks, root);
    KidLink(ks, root, 0);
    OthersApart(ks);
    assert KidFootprint(ks) == Footprint(ks[0]) + KidFootprint(ks[1..]);
    assert forall x :: x in Footprint(ks[0]) || x in KidFootprint(ks[1..]) ==> allocated(x);
    assert RepKids(ks[1..], root);
    tmp := child.next;
    freed := FreeRoot(child, ks[0], Heads(ks), 0);
    assert RepKids(ks[1..], root);
    HeadsWithout(ks);
    HeadIs(root, Heads(ks[1..]));
  }

  lemma HeadIs(p: ConfNode, nodes: seq<ConfNode>)
    requires Siblings(p, nodes)
    ensures p.head == At(nodes, 0)
  {
  }

  lemma OthersApart(ks: seq<Tree>)
    requires ks != [] && NoDup(KidNodes(ks))
    ensures forall i :: 0 < i < |ks| ==> Heads(ks)[i] !in Footprint(ks[0])
  {
    hide NoDup;
    Parts(Nodes(ks[0]), KidNodes(ks[1..]));
    HeadsInside(ks[1..]);
    FootprintIs(ks[0]);
    forall i | 0 < i < |ks| ensures Heads(ks)[i] !in Footprint(ks[0]) {
      assert ks[1..][i - 1] == ks[i];
    }
  }
}
