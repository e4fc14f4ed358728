/** src/map.c and the template of src/map.h: ordered maps on the red-black tree. */
module OrderedMap {
  import opened RbModel
  import opened RbBalance
  import opened RbSplice
  import opened RbTree
  import opened RbOrder

  /** What a key comparator must be: a strict total order told by the sign of its result. */
  ghost predicate TotalOrder<K(!new)>(cmp: (K, K) -> int) {
    && (forall a, b :: cmp(a, b) == 0 <==> a == b)
    && (forall a, b :: cmp(a, b) < 0 <==> cmp(b, a) > 0)
    && (forall a, b, c :: cmp(a, b) < 0 && cmp(b, c) < 0 ==> cmp(a, c) < 0)
  }

  lemma Deeper(c: Ctx, t: Tree)
    requires t.Bin?
    ensures CtxLen(InLeft(c, t.n, t.red, t.right)) == CtxLen(c) + 1
    ensures CtxLen(InRight(c, t.n, t.red, t.left)) == CtxLen(c) + 1
  {}

  lemma Deepest()
    ensures CtxLen(Top) == 0
  {}

  // Keys along a sequence of nodes.

  ghost predicate Keyed<K>(q: seq<RbNode>, key: map<RbNode, K>) {
    forall n :: n in q ==> n in key
  }

  ghost predicate Sorted<K(!new)>(q: seq<RbNode>, key: map<RbNode, K>, cmp: (K, K) -> int)
    requires Keyed(q, key)
  {
    forall i, j :: 0 <= i < j < |q| ==> cmp(key[q[i]], key[q[j]]) < 0
  }

  ghost predicate AllBelow<K(!new)>(q: seq<RbNode>, key: map<RbNode, K>, cmp: (K, K) -> int, k: K)
    requires Keyed(q, key)
  {
    forall n :: n in q ==> cmp(k, key[n]) > 0
  }

  ghost predicate AllAbove<K(!new)>(q: seq<RbNode>, key: map<RbNode, K>, cmp: (K, K) -> int, k: K)
    requires Keyed(q, key)
  {
    forall n :: n in q ==> cmp(k, key[n]) < 0
  }

  lemma SortedBelow<K(!new)>(a: seq<RbNode>, n: RbNode, b: seq<RbNode>, key: map<RbNode, K>, cmp: (K, K) -> int, k: K)
    requires TotalOrder(cmp) && Keyed(a + [n] + b, key) && Sorted(a + [n] + b, key, cmp) && cmp(k, key[n]) > 0
    ensures Keyed(a + [n], key) && AllBelow(a + [n], key, cmp, k)
  {
    var q := a + [n] + b;
    forall m | m in a + [n] ensures m in key && cmp(k, key[m]) > 0 {
      var i :| 0 <= i < |a + [n]| && (a + [n])[i] == m;
      assert q[i] == m && q[|a|] == n;
    }
  }

  lemma SortedAbove<K(!new)>(a: seq<RbNode>, n: RbNode, b: seq<RbNode>, key: map<RbNode, K>, cmp: (K, K) -> int, k: K)
    requires TotalOrder(cmp) && Keyed(a + [n] + b, key) && Sorted(a + [n] + b, key, cmp) && cmp(k, key[n]) < 0
    ensures Keyed([n] + b, key) && AllAbove([n] + b, key, cmp, k)
  {
    var q := a + [n] + b;
    forall m | m in [n] + b ensures m in key && cmp(k, key[m]) < 0 {
      var i :| 0 <= i < |[n] + b| && ([n] + b)[i] == m;
      assert q[|a| + i] == m && q[|a|] == n;
    }
  }

  lemma SortedInsert<K(!new)>(a: seq<RbNode>, b: seq<RbNode>, n: RbNode, key: map<RbNode, K>, key': map<RbNode, K>, cmp: (K, K) -> int, k: K)
    requires TotalOrder(cmp) && Keyed(a + b, key) && Sorted(a + b, key, cmp) && n !in key && key' == key[n := k]
    requires Keyed(a, key) && AllBelow(a, key, cmp, k) && Keyed(b, key) && AllAbove(b, key, cmp, k)
    ensures Keyed(a + [n] + b, key') && Sorted(a + [n] + b, key', cmp)
  {
    assert forall m :: m in a + [n] + b ==> m in a || m in b || m == n;
    forall i, j | 0 <= i < j < |a + [n] + b| ensures cmp(key'[(a + [n] + b)[i]], key'[(a + [n] + b)[j]]) < 0 {
      SortedInsertPair(a, b, n, key, key', cmp, k, i, j);
    }
  }

  lemma SortedInsertPair<K(!new)>(a: seq<RbNode>, b: seq<RbNode>, n: RbNode, key: map<RbNode, K>, key': map<RbNode, K>, cmp: (K, K) -> int, k: K,
                                  i: nat, j: nat)
    requires TotalOrder(cmp) && Keyed(a + b, key) && Sorted(a + b, key, cmp) && n !in key && key' == key[n := k]
    requires Keyed(a, key) && AllBelow(a, key, cmp, k) && Keyed(b, key) && AllAbove(b, key, cmp, k)
    requires i < j <= |a| + |b|
    ensures var q := a + [n] + b; q[i] in key' && q[j] in key' && cmp(key'[q[i]], key'[q[j]]) < 0
  {
    var q, p := a + [n] + b, a + b;
    if j < |a| {
      assert q[i] == p[i] && q[j] == p[j];
    } else if i > |a| {
      assert q[i] == p[i - 1] && q[j] == p[j - 1];
    } else if j == |a| {
      assert q[i] == a[i] && q[j] == n;
    } else if i == |a| {
      assert q[j] == b[j - |a| - 1] && q[i] == n;
    } else {
      assert q[i] == p[i] && q[j] == p[j - 1];
    }
  }

  lemma SortedErase<K(!new)>(q: seq<RbNode>, i: nat, key: map<RbNode, K>, key': map<RbNode, K>, cmp: (K, K) -> int)
    requires Keyed(q, key) && Sorted(q, key, cmp) && i < |q| && TotalOrder(cmp) && key' == key - {q[i]}
    ensures Keyed(q[..i] + q[i + 1..], key') && Sorted(q[..i] + q[i + 1..], key', cmp)
  {
    var r := q[..i] + q[i + 1..];
    assert forall j :: 0 <= j < |r| ==> r[j] == q[if j < i then j else j + 1];
    assert forall j :: 0 <= j < |r| ==> r[j] != q[i];
  }

  /** Where a search stands: everything left of the focus is below the key, everything
      right of it above. */
  ghost predicate Between<K(!new)>(q: seq<RbNode>, key: map<RbNode, K>, cmp: (K, K) -> int, k: K, c: Ctx, t: Tree) {
    && Whole(c, t) == q
    && Keyed(Before(c), key) && AllBelow(Before(c), key, cmp, k)
    && Keyed(After(c), key) && AllAbove(After(c), key, cmp, k)
  }

  ghost predicate SortedKeys<K(!new)>(q: seq<RbNode>, key: map<RbNode, K>, cmp: (K, K) -> int) {
    TotalOrder(cmp) && Keyed(q, key) && Sorted(q, key, cmp)
  }

  lemma BetweenLeft<K(!new)>(q: seq<RbNode>, key: map<RbNode, K>, cmp: (K, K) -> int, k: K, c: Ctx, t: Tree)
    requires SortedKeys(q, key, cmp) && Between(q, key, cmp, k, c, t)
    requires t.Bin? && t.n in key && cmp(k, key[t.n]) < 0
    ensures Between(q, key, cmp, k, InLeft(c, t.n, t.red, t.right), t.left)
  {
    var d := InLeft(c, t.n, t.red, t.right);
    WholeUp(d, t.left);
    var a, b := Before(c) + Inorder(t.left), Inorder(t.right) + After(c);
    assert q == a + [t.n] + b && After(d) == [t.n] + b by { WholeParts(c, t); }
    SortedAbove(a, t.n, b, key, cmp, k);
  }

  lemma BetweenRight<K(!new)>(q: seq<RbNode>, key: map<RbNode, K>, cmp: (K, K) -> int, k: K, c: Ctx, t: Tree)
    requires SortedKeys(q, key, cmp) && Between(q, key, cmp, k, c, t)
    requires t.Bin? && t.n in key && cmp(k, key[t.n]) > 0
    ensures Between(q, key, cmp, k, InRight(c, t.n, t.red, t.left), t.right)
  {
    var d := InRight(c, t.n, t.red, t.left);
    WholeUp(d, t.right);
    var a, b := Before(c) + Inorder(t.left), Inorder(t.right) + After(c);
    assert q == a + [t.n] + b && Before(d) == a + [t.n] by { WholeParts(c, t); }
    SortedBelow(a, t.n, b, key, cmp, k);
  }

  lemma WholeParts(c: Ctx, t: Tree)
    requires t.Bin?
    ensures Whole(c, t) == (Before(c) + Inorder(t.left)) + [t.n] + (Inorder(t.right) + After(c))
  {}

  /** An empty place between the smaller and the larger keys: the key is nowhere. */
  lemma BetweenEmpty<K(!new)>(q: seq<RbNode>, key: map<RbNode, K>, cmp: (K, K) -> int, k: K, c: Ctx)
    requires SortedKeys(q, key, cmp) && Between(q, key, cmp, k, c, Leaf)
    ensures forall n :: n in q ==> n in key && key[n] != k
    ensures q == Before(c) + After(c)
  {
    assert q == Before(c) + After(c);
  }

  lemma BetweenLink<K(!new)>(q: seq<RbNode>, key: map<RbNode, K>, cmp: (K, K) -> int, k: K, c: Ctx, n: RbNode)
    requires SortedKeys(q, key, cmp) && Between(q, key, cmp, k, c, Leaf) && n !in key
    ensures SortedKeys(Whole(c, Bin(Leaf, n, true, Leaf)), key[n := k], cmp)
    ensures SetOf(Whole(c, Bin(Leaf, n, true, Leaf))) == SetOf(q) + {n}
  {
    BetweenEmpty(q, key, cmp, k, c);
    WholeLeaf(c, n);
    SetOfInsert(Before(c), n, After(c));
    SortedInsert(Before(c), After(c), n, key, key[n := k], cmp, k);
    hide Sorted;
    hide AllAbove;
    hide AllBelow;
    hide Whole;
  }

  lemma WholeLeaf(c: Ctx, n: RbNode)
    ensures Whole(c, Bin(Leaf, n, true, Leaf)) == Before(c) + [n] + After(c)
  {
    assert Inorder(Bin(Leaf, n, true, Leaf)) == [n];
  }

  lemma SetOfInsert(a: seq<RbNode>, n: RbNode, b: seq<RbNode>)
    ensures SetOf(a + [n] + b) == SetOf(a + b) + {n}
  {}

  /** Where the search loop of `map_find` and `map_insert` comes to rest: on the key's node, or
      on the empty place where that node belongs. */
  ghost function Descend<K(!new)>(key: map<RbNode, K>, cmp: (K, K) -> int, k: K, c: Ctx, t: Tree): (r: (Ctx, Tree))
    decreases t
  {
    if t.Leaf? || t.n !in key || cmp(k, key[t.n]) == 0 then (c, t)
    else if cmp(k, key[t.n]) < 0 then Descend(key, cmp, k, InLeft(c, t.n, t.red, t.right), t.left)
    else Descend(key, cmp, k, InRight(c, t.n, t.red, t.left), t.right)
  }

  lemma {:induction false} DescendBetween<K(!new)>(q: seq<RbNode>, key: map<RbNode, K>, cmp: (K, K) -> int, k: K, c: Ctx, t: Tree, bh: nat)
    returns (bh': nat)
    requires SortedKeys(q, key, cmp) && Between(q, key, cmp, k, c, t) && RbAround(c, t, bh)
    ensures var (c', t') := Descend(key, cmp, k, c, t);
      Between(q, key, cmp, k, c', t') && RbAround(c', t', bh') && Plug(c', t') == Plug(c, t)
      && (t'.Bin? ==> t'.n in key && key[t'.n] == k)
    decreases t
  {
    bh' := bh;
    if t.Bin? {
      assert t.n in q by { WholeParts(c, t); }
      var below := if t.red then bh else bh - 1;
      if cmp(k, key[t.n]) < 0 {
        BetweenLeft(q, key, cmp, k, c, t);
        bh' := DescendBetween(q, key, cmp, k, InLeft(c, t.n, t.red, t.right), t.left, below);
      } else if cmp(k, key[t.n]) > 0 {
        BetweenRight(q, key, cmp, k, c, t);
        bh' := DescendBetween(q, key, cmp, k, InRight(c, t.n, t.red, t.left), t.right, below);
      }
    }
  }

  /** The search of a whole red-black tree: what it finds, and after how many comparisons. */
  lemma DescendTree<K(!new)>(key: map<RbNode, K>, cmp: (K, K) -> int, k: K, tree: Tree)
    returns (c: Ctx, t: Tree, bh: nat)
    requires SortedKeys(Inorder(tree), key, cmp) && RedBlack(tree)
    ensures (c, t) == Descend(key, cmp, k, Top, tree)
    ensures Between(Inorder(tree), key, cmp, k, c, t) && RbAround(c, t, bh)
    ensures if t.Bin? then t.n in Inorder(tree) && key[t.n] == k else forall n :: n in Inorder(tree) ==> key[n] != k
    ensures LogBounded(CtxLen(c) + (if t.Bin? then 1 else 0), |Inorder(tree)|)
  {
    hide Between;
    hide SortedKeys;
    hide RbAround;
    hide Inorder;
    hide CtxLen;
    hide Descend;
    var top := DescendTop(key, cmp, k, tree);
    c, t := Descend(key, cmp, k, Top, tree).0, Descend(key, cmp, k, Top, tree).1;
    bh := DescendBetween(Inorder(tree), key, cmp, k, Top, tree, top);
    DescendMeets(Inorder(tree), key, cmp, k, c, t);
    DepthBounded(c, t);
  }

  lemma DescendTop<K(!new)>(key: map<RbNode, K>, cmp: (K, K) -> int, k: K, tree: Tree) returns (top: nat)
    requires RedBlack(tree)
    ensures RbAround(Top, tree, top) && Between(Inorder(tree), key, cmp, k, Top, tree)
  {
    top :| Balanced(tree, top);
    WholeAtTop(tree);
  }

  lemma DescendMeets<K(!new)>(q: seq<RbNode>, key: map<RbNode, K>, cmp: (K, K) -> int, k: K, c: Ctx, t: Tree)
    requires SortedKeys(q, key, cmp) && Between(q, key, cmp, k, c, t)
    requires t.Bin? ==> t.n in key && key[t.n] == k
    ensures if t.Bin? then t.n in q else forall n :: n in q ==> n in key && key[n] != k
  {
    if t.Leaf? {
      BetweenEmpty(q, key, cmp, k, c);
    } else {
      WholeParts(c, t);
    }
  }

  lemma DistinctAlong<K(!new)>(q: seq<RbNode>, key: map<RbNode, K>, cmp: (K, K) -> int, m: RbNode, n: RbNode)
    requires SortedKeys(q, key, cmp) && m in q && n in q && m != n
    ensures key[m] != key[n]
  {
    var i :| 0 <= i < |q| && q[i] == m;
    var j :| 0 <= j < |q| && q[j] == n;
    if i < j {
      assert cmp(key[q[i]], key[q[j]]) < 0;
    } else {
      assert cmp(key[q[j]], key[q[i]]) < 0;
    }
  }

  /** The finite map that keys and values along the nodes add up to. */
  ghost predicate Table<K(!new), V>(key: map<RbNode, K>, val: map<RbNode, V>, contents: map<K, V>) {
    && key.Keys == val.Keys
    && (forall n :: n in key ==> key[n] in contents && contents[key[n]] == val[n])
    && (forall k :: k in contents ==> exists n :: n in key && key[n] == k)
  }

  lemma TableAdd<K(!new), V>(key: map<RbNode, K>, val: map<RbNode, V>, contents: map<K, V>, n: RbNode, k: K, v: V)
    requires Table(key, val, contents) && n !in key && k !in contents
    ensures Table(key[n := k], val[n := v], contents[k := v])
  {
    var key', contents' := key[n := k], contents[k := v];
    forall j | j in contents' ensures exists m :: m in key' && key'[m] == j {
      if j == k {
        assert key'[n] == k;
      } else {
        var m: RbNode :| m in key && key[m] == j;
        assert key'[m] == j;
      }
    }
  }

  lemma TableSet<K(!new), V>(key: map<RbNode, K>, val: map<RbNode, V>, contents: map<K, V>, n: RbNode, v: V)
    requires Table(key, val, contents) && n in key && forall m :: m in key && m != n ==> key[m] != key[n]
    ensures Table(key, val[n := v], contents[key[n] := v])
  {}

  lemma TableRemove<K(!new), V>(key: map<RbNode, K>, val: map<RbNode, V>, contents: map<K, V>, n: RbNode)
    requires Table(key, val, contents) && n in key && forall m :: m in key && m != n ==> key[m] != key[n]
    ensures Table(key - {n}, val - {n}, contents - {key[n]})
  {
    var key' := key - {n};
    forall j | j in contents - {key[n]} ensures exists m :: m in key' && key'[m] == j {
      var m: RbNode :| m in key && key[m] == j;
      assert key'[m] == j;
    }
  }

  lemma KeysErase<K(!new)>(q: seq<RbNode>, i: nat, key: map<RbNode, K>, cmp: (K, K) -> int)
    requires SortedKeys(q, key, cmp) && i < |q|
    ensures SortedKeys(q[..i] + q[i + 1..], key - {q[i]}, cmp)
  {
    SortedErase(q, i, key, key - {q[i]}, cmp);
  }

  ghost function KeysAlong<K>(q: seq<RbNode>, key: map<RbNode, K>): seq<K>
    requires Keyed(q, key)
  {
    if q == [] then [] else [key[q[0]]] + KeysAlong(q[1..], key)
  }

  lemma {:induction false} KeysAlongIn<K>(q: seq<RbNode>, key: map<RbNode, K>)
    requires Keyed(q, key)
    ensures |KeysAlong(q, key)| == |q|
    ensures forall i :: 0 <= i < |q| ==> KeysAlong(q, key)[i] == key[q[i]]
  {
    if q != [] {
      KeysAlongIn(q[1..], key);
    }
  }

  lemma {:induction false} DistinctSize<K>(s: seq<K>)
    requires forall i, j :: 0 <= i < j < |s| ==> s[i] != s[j]
    ensures |set x | x in s| == |s|
  {
    if s != [] {
      DistinctSize(s[1..]);
      assert (set x | x in s) == {s[0]} + set x | x in s[1..];
    }
  }

  /** A table whose keys are those found along the nodes has as many entries as there are nodes. */
  /** The keys along a sorted sequence of nodes, and their values, are the table in order. */
  lemma ListedAlong<K(!new), V>(q: seq<RbNode>, key: map<RbNode, K>, val: map<RbNode, V>, contents: map<K, V>, cmp: (K, K) -> int,
                                keys: seq<K>, vals: seq<V>)
    requires SortedKeys(q, key, cmp) && Table(key, val, contents) && SetOf(q) == key.Keys
    requires |keys| == |vals| == |q|
    requires forall i :: 0 <= i < |q| ==> q[i] in key && keys[i] == key[q[i]] && vals[i] == val[q[i]]
    ensures forall i, j :: 0 <= i < j < |keys| ==> cmp(keys[i], keys[j]) < 0
    ensures forall k :: k in keys <==> k in contents
    ensures |keys| == |contents|
    ensures forall i :: 0 <= i < |keys| ==> keys[i] in contents && vals[i] == contents[keys[i]]
  {
    hide TotalOrder;
    hide Table;
    forall i, j | 0 <= i < j < |keys|
      ensures cmp(keys[i], keys[j]) < 0
    {
      assert cmp(key[q[i]], key[q[j]]) < 0;
    }
    hide SortedKeys;
    AllListed(q, key, val, contents, keys, vals);
    SizeAlong(q, key, cmp, contents.Keys);
  }

  lemma AllListed<K(!new), V>(q: seq<RbNode>, key: map<RbNode, K>, val: map<RbNode, V>, contents: map<K, V>, keys: seq<K>, vals: seq<V>)
    requires Table(key, val, contents) && SetOf(q) == key.Keys
    requires |keys| == |vals| == |q|
    requires forall i :: 0 <= i < |q| ==> q[i] in key && keys[i] == key[q[i]] && vals[i] == val[q[i]]
    ensures forall k :: k in keys <==> k in contents
    ensures forall k :: k in contents.Keys <==> exists n :: n in q && n in key && key[n] == k
    ensures forall i :: 0 <= i < |keys| ==> keys[i] in contents && vals[i] == contents[keys[i]]
  {
    forall k | k in contents
      ensures exists n :: n in q && n in key && key[n] == k
      ensures k in keys
    {
      var n :| n in key && key[n] == k;
      assert n in SetOf(q);
      var i :| 0 <= i < |q| && q[i] == n;
      assert keys[i] == k;
    }
  }

  lemma SizeAlong<K(!new)>(q: seq<RbNode>, key: map<RbNode, K>, cmp: (K, K) -> int, keys: set<K>)
    requires SortedKeys(q, key, cmp)
    requires forall k :: k in keys <==> exists n :: n in q && n in key && key[n] == k
    ensures |keys| == |q|
  {
    KeysAlongIn(q, key);
    var s := KeysAlong(q, key);
    forall i, j | 0 <= i < j < |s| ensures s[i] != s[j] {
      assert cmp(key[q[i]], key[q[j]]) < 0;
    }
    DistinctSize(s);
    forall k | k in keys ensures k in s {
      var n :| n in q && n in key && key[n] == k;
      var i :| 0 <= i < |q| && q[i] == n;
      assert s[i] == k;
    }
    forall k | k in s ensures k in keys {
      var i :| 0 <= i < |s| && s[i] == k;
      assert q[i] in q;
    }
    assert keys == set x | x in s;
  }

  /** `struct map_iterator`: the node is embedded in it, and the key never changes. */
  class MapIterator<K, V> {
    const node: RbNode
    const key: K
    var val: V

    constructor (node: RbNode, key: K, val: V)
      ensures this.node == node && this.key == key && this.val == val
    {
      this.node, this.key, this.val := node, key, val;
    }
  }

  /** `struct map`. The table `entry` plays the part of `container_of`: it leads from an
      embedded node to the iterator around it. */
  class Map<K(==, !new), V> {
    const root: RbRoot
    const keyComp: (K, K) -> int
    var entry: map<RbNode, MapIterator<K, V>>
    /** The finite map this object stands for. */
    ghost var contents: map<K, V>

    ghost function Keying(): map<RbNode, K>
      reads this`entry
    {
      map n | n in entry :: entry[n].key
    }

    ghost function Iterators(): set<MapIterator<K, V>>
      reads this`entry
    {
      set n | n in entry :: entry[n]
    }

    ghost function Values(): map<RbNode, V>
      reads this`entry, Iterators()
    {
      map n | n in entry :: entry[n].val
    }

    ghost predicate Tabulates()
      reads this, Iterators()
    {
      Table(Keying(), Values(), contents)
    }

    /** The iterators are the nodes of a red-black tree, in the order of their keys. */
    ghost predicate Linked()
      reads this`entry, root, root.Nodes()
    {
      && root.Valid()
      && root.Nodes() == entry.Keys && (forall n :: n in entry ==> entry[n].node == n)
      && SortedKeys(root.Seq(), Keying(), keyComp)
    }

    ghost predicate Valid()
      reads this, root, root.Nodes(), Iterators()
    {
      Linked() && Tabulates()
    }

    /** `map_str_cptr_create` and its siblings, for any comparator. */
    constructor (keyComp: (K, K) -> int)
      requires TotalOrder(keyComp)
      ensures Valid() && contents == map[] && entry == map[] && fresh(root) && this.keyComp == keyComp
    {
      this.root := new RbRoot();
      this.keyComp := keyComp;
      this.entry := map[];
      this.contents := map[];
    }

    /** What a search for k will find, before it is made. */
    lemma SearchResult(k: K) returns (c: Ctx, t: Tree, bh: nat)
      requires Valid()
      ensures root.node == Ptr(root.tree) && Focus(Snap(root.Nodes()), root.node, root.pos, Top, root.tree)
      ensures root.Nodes() == entry.Keys
      ensures (c, t) == Descend(Keying(), keyComp, k, Top, root.tree)
      ensures Between(root.Seq(), Keying(), keyComp, k, c, t) && RbAround(c, t, bh)
      ensures if t.Bin? then t.n in entry && entry[t.n].key == k && k in contents && entry[t.n].val == contents[k] else k !in contents
      ensures LogBounded(CtxLen(c) + (if t.Bin? then 1 else 0), |contents|)
    {
      hide Between;
      hide SortedKeys;
      hide RbAround;
      hide CtxLen;
      hide Descend;
      hide LogBounded;
      hide Inorder;
      hide Table;
      c, t, bh := DescendTree(Keying(), keyComp, k, root.tree);
      SearchMeets(k, t);
      Size();
    }

    lemma SearchMeets(k: K, t: Tree)
      requires Valid()
      requires if t.Bin? then t.n in root.Seq() && t.n in Keying() && Keying()[t.n] == k
               else forall n :: n in root.Seq() ==> n in Keying() && Keying()[n] != k
      ensures if t.Bin? then t.n in entry && entry[t.n].key == k && k in contents && entry[t.n].val == contents[k] else k !in contents
    {
      hide RbRoot.Valid;
      hide SortedKeys;
      assert forall n :: n in Keying() <==> n in root.Nodes();
      assert forall n :: n in root.Nodes() <==> n in root.Seq();
      if t.Bin? {
        assert Keying()[t.n] in contents && contents[Keying()[t.n]] == Values()[t.n];
      }
    }

    lemma Size()
      requires Valid()
      ensures |contents| == |root.Seq()|
    {
      assert forall n :: n in root.Seq() <==> n in Keying();
      SizeAlong(root.Seq(), Keying(), keyComp, contents.Keys);
    }
  
    /** `map_find`: at most 2*log2(n+1) comparisons for n entries. */
    method Find(key: K) returns (iter: MapIterator?<K, V>, ghost comparisons: nat)
      requires Valid()
      ensures key in contents ==> iter != null && iter.node in entry && entry[iter.node] == iter && iter.key == key && iter.val == contents[key]
      ensures key !in contents ==> iter == null
      ensures Valid() && LogBounded(comparisons, |contents|)
    {
      hide RbRoot.Valid;
      hide Table;
      hide SortedKeys;
      hide RbAround;
      hide Focus;
      hide Snap;
      hide Between;
      hide LogBounded;
      hide Inorder;
      hide CtxLen;
      ghost var c', t', _ := SearchResult(key);
      ghost var c, t, km, vm := Top, root.tree, Keying(), Values();
      var node := root.node;
      comparisons := 0;
      Deepest();
      while node != null
        invariant Focus(Snap(root.Nodes()), root.node, root.pos, c, t) && node == Ptr(t)
        invariant Descend(km, keyComp, key, c, t) == (c', t') && comparisons == CtxLen(c)
        decreases t
      {
        ReadFocus(root, c, t);
        assert node in entry;
        iter := entry[node];
        var cmp := keyComp(key, iter.key);
        comparisons := comparisons + 1;
        if cmp < 0 {
          FocusLeft(Snap(root.Nodes()), root.node, root.pos, c, t);
          Deeper(c, t);
          c, t := InLeft(c, t.n, t.red, t.right), t.left;
          node := node.left;
        } else if cmp > 0 {
          FocusRight(Snap(root.Nodes()), root.node, root.pos, c, t);
          Deeper(c, t);
          c, t := InRight(c, t.n, t.red, t.left), t.right;
          node := node.right;
        } else {
          assert Linked() && Keying() == km && Values() == vm;
          return;
        }
      }
      iter := null;
      assert Linked() && Keying() == km && Values() == vm;
    }
  
    /** The key is there already: its value is overwritten, nothing else changes. */
    method Overwrite(iter: MapIterator<K, V>, value: V)
      requires Linked() && iter.node in entry && entry[iter.node] == iter
      modifies iter
      ensures Linked() && iter.val == value
      ensures Keying() == old(Keying()) && Values() == old(Values())[iter.node := value]
    {
      hide RbRoot.Valid;
      hide SortedKeys;
      DistinctKeys(iter.node);
      ghost var km, vm := Keying(), Values();
      iter.val := value;
      assert Keying() == km && Values() == vm[iter.node := value];
    }

    lemma DistinctKeys(n: RbNode)
      requires Linked() && n in entry
      ensures forall m :: m in entry && m != n ==> entry[m].key != entry[n].key
      ensures forall m :: m in entry ==> entry[m].node == m
    {
      forall m | m in entry && m != n ensures entry[m].key != entry[n].key {
        assert m in root.Nodes() && n in root.Nodes();
        DistinctAlong(root.Seq(), Keying(), keyComp, m, n);
      }
    }
  
    /** The new entry takes the empty place the search found, and the colours are put right. */
    method Attach(iter: MapIterator<K, V>, parent: RbNode?, left: bool, ghost c: Ctx, ghost bh: nat)
      requires Linked() && iter.node !in entry
      requires Focus(Snap(root.Nodes()), root.node, root.pos, c, Leaf) && RbAround(c, Leaf, bh)
      requires Between(root.Seq(), Keying(), keyComp, iter.key, c, Leaf)
      requires parent == CtxParent(c) && (!c.Top? ==> left == c.InLeft?)
      modifies this`entry, root, root.Nodes(), iter.node
      ensures Linked() && entry == old(entry)[iter.node := iter]
      ensures Keying() == old(Keying())[iter.node := iter.key] && Values() == old(Values())[iter.node := iter.val]
    {
      hide RbRoot.Valid;
      hide Focus;
      hide Snap;
      hide RbAround;
      hide Between;
      hide SortedKeys;
      hide Whole;
      hide Inorder;
      BetweenLink(root.Seq(), Keying(), keyComp, iter.key, c, iter.node);
      RbOrder.Insert(iter.node, parent, left, root, c, bh);
      AddEntry(iter);
    }

    method AddEntry(iter: MapIterator<K, V>)
      modifies this`entry
      ensures entry == old(entry)[iter.node := iter]
      ensures Keying() == old(Keying())[iter.node := iter.key] && Values() == old(Values())[iter.node := iter.val]
    {
      entry := entry[iter.node := iter];
    }

    /** The search loop of `map_insert`: the key's own iterator, or the link to write the new
        node into, given by its parent and side. */
    method Locate(key: K) returns (iter: MapIterator?<K, V>, parent: RbNode?, left: bool, ghost c: Ctx, ghost bh: nat)
      requires Valid()
      ensures iter != null ==> key in contents && iter.key == key && iter.node in entry && entry[iter.node] == iter
      ensures iter == null ==> key !in contents && parent == CtxParent(c) && (!c.Top? ==> left == c.InLeft?)
      ensures iter == null ==> Focus(Snap(root.Nodes()), root.node, root.pos, c, Leaf) && RbAround(c, Leaf, bh)
      ensures iter == null ==> Between(root.Seq(), Keying(), keyComp, key, c, Leaf)
    {
      hide RbRoot.Valid;
      hide Table;
      hide SortedKeys;
      hide RbAround;
      hide Focus;
      hide Snap;
      hide Between;
      hide LogBounded;
      hide Inorder;
      ghost var c', t';
      c', t', bh := SearchResult(key);
      ghost var t, km := root.tree, Keying();
      c := Top;
      var node := root.node;
      parent, left := null, false;
      while node != null
        invariant Focus(Snap(root.Nodes()), root.node, root.pos, c, t) && node == Ptr(t)
        invariant Descend(km, keyComp, key, c, t) == (c', t')
        invariant parent == CtxParent(c) && (!c.Top? ==> left == c.InLeft?)
        decreases t
      {
        ReadFocus(root, c, t);
        iter := entry[node];
        var result := keyComp(key, iter.key);
        parent := node;
        if result < 0 {
          FocusLeft(Snap(root.Nodes()), root.node, root.pos, c, t);
          c, t := InLeft(c, t.n, t.red, t.right), t.left;
          left, node := true, node.left;
        } else if result > 0 {
          FocusRight(Snap(root.Nodes()), root.node, root.pos, c, t);
          c, t := InRight(c, t.n, t.red, t.left), t.right;
          left, node := false, node.right;
        } else {
          return;
        }
      }
      iter := null;
    }

    /** A new iterator for a key that was not there. */
    method AddNew(key: K, value: V, parent: RbNode?, left: bool, ghost c: Ctx, ghost bh: nat) returns (iter: MapIterator<K, V>)
      requires Valid() && key !in contents
      requires Focus(Snap(root.Nodes()), root.node, root.pos, c, Leaf) && RbAround(c, Leaf, bh)
      requires Between(root.Seq(), Keying(), keyComp, key, c, Leaf)
      requires parent == CtxParent(c) && (!c.Top? ==> left == c.InLeft?)
      modifies this`entry, this`contents, root, root.Nodes()
      ensures Valid() && contents == old(contents)[key := value]
      ensures fresh(iter) && fresh(iter.node) && iter.key == key && iter.val == value
      ensures entry == old(entry)[iter.node := iter]
    {
      hide RbRoot.Valid;
      hide Table;
      hide SortedKeys;
      hide RbAround;
      hide Focus;
      hide Snap;
      hide Between;
      ghost var h, km, vm := Snap(root.Nodes()), Keying(), Values();
      iter := NewEntry(key, value);
      assert Snap(root.Nodes()) == h && Keying() == km && Values() == vm && Linked();
      TableAdd(km, vm, contents, iter.node, key, value);
      ghost var sum := contents[key := value];
      Attach(iter, parent, left, c, bh);
      Publish(sum);
    }

    method NewEntry(key: K, value: V) returns (iter: MapIterator<K, V>)
      ensures fresh(iter) && fresh(iter.node) && iter.key == key && iter.val == value
    {
      var node := new RbNode();
      iter := new MapIterator(node, key, value);
    }

    ghost method Publish(sum: map<K, V>)
      requires Linked() && Table(Keying(), Values(), sum)
      modifies this`contents
      ensures Valid() && contents == sum
    {
      hide RbRoot.Valid;
      hide SortedKeys;
      hide Table;
      ghost var vm := Values();
      contents := sum;
      assert Linked() && Values() == vm;
    }

    /** `map_insert`: a key that is there keeps its iterator and gets the value; a new key gets
        a new iterator. Every other iterator keeps its node, its key and its value. */
    method Insert(key: K, value: V) returns (iter: MapIterator<K, V>)
      requires Valid()
      modifies this`entry, this`contents, root, root.Nodes(), Iterators()
      ensures Valid() && contents == old(contents)[key := value]
      ensures iter.node in entry && entry[iter.node] == iter && iter.key == key && iter.val == value
      ensures entry == if key in old(contents) then old(entry) else old(entry)[iter.node := iter]
      ensures key !in old(contents) ==> fresh(iter) && fresh(iter.node)
      ensures forall n :: n in old(entry) && n != iter.node ==> old(entry)[n].val == old(entry[n].val)
      ensures fresh(root.Nodes() - old(root.Nodes())) && fresh(Iterators() - old(Iterators()))
    {
      hide RbRoot.Valid;
      hide SortedKeys;
      hide Table;
      hide Focus;
      hide RbAround;
      hide Snap;
      hide Between;
      var found, parent, left;
      ghost var c, bh;
      found, parent, left, c, bh := Locate(key);
      if found != null {
        iter := found;
        EntriesApart(iter);
        DistinctKeys(iter.node);
        TableSet(Keying(), Values(), contents, iter.node, value);
        ghost var sum := contents[key := value];
        Overwrite(iter, value);
        Publish(sum);
      } else {
        iter := AddNew(key, value, parent, left, c, bh);
      }
    }

    lemma EntriesApart(iter: MapIterator<K, V>)
      requires (forall n :: n in entry ==> entry[n].node == n) && iter.node in entry && entry[iter.node] == iter
      ensures forall n :: n in entry && n != iter.node ==> entry[n] != iter
      ensures iter in Iterators()
    {}
  
    /** `map_erase`: the key leaves the map; every other iterator keeps its node, key and value,
        because the tree relinks nodes instead of moving their contents. Null erases nothing. */
    method Erase(iter: MapIterator?<K, V>)
      requires Valid() && (iter != null ==> iter.node in entry && entry[iter.node] == iter)
      modifies this`entry, this`contents, root, root.Nodes()
      ensures Valid() && contents == if iter == null then old(contents) else old(contents) - {iter.key}
      ensures entry == if iter == null then old(entry) else old(entry) - {iter.node}
      ensures root.Nodes() <= old(root.Nodes()) && Iterators() <= old(Iterators())
    {
      if iter == null {
        return;
      }
      hide RbRoot.Valid;
      hide SortedKeys;
      hide Table;
      DistinctKeys(iter.node);
      TableRemove(Keying(), Values(), contents, iter.node);
      ghost var sum := contents - {iter.key};
      Detach(iter);
      Publish(sum);
    }

    method Detach(iter: MapIterator<K, V>)
      requires Linked() && iter.node in entry && entry[iter.node] == iter
      modifies this`entry, root, root.Nodes()
      ensures Linked() && entry == old(entry) - {iter.node}
      ensures Keying() == old(Keying()) - {iter.node} && Values() == old(Values()) - {iter.node}
    {
      hide RbRoot.Valid;
      hide SortedKeys;
      hide Inorder;
      ghost var i := Place(iter);
      RbOrder.Erase(iter.node, root, i);
      RemoveEntry(iter);
    }

    /** Where an iterator stands in the order, and that the others stay sorted without it. */
    lemma Place(iter: MapIterator<K, V>) returns (i: nat)
      requires Linked() && iter.node in entry && entry[iter.node] == iter
      ensures i < |root.Seq()| && root.Seq()[i] == iter.node
      ensures SortedKeys(root.Seq()[..i] + root.Seq()[i + 1..], Keying() - {iter.node}, keyComp)
    {
      hide RbRoot.Valid;
      hide SortedKeys;
      assert iter.node in root.Nodes();
      i :| 0 <= i < |root.Seq()| && root.Seq()[i] == iter.node;
      KeysErase(root.Seq(), i, Keying(), keyComp);
    }

    method RemoveEntry(iter: MapIterator<K, V>)
      modifies this`entry
      ensures entry == old(entry) - {iter.node}
      ensures Keying() == old(Keying()) - {iter.node} && Values() == old(Values()) - {iter.node}
    {
      entry := entry - {iter.node};
    }
  
    /** `map_first` */
    method First() returns (iter: MapIterator?<K, V>)
      requires Valid()
      ensures Valid() && root.Nodes() == entry.Keys
      ensures if root.Seq() == [] then iter == null else root.Seq()[0] in entry && iter == entry[root.Seq()[0]]
    {
      hide RbRoot.Valid;
      hide SortedKeys;
      hide Table;
      ghost var vm := Values();
      var node := RbOrder.First(root);
      assert Linked() && Values() == vm;
      if node == null {
        return null;
      }
      assert node in root.Nodes();
      iter := entry[node];
    }

    /** `map_next`: the iterator of the next larger key. */
    method Next(iter: MapIterator<K, V>, ghost i: nat) returns (next: MapIterator?<K, V>)
      requires Linked() && i < |root.Seq()| && root.Seq()[i] == iter.node && iter.node in entry && entry[iter.node] == iter
      ensures if i + 1 == |root.Seq()| then next == null else root.Seq()[i + 1] in entry && next == entry[root.Seq()[i + 1]]
    {
      hide RbRoot.Valid;
      hide SortedKeys;
      hide Table;
      var node := RbOrder.Next(iter.node, root, i);
      if node == null {
        return null;
      }
      assert node in root.Nodes();
      next := entry[node];
    }

    /** `map_prev`: the iterator of the next smaller key. */
    method Prev(iter: MapIterator<K, V>, ghost i: nat) returns (prev: MapIterator?<K, V>)
      requires Linked() && i < |root.Seq()| && root.Seq()[i] == iter.node && iter.node in entry && entry[iter.node] == iter
      ensures if i == 0 then prev == null else root.Seq()[i - 1] in entry && prev == entry[root.Seq()[i - 1]]
    {
      hide RbRoot.Valid;
      hide SortedKeys;
      hide Table;
      var node := RbOrder.Prev(iter.node, root, i);
      if node == null {
        return null;
      }
      assert node in root.Nodes();
      prev := entry[node];
    }

    /** The loop every caller writes, from `map_first` along `map_next`: each key of the map
        once, in increasing order, with its value. */
    method Iterate() returns (keys: seq<K>, vals: seq<V>)
      requires Valid()
      ensures forall i, j :: 0 <= i < j < |keys| ==> keyComp(keys[i], keys[j]) < 0
      ensures forall k :: k in keys <==> k in contents
      ensures |keys| == |vals| == |contents|
      ensures forall i :: 0 <= i < |keys| ==> keys[i] in contents && vals[i] == contents[keys[i]]
    {
      hide RbRoot.Valid;
      hide SortedKeys;
      hide Table;
      ghost var q, km, vm := root.Seq(), Keying(), Values();
      assert SetOf(q) == km.Keys;
      keys, vals := [], [];
      var iter := First();
      while iter != null
        invariant Linked() && root.Seq() == q
        invariant |keys| == |vals| <= |q|
        invariant if |keys| < |q| then q[|keys|] in entry && iter == entry[q[|keys|]] else iter == null
        invariant forall i :: 0 <= i < |keys| ==> q[i] in km && keys[i] == km[q[i]] && vals[i] == vm[q[i]]
        decreases |q| - |keys|
      {
        keys, vals := keys + [iter.key], vals + [iter.val];
        iter := Next(iter, |keys| - 1);
      }
      ListedAlong(q, km, vm, contents, keyComp, keys, vals);
    }

    lemma NoneLeft()
      requires Valid() && root.Seq() == []
      ensures contents == map[] && entry == map[]
    {
      assert root.Nodes() == {};
      assert Keying() == map[];
    }

    /** The loop of `map_delete`: first entries are erased until none is left. */
    method Clear()
      requires Valid()
      modifies this`entry, this`contents, root, root.Nodes()
      ensures Valid() && contents == map[] && entry == map[]
    {
      hide Linked;
      hide Tabulates;
      var iter := First();
      while iter != null
        invariant Valid() && root.Nodes() <= old(root.Nodes()) && root.Nodes() == entry.Keys
        invariant if root.Seq() == [] then iter == null else root.Seq()[0] in entry && iter == entry[root.Seq()[0]]
        decreases |entry|
      {
        IsEntry(root.Seq()[0]);
        Erase(iter);
        SameNodes();
        iter := First();
      }
      NoneLeft();
    }

    lemma IsEntry(n: RbNode)
      requires Linked() && n in entry
      ensures entry[n].node == n
    {}

    lemma SameNodes()
      requires Valid()
      ensures root.Nodes() == entry.Keys
    {}
  }
}
