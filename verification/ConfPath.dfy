// src/config.c: the dotted path of a node, written into a bounded buffer, and
// the lookup of a node by its path.
module ConfPath {
  import opened Paths
  import opened ConfTree

  const NameMax: nat := 1024

  // ---- Lookup by names.

  function LookupKid(ks: seq<Tree>, key: string): (k: nat)
    ensures k <= |ks|
    ensures k < |ks| ==> ks[k].node.name == key
    ensures forall i :: 0 <= i < k ==> ks[i].node.name != key
  {
    if ks == [] || ks[0].node.name == key then 0
    else
      var k := LookupKid(ks[1..], key);
      assert forall i :: 0 <= i < k ==> ks[1..][i] == ks[i + 1];
      k + 1
  }

  datatype Found = Nothing | Subtree(t: Tree)

  function Find(t: Tree, names: seq<string>): Found {
    if names == [] then Subtree(t)
    else
      var k := LookupKid(t.kids, names[0]);
      if k == |t.kids| then Nothing else Find(t.kids[k], names[1..])
  }

  function NodeOf(f: Found): ConfNode? {
    if f.Subtree? then f.t.node else null
  }

  // conf_node_lookup_child: the first child of that name.
  method LookupChild(node: ConfNode, key: string, ghost t: Tree) returns (r: ConfNode?)
    requires Rep(t) && t.node == node
    ensures r == NodeOf(Find(t, [key]))
  {
    KidsAreSiblings(t.kids, node);
    ghost var nodes, ks := Heads(t.kids), t.kids;
    r := node.head;
    ghost var i := 0;
    while r != null
      invariant i <= |nodes| && r == At(nodes, i)
      invariant forall j :: 0 <= j < i ==> ks[j].node.name != key
      decreases |nodes| - i
    {
      if r.name == key {
        assert LookupKid(ks, key) == i;
        FindOne(t, key);
        return;
      }
      assert nodes[i].next == Follower(nodes, i);
      r := r.next;
      i := i + 1;
    }
    FindOne(t, key);
  }

  lemma FindOne(t: Tree, key: string)
    ensures var k := LookupKid(t.kids, key);
            Find(t, [key]) == if k == |t.kids| then Nothing else Subtree(t.kids[k])
  {
    assert [key][1..] == [];
  }

  lemma KidRep(t: Tree, k: nat)
    requires Rep(t) && k < |t.kids|
    ensures Rep(t.kids[k]) && t.kids[k].node.parent == t.node
    ensures Footprint(t.kids[k]) <= Footprint(t)
  {
    KidsRep(t.kids, t.node, k);
  }

  lemma {:induction false} KidsRep(ks: seq<Tree>, p: ConfNode, k: nat)
    requires RepKids(ks, p) && k < |ks|
    ensures Rep(ks[k]) && ks[k].node.parent == p
    ensures Footprint(ks[k]) <= KidFootprint(ks)
    decreases k
  {
    if k > 0 { KidsRep(ks[1..], p, k - 1); }
  }

  // conf_get_node: one level at a time, null as soon as a name is missing.
  method GetNode(root: ConfNode, name: string, ghost t: Tree) returns (node: ConfNode?)
    requires Rep(t) && t.node == root && forall x :: x in Footprint(t) ==> allocated(x)
    ensures node == if |name| >= NameMax then null else NodeOf(Find(t, Levels(name, '.')))
  {
    if |name| >= NameMax {
      return null;
    }
    node := root;
    var rest, more := name, true;
    ghost var at := t;
    while more && node != null
      invariant node != null ==> Rep(at) && at.node == node && forall x :: x in Footprint(at) ==> allocated(x)
      invariant NodeOf(Find(t, Levels(name, '.'))) ==
        if node == null then null else if more then NodeOf(Find(at, Levels(rest, '.'))) else node
      decreases if more then |rest| + 1 else 0
    {
      var k := FirstSep(rest, '.');
      var key := rest[..k];
      ghost var levels := Levels(rest, '.');
      assert levels[0] == key;
      FindOne(at, key);
      ghost var i, below := LookupKid(at.kids, key), at;
      if i < |at.kids| {
        KidRep(at, i);
        below := at.kids[i];
      }
      node := LookupChild(node, key, at);
      at := below;
      if k < |rest| {
        assert levels[1..] == Levels(rest[k + 1..], '.');
        rest := rest[k + 1..];
      } else {
        assert levels == [key] && levels[1..] == [];
        more := false;
      }
    }
  }

  // ---- Writing the path.

  function Piece(parent: ConfNode, node: ConfNode, top: bool): string {
    match parent.kind
    case Sequence => "[" + node.name + "]"
    case Mapping => if top then node.name else "." + node.name
    case _ => ""
  }

  // From the root down to the node.
  function PathText(chain: seq<ConfNode>): string
    requires |chain| >= 1
  {
    var n := |chain|;
    if n == 1 then ""
    else PathText(chain[..n - 1]) + Piece(chain[n - 2], chain[n - 1], n == 2)
  }

  // A child of a sequence adds its name in brackets, a child of a mapping its name
  // after a dot, without one below the root, and a child of anything else nothing.
  lemma PathPieces(chain: seq<ConfNode>)
    requires |chain| >= 2
    ensures var n := |chain|;
            var above, name := PathText(chain[..n - 1]), chain[n - 1].name;
            match chain[n - 2].kind
            case Sequence => PathText(chain) == above + ("[" + name + "]")
            case Mapping => PathText(chain) == if n == 2 then name else above + ("." + name)
            case _ => PathText(chain) == above
  {
    hide PathText;
    PathLast(chain);
    var above := PathText(chain[..|chain| - 1]);
    assert above + "" == above;
    if |chain| == 2 { assert above + chain[1].name == chain[1].name; }
  }

  lemma PathLast(chain: seq<ConfNode>)
    requires |chain| >= 2
    ensures var n := |chain|;
            PathText(chain) == PathText(chain[..n - 1]) + Piece(chain[n - 2], chain[n - 1], n == 2)
    ensures |chain| == 2 ==> PathText(chain[..|chain| - 1]) == ""
  {
    hide Piece;
  }

  // What fill_path_name returns: it stops adding once the buffer is full.
  function Filled(chain: seq<ConfNode>, len: nat): (n: nat)
    requires |chain| >= 1
    ensures n <= |PathText(chain)|
  {
    var n := |chain|;
    if n == 1 then 0
    else
      var before := Filled(chain[..n - 1], len);
      if before + 1 >= len then before else before + |Piece(chain[n - 2], chain[n - 1], n == 2)|
  }

  // Less than len - 1 means that the whole path was written.
  lemma {:induction false} FilledWhole(chain: seq<ConfNode>, len: nat)
    requires |chain| >= 1
    ensures Filled(chain, len) + 1 < len ==> Filled(chain, len) == |PathText(chain)|
    decreases |chain|
  {
    if |chain| > 1 { FilledWhole(chain[..|chain| - 1], len); }
  }

  // A path that fits the buffer with its terminator is always written whole.
  lemma {:induction false} FilledFits(chain: seq<ConfNode>, len: nat)
    requires |chain| >= 1 && |PathText(chain)| < len
    ensures Filled(chain, len) == |PathText(chain)|
    decreases |chain|
  {
    if |chain| > 1 { FilledFits(chain[..|chain| - 1], len); }
  }

  // It is the length of the path to the first node on the way whose path does not
  // leave room for more, or else of the whole path; the terminator takes one.
  lemma {:induction false} FilledIs(chain: seq<ConfNode>, len: nat) returns (k: nat)
    requires |chain| >= 1
    ensures 1 <= k <= |chain| && Filled(chain, len) == |PathText(chain[..k])|
    ensures k < |chain| ==> |PathText(chain[..k])| + 1 >= len
    ensures forall j :: 1 < j < k ==> |PathText(chain[..j])| + 1 < len
    decreases |chain|
  {
    hide PathText, Piece;
    var n := |chain|;
    assert chain[..n] == chain;
    if n == 1 {
      RootPath(chain);
      k := 1;
    } else {
      var up := chain[..n - 1];
      k := FilledIs(up, len);
      assert forall j :: 1 <= j <= n - 1 ==> up[..j] == chain[..j];
      PathLast(chain);
      FilledWhole(up, len);
      if Filled(up, len) + 1 < len { k := n; }
    }
  }

  lemma RootPath(chain: seq<ConfNode>)
    requires |chain| == 1
    ensures PathText(chain) == ""
  {
  }

  ghost predicate Climbs(chain: seq<ConfNode>)
    reads chain
  {
    && |chain| >= 1 && chain[0].parent == null
    && forall i :: 0 < i < |chain| ==> chain[i].parent == chain[i - 1]
  }

  function Least(a: int, b: int): int {
    if a <= b then a else b
  }

  // snprintf of s into the len - off bytes from off on.
  method Snprintf(buf: array<char>, off: nat, len: nat, s: string) returns (n: nat)
    requires off < len <= buf.Length
    modifies buf
    ensures n == |s|
    ensures var m := Least(|s|, len - off - 1);
            && buf[..off + m] == old(buf[..off]) + s[..m] && buf[off + m] == '\0'
  {
    ghost var was := buf[..off];
    var i := 0;
    while i < |s| && i < len - off - 1
      invariant 0 <= i <= |s| && i <= len - off - 1
      invariant buf[..off + i] == was + s[..i]
    {
      buf[off + i] := s[i];
      i := i + 1;
    }
    ghost var now := buf[..off + i];
    buf[off + i] := '\0';
    assert buf[..off + i] == now;
    n := |s|;
  }

  // The piece after a path that is in the buffer whole.
  method WritePiece(buf: array<char>, len: nat, off: nat, piece: string, ghost path: string) returns (n: nat)
    requires off + 1 < len <= buf.Length && off == |path| && buf[..off] == path
    modifies buf
    ensures n == off + |piece|
    ensures var m := Least(n, len - 1); buf[..m] == (path + piece)[..m] && buf[m] == '\0'
  {
    var keyLen := Snprintf(buf, off, len, piece);
    n := off + keyLen;
    ghost var k := Least(|piece|, len - off - 1);
    assert path + piece[..k] == (path + piece)[..off + k];
  }

  // fill_path_name
  method FillPathName(buf: array<char>, len: nat, conf: ConfNode, ghost chain: seq<ConfNode>) returns (n: nat)
    requires Climbs(chain) && chain[|chain| - 1] == conf && 1 <= len <= buf.Length
    modifies buf
    ensures n == Filled(chain, len)
    ensures var m := Least(n, len - 1);
            buf[..m] == PathText(chain)[..m] && (n > 0 ==> buf[m] == '\0')
    decreases |chain|
  {
    Top(chain);
    if conf.parent == null {
      return 0;
    }
    ghost var up := chain[..|chain| - 1];
    var parent := conf.parent;
    assert up[|up| - 1] == parent && Climbs(up);
    FilledWhole(up, len);
    hide PathText, Filled, Climbs;
    n := FillPathName(buf, len, parent, up);
    ghost var last := Piece(parent, conf, |up| == 1);
    PathGrows(chain, len);
    if n < len - 1 {
      assert buf[..n] == PathText(up);
      match parent.kind {
        case Sequence =>
          n := WritePiece(buf, len, n, "[" + conf.name + "]", PathText(up));
        case Mapping =>
          Top(up);
          var piece := if parent.parent != null then "." + conf.name else conf.name;
          n := WritePiece(buf, len, n, piece, PathText(up));
        case _ =>
          assert PathText(chain)[..n] == PathText(up)[..n];
      }
    } else {
      assert PathText(chain)[..len - 1] == PathText(up)[..len - 1];
    }
  }

  lemma PathGrows(chain: seq<ConfNode>, len: nat)
    requires |chain| > 1
    ensures var up, last := chain[..|chain| - 1], Piece(chain[|chain| - 2], chain[|chain| - 1], |chain| == 2);
            && PathText(chain) == PathText(up) + last
            && Filled(chain, len) == if Filled(up, len) + 1 >= len then Filled(up, len) else Filled(up, len) + |last|
  {
  }

  lemma Top(chain: seq<ConfNode>)
    requires Climbs(chain)
    ensures chain[|chain| - 1].parent != null <==> |chain| > 1
  {
    if |chain| > 1 {
      var above: ConfNode := chain[|chain| - 2];
      assert chain[|chain| - 1].parent == above;
    }
  }

  // ---- There and back.

  // A way down the tree, by positions.
  predicate Way(t: Tree, steps: seq<nat>) {
    steps == [] || (steps[0] < |t.kids| && Way(t.kids[steps[0]], steps[1..]))
  }

  function Chain(t: Tree, steps: seq<nat>): (c: seq<ConfNode>)
    requires Way(t, steps)
    ensures |c| == |steps| + 1 && c[0] == t.node
  {
    if steps == [] then [t.node] else [t.node] + Chain(t.kids[steps[0]], steps[1..])
  }

  function Target(t: Tree, steps: seq<nat>): Tree
    requires Way(t, steps)
  {
    if steps == [] then t else Target(t.kids[steps[0]], steps[1..])
  }

  function Names(chain: seq<ConfNode>): (s: seq<string>)
    requires |chain| >= 1
    ensures |s| == |chain| - 1
  {
    seq(|chain| - 1, i requires 0 <= i < |chain| - 1 => chain[i + 1].name)
  }

  // Every ancestor is a mapping; on the way, no name has a dot in it or is the
  // name of an earlier sibling.
  predicate Findable(t: Tree, steps: seq<nat>)
    requires Way(t, steps)
  {
    steps == [] ||
    (var kid := t.kids[steps[0]];
     && t.node.kind == Mapping
     && Plain(kid.node.name, '.')
     && LookupKid(t.kids, kid.node.name) == steps[0]
     && Findable(kid, steps[1..]))
  }

  lemma {:induction false} FindableFound(t: Tree, steps: seq<nat>)
    requires Way(t, steps) && Findable(t, steps)
    ensures Find(t, Names(Chain(t, steps))) == Subtree(Target(t, steps))
    decreases |steps|
  {
    if steps != [] {
      var kid := t.kids[steps[0]];
      FindableFound(kid, steps[1..]);
      assert Names(Chain(t, steps))[1..] == Names(Chain(kid, steps[1..]));
    }
  }

  lemma {:induction false} FindableAt(t: Tree, steps: seq<nat>, i: nat)
    requires Way(t, steps) && Findable(t, steps) && i < |steps|
    ensures var c := Chain(t, steps); c[i].kind == Mapping && Plain(c[i + 1].name, '.')
    decreases |steps|
  {
    var kid := t.kids[steps[0]];
    assert Chain(t, steps) == [t.node] + Chain(kid, steps[1..]);
    if i > 0 { FindableAt(kid, steps[1..], i - 1); }
  }

  lemma FindableNames(t: Tree, steps: seq<nat>)
    requires Way(t, steps) && Findable(t, steps)
    ensures var c := Chain(t, steps);
            forall i :: 0 <= i < |steps| ==> c[i].kind == Mapping && Plain(Names(c)[i], '.')
  {
    forall i | 0 <= i < |steps|
      ensures Chain(t, steps)[i].kind == Mapping && Plain(Names(Chain(t, steps))[i], '.')
    {
      FindableAt(t, steps, i);
    }
  }

  lemma {:induction false} JoinLast(names: seq<string>, last: string)
    requires |names| >= 1
    ensures Join(names + [last], '.') == Join(names, '.') + "." + last
  {
    if |names| == 1 {
      assert (names + [last])[1..] == [last];
    } else {
      assert (names + [last])[1..] == names[1..] + [last];
      JoinLast(names[1..], last);
    }
  }

  // Under mappings only, the path is the names joined by dots.
  lemma {:induction false} PathJoins(chain: seq<ConfNode>)
    requires |chain| > 1 && forall i :: 0 <= i < |chain| - 1 ==> chain[i].kind == Mapping
    ensures PathText(chain) == Join(Names(chain), '.')
    decreases |chain|
  {
    var n := |chain|;
    var up := chain[..n - 1];
    if n == 2 {
      assert PathText(up) == "";
      assert Names(chain) == [chain[1].name];
    } else {
      PathJoins(up);
      JoinLast(Names(up), chain[n - 1].name);
      assert Names(chain) == Names(up) + [chain[n - 1].name];
    }
  }

  // Looking up the path that was written gives the very node it was written for.
  lemma PathFindsNode(t: Tree, steps: seq<nat>)
    requires Way(t, steps) && Findable(t, steps) && steps != []
    ensures Find(t, Levels(PathText(Chain(t, steps)), '.')) == Subtree(Target(t, steps))
  {
    var c := Chain(t, steps);
    FindableFound(t, steps);
    FindableNames(t, steps);
    PathJoins(c);
    LevelsJoin(Names(c), '.');
  }

  // Writing the path of a node and looking it up, when it fits both buffers.
  method PathAndBack(root: ConfNode, conf: ConfNode, ghost t: Tree, ghost steps: seq<nat>) returns (r: ConfNode?)
    requires Rep(t) && t.node == root && forall x :: x in Footprint(t) ==> allocated(x)
    requires Way(t, steps) && Findable(t, steps) && steps != [] && Target(t, steps).node == conf
    requires root.parent == null && |PathText(Chain(t, steps))| < NameMax
    ensures r == conf
  {
    ghost var chain := Chain(t, steps);
    ChainEnds(t, steps);
    ChainClimbs(t, steps);
    var buf := new char[NameMax];
    var n := FillPathName(buf, NameMax, conf, chain);
    FilledFits(chain, NameMax);
    var name := buf[..n];
    assert name == PathText(chain);
    r := GetNode(root, name, t);
    PathFindsNode(t, steps);
  }

  lemma {:induction false} ChainEnds(t: Tree, steps: seq<nat>)
    requires Way(t, steps)
    ensures Chain(t, steps)[|steps|] == Target(t, steps).node
    decreases |steps|
  {
    if steps != [] { ChainEnds(t.kids[steps[0]], steps[1..]); }
  }

  // The parent links of a tree climb every way back.
  lemma ChainClimbs(t: Tree, steps: seq<nat>)
    requires Rep(t) && t.node.parent == null && Way(t, steps)
    ensures Climbs(Chain(t, steps))
  {
    forall i | 0 < i <= |steps|
      ensures Chain(t, steps)[i].parent == Chain(t, steps)[i - 1]
    {
      LinkUp(t, steps, i);
    }
  }

  lemma {:induction false} LinkUp(t: Tree, steps: seq<nat>, i: nat)
    requires Rep(t) && Way(t, steps) && 0 < i <= |steps|
    ensures Chain(t, steps)[i].parent == Chain(t, steps)[i - 1]
    decreases |steps|
  {
    var kid := t.kids[steps[0]];
    KidRep(t, steps[0]);
    assert Chain(t, steps) == [t.node] + Chain(kid, steps[1..]);
    if i > 1 { LinkUp(kid, steps[1..], i - 1); }
  }
}
