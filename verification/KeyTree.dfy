/** The key browser's tree: key names split at their delimiter, built node by node in place. */
module KeyTrees {
  import opened Wrappers
  import opened Strings

  /** A listed key; `info` stands for the type, the size and the other facts shown beside it. */
  datatype KeyInfo = KeyInfo(name: string, info: int)

  type Path = seq<string>

  // ----- splitting names -----

  /** The first of the known delimiters that the name contains, or a colon. */
  function Delimiter(name: string): char {
    if ':' in name then ':' else if '.' in name then '.' else if '|' in name then '|' else ':'
  }

  function Segments(name: string): (parts: Path)
    ensures parts != []
  {
    Split(name, Delimiter(name))
  }

  /** A colon splits a name wherever it stands; only without one a dot does, and only without both a bar. */
  lemma ColonBeforeDotBeforeBar(name: string)
    ensures ':' in name ==> Segments(name) == Split(name, ':')
    ensures ':' !in name && '.' in name ==> Segments(name) == Split(name, '.')
    ensures ':' !in name && '.' !in name && '|' in name ==> Segments(name) == Split(name, '|')
    ensures ':' !in name && '.' !in name && '|' !in name ==> Segments(name) == [name]
  {
    if ':' !in name && '.' !in name && '|' !in name {
      assert Free([name], ':');
      JoinsAreSplit([name], ':');
    }
  }

  /** Two names share a node exactly when they differ in the delimiter only. */
  lemma SegmentsCollideExactly(a: string, b: string)
    ensures Segments(a) == Segments(b)
       <==> Free(Segments(a), Delimiter(b)) && b == Join(Segments(a), Delimiter(b))
    ensures Segments(a) == Segments(b) && Delimiter(a) == Delimiter(b) ==> a == b
  {
    SplitsAreJoined(a, Delimiter(a));
    SplitsAreJoined(b, Delimiter(b));
    if Free(Segments(a), Delimiter(b)) { JoinsAreSplit(Segments(a), Delimiter(b)); }
  }

  lemma TwoSegments(d: char)
    requires d in ":.|"
    ensures Segments("a" + [d] + "b") == ["a", "b"]
  {
    var parts := ["a", "b"];
    assert parts[1..] == ["b"] && 'a' != d && 'b' != d;
    JoinsAreSplit(parts, d);
  }

  /** Names that differ in the delimiter only are one node. */
  lemma DelimitersCollapse()
    ensures Segments("a:b") == Segments("a.b") == Segments("a|b")
  {
    TwoSegments(':');
    TwoSegments('.');
    TwoSegments('|');
    assert "a" + [':'] + "b" == "a:b" && "a" + ['.'] + "b" == "a.b" && "a" + ['|'] + "b" == "a|b";
  }

  // ----- what the tree should say at each path -----

  datatype Label = Label(segment: string, fullPath: string, isLeaf: bool, key: Option<KeyInfo>)

  type Labels = map<Path, Label>

  function NewLabel(p: Path, d: char): Label
    requires p != []
  {
    Label(p[|p| - 1], Join(p, d), false, None)
  }

  /** The path is there, under the label it had or a new one. */
  function Entered(m: Labels, p: Path, d: char): Labels
    requires p != []
  {
    if p in m then m else m[p := NewLabel(p, d)]
  }

  function Descended(m: Labels, segments: Path, n: nat, d: char): (r: Labels)
    requires n <= |segments|
    ensures n > 0 ==> segments[..n] in r
  {
    if n == 0 then m else Entered(Descended(m, segments, n - 1, d), segments[..n], d)
  }

  function Marked(m: Labels, p: Path, key: KeyInfo): Labels
    requires p in m
  {
    m[p := m[p].(isLeaf := true, key := Some(key))]
  }

  function Inserted(m: Labels, key: KeyInfo): Labels {
    var segments := Segments(key.name);
    assert segments[..|segments|] == segments;
    Marked(Descended(m, segments, |segments|, Delimiter(key.name)), segments, key)
  }

  function Built(keys: seq<KeyInfo>): Labels {
    if keys == [] then map[[] := Label("", "", false, None)]
    else Inserted(Built(keys[..|keys| - 1]), keys[|keys| - 1])
  }

  /** A path is in the tree when some key goes through it. */
  predicate Reached(keys: seq<KeyInfo>, p: Path) {
    p == [] || exists k | k in keys :: p <= Segments(k.name)
  }

  /** The last listed key with these segments. */
  function LastKey(keys: seq<KeyInfo>, p: Path): Option<KeyInfo> {
    if keys == [] then None
    else
      var last := keys[|keys| - 1];
      if Segments(last.name) == p then Some(last) else LastKey(keys[..|keys| - 1], p)
  }

  lemma {:induction false} LastKeyIsLast(keys: seq<KeyInfo>, p: Path)
    ensures LastKey(keys, p) == None <==> forall k | k in keys :: Segments(k.name) != p
    ensures LastKey(keys, p).Some? ==>
              exists i | 0 <= i < |keys| :: keys[i] == LastKey(keys, p).value && Segments(keys[i].name) == p
                                         && forall j | i < j < |keys| :: Segments(keys[j].name) != p
  {
    if keys != [] {
      var n := |keys| - 1;
      LastKeyIsLast(keys[..n], p);
      assert Segments(keys[n].name) == p ==> keys[n] == LastKey(keys, p).value;
      assert keys == keys[..n] + [keys[n]];
    }
  }

  /** The delimiter of the first key that goes through a path. */
  function FirstDelimiter(keys: seq<KeyInfo>, p: Path): char
    requires p != [] && Reached(keys, p)
  {
    if p <= Segments(keys[0].name) then Delimiter(keys[0].name) else FirstDelimiter(keys[1..], p)
  }

  lemma {:induction false} FirstDelimiterSnoc(keys: seq<KeyInfo>, k: KeyInfo, p: Path)
    requires p != [] && Reached(keys + [k], p)
    ensures FirstDelimiter(keys + [k], p)
         == if Reached(keys, p) then FirstDelimiter(keys, p) else Delimiter(k.name)
  {
    if keys != [] && !(p <= Segments(keys[0].name)) {
      assert (keys + [k])[1..] == keys[1..] + [k];
      assert keys == [keys[0]] + keys[1..];
      FirstDelimiterSnoc(keys[1..], k, p);
    }
  }

  /** Entering a key's segments adds its prefixes and leaves every other label alone. */
  lemma {:induction false} DescendedAt(m: Labels, segments: Path, n: nat, d: char, q: Path)
    requires n <= |segments|
    ensures q in Descended(m, segments, n, d) <==> q in m || (q != [] && q <= segments[..n])
    ensures q in m ==> Descended(m, segments, n, d)[q] == m[q]
    ensures q !in m && q in Descended(m, segments, n, d) ==> Descended(m, segments, n, d)[q] == NewLabel(q, d)
  {
    if n > 0 {
      DescendedAt(m, segments, n - 1, d, q);
      assert segments[..n][..n - 1] == segments[..n - 1];
      assert q <= segments[..n] <==> q == segments[..n] || q <= segments[..n - 1];
    }
  }

  /** The label a path should have. */
  predicate LabelFits(shown: Label, keys: seq<KeyInfo>, p: Path)
    requires Reached(keys, p)
  {
    && shown.key == LastKey(keys, p)
    && (shown.isLeaf <==> shown.key.Some?)
    && shown.segment == (if p == [] then "" else p[|p| - 1])
    && shown.fullPath == (if p == [] then "" else Join(p, FirstDelimiter(keys, p)))
  }

  lemma ReachedSnoc(keys: seq<KeyInfo>, k: KeyInfo, p: Path)
    ensures Reached(keys + [k], p) <==> Reached(keys, p) || p <= Segments(k.name)
  {
    if Reached(keys, p) && p != [] {
      var x :| x in keys && p <= Segments(x.name);
      assert x in keys + [k];
    }
    assert k in keys + [k];
  }

  /**
   * The whole tree: a path has a node exactly when some key goes through it, the node is a leaf
   * exactly when some key ends there, it holds the last such key, and it shows the path with the
   * delimiter of the first key that made it.
   */
  lemma {:induction false} BuiltAt(keys: seq<KeyInfo>, p: Path)
    ensures p in Built(keys) <==> Reached(keys, p)
    ensures p in Built(keys) ==> LabelFits(Built(keys)[p], keys, p)
  {
    if keys != [] {
      var front, k := keys[..|keys| - 1], keys[|keys| - 1];
      var segments := Segments(k.name);
      assert keys == front + [k] && segments[..|segments|] == segments;
      BuiltAt(front, p);
      DescendedAt(Built(front), segments, |segments|, Delimiter(k.name), p);
      ReachedSnoc(front, k, p);
      if p != [] && Reached(keys, p) {
        FirstDelimiterSnoc(front, k, p);
        if !Reached(front, p) { UnreachedHasNoKey(front, p); }
      }
    }
  }

  lemma UnreachedHasNoKey(keys: seq<KeyInfo>, p: Path)
    requires !Reached(keys, p)
    ensures LastKey(keys, p) == None
  {
    LastKeyIsLast(keys, p);
  }

  function Leaves(m: Labels): set<Path> {
    set p | p in m && m[p].isLeaf && m[p].key.Some?
  }

  function SegmentLists(keys: seq<KeyInfo>): set<Path> {
    set k | k in keys :: Segments(k.name)
  }

  lemma LeavesAreSegmentLists(keys: seq<KeyInfo>)
    ensures Leaves(Built(keys)) == SegmentLists(keys)
  {
    forall p ensures p in Leaves(Built(keys)) <==> p in SegmentLists(keys) {
      BuiltAt(keys, p);
      LastKeyIsLast(keys, p);
    }
  }

  // ----- the tree in memory -----

  class TreeNode {
    const segment: string
    const fullPath: string
    var children: map<string, TreeNode>
    var key: Option<KeyInfo>
    var isLeaf: bool

    constructor (segment: string, fullPath: string)
      ensures this.segment == segment && this.fullPath == fullPath
      ensures children == map[] && key == None && !isLeaf
    {
      this.segment, this.fullPath := segment, fullPath;
      children, key, isLeaf := map[], None, false;
    }

    function LabelOf(): Label
      reads this
    {
      Label(segment, fullPath, isLeaf, key)
    }
  }

  /** The nodes by path, and their children by path. */
  type Nodes = map<Path, TreeNode>
  type Children = map<Path, map<string, TreeNode>>

  ghost predicate AreChildren(children: map<string, TreeNode>, nodes: Nodes, p: Path) {
    forall s :: (s in children <==> p + [s] in nodes) && (s in children ==> children[s] == nodes[p + [s]])
  }

  ghost predicate HasParent(nodes: Nodes, p: Path) {
    p == [] || p[..|p| - 1] in nodes
  }

  ghost predicate Apart(nodes: Nodes, p: Path, q: Path) {
    p in nodes && q in nodes && p != q ==> nodes[p] != nodes[q]
  }

  /** A node has exactly the nodes one segment further as its children. */
  ghost predicate Linked(children: Children, nodes: Nodes, p: Path) {
    p in children && AreChildren(children[p], nodes, p) && HasParent(nodes, p)
  }

  /** Every node is linked, and no node is at two paths. */
  ghost predicate IsTree(children: Children, nodes: Nodes) {
    && [] in nodes
    && (forall p {:trigger Linked(children, nodes, p)} | p in nodes :: Linked(children, nodes, p))
    && (forall p, q :: Apart(nodes, p, q))
  }

  ghost function LabelsOf(nodes: Nodes): Labels
    reads nodes.Values
  {
    map p | p in nodes :: nodes[p].LabelOf()
  }

  ghost function ChildrenOf(nodes: Nodes): Children
    reads nodes.Values
  {
    map p | p in nodes :: nodes[p].children
  }

  ghost predicate Wired(nodes: Nodes)
    reads nodes.Values
  {
    IsTree(ChildrenOf(nodes), nodes)
  }

  /** A new node becomes a child of its parent only, and has no children itself. */
  lemma ChildrenWithOneMore(children: map<string, TreeNode>, nodes: Nodes, made: TreeNode, p: Path, s: string, q: Path)
    requires p + [s] !in nodes && (forall r | r in nodes :: HasParent(nodes, r))
    requires if q == p + [s] then children == map[] else AreChildren(children, nodes, q)
    ensures AreChildren(if q == p then children[s := made] else children, nodes[p + [s] := made], q)
  {
    var here := p + [s];
    forall t ensures q + [t] == here <==> q == p && t == s {
      assert (q + [t])[..|q|] == q && here[..|p|] == p;
    }
    if q == here {
      forall t ensures q + [t] !in nodes {
        assert (q + [t])[..|q|] == q;
        assert q + [t] in nodes ==> HasParent(nodes, q + [t]);
      }
    }
  }

  /** A tree with one more node is a tree. */
  lemma TreeWithOneMore(children: Children, nodes: Nodes, made: TreeNode, p: Path, s: string)
    requires IsTree(children, nodes) && p in nodes && p + [s] !in nodes && made !in nodes.Values
    ensures p in children
    ensures IsTree(children[p := children[p][s := made]][p + [s] := map[]], nodes[p + [s] := made])
  {
    assert Linked(children, nodes, p);
    ParentsOf(children, nodes);
    var more := nodes[p + [s] := made];
    forall q | q in more ensures Linked(children[p := children[p][s := made]][p + [s] := map[]], more, q) {
      assert q in nodes ==> Linked(children, nodes, q);
      ChildrenWithOneMore(if q == p + [s] then map[] else children[q], nodes, made, p, s, q);
    }
    forall q, r ensures Apart(more, q, r) {
      assert Apart(nodes, q, r);
    }
  }

  lemma WithOneMore(nodes: Nodes, here: Path, made: TreeNode)
    ensures ChildrenOf(nodes[here := made]) == ChildrenOf(nodes)[here := made.children]
    ensures LabelsOf(nodes[here := made]) == LabelsOf(nodes)[here := made.LabelOf()]
  {
  }

  method LinkChild(node: TreeNode, child: TreeNode, ghost p: Path, ghost nodes: Nodes)
    requires p in nodes && nodes[p] == node && forall q | q in nodes :: Apart(nodes, p, q)
    modifies node`children
    ensures node.children == old(node.children)[child.segment := child]
    ensures ChildrenOf(nodes) == old(ChildrenOf(nodes))[p := node.children]
    ensures LabelsOf(nodes) == old(LabelsOf(nodes))
  {
    node.children := node.children[child.segment := child];
    assert forall q | q in nodes :: Apart(nodes, p, q);
  }

  /** Go to a child, making it first when it is missing. */
  method Enter(node: TreeNode, segment: string, fullPath: string, ghost p: Path, ghost d: char, ghost nodes: Nodes)
    returns (child: TreeNode, ghost more: Nodes)
    requires Wired(nodes) && p in nodes && nodes[p] == node
    requires fullPath == Join(p + [segment], d)
    modifies node`children
    ensures Wired(more) && p + [segment] in more && more[p + [segment]] == child
    ensures LabelsOf(more) == Entered(old(LabelsOf(nodes)), p + [segment], d)
    ensures more[[]] == nodes[[]]
    ensures forall q | q in more :: fresh(more[q]) || more[q] in nodes.Values
  {
    more := nodes;
    ghost var before := ChildrenOf(nodes);
    assert Linked(before, nodes, p);
    if segment !in node.children {
      var made := new TreeNode(segment, fullPath);
      LinkChild(node, made, p, nodes);
      more := nodes[p + [segment] := made];
      WithOneMore(nodes, p + [segment], made);
      TreeWithOneMore(before, nodes, made, p, segment);
    }
    child := node.children[segment];
  }

  method MarkLeaf(node: TreeNode, key: KeyInfo, ghost p: Path, ghost nodes: Nodes)
    requires p in nodes && nodes[p] == node && forall q | q in nodes :: Apart(nodes, p, q)
    modifies node`isLeaf, node`key
    ensures ChildrenOf(nodes) == old(ChildrenOf(nodes))
    ensures LabelsOf(nodes) == Marked(old(LabelsOf(nodes)), p, key)
  {
    node.isLeaf := true;
    node.key := Some(key);
    assert forall q | q in nodes :: Apart(nodes, p, q);
  }

  lemma OneSegmentFurther(segments: Path, n: nat)
    requires n < |segments|
    ensures segments[..n + 1] == segments[..n] + [segments[n]]
    ensures segments[..|segments|] == segments
  {
  }

  /** Walk down a key's segments, making what is missing, and leave the key at the last node. */
  method InsertKey(root: TreeNode, keyInfo: KeyInfo, ghost nodes: Nodes) returns (ghost more: Nodes)
    requires Wired(nodes) && nodes[[]] == root
    modifies nodes.Values
    ensures Wired(more) && more[[]] == root
    ensures LabelsOf(more) == Inserted(old(LabelsOf(nodes)), keyInfo)
    ensures forall q | q in more :: fresh(more[q]) || more[q] in nodes.Values
  {
    var delimiter := Delimiter(keyInfo.name);
    var segments := Segments(keyInfo.name);
    var currentNode := root;
    more := nodes;
    OneSegmentFurther(segments, 0);
    for i := 0 to |segments|
      invariant Wired(more) && more[[]] == root
      invariant segments[..i] in more && more[segments[..i]] == currentNode
      invariant LabelsOf(more) == Descended(old(LabelsOf(nodes)), segments, i, delimiter)
      invariant forall q | q in more :: fresh(more[q]) || more[q] in nodes.Values
    {
      OneSegmentFurther(segments, i);
      var fullPath := Join(segments[..i + 1], delimiter);
      currentNode, more := Enter(currentNode, segments[i], fullPath, segments[..i], delimiter, more);
    }
    MarkLeaf(currentNode, keyInfo, segments, more);
  }

  lemma BuiltSnoc(keys: seq<KeyInfo>, n: nat)
    requires n < |keys|
    ensures Built(keys[..n + 1]) == Inserted(Built(keys[..n]), keys[n])
  {
    assert keys[..n + 1][..n] == keys[..n];
  }

  /** The built tree says what the keys say. */
  method BuildKeyTree(keys: seq<KeyInfo>) returns (root: TreeNode, ghost nodes: Nodes)
    ensures Wired(nodes) && nodes[[]] == root
    ensures LabelsOf(nodes) == Built(keys)
  {
    root := new TreeNode("", "");
    nodes := map[[] := root];
    for i := 0 to |keys|
      invariant Wired(nodes) && nodes[[]] == root
      invariant LabelsOf(nodes) == Built(keys[..i])
      invariant forall q | q in nodes :: fresh(nodes[q])
    {
      nodes := InsertKey(root, keys[i], nodes);
      BuiltSnoc(keys, i);
    }
    assert keys[..|keys|] == keys;
  }

  // ----- following a path, and counting -----

  /** The node one gets to by taking a child for each segment. */
  ghost function Follow(node: TreeNode, path: Path, all: set<TreeNode>): Option<TreeNode>
    reads node, all
    decreases |path|
  {
    if path == [] then Some(node)
    else if path[0] in node.children && node.children[path[0]] in all then
      Follow(node.children[path[0]], path[1..], all)
    else None
  }

  lemma {:induction false} PrefixesAreThere(nodes: Nodes, p: Path, n: nat)
    requires (forall q | q in nodes :: HasParent(nodes, q)) && p in nodes && n <= |p|
    ensures p[..n] in nodes
  {
    if n < |p| {
      assert HasParent(nodes, p);
      PrefixesAreThere(nodes, p[..|p| - 1], n);
      assert p[..|p| - 1][..n] == p[..n];
    } else {
      assert p[..n] == p;
    }
  }

  lemma ParentsOf(children: Children, nodes: Nodes)
    requires IsTree(children, nodes)
    ensures forall q | q in nodes :: HasParent(nodes, q)
  {
    forall q | q in nodes ensures HasParent(nodes, q) {
      assert Linked(children, nodes, q);
    }
  }

  lemma {:induction false} FollowReaches(nodes: Nodes, p: Path, path: Path)
    requires Wired(nodes) && p in nodes
    ensures Follow(nodes[p], path, nodes.Values)
         == if p + path in nodes then Some(nodes[p + path]) else None
    decreases |path|
  {
    if path == [] {
      assert p + path == p;
    } else {
      var next := p + [path[0]];
      assert next + path[1..] == p + path && (p + path)[..|next|] == next;
      assert Linked(ChildrenOf(nodes), nodes, p);
      if next in nodes {
        FollowReaches(nodes, next, path[1..]);
      } else if p + path in nodes {
        ParentsOf(ChildrenOf(nodes), nodes);
        PrefixesAreThere(nodes, p + path, |next|);
      }
    }
  }

  /**
   * A path leads to a node exactly when some key goes through it; the node is a leaf exactly
   * when some key has these segments, and then holds the last such key.
   */
  lemma KeysAreFound(keys: seq<KeyInfo>, root: TreeNode, nodes: Nodes, path: Path)
    requires Wired(nodes) && nodes[[]] == root && LabelsOf(nodes) == Built(keys)
    ensures Follow(root, path, nodes.Values).Some? <==> Reached(keys, path)
    ensures Reached(keys, path) ==>
              LabelFits(Follow(root, path, nodes.Values).value.LabelOf(), keys, path)
  {
    assert [] + path == path;
    FollowReaches(nodes, [], path);
    BuiltAt(keys, path);
    assert path in nodes <==> path in LabelsOf(nodes);
    assert path in nodes ==> LabelsOf(nodes)[path] == nodes[path].LabelOf();
  }

  function Under(paths: set<Path>, p: Path): set<Path> {
    set q | q in paths && p <= q
  }

  /** The paths strictly under `p` that go on with one of the segments. */
  function Through(paths: set<Path>, p: Path, segments: set<string>): set<Path> {
    set q | q in paths && p < q && q[|p|] in segments
  }

  lemma UnderShrinks(paths: set<Path>, p: Path, s: string)
    requires p in paths
    ensures |Under(paths, p + [s])| < |Under(paths, p)|
  {
    forall q | q in Under(paths, p + [s]) ensures q in Under(paths, p) {
      assert p <= p + [s] <= q;
    }
    assert p in Under(paths, p) && p !in Under(paths, p + [s]);
    SmallerSet(Under(paths, p + [s]), Under(paths, p));
  }

  lemma SmallerSet(a: set<Path>, b: set<Path>)
    requires a < b
    ensures |a| < |b|
  {
    assert |b| == |a| + |b - a|;
    assert b == a + (b - a);
  }

  lemma ThroughOneMore(paths: set<Path>, p: Path, done: set<string>, s: string)
    requires s !in done
    ensures |Through(paths, p, done + {s})| == |Through(paths, p, done)| + |Under(paths, p + [s])|
  {
    forall q ensures p < q && q[|p|] == s <==> p + [s] <= q {
      if p < q && q[|p|] == s { assert q[..|p| + 1] == p + [s]; }
      if p + [s] <= q { assert q[..|p| + 1] == p + [s]; }
    }
    assert Through(paths, p, done + {s}) == Through(paths, p, done) + Under(paths, p + [s]);
    assert Through(paths, p, done) !! Under(paths, p + [s]);
  }

  /** The count so far is of the node itself and of all children but those left. */
  ghost predicate Counted(paths: set<Path>, p: Path, all: set<string>, left: set<string>, count: nat) {
    left <= all && count == |Through(paths, p, all - left)| + if p in paths then 1 else 0
  }

  lemma CountChild(paths: set<Path>, p: Path, all: set<string>, left: set<string>, count: nat, s: string)
    requires Counted(paths, p, all, left, count) && s in left
    ensures s in all && |left - {s}| < |left|
    ensures Counted(paths, p, all, left - {s}, count + |Under(paths, p + [s])|)
  {
    assert all - (left - {s}) == (all - left) + {s};
    ThroughOneMore(paths, p, all - left, s);
  }

  /** The leaves under a node are the node itself, if it is one, and those through its children. */
  lemma UnderIsThroughChildren(children: Children, nodes: Nodes, leaves: set<Path>, p: Path)
    requires IsTree(children, nodes) && p in nodes && leaves <= nodes.Keys
    ensures p in children
    ensures Counted(leaves, p, children[p].Keys, children[p].Keys, if p in leaves then 1 else 0)
    ensures Counted(leaves, p, children[p].Keys, {}, |Under(leaves, p)|)
  {
    assert Linked(children, nodes, p);
    var through := Through(leaves, p, children[p].Keys);
    ParentsOf(children, nodes);
    forall q | q in leaves && p < q ensures q in through {
      PrefixesAreThere(nodes, q, |p| + 1);
      assert q[..|p| + 1] == p + [q[|p|]];
    }
    UnderIsItselfAndThrough(leaves, p, children[p].Keys);
    assert children[p].Keys - {} == children[p].Keys && Through(leaves, p, children[p].Keys - children[p].Keys) == {};
  }

  lemma UnderIsItselfAndThrough(paths: set<Path>, p: Path, segments: set<string>)
    requires forall q | q in paths && p < q :: q in Through(paths, p, segments)
    ensures |Under(paths, p)| == |Through(paths, p, segments)| + if p in paths then 1 else 0
  {
    var through := Through(paths, p, segments);
    forall q ensures q in Under(paths, p) <==> q in through || (q == p && p in paths) {
      assert p <= q <==> p == q || p < q;
    }
    assert Under(paths, p) == if p in paths then through + {p} else through;
  }

  method CountKeys(node: TreeNode, ghost p: Path, ghost nodes: Nodes) returns (count: nat)
    requires Wired(nodes) && p in nodes && nodes[p] == node
    ensures count == |Under(Leaves(LabelsOf(nodes)), p)|
    decreases |Under(nodes.Keys, p)|
  {
    ghost var leaves, all := Leaves(LabelsOf(nodes)), node.children.Keys;
    UnderIsThroughChildren(ChildrenOf(nodes), nodes, leaves, p);
    assert Linked(ChildrenOf(nodes), nodes, p);
    count := if node.isLeaf && node.key.Some? then 1 else 0;
    var left := node.children.Keys;
    while left != {}
      invariant Counted(leaves, p, all, left, count)
      decreases |left|
    {
      var s :| s in left;
      UnderShrinks(nodes.Keys, p, s);
      CountChild(leaves, p, all, left, count, s);
      var under := CountKeys(node.children[s], p + [s], nodes);
      count := count + under;
      left := left - {s};
    }
  }

  /** The count of the built tree is the number of distinct segment lists. */
  method CountListedKeys(keys: seq<KeyInfo>) returns (count: nat)
    ensures count == |SegmentLists(keys)|
  {
    var root, nodes := BuildKeyTree(keys);
    count := CountKeys(root, [], nodes);
    LeavesAreSegmentLists(keys);
    assert Under(SegmentLists(keys), []) == SegmentLists(keys);
  }
}
