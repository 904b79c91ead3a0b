/** The sorted node list of a hive as an index: parents come first and the children of a node are
    one range (tools/hivec.py:444-465, 482-486). */
module HiveTree {
  import opened Bits
  import opened HivePaths
  import opened HiveNodes
  import opened StringTables

  // ---- sorting paths ----

  /** Every path is before the later ones. */
  predicate Rising(s: seq<Path>) {
    forall i, j :: 0 <= i < j < |s| ==> Before(s[i], s[j])
  }

  function Insert(p: Path, s: seq<Path>): seq<Path> {
    if s == [] then [p] else if Before(p, s[0]) then [p] + s else [s[0]] + Insert(p, s[1..])
  }

  function Sort(ps: seq<Path>): seq<Path> {
    if ps == [] then [] else Insert(ps[0], Sort(ps[1..]))
  }

  lemma BeforeTransitive(p: Path, q: Path, r: Path)
    requires Before(p, q) && Before(q, r)
    ensures Before(p, r)
  {
    if Dots(p) == Dots(q) == Dots(r) {
      LessTransitive(p, q, r);
    }
  }

  lemma BeforeTotal(p: Path, q: Path)
    ensures p == q || Before(p, q) || Before(q, p)
    ensures !(Before(p, q) && Before(q, p)) && !Before(p, p)
  {
    LessTotal(p, q);
  }

  lemma {:induction false} InsertMembers(p: Path, s: seq<Path>, q: Path)
    ensures q in Insert(p, s) <==> q == p || q in s
    decreases |s|
  {
    hide Before;
    if s != [] && !Before(p, s[0]) {
      InsertMembers(p, s[1..], q);
      assert s == [s[0]] + s[1..];
    }
  }

  lemma {:induction false} InsertRising(p: Path, s: seq<Path>)
    requires Rising(s) && p !in s
    ensures Rising(Insert(p, s))
    decreases |s|
  {
    hide Before;
    if s == [] {
    } else if Before(p, s[0]) {
      forall j | 0 <= j < |s|
        ensures Before(p, s[j])
      {
        if j > 0 {
          BeforeTransitive(p, s[0], s[j]);
        }
      }
    } else {
      BeforeTotal(p, s[0]);
      var rest := Insert(p, s[1..]);
      InsertRising(p, s[1..]);
      forall j | 0 <= j < |rest|
        ensures Before(s[0], rest[j])
      {
        InsertMembers(p, s[1..], rest[j]);
      }
    }
  }

  lemma {:induction false} SortFacts(ps: seq<Path>)
    requires forall i, j :: 0 <= i < j < |ps| ==> ps[i] != ps[j]
    ensures Rising(Sort(ps)) && forall q :: q in Sort(ps) <==> q in ps
    decreases |ps|
  {
    hide Before, Rising;
    if ps == [] {
      EmptyRises();
    } else {
      SortFacts(ps[1..]);
      InsertRising(ps[0], Sort(ps[1..]));
      forall q
        ensures q in Sort(ps) <==> q in ps
      {
        InsertMembers(ps[0], Sort(ps[1..]), q);
        assert ps == [ps[0]] + ps[1..];
      }
    }
  }

  lemma EmptyRises()
    ensures Rising([])
  {
  }

  // ---- the node list ----

  datatype Built = Built(nodes: map<Path, Node>, paths: seq<Path>)

  /** The paths of the nodes, the root first, in order. */
  ghost predicate Ordered(paths: seq<Path>, nodes: map<Path, Node>) {
    && paths != [] && paths[0] == [] && Rising(paths)
    && forall p :: p in nodes <==> p in paths
  }

  lemma RootFirst(order: seq<Path>, nodes: map<Path, Node>)
    requires Lists(order, nodes)
    ensures Ordered([[]] + Sort(order[1..]), nodes)
  {
    hide Sort;
    SortFacts(order[1..]);
    var s := Sort(order[1..]);
    assert order == [order[0]] + order[1..];
    forall j | 0 <= j < |s|
      ensures Before([], s[j])
    {
      BeforeTotal([], s[j]);
      assert s[j] in order[1..];
    }
  }

  lemma StartOfNodes()
    ensures var nodes := map[[] := Node([], 0, [])];
      Represents(nodes, []) && Lists([[]], nodes)
  {
  }

  lemma RepresentsGrows(nodes: map<Path, Node>, keys: seq<Key>, q: Path)
    requires Represents(nodes, keys)
    ensures Growing(nodes, keys, q)
  {
    hide Shaped, Told, AllThere;
  }

  lemma SamePaths(order: seq<Path>, nodes: map<Path, Node>, key: Key)
    requires Lists(order, nodes) && key.path in nodes
    ensures Lists(order, WithKey(nodes, key))
  {
  }

  /** The nodes of a hive and their order; nothing when a path has an empty part. */
  method BuildNodes(keys: seq<Key>) returns (r: Option<Built>)
    ensures r.Some? <==> forall k :: 0 <= k < |keys| ==> GoodPath(keys[k].path)
    ensures r.Some? ==> Represents(r.value.nodes, keys) && Ordered(r.value.paths, r.value.nodes)
  {
    hide Represents, Growing, GoodPath, Lists, Ordered, Or;
    var nodes: map<Path, Node> := map[[] := Node([], 0, [])];
    var order: seq<Path> := [[]];
    StartOfNodes();
    for k := 0 to |keys|
      invariant Represents(nodes, keys[..k]) && Lists(order, nodes)
      invariant forall j :: 0 <= j < k ==> GoodPath(keys[j].path)
    {
      var key := keys[k];
      RepresentsGrows(nodes, keys[..k], key.path);
      var ok;
      ok, nodes, order := AddParts(nodes, order, key.path, keys[..k]);
      if !ok {
        return None;
      }
      FinishKey(nodes, keys[..k], key);
      SamePaths(order, nodes, key);
      var n := nodes[key.path];
      nodes := nodes[key.path := n.(flags := Or(n.flags, key.flags), values := n.values + key.values)];
      assert keys[..k + 1] == keys[..k] + [key];
    }
    assert keys[..|keys|] == keys;
    ListsRoot(order, nodes);
    RootFirst(order, nodes);
    return Some(Built(nodes, [[]] + Sort(order[1..])));
  }

  lemma ListsRoot(order: seq<Path>, nodes: map<Path, Node>)
    requires Lists(order, nodes)
    ensures |order| > 0 && order[0] == []
  {
  }

  // ---- parents and children ----

  /** A node list that the file format can be built from. */
  ghost predicate Tree(b: Built) {
    Shaped(b.nodes) && Ordered(b.paths, b.nodes)
  }

  lemma Distinct(s: seq<Path>, i: nat, j: nat)
    requires Rising(s) && i < |s| && j < |s|
    ensures s[i] == s[j] ==> i == j
  {
    BeforeTotal(s[i], s[j]);
  }

  function IndexOf(paths: seq<Path>, p: Path): (i: nat)
    requires p in paths
    ensures i < |paths| && paths[i] == p
  {
    if paths[0] == p then 0 else 1 + IndexOf(paths[1..], p)
  }

  lemma IsNode(b: Built, i: nat)
    requires Tree(b) && i < |b.paths|
    ensures b.paths[i] in b.nodes
    ensures i > 0 ==> b.paths[i] != [] && GoodPath(b.paths[i]) && ParentPath(b.paths[i]) in b.paths
    ensures b.nodes[b.paths[i]].name == if i == 0 then [] else NameOf(b.paths[i])
  {
    hide GoodPath, ParentPath, NameOf;
    Distinct(b.paths, 0, i);
  }

  ghost function ParentIndex(b: Built, i: nat): (r: nat)
    requires Tree(b) && 0 < i < |b.paths|
    ensures r < |b.paths| && b.paths[r] == ParentPath(b.paths[i])
  {
    IsNode(b, i);
    IndexOf(b.paths, ParentPath(b.paths[i]))
  }

  lemma ParentIsBefore(p: Path)
    requires GoodPath(p)
    ensures Before(ParentPath(p), p)
    ensures ParentPath(p) == [] <==> Dots(p) == 0
  {
    if Dots(p) > 0 {
      ParentDots(p);
      GoodParent(p);
    }
  }

  lemma LaterIsAfter(b: Built, i: nat, j: nat)
    requires Tree(b) && i < j < |b.paths|
    ensures Before(b.paths[i], b.paths[j])
  {
  }

  /** Parents precede their children. */
  lemma ParentPrecedes(b: Built, i: nat)
    requires Tree(b) && 0 < i < |b.paths|
    ensures ParentIndex(b, i) < i
  {
    hide GoodPath, Before, ParentPath, Tree;
    IsNode(b, i);
    var r := ParentIndex(b, i);
    ParentIsBefore(b.paths[i]);
    BeforeTotal(b.paths[r], b.paths[i]);
    if r > i {
      LaterIsAfter(b, i, r);
    }
  }

  lemma SiblingsTogether(b: Built, i: nat, j: nat, k: nat)
    requires Tree(b) && 0 < i < j < k < |b.paths| && ParentPath(b.paths[i]) == ParentPath(b.paths[k])
    ensures ParentPath(b.paths[j]) == ParentPath(b.paths[i])
  {
    hide GoodPath, Before, ParentPath, Dots;
    IsNode(b, i);
    IsNode(b, k);
    ParentIsBefore(b.paths[i]);
    ParentIsBefore(b.paths[k]);
    ChildrenAreContiguous(b.paths[i], b.paths[j], b.paths[k]);
  }

  /** The indices below `n` of the children of path `p`, as they are collected. */
  function ChildrenOf(paths: seq<Path>, p: Path, n: nat): seq<nat>
    requires 1 <= n <= |paths|
    decreases n, p
  {
    if n == 1 then []
    else ChildrenOf(paths, p, n - 1) + if ParentPath(paths[n - 1]) == p then [n - 1] else []
  }

  /** One after the other, without a gap. */
  predicate Consecutive(c: seq<nat>) {
    forall t :: 0 <= t < |c| ==> c[t] == c[0] + t
  }

  /** `c` lists the children of `p` among the first `n` nodes, as a range. */
  ghost predicate IsRange(paths: seq<Path>, p: Path, n: nat, c: seq<nat>)
    requires n <= |paths|
  {
    && Consecutive(c)
    && (forall t :: 0 <= t < |c| ==> 1 <= c[t] < n && ParentPath(paths[c[t]]) == p)
    && (forall j :: 1 <= j < n && ParentPath(paths[j]) == p ==> j in c)
  }

  lemma LastChild(b: Built, p: Path, n: nat, c: seq<nat>)
    requires Tree(b) && 1 < n <= |b.paths| && IsRange(b.paths, p, n - 1, c) && c != []
    requires ParentPath(b.paths[n - 1]) == p
    ensures c[|c| - 1] == n - 2
  {
    hide ParentPath, Tree;
    var l := c[|c| - 1];
    if l < n - 2 {
      SiblingsTogether(b, l, n - 2, n - 1);
    }
  }

  lemma {:induction false} ChildrenRange(b: Built, p: Path, n: nat)
    requires Tree(b) && 1 <= n <= |b.paths|
    ensures IsRange(b.paths, p, n, ChildrenOf(b.paths, p, n))
    decreases n
  {
    hide ParentPath, Tree;
    if n > 1 {
      ChildrenRange(b, p, n - 1);
      var c := ChildrenOf(b.paths, p, n - 1);
      if ParentPath(b.paths[n - 1]) == p {
        if c != [] {
          LastChild(b, p, n, c);
        }
        NextChild(b.paths, p, n, c);
      } else {
        SameChildren(b.paths, p, n, c);
      }
    }
  }

  lemma NextChild(paths: seq<Path>, p: Path, n: nat, c: seq<nat>)
    requires 1 < n <= |paths| && IsRange(paths, p, n - 1, c) && ParentPath(paths[n - 1]) == p
    requires c != [] ==> c[|c| - 1] == n - 2
    ensures IsRange(paths, p, n, c + [n - 1])
  {
    hide ParentPath;
    var d := c + [n - 1];
    assert d[|c|] == n - 1;
    forall j | 1 <= j < n && ParentPath(paths[j]) == p
      ensures j in d
    {
      assert j < n - 1 ==> j in c;
    }
  }

  lemma SameChildren(paths: seq<Path>, p: Path, n: nat, c: seq<nat>)
    requires 1 < n <= |paths| && IsRange(paths, p, n - 1, c) && ParentPath(paths[n - 1]) != p
    ensures IsRange(paths, p, n, c + [])
  {
    hide ParentPath;
    assert c + [] == c;
  }

  function FirstOf(c: seq<nat>): nat {
    if c == [] then NONE else c[0]
  }

  /** The children of node `i` are exactly the range its entry gives. */
  lemma ChildrenExact(b: Built, i: nat, j: nat)
    requires Tree(b) && i < |b.paths| && 0 < j < |b.paths|
    ensures var c := ChildrenOf(b.paths, b.paths[i], |b.paths|);
      ParentIndex(b, j) == i <==> c != [] && FirstOf(c) <= j < FirstOf(c) + |c|
  {
    hide ParentPath;
    ChildrenRange(b, b.paths[i], |b.paths|);
    var c := ChildrenOf(b.paths, b.paths[i], |b.paths|);
    if ParentIndex(b, j) == i {
      assert j in c;
    }
    if c != [] && FirstOf(c) <= j < FirstOf(c) + |c| {
      assert c[j - c[0]] == j;
      Distinct(b.paths, ParentIndex(b, j), i);
    }
  }

  /** Names and parent links determine the paths. */
  ghost function PathFrom(parents: seq<nat>, names: seq<Name>, i: nat): Path
    requires |parents| == |names| && i < |names|
    requires forall k :: 0 < k < |parents| ==> parents[k] < k
  {
    if i == 0 then []
    else if parents[i] == 0 then names[i]
    else PathFrom(parents, names, parents[i]) + [DOT] + names[i]
  }

  lemma {:induction false} PathRecovered(b: Built, parents: seq<nat>, names: seq<Name>, i: nat)
    requires Tree(b) && |parents| == |names| == |b.paths| && i < |names|
    requires forall k :: 0 < k < |parents| ==> parents[k] == ParentIndex(b, k)
    requires forall k :: 0 < k < |parents| ==> parents[k] < k
    requires forall k :: 0 <= k < |names| ==> names[k] == if k == 0 then [] else NameOf(b.paths[k])
    ensures PathFrom(parents, names, i) == b.paths[i]
    decreases i
  {
    if i > 0 {
      IsNode(b, i);
      PathIsJoined(b.paths[i]);
      ParentIsBefore(b.paths[i]);
      if parents[i] == 0 {
        assert ParentPath(b.paths[i]) == [];
      } else {
        IsNode(b, parents[i]);
        PathRecovered(b, parents, names, parents[i]);
      }
    }
  }
}
