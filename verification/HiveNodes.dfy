/** The nodes of a hive: every key, every key above it, in the order of their paths
    (tools/hivec.py:444-465). */
module HiveNodes {
  import opened Bits
  import opened HivePaths
  import opened StringTables

  datatype Value = Value(name: Name, kind: nat, flags: bv32, data: seq<byte>)
  datatype Key = Key(path: Path, flags: bv32, values: seq<Value>)
  datatype Node = Node(name: Name, flags: bv32, values: seq<Value>)

  function Or(a: bv32, b: bv32): bv32 {
    a | b
  }

  // ---- well-formed paths ----

  /** No part of the path is empty. */
  predicate GoodPath(p: Path) {
    && p != [] && p[0] != DOT && p[|p| - 1] != DOT
    && forall i :: 0 <= i < |p| - 1 ==> !(p[i] == DOT && p[i + 1] == DOT)
  }

  /** `p` is `q` or one of the keys above it. */
  predicate Above(p: Path, q: Path) {
    p == q || p + [DOT] <= q
  }

  lemma GoodParent(p: Path)
    requires GoodPath(p) && Dots(p) > 0
    ensures GoodPath(ParentPath(p)) && NameOf(p) != []
  {
    PathIsJoined(p);
    var r := ParentPath(p);
    assert p[|r|] == DOT;
    assert forall i :: 0 <= i < |r| ==> r[i] == p[i];
  }

  /** Appending a part to a good path. */
  lemma GrownPath(p: Path, part: Path)
    requires part != [] && Dots(part) == 0 && (p == [] || GoodPath(p))
    ensures var q := if p == [] then part else p + [DOT] + part;
      GoodPath(q) && ParentPath(q) == p && NameOf(q) == part
  {
    forall i: nat | i < |part|
      ensures part[i] != DOT
    {
      NoDot(part, i);
    }
    if p != [] {
      var q := p + [DOT] + part;
      DotsOfDot();
      DotsAppend(p, [DOT]);
      DotsAppend(p + [DOT], part);
      assert p + [DOT] <= q;
      PrefixIsParent(p, q);
      assert q[|p| + 1..] == part;
    }
  }

  // ---- what the keys say about a path ----

  /** The flags of all keys with path `p`, in order. */
  ghost function FlagsOf(keys: seq<Key>, p: Path): bv32 {
    if keys == [] then 0
    else
      var rest, last := FlagsOf(keys[..|keys| - 1], p), keys[|keys| - 1];
      if last.path == p then Or(rest, last.flags) else rest
  }

  ghost function ValuesOf(keys: seq<Key>, p: Path): seq<Value> {
    if keys == [] then []
    else
      var rest, last := ValuesOf(keys[..|keys| - 1], p), keys[|keys| - 1];
      if last.path == p then rest + last.values else rest
  }

  /** Some key is `p` or below it. */
  ghost predicate Needed(keys: seq<Key>, p: Path) {
    p == [] || exists k :: 0 <= k < |keys| && Above(p, keys[k].path)
  }

  /** Every node is named after its path and has the one above it beside it. */
  ghost predicate Shaped(nodes: map<Path, Node>) {
    && [] in nodes && nodes[[]].name == []
    && forall p :: p in nodes && p != [] ==> GoodPath(p) && ParentPath(p) in nodes && nodes[p].name == NameOf(p)
  }

  ghost predicate Says(n: Node, keys: seq<Key>, p: Path) {
    n.flags == FlagsOf(keys, p) && n.values == ValuesOf(keys, p)
  }

  /** The nodes carry the flags and values of their keys. */
  ghost predicate Told(nodes: map<Path, Node>, keys: seq<Key>) {
    forall p :: p in nodes ==> Says(nodes[p], keys, p)
  }

  ghost predicate AllThere(nodes: map<Path, Node>, keys: seq<Key>) {
    forall k :: 0 <= k < |keys| ==> keys[k].path in nodes
  }

  /** The nodes stand for the keys: all of them, the keys above them, and nothing else. */
  ghost predicate Represents(nodes: map<Path, Node>, keys: seq<Key>) {
    Shaped(nodes) && Told(nodes, keys) && AllThere(nodes, keys) && forall p :: p in nodes ==> Needed(keys, p)
  }

  /** As `Represents`, while the keys above the next key `q` are being added. */
  ghost predicate Growing(nodes: map<Path, Node>, keys: seq<Key>, q: Path) {
    && Shaped(nodes) && Told(nodes, keys) && AllThere(nodes, keys)
    && forall p :: p in nodes ==> Needed(keys, p) || Above(p, q)
  }

  lemma {:induction false} NothingSaid(keys: seq<Key>, p: Path)
    requires forall k :: 0 <= k < |keys| ==> keys[k].path != p
    ensures FlagsOf(keys, p) == 0 && ValuesOf(keys, p) == []
    decreases |keys|
  {
    if keys != [] {
      NothingSaid(keys[..|keys| - 1], p);
    }
  }

  lemma AddNode(nodes: map<Path, Node>, keys: seq<Key>, q: Path, p: Path)
    requires Growing(nodes, keys, q) && p !in nodes && GoodPath(p) && ParentPath(p) in nodes && Above(p, q)
    ensures Growing(nodes[p := Node(NameOf(p), 0, [])], keys, q)
  {
    hide FlagsOf, ValuesOf, Needed, Above, ParentPath, NameOf, GoodPath;
    NothingSaid(keys, p);
    assert p != [] by {
      GoodIsNotEmpty(p);
    }
  }

  lemma GoodIsNotEmpty(p: Path)
    requires GoodPath(p)
    ensures p != []
  {
  }

  ghost function WithKey(nodes: map<Path, Node>, key: Key): map<Path, Node>
    requires key.path in nodes
  {
    var n := nodes[key.path];
    nodes[key.path := n.(flags := Or(n.flags, key.flags), values := n.values + key.values)]
  }

  lemma LastKey(keys: seq<Key>, key: Key, p: Path)
    ensures FlagsOf(keys + [key], p) == if p == key.path then Or(FlagsOf(keys, p), key.flags) else FlagsOf(keys, p)
    ensures ValuesOf(keys + [key], p) == if p == key.path then ValuesOf(keys, p) + key.values else ValuesOf(keys, p)
    ensures Needed(keys, p) ==> Needed(keys + [key], p)
    ensures Above(p, key.path) ==> Needed(keys + [key], p)
  {
    hide Or, Above;
    var more := keys + [key];
    assert more[..|keys|] == keys && more[|keys|] == key;
    if Needed(keys, p) && p != [] {
      var k :| 0 <= k < |keys| && Above(p, keys[k].path);
      assert more[k] == keys[k];
    }
  }

  lemma FinishKey(nodes: map<Path, Node>, keys: seq<Key>, key: Key)
    requires Growing(nodes, keys, key.path) && key.path in nodes
    ensures Represents(WithKey(nodes, key), keys + [key])
  {
    hide Or, FlagsOf, ValuesOf, Needed, Above, ParentPath, NameOf, GoodPath;
    var after, more := WithKey(nodes, key), keys + [key];
    forall p | p in after
      ensures Needed(more, p) && Says(after[p], more, p)
    {
      LastKey(keys, key, p);
      assert Says(nodes[p], keys, p);
    }
    forall k | 0 <= k < |more|
      ensures more[k].path in after
    {
      assert k < |keys| ==> more[k] == keys[k];
    }
  }

  // ---- the loops ----

  /** `order` lists the paths of the nodes, each once. */
  ghost predicate Lists(order: seq<Path>, nodes: map<Path, Node>) {
    && |order| > 0 && order[0] == []
    && (forall p :: p in nodes <==> p in order)
    && (forall i, j :: 0 <= i < j < |order| ==> order[i] != order[j])
  }

  /** The part of `q` that ends before position `start`. */
  function Done(q: Path, start: nat): Path
    requires start <= |q| + 1
  {
    if start == 0 then [] else q[..start - 1]
  }

  /** Where the scan of `q` stands: `start` is where the current part begins. */
  ghost predicate Scanning(nodes: map<Path, Node>, q: Path, start: nat, i: nat) {
    && start <= i <= |q| + 1 && Done(q, start) in nodes
    && (start > 0 ==> GoodPath(Done(q, start)) && (start <= |q| ==> q[start - 1] == DOT))
    && (i <= |q| ==> Dots(q[start..i]) == 0)
    && (i == |q| + 1 ==> start == i)
  }

  lemma EmptyPart(nodes: map<Path, Node>, q: Path, start: nat, i: nat)
    requires Scanning(nodes, q, start, i) && i <= |q| && (i == |q| || q[i] == DOT) && start == i
    ensures !GoodPath(q)
  {
    hide Dots;
    if 0 < i < |q| {
      assert q[i - 1] == DOT && q[i] == DOT;
    }
  }

  lemma FullPart(nodes: map<Path, Node>, q: Path, start: nat, i: nat)
    requires Scanning(nodes, q, start, i) && i <= |q| && start < i
    ensures GoodPath(q[..i]) && ParentPath(q[..i]) in nodes && NameOf(q[..i]) == q[start..i]
  {
    hide GoodPath, ParentPath, NameOf, Dots;
    var part, before := q[start..i], Done(q, start);
    if start == 0 {
      assert q[..i] == part;
      GrownPath([], part);
    } else {
      GrownPath(before, part);
      GoodIsNotEmpty(before);
      JoinedPrefix(q, start, i);
    }
  }

  lemma JoinedPrefix(q: Path, start: nat, i: nat)
    requires 0 < start < i <= |q| && q[start - 1] == DOT
    ensures q[..i] == q[..start - 1] + [DOT] + q[start..i]
  {
  }

  lemma PartEnds(nodes: map<Path, Node>, q: Path, start: nat, i: nat)
    requires Scanning(nodes, q, start, i) && i <= |q| && (i == |q| || q[i] == DOT)
    ensures q[start..i] == [] ==> !GoodPath(q)
    ensures q[start..i] != [] ==> GoodPath(q[..i]) && ParentPath(q[..i]) in nodes && NameOf(q[..i]) == q[start..i]
    ensures Above(q[..i], q)
  {
    hide GoodPath, ParentPath, NameOf, Dots;
    if start == i {
      EmptyPart(nodes, q, start, i);
    } else {
      FullPart(nodes, q, start, i);
    }
    assert i == |q| ==> q[..i] == q;
    assert i < |q| ==> q[..i] + [DOT] == q[..i + 1];
  }

  lemma PartGoesOn(nodes: map<Path, Node>, q: Path, start: nat, i: nat)
    requires Scanning(nodes, q, start, i) && i < |q| && q[i] != DOT
    ensures Scanning(nodes, q, start, i + 1)
  {
    var part := q[start..i + 1];
    assert part[..|part| - 1] == q[start..i];
  }

  /** Adds the keys above `q`, and `q`; fails on an empty part. */
  method AddParts(nodes0: map<Path, Node>, order0: seq<Path>, q: Path, ghost keys: seq<Key>)
    returns (ok: bool, nodes: map<Path, Node>, order: seq<Path>)
    requires Growing(nodes0, keys, q) && Lists(order0, nodes0)
    ensures ok <==> GoodPath(q)
    ensures ok ==> Growing(nodes, keys, q) && Lists(order, nodes) && q in nodes
  {
    hide Growing, GoodPath, Lists, Scanning, Above;
    nodes, order := nodes0, order0;
    var start := 0;
    ScanStarts(nodes, keys, q);
    var i := 0;
    while i <= |q|
      invariant Growing(nodes, keys, q) && Lists(order, nodes) && start <= |q| + 1
      invariant Scanning(nodes, q, start, i) && start <= i <= |q| + 1
    {
      if i == |q| || q[i] == DOT {
        var part := q[start..i];
        PartEnds(nodes, q, start, i);
        if part == [] {
          return false, nodes, order;
        }
        var p := q[..i];
        if p !in nodes {
          AddNode(nodes, keys, q, p);
          OneMorePath(order, nodes, p, Node(part, 0, []));
          nodes := nodes[p := Node(part, 0, [])];
          order := order + [p];
        }
        start := i + 1;
        ScanNextPart(nodes, q, i);
      } else {
        PartGoesOn(nodes, q, start, i);
      }
      i := i + 1;
    }
    ScanEnds(nodes, q, start, i);
    return true, nodes, order;
  }

  lemma ScanStarts(nodes: map<Path, Node>, keys: seq<Key>, q: Path)
    requires Growing(nodes, keys, q)
    ensures Scanning(nodes, q, 0, 0)
  {
  }

  lemma ScanNextPart(nodes: map<Path, Node>, q: Path, i: nat)
    requires i <= |q| && (i == |q| || q[i] == DOT) && q[..i] in nodes && GoodPath(q[..i])
    ensures Scanning(nodes, q, i + 1, i + 1)
  {
  }

  lemma ScanEnds(nodes: map<Path, Node>, q: Path, start: nat, i: nat)
    requires Scanning(nodes, q, start, i) && i == |q| + 1
    ensures q in nodes && GoodPath(q)
  {
    assert q[..|q|] == q;
  }

  lemma OneMorePath(order: seq<Path>, nodes: map<Path, Node>, p: Path, n: Node)
    requires Lists(order, nodes) && p !in nodes
    ensures Lists(order + [p], nodes[p := n])
  {
  }
}
