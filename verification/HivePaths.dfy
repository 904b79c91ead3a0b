/** Key paths of a configuration hive (tools/hivec.py:438-465) as byte strings: their order, their
    parents, and why the children of a node stand next to each other. */
module HivePaths {
  import opened Bits

  type Path = seq<byte>

  const DOT: byte := 46

  function Dots(p: Path): nat {
    if p == [] then 0 else Dots(p[..|p| - 1]) + if p[|p| - 1] == DOT then 1 else 0
  }

  /** The path up to its last dot; the root has the empty path. */
  function ParentPath(p: Path): (r: Path)
    ensures |r| <= |p| && (p != [] ==> |r| < |p|)
  {
    if Dots(p) == 0 then [] else BeforeLastDot(p)
  }

  function BeforeLastDot(p: Path): (r: Path)
    requires Dots(p) > 0
    ensures |r| < |p| && p == r + [DOT] + p[|r| + 1..] && Dots(p[|r| + 1..]) == 0
    decreases |p|
  {
    var n := |p| - 1;
    if p[n] == DOT then p[..n]
    else
      var r := BeforeLastDot(p[..n]);
      LastPart(p, r);
      r
  }

  lemma LastPart(p: Path, r: Path)
    requires p != [] && p[|p| - 1] != DOT && |r| < |p| - 1
    requires p[..|p| - 1] == r + [DOT] + p[..|p| - 1][|r| + 1..] && Dots(p[..|p| - 1][|r| + 1..]) == 0
    ensures p == r + [DOT] + p[|r| + 1..] && Dots(p[|r| + 1..]) == 0
  {
    var n := |p| - 1;
    var tail := p[|r| + 1..];
    assert tail[..|tail| - 1] == p[..n][|r| + 1..];
    assert p == p[..n] + [p[n]];
  }

  /** The last part of a path. */
  function NameOf(p: Path): Path {
    if Dots(p) == 0 then p else p[|BeforeLastDot(p)| + 1..]
  }

  lemma {:induction false} DotsAppend(p: Path, q: Path)
    ensures Dots(p + q) == Dots(p) + Dots(q)
    decreases |q|
  {
    if q == [] {
      assert p + q == p;
    } else {
      var n := |q| - 1;
      DotsAppend(p, q[..n]);
      assert (p + q)[..|p + q| - 1] == p + q[..n];
    }
  }

  lemma DotsOfDot()
    ensures Dots([DOT]) == 1
  {
    assert [DOT][..0] == [];
  }

  /** A child has one dot more than its parent, unless the parent is the root. */
  lemma ParentDots(p: Path)
    requires Dots(p) > 0
    ensures Dots(p) == Dots(ParentPath(p)) + 1
  {
    var r := BeforeLastDot(p);
    var tail := p[|r| + 1..];
    DotsOfDot();
    DotsAppend(r, [DOT]);
    DotsAppend(r + [DOT], tail);
  }

  /** A path is its parent's path, a dot and its name. */
  lemma PathIsJoined(p: Path)
    ensures Dots(p) == 0 ==> ParentPath(p) == [] && NameOf(p) == p
    ensures Dots(p) > 0 ==> p == ParentPath(p) + [DOT] + NameOf(p)
    ensures Dots(NameOf(p)) == 0
  {
  }

  // ---- the order ----

  /** Byte-wise order, which is the order of the code points. */
  predicate Less(p: Path, q: Path) {
    q != [] && (p == [] || p[0] < q[0] || (p[0] == q[0] && Less(p[1..], q[1..])))
  }

  /** Fewer parts first, then byte-wise. */
  predicate Before(p: Path, q: Path) {
    Dots(p) < Dots(q) || (Dots(p) == Dots(q) && Less(p, q))
  }

  lemma {:induction false} LessTransitive(p: Path, q: Path, r: Path)
    requires Less(p, q) && Less(q, r)
    ensures Less(p, r)
    decreases |p|
  {
    if p != [] && p[0] == q[0] == r[0] {
      LessTransitive(p[1..], q[1..], r[1..]);
    }
  }

  lemma {:induction false} LessTotal(p: Path, q: Path)
    ensures p == q || Less(p, q) || Less(q, p)
    ensures !(Less(p, q) && Less(q, p)) && !Less(p, p)
    decreases |p|
  {
    if p != [] && q != [] && p[0] == q[0] {
      LessTotal(p[1..], q[1..]);
      assert p == [p[0]] + p[1..] && q == [q[0]] + q[1..];
    }
    if p != [] {
      LessTotal(p[1..], p[1..]);
    }
  }

  /** Strings that share a prefix form an interval of the order. */
  lemma {:induction false} PrefixInterval(pre: Path, a: Path, b: Path, c: Path)
    requires pre <= a && pre <= c && Less(a, b) && Less(b, c)
    ensures pre <= b
    decreases |pre|
  {
    if pre != [] {
      assert a[0] == pre[0] == c[0];
      PrefixInterval(pre[1..], a[1..], b[1..], c[1..]);
      assert pre == [pre[0]] + pre[1..] && b == [b[0]] + b[1..];
    }
  }

  /** Among paths of the right depth, a prefix tells the parent. */
  lemma PrefixIsParent(p: Path, q: Path)
    requires p != [] && Dots(q) == Dots(p) + 1
    ensures p + [DOT] <= q <==> ParentPath(q) == p
  {
    hide Dots, ParentPath, NameOf;
    PathIsJoined(q);
    if p + [DOT] <= q {
      var tail := q[|p| + 1..];
      DotsOfDot();
      DotsAppend(p, [DOT]);
      DotsAppend(p + [DOT], tail);
      assert q == p + [DOT] + tail;
      SameLastDot(p, tail, ParentPath(q), NameOf(q));
    }
  }

  lemma SameLastDot(p: Path, t: Path, r: Path, u: Path)
    requires p + [DOT] + t == r + [DOT] + u && Dots(t) == 0 && Dots(u) == 0
    ensures p == r
  {
    var q := p + [DOT] + t;
    if |p| < |r| {
      assert t[|r| - |p| - 1] == q[|r|] == DOT;
      NoDot(t, |r| - |p| - 1);
    } else if |r| < |p| {
      assert u[|p| - |r| - 1] == q[|p|] == DOT;
      NoDot(u, |p| - |r| - 1);
    }
    assert q[..|p|] == p && q[..|r|] == r;
  }

  lemma {:induction false} NoDot(t: Path, i: nat)
    requires Dots(t) == 0 && i < |t|
    ensures t[i] != DOT
    decreases |t|
  {
    if i < |t| - 1 {
      NoDot(t[..|t| - 1], i);
    }
  }

  /** Between two children of the same node in the order there are only children of that node. */
  lemma ChildrenAreContiguous(a: Path, b: Path, c: Path)
    requires Before(a, b) && Before(b, c) && ParentPath(a) == ParentPath(c)
    requires ParentPath(a) == [] ==> Dots(a) == Dots(c) == 0
    ensures ParentPath(b) == ParentPath(a)
  {
    var p := ParentPath(a);
    if p != [] {
      ParentDots(a);
      ParentDots(c);
      PrefixIsParent(p, a);
      PrefixIsParent(p, c);
      PrefixInterval(p + [DOT], a, b, c);
      PrefixIsParent(p, b);
    }
  }
}
