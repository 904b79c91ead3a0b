/** CSS selectors: what a selector means on a document, after section 8 of W3C
    Selectors Level 3, and the right-to-left search that decides it. */
module Selector {
  import opened Bits

  datatype Combinator = Descendant | Child | Adjacent | Sibling

  datatype AttrOp = Present | Equals | Includes | Dash | Prefix | Suffix | Substring

  datatype AttrSel = AttrSel(name: string, value: Option<string>, op: AttrOp)

  /** Identifiers are never empty. */
  type Name = s: string | s != "" witness "a"

  datatype Compound = Compound(tag: Option<string>, id: Option<string>, classes: seq<Name>, attrs: seq<AttrSel>,
                               firstChild: bool, comb: Combinator)

  /** `parent` and `prev` are node numbers, -1 for none. */
  datatype Node = Node(tag: Option<string>, attrs: map<string, string>, parent: int, prev: int)

  /** A document's elements in document order; `hasPrev` says whether the host can report
      previous siblings at all. */
  datatype Doc = Doc(nodes: seq<Node>, hasPrev: bool)

  ghost predicate InOrder(d: Doc) {
    forall n :: 0 <= n < |d.nodes| ==> -1 <= d.nodes[n].parent < n && -1 <= d.nodes[n].prev < n
  }

  predicate IsNode(d: Doc, n: int) {
    0 <= n < |d.nodes|
  }

  // ---- strings ----

  function Fold(c: char): char {
    if 'A' <= c <= 'Z' then c + 32 as char else c
  }

  /** Equality up to the case of ASCII letters. */
  ghost predicate Same(a: string, b: string) {
    |a| == |b| && forall i :: 0 <= i < |a| ==> Fold(a[i]) == Fold(b[i])
  }

  /** `b` stands in `a` at position `at`. */
  ghost predicate SameAt(a: string, at: nat, b: string) {
    at + |b| <= |a| && Same(a[at..at + |b|], b)
  }

  predicate Blank(c: char, formFeed: bool) {
    c == ' ' || c == '\t' || c == '\n' || c == '\r' || (formFeed && c == 12 as char)
  }

  /** `s[i..j]` is one of the words the blanks of `s` set apart. */
  ghost predicate IsWord(s: string, i: nat, j: nat, formFeed: bool) {
    && i < j <= |s|
    && (forall k :: i <= k < j ==> !Blank(s[k], formFeed))
    && (i == 0 || Blank(s[i - 1], formFeed))
    && (j == |s| || Blank(s[j], formFeed))
  }

  ghost predicate HasWord(s: string, w: string, formFeed: bool) {
    exists i: nat, j: nat :: IsWord(s, i, j, formFeed) && Same(s[i..j], w)
  }

  // ---- one compound against one element ----

  /** An attribute test as the matcher decides it: letters are compared without case, and an empty operand
      matches nothing, except that equality matches an empty value. */
  ghost predicate AttrHolds(a: AttrSel, have: Option<string>) {
    match have
    case None => false
    case Some(h) =>
      if a.op == Present then true
      else
        match a.value
        case None => false
        case Some(v) =>
          if v == "" then a.op == Equals && h == ""
          else
            match a.op
            case Present => true
            case Equals => Same(h, v)
            case Includes => HasWord(h, v, true)
            case Dash => SameAt(h, 0, v) && (|h| == |v| || h[|v|] == '-')
            case Prefix => SameAt(h, 0, v)
            case Suffix => |h| >= |v| && SameAt(h, |h| - |v|, v)
            case Substring => exists at: nat :: SameAt(h, at, v)
  }

  function Attr(n: Node, name: string): Option<string> {
    if name in n.attrs then Some(n.attrs[name]) else None
  }

  ghost predicate Holds(c: Compound, d: Doc, n: int)
    requires IsNode(d, n)
  {
    var node := d.nodes[n];
    && (c.tag.Some? ==> node.tag.Some? && Same(node.tag.value, c.tag.value))
    && (c.id.Some? ==> Attr(node, "id") == Some(c.id.value))
    && (c.classes != [] ==> Attr(node, "class").Some?)
    && (c.classes != [] ==> forall k :: 0 <= k < |c.classes| ==> HasWord(Attr(node, "class").value, c.classes[k], false))
    && (forall k :: 0 <= k < |c.attrs| ==> AttrHolds(c.attrs[k], Attr(node, c.attrs[k].name)))
    && (c.firstChild ==> d.hasPrev && node.prev < 0)
  }

  // ---- combinators (section 8) ----

  function Up(d: Doc, siblings: bool, n: int): int
    requires IsNode(d, n)
  {
    if siblings then d.nodes[n].prev else d.nodes[n].parent
  }

  /** `m` lies one or more steps up from `n`: an ancestor, or an earlier sibling. */
  ghost predicate Above(d: Doc, siblings: bool, n: int, m: int)
    requires InOrder(d) && IsNode(d, n)
    decreases n
  {
    var u := Up(d, siblings, n);
    u >= 0 && (u == m || Above(d, siblings, u, m))
  }

  ghost predicate Related(d: Doc, comb: Combinator, left: int, right: int)
    requires InOrder(d) && IsNode(d, right)
  {
    match comb
    case Child => d.nodes[right].parent == left && left >= 0
    case Adjacent => d.hasPrev && d.nodes[right].prev == left && left >= 0
    case Sibling => d.hasPrev && Above(d, true, right, left)
    case Descendant => Above(d, false, right, left)
  }

  /** `a` assigns an element to each of the first `last + 1` compounds, the last of them
      `node`, such that every compound holds of its element and every combinator of the
      two elements around it. */
  ghost predicate Assigns(parts: seq<Compound>, last: nat, d: Doc, node: int, a: seq<int>)
    requires InOrder(d) && last < |parts|
  {
    && |a| == last + 1 && a[last] == node
    && (forall k :: 0 <= k <= last ==> IsNode(d, a[k]) && Holds(parts[k], d, a[k]))
    && forall k :: 0 < k <= last ==> Related(d, parts[k].comb, a[k - 1], a[k])
  }

  ghost predicate Selects(parts: seq<Compound>, last: nat, d: Doc, node: int)
    requires InOrder(d) && last < |parts|
  {
    exists a :: Assigns(parts, last, d, node, a)
  }

  // ---- the search, without a budget ----

  /** Whether the search succeeds and how many compounds it tests. */
  datatype Outcome = Outcome(found: bool, cost: nat)

  ghost function Search(parts: seq<Compound>, last: nat, d: Doc, node: int): (r: Outcome)
    requires InOrder(d) && last < |parts| && IsNode(d, node)
    ensures r.cost >= 1
    decreases last, 1, node
  {
    if !Holds(parts[last], d, node) then Outcome(false, 1)
    else if last == 0 then Outcome(true, 1)
    else
      var r := Left(parts, last, d, node);
      Outcome(r.found, 1 + r.cost)
  }

  /** The search for the compounds left of `last`, from the element `last` matched. */
  ghost function Left(parts: seq<Compound>, last: nat, d: Doc, node: int): Outcome
    requires InOrder(d) && 0 < last < |parts| && IsNode(d, node)
    decreases last, 0, node
  {
    match parts[last].comb
    case Child => One(parts, last - 1, d, d.nodes[node].parent)
    case Adjacent => if d.hasPrev then One(parts, last - 1, d, d.nodes[node].prev) else Outcome(false, 0)
    case Sibling => if d.hasPrev then Walk(parts, last - 1, d, true, d.nodes[node].prev) else Outcome(false, 0)
    case Descendant => Walk(parts, last - 1, d, false, d.nodes[node].parent)
  }

  ghost function One(parts: seq<Compound>, last: nat, d: Doc, n: int): Outcome
    requires InOrder(d) && last < |parts| && -1 <= n < |d.nodes|
    decreases last, 2, n
  {
    if n < 0 then Outcome(false, 0) else Search(parts, last, d, n)
  }

  /** Tries `n` and everything above it in turn. */
  ghost function Walk(parts: seq<Compound>, last: nat, d: Doc, siblings: bool, n: int): (r: Outcome)
    requires InOrder(d) && last < |parts| && -1 <= n < |d.nodes|
    ensures n >= 0 ==> r.cost >= 1
    decreases last, 2, n
  {
    if n < 0 then Outcome(false, 0)
    else
      var r := Search(parts, last, d, n);
      if r.found then r
      else
        var w := Walk(parts, last, d, siblings, Up(d, siblings, n));
        Outcome(w.found, r.cost + w.cost)
  }

  // ---- the search decides the meaning ----

  lemma AssignsShorter(parts: seq<Compound>, last: nat, d: Doc, node: int, a: seq<int>)
    requires InOrder(d) && 0 < last < |parts| && Assigns(parts, last, d, node, a)
    ensures Assigns(parts, last - 1, d, a[last - 1], a[..last])
    ensures IsNode(d, node) && Related(d, parts[last].comb, a[last - 1], node)
  {
  }

  lemma AssignsLonger(parts: seq<Compound>, last: nat, d: Doc, node: int, a: seq<int>, m: int)
    requires InOrder(d) && 0 < last < |parts| && IsNode(d, node)
    requires Holds(parts[last], d, node) && Assigns(parts, last - 1, d, m, a) && Related(d, parts[last].comb, m, node)
    ensures Assigns(parts, last, d, node, a + [node])
  {
  }

  lemma {:induction false} SearchSound(parts: seq<Compound>, last: nat, d: Doc, node: int) returns (a: seq<int>)
    requires InOrder(d) && last < |parts| && IsNode(d, node)
    ensures Search(parts, last, d, node).found ==> Assigns(parts, last, d, node, a)
    decreases last, 1, node
  {
    a := [node];
    if Search(parts, last, d, node).found && last > 0 {
      assert Left(parts, last, d, node).found;
      var m;
      match parts[last].comb {
        case Child =>
          m := d.nodes[node].parent;
          assert One(parts, last - 1, d, m).found;
          a := SearchSound(parts, last - 1, d, m);
        case Adjacent =>
          m := d.nodes[node].prev;
          assert One(parts, last - 1, d, m).found;
          a := SearchSound(parts, last - 1, d, m);
        case Sibling =>
          assert Walk(parts, last - 1, d, true, d.nodes[node].prev).found;
          m, a := WalkSound(parts, last - 1, d, true, d.nodes[node].prev);
        case Descendant =>
          assert Walk(parts, last - 1, d, false, d.nodes[node].parent).found;
          m, a := WalkSound(parts, last - 1, d, false, d.nodes[node].parent);
      }
      AssignsLonger(parts, last, d, node, a, m);
      a := a + [node];
    }
  }

  lemma {:induction false} WalkSound(parts: seq<Compound>, last: nat, d: Doc, siblings: bool, n: int)
    returns (m: int, a: seq<int>)
    requires InOrder(d) && last < |parts| && -1 <= n < |d.nodes|
    ensures Walk(parts, last, d, siblings, n).found ==>
      n >= 0 && (m == n || Above(d, siblings, n, m)) && Assigns(parts, last, d, m, a)
    decreases last, 2, n
  {
    m, a := n, [];
    if n >= 0 {
      a := SearchSound(parts, last, d, n);
      if !Search(parts, last, d, n).found {
        m, a := WalkSound(parts, last, d, siblings, Up(d, siblings, n));
      }
    }
  }

  lemma {:induction false} SearchComplete(parts: seq<Compound>, last: nat, d: Doc, node: int, a: seq<int>)
    requires InOrder(d) && last < |parts| && Assigns(parts, last, d, node, a)
    ensures IsNode(d, node) && Search(parts, last, d, node).found
    decreases last, 1, node
  {
    if last > 0 {
      AssignsShorter(parts, last, d, node, a);
      var m := a[last - 1];
      match parts[last].comb {
        case Child => SearchComplete(parts, last - 1, d, m, a[..last]);
        case Adjacent => SearchComplete(parts, last - 1, d, m, a[..last]);
        case Sibling => WalkComplete(parts, last - 1, d, true, d.nodes[node].prev, m, a[..last]);
        case Descendant => WalkComplete(parts, last - 1, d, false, d.nodes[node].parent, m, a[..last]);
      }
      assert Left(parts, last, d, node).found;
    }
  }

  lemma {:induction false} WalkComplete(parts: seq<Compound>, last: nat, d: Doc, siblings: bool, n: int, m: int, a: seq<int>)
    requires InOrder(d) && last < |parts| && 0 <= n < |d.nodes|
    requires m == n || Above(d, siblings, n, m)
    requires Assigns(parts, last, d, m, a)
    ensures Walk(parts, last, d, siblings, n).found
    decreases last, 2, n
  {
    if m == n {
      SearchComplete(parts, last, d, n, a);
    } else {
      WalkComplete(parts, last, d, siblings, Up(d, siblings, n), m, a);
    }
  }

  /** The unbudgeted search finds an element exactly when the selector selects it. */
  lemma SearchExact(parts: seq<Compound>, last: nat, d: Doc, node: int)
    requires InOrder(d) && last < |parts| && IsNode(d, node)
    ensures Search(parts, last, d, node).found <==> Selects(parts, last, d, node)
  {
    var a := SearchSound(parts, last, d, node);
    if Selects(parts, last, d, node) {
      var b :| Assigns(parts, last, d, node, b);
      SearchComplete(parts, last, d, node, b);
    }
  }
}
