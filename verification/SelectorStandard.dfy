/** Selectors as W3C Selectors Level 3 defines them, with letters compared without case, and how
    far the matcher's own tests agree. */
module SelectorStandard {
  import opened Bits
  import opened Selector

  /** Section 6.3: an empty operand matches nothing for `~=`, `^=`, `$=` and `*=`, and is an ordinary one for `|=`. */
  ghost predicate AttrStandard(a: AttrSel, have: Option<string>) {
    match have
    case None => false
    case Some(h) =>
      if a.op == Present then true
      else
        match a.value
        case None => false
        case Some(v) =>
          match a.op
          case Present => true
          case Equals => Same(h, v)
          case Includes => v != "" && HasWord(h, v, true)
          case Dash => SameAt(h, 0, v) && (|h| == |v| || h[|v|] == '-')
          case Prefix => v != "" && SameAt(h, 0, v)
          case Suffix => v != "" && |h| >= |v| && SameAt(h, |h| - |v|, v)
          case Substring => v != "" && exists at: nat :: SameAt(h, at, v)
  }

  /** The test `[a|=""]` on a value that is empty or starts with a dash. */
  predicate EmptyDash(a: AttrSel, have: Option<string>) {
    a.op == Dash && a.value == Some("") && have.Some? && (have.value == "" || have.value[0] == '-')
  }

  /** The matcher's attribute test is the standard's if and only if this is not the test. */
  lemma AttrAgreesIff(a: AttrSel, have: Option<string>)
    ensures AttrHolds(a, have) == AttrStandard(a, have) <==> !EmptyDash(a, have)
  {
    if have.Some? && a.value == Some("") {
      assert SameAt(have.value, 0, "");
    }
  }

  /** `[a|=""]` selects an empty attribute, and the matcher does not. */
  lemma EmptyDashDiffers()
    ensures var a := AttrSel("a", Some(""), Dash);
      AttrStandard(a, Some("")) && !AttrHolds(a, Some("")) && AttrStandard(a, Some("-x")) && !AttrHolds(a, Some("-x"))
  {
  }

  // ---- classes (section 6.4) ----

  const FORM_FEED: char := 12 as char

  predicate NoFormFeed(s: string) {
    forall i :: 0 <= i < |s| ==> s[i] != FORM_FEED
  }

  /** A form feed stands right before or right behind `s[i..j]`. */
  predicate Touched(s: string, i: nat, j: nat) {
    (0 < i <= |s| && s[i - 1] == FORM_FEED) || (j < |s| && s[j] == FORM_FEED)
  }

  /** The class is a word of `s` that no form feed touches. */
  ghost predicate HasCleanWord(s: string, w: string) {
    exists i: nat, j: nat :: IsWord(s, i, j, true) && Same(s[i..j], w) && !Touched(s, i, j)
  }

  lemma FoldKeepsFeed(c: char)
    ensures Fold(c) == FORM_FEED <==> c == FORM_FEED
  {
  }

  /** Folding neither makes nor hides a form feed. */
  lemma SameFeeds(a: string, b: string)
    requires Same(a, b)
    ensures NoFormFeed(a) <==> NoFormFeed(b)
  {
    forall i | 0 <= i < |a|
      ensures a[i] == FORM_FEED <==> b[i] == FORM_FEED
    {
      FoldKeepsFeed(a[i]);
      FoldKeepsFeed(b[i]);
    }
  }

  /** The words of the matcher that hold no form feed are the words of the standard that no
      form feed touches. */
  lemma CleanWord(s: string, i: nat, j: nat)
    requires i < j <= |s|
    ensures IsWord(s, i, j, true) && !Touched(s, i, j) <==> IsWord(s, i, j, false) && NoFormFeed(s[i..j])
  {
    if IsWord(s, i, j, false) && NoFormFeed(s[i..j]) {
      assert forall k :: i <= k < j ==> s[k] == s[i..j][k - i];
    }
  }

  /** A word of the standard holds no form feed. */
  lemma WordHasNoFeed(s: string, i: nat, j: nat)
    requires IsWord(s, i, j, true)
    ensures NoFormFeed(s[i..j])
  {
  }

  /** The matcher finds a class without form feeds exactly where it stands untouched by one. */
  lemma MatcherFindsClean(s: string, w: string)
    requires NoFormFeed(w)
    ensures HasWord(s, w, false) <==> HasCleanWord(s, w)
  {
    hide Same, Touched, NoFormFeed;
    if i: nat, j: nat :| IsWord(s, i, j, false) && Same(s[i..j], w) {
      SameFeeds(s[i..j], w);
      CleanWord(s, i, j);
    }
    if i: nat, j: nat :| IsWord(s, i, j, true) && Same(s[i..j], w) && !Touched(s, i, j) {
      CleanWord(s, i, j);
    }
  }

  /** No word of the standard is a class with a form feed. */
  lemma FeedIsNoClass(s: string, w: string)
    requires !NoFormFeed(w)
    ensures !HasWord(s, w, true)
  {
    if i: nat, j: nat :| IsWord(s, i, j, true) && Same(s[i..j], w) {
      WordHasNoFeed(s, i, j);
      SameFeeds(s[i..j], w);
    }
  }

  /** The standard finds the class, but only next to form feeds. */
  ghost predicate OnlyTouched(s: string, w: string) {
    HasWord(s, w, true) && forall i: nat, j: nat :: IsWord(s, i, j, true) && Same(s[i..j], w) ==> Touched(s, i, j)
  }

  /** The class has a form feed of its own, and the matcher finds it all the same. */
  ghost predicate FoundWithFeed(s: string, w: string) {
    !NoFormFeed(w) && HasWord(s, w, false)
  }

  /** The matcher's class test is the standard's if and only if the class neither stands next
      to form feeds only nor holds a form feed and is found. */
  lemma ClassAgreesIff(s: string, w: string)
    ensures HasWord(s, w, false) == HasWord(s, w, true) <==> !OnlyTouched(s, w) && !FoundWithFeed(s, w)
    ensures OnlyTouched(s, w) ==> !HasWord(s, w, false)
    ensures FoundWithFeed(s, w) ==> !HasWord(s, w, true)
  {
    hide Same, Touched, NoFormFeed;
    if NoFormFeed(w) {
      MatcherFindsClean(s, w);
    } else {
      FeedIsNoClass(s, w);
    }
  }

  /** A form feed separates classes, and the matcher takes it for a letter. */
  lemma FormFeedDiffers()
    ensures var s := ['a', FORM_FEED, 'b'];
      && HasWord(s, "a", true) && !HasWord(s, "a", false)
      && !HasWord(s, s, true) && HasWord(s, s, false)
  {
    var s := ['a', FORM_FEED, 'b'];
    assert IsWord(s, 0, 1, true) && s[0..1] == "a";
    forall i: nat, j: nat | IsWord(s, i, j, false)
      ensures i == 0 && j == 3
    {
    }
    assert IsWord(s, 0, 3, false) && s[0..3] == s;
    assert !NoFormFeed(s) by {
      assert s[1] == FORM_FEED;
    }
    FeedIsNoClass(s, s);
  }

  // ---- one compound against one element ----

  /** Sections 6.6.5.2 and 6.6.5.6: the first child of some other element. */
  predicate FirstChild(d: Doc, n: int)
    requires IsNode(d, n)
  {
    d.nodes[n].parent >= 0 && d.nodes[n].prev < 0
  }

  ghost predicate HoldsStandard(c: Compound, d: Doc, n: int)
    requires IsNode(d, n)
  {
    var node := d.nodes[n];
    && Named(c, node)
    && (forall k :: 0 <= k < |c.classes| ==> ClassTest(c, node, k, true))
    && (forall k :: 0 <= k < |c.attrs| ==> AttrStandard(c.attrs[k], Attr(node, c.attrs[k].name)))
    && (c.firstChild ==> FirstChild(d, n))
  }

  /** The tests of type and id, which raise no question. */
  ghost predicate Named(c: Compound, node: Node) {
    && (c.tag.Some? ==> node.tag.Some? && Same(node.tag.value, c.tag.value))
    && (c.id.Some? ==> Attr(node, "id") == Some(c.id.value))
  }

  ghost predicate ClassTest(c: Compound, node: Node, k: nat, formFeed: bool)
    requires k < |c.classes|
  {
    Attr(node, "class").Some? && HasWord(Attr(node, "class").value, c.classes[k], formFeed)
  }

  /** The matcher's meaning of a compound, test by test. */
  lemma HoldsByTests(c: Compound, d: Doc, n: int)
    requires IsNode(d, n)
    ensures var node := d.nodes[n];
      Holds(c, d, n) <==>
        (&& Named(c, node)
         && (forall k :: 0 <= k < |c.classes| ==> ClassTest(c, node, k, false))
         && (forall k :: 0 <= k < |c.attrs| ==> AttrHolds(c.attrs[k], Attr(node, c.attrs[k].name)))
         && (c.firstChild ==> d.hasPrev && node.prev < 0))
  {
    hide AttrHolds, HasWord, Same;
    var node := d.nodes[n];
    forall k: nat | k < |c.classes|
      ensures ClassTest(c, node, k, false)
         <==> Attr(node, "class").Some? && HasWord(Attr(node, "class").value, c.classes[k], false)
    {
    }
    if c.classes != [] && Attr(node, "class").None? {
      assert !ClassTest(c, node, 0, false);
    }
  }

  // ---- where the two meanings of a compound agree ----

  ghost predicate OddClass(c: Compound, node: Node, k: nat)
    requires k < |c.classes|
  {
    && Attr(node, "class").Some?
    && (OnlyTouched(Attr(node, "class").value, c.classes[k]) || FoundWithFeed(Attr(node, "class").value, c.classes[k]))
  }

  /** A parentless element without an earlier sibling: the matcher takes it for a first child. */
  predicate Rootlike(d: Doc, n: int)
    requires IsNode(d, n)
  {
    d.hasPrev && d.nodes[n].parent < 0 && d.nodes[n].prev < 0
  }

  /** Some test holds for the matcher and fails by the standard. */
  ghost predicate Extra(c: Compound, d: Doc, n: int)
    requires IsNode(d, n)
  {
    var node := d.nodes[n];
    || (c.firstChild && Rootlike(d, n))
    || (Attr(node, "class").Some? &&
        exists k :: 0 <= k < |c.classes| && FoundWithFeed(Attr(node, "class").value, c.classes[k]))
  }

  /** Some test holds by the standard and fails for the matcher: a dash match with an empty
      operand, a class only form feeds set apart, or a first child the host cannot report. */
  ghost predicate Missing(c: Compound, d: Doc, n: int)
    requires IsNode(d, n)
  {
    var node := d.nodes[n];
    || (c.firstChild && !d.hasPrev && FirstChild(d, n))
    || (exists k :: 0 <= k < |c.attrs| && EmptyDash(c.attrs[k], Attr(node, c.attrs[k].name)))
    || (Attr(node, "class").Some? &&
        exists k :: 0 <= k < |c.classes| && OnlyTouched(Attr(node, "class").value, c.classes[k]))
  }

  /** All tests hold on which there is only one opinion. */
  ghost predicate OthersHold(c: Compound, d: Doc, n: int)
    requires IsNode(d, n)
  {
    var node := d.nodes[n];
    && Named(c, node)
    && (forall k :: 0 <= k < |c.classes| ==> OddClass(c, node, k) || ClassTest(c, node, k, true))
    && (forall k :: 0 <= k < |c.attrs| ==>
          EmptyDash(c.attrs[k], Attr(node, c.attrs[k].name)) || AttrStandard(c.attrs[k], Attr(node, c.attrs[k].name)))
    && (c.firstChild ==> d.nodes[n].prev < 0 && (d.hasPrev || FirstChild(d, n)))
  }

  /** The matcher and the standard differ on a compound. */
  ghost predicate Differs(c: Compound, d: Doc, n: int)
    requires IsNode(d, n)
  {
    OthersHold(c, d, n) && (Extra(c, d, n) <==> !Missing(c, d, n))
  }

  lemma ClassByClass(c: Compound, node: Node, k: nat)
    requires k < |c.classes|
    ensures !OddClass(c, node, k) ==> ClassTest(c, node, k, true) == ClassTest(c, node, k, false)
    ensures Attr(node, "class").Some? && OnlyTouched(Attr(node, "class").value, c.classes[k]) ==>
      ClassTest(c, node, k, true) && !ClassTest(c, node, k, false)
    ensures Attr(node, "class").Some? && FoundWithFeed(Attr(node, "class").value, c.classes[k]) ==>
      !ClassTest(c, node, k, true) && ClassTest(c, node, k, false)
  {
    hide HasWord, NoFormFeed, Touched, Same, IsWord;
    if Attr(node, "class").Some? {
      ClassAgreesIff(Attr(node, "class").value, c.classes[k]);
    }
  }

  lemma AttrByAttr(a: AttrSel, have: Option<string>)
    ensures !EmptyDash(a, have) ==> AttrHolds(a, have) == AttrStandard(a, have)
    ensures EmptyDash(a, have) ==> AttrStandard(a, have) && !AttrHolds(a, have)
  {
    AttrAgreesIff(a, have);
  }

  /** The matcher's meaning of a compound is the standard's on an element, except where
      exactly one of the two has a test of its own that holds and all others hold too. */
  lemma HoldsAgreesIff(c: Compound, d: Doc, n: int)
    requires IsNode(d, n)
    ensures Holds(c, d, n) == HoldsStandard(c, d, n) <==> !Differs(c, d, n)
  {
    hide Holds, AttrHolds, AttrStandard, EmptyDash, ClassTest, OnlyTouched, FoundWithFeed, Named;
    var node := d.nodes[n];
    HoldsByTests(c, d, n);
    forall k: nat | k < |c.classes|
      ensures !OddClass(c, node, k) ==> ClassTest(c, node, k, true) == ClassTest(c, node, k, false)
      ensures Attr(node, "class").Some? && OnlyTouched(Attr(node, "class").value, c.classes[k]) ==>
        ClassTest(c, node, k, true) && !ClassTest(c, node, k, false)
      ensures Attr(node, "class").Some? && FoundWithFeed(Attr(node, "class").value, c.classes[k]) ==>
        !ClassTest(c, node, k, true) && ClassTest(c, node, k, false)
    {
      ClassByClass(c, node, k);
    }
    forall k: nat | k < |c.attrs|
      ensures var a, have := c.attrs[k], Attr(node, c.attrs[k].name);
        if EmptyDash(a, have) then AttrStandard(a, have) && !AttrHolds(a, have) else AttrHolds(a, have) == AttrStandard(a, have)
    {
      AttrByAttr(c.attrs[k], Attr(node, c.attrs[k].name));
    }
  }

  /** `:first-child` on the root: the matcher says yes, and the root is no element's child. */
  lemma RootIsNoFirstChild()
    ensures var d := Doc([Node(Some("html"), map[], -1, -1)], true);
      var c := Compound(None, None, [], [], true, Descendant);
      InOrder(d) && Holds(c, d, 0) && !HoldsStandard(c, d, 0)
  {
  }

  // ---- selectors (section 8) ----

  ghost predicate RelatedStandard(d: Doc, comb: Combinator, left: int, right: int)
    requires InOrder(d) && IsNode(d, right)
  {
    match comb
    case Child => d.nodes[right].parent == left && left >= 0
    case Adjacent => d.nodes[right].prev == left && left >= 0
    case Sibling => Above(d, true, right, left)
    case Descendant => Above(d, false, right, left)
  }

  ghost predicate AssignsStandard(parts: seq<Compound>, last: nat, d: Doc, node: int, a: seq<int>)
    requires InOrder(d) && last < |parts|
  {
    && |a| == last + 1 && a[last] == node
    && (forall k :: 0 <= k <= last ==> IsNode(d, a[k]) && HoldsStandard(parts[k], d, a[k]))
    && forall k :: 0 < k <= last ==> RelatedStandard(d, parts[k].comb, a[k - 1], a[k])
  }

  /** The selector selects the element, by the standard. */
  ghost predicate SelectsStandard(parts: seq<Compound>, last: nat, d: Doc, node: int)
    requires InOrder(d) && last < |parts|
  {
    exists a :: AssignsStandard(parts, last, d, node, a)
  }

  /** The host reports previous siblings, or no combinator asks for them. */
  predicate SiblingsKnown(parts: seq<Compound>, last: nat, d: Doc)
    requires last < |parts|
  {
    d.hasPrev || forall k :: 0 < k <= last ==> parts[k].comb != Adjacent && parts[k].comb != Sibling
  }

  /** The search comes to test compound `k` on element `n`: the compounds behind it hold of
      elements that lead from `node` to `n`. */
  ghost predicate Reached(parts: seq<Compound>, last: nat, d: Doc, node: int, k: nat, n: int)
    requires InOrder(d) && last < |parts| && k <= last
    decreases last - k
  {
    if k == last then n == node
    else exists m :: IsNode(d, m) && Reached(parts, last, d, node, k + 1, m) && Leads(parts, d, k, n, m)
  }

  /** Compound `k + 1` holds of `m`, and its combinator leads from there to `n`. */
  ghost predicate Leads(parts: seq<Compound>, d: Doc, k: nat, n: int, m: int)
    requires InOrder(d) && k + 1 < |parts| && IsNode(d, m)
  {
    Holds(parts[k + 1], d, m) && Related(d, parts[k + 1].comb, n, m)
  }

  /** On no element the search reaches is a compound read differently. */
  ghost predicate AllAgree(parts: seq<Compound>, last: nat, d: Doc, node: int)
    requires InOrder(d) && last < |parts|
  {
    forall k: nat, n :: k <= last && IsNode(d, n) && Reached(parts, last, d, node, k, n) ==> !Differs(parts[k], d, n)
  }

  lemma RelatedAgrees(parts: seq<Compound>, last: nat, d: Doc, k: nat, n: int, m: int)
    requires InOrder(d) && 0 < k <= last < |parts| && IsNode(d, m) && SiblingsKnown(parts, last, d)
    ensures Related(d, parts[k].comb, n, m) <==> RelatedStandard(d, parts[k].comb, n, m)
  {
    hide Above;
  }

  /** The elements of an assignment, from either reading, are reached and read alike. */
  lemma {:induction false} AssignedAgrees(parts: seq<Compound>, last: nat, d: Doc, node: int, a: seq<int>, k: nat)
    requires InOrder(d) && k <= last < |parts| && SiblingsKnown(parts, last, d) && AllAgree(parts, last, d, node)
    requires Assigns(parts, last, d, node, a) || AssignsStandard(parts, last, d, node, a)
    ensures IsNode(d, a[k]) && Reached(parts, last, d, node, k, a[k])
    ensures Holds(parts[k], d, a[k]) && HoldsStandard(parts[k], d, a[k])
    decreases last - k
  {
    hide Holds, HoldsStandard, Related, RelatedStandard, Differs;
    if k < last {
      AssignedAgrees(parts, last, d, node, a, k + 1);
      RelatedAgrees(parts, last, d, k + 1, a[k], a[k + 1]);
      assert Leads(parts, d, k, a[k], a[k + 1]);
    }
    HoldsAgreesIff(parts[k], d, a[k]);
  }

  /** The search decides the standard's meaning of a selector whose compounds are not read
      differently on the elements it reaches. */
  lemma SearchIsStandard(parts: seq<Compound>, last: nat, d: Doc, node: int)
    requires InOrder(d) && last < |parts| && IsNode(d, node)
    requires SiblingsKnown(parts, last, d) && AllAgree(parts, last, d, node)
    ensures Search(parts, last, d, node).found <==> SelectsStandard(parts, last, d, node)
  {
    hide Search, Holds, HoldsStandard, Related, RelatedStandard, AllAgree, SiblingsKnown, Reached;
    SearchExact(parts, last, d, node);
    forall a | Assigns(parts, last, d, node, a) || AssignsStandard(parts, last, d, node, a)
      ensures Assigns(parts, last, d, node, a) && AssignsStandard(parts, last, d, node, a)
    {
      forall k | 0 <= k <= last
        ensures Holds(parts[k], d, a[k]) && HoldsStandard(parts[k], d, a[k])
        ensures k > 0 ==> (Related(d, parts[k].comb, a[k - 1], a[k]) <==> RelatedStandard(d, parts[k].comb, a[k - 1], a[k]))
      {
        AssignedAgrees(parts, last, d, node, a, k);
        if k > 0 {
          RelatedAgrees(parts, last, d, k, a[k - 1], a[k]);
        }
      }
    }
  }
}
