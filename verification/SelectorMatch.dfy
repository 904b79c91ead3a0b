/** The matcher's code: the tests on one element, the budgeted search, and the choice of
    the rules that apply to an element. */
module SelectorMatch {
  import opened Bits
  import opened Selector
  import opened SelectorStandard

  const STEPS_MAX := 10000

  // ---- string tests ----

  method EqualFold(a: string, b: string) returns (same: bool)
    ensures same == Same(a, b)
  {
    if |a| != |b| {
      return false;
    }
    for i := 0 to |a|
      invariant forall k :: 0 <= k < i ==> Fold(a[k]) == Fold(b[k])
    {
      if Fold(a[i]) != Fold(b[i]) {
        return false;
      }
    }
    return true;
  }

  /** Compares up to |b| characters of `a` from `at` on. */
  method EqualFoldAt(a: string, at: nat, b: string) returns (same: bool)
    requires at <= |a|
    ensures same == SameAt(a, at, b)
  {
    if at + |b| > |a| {
      return false;
    }
    same := EqualFold(a[at..at + |b|], b);
  }

  /** Looks for `w` among the words of `s`, one word after the other. */
  method FindWord(s: string, w: Name, formFeed: bool) returns (found: bool)
    ensures found == HasWord(s, w, formFeed)
  {
    var e := 0;
    while e < |s|
      invariant e <= |s|
      invariant e == 0 || e == |s| || Blank(s[e], formFeed) || Blank(s[e - 1], formFeed)
      invariant e == 0 || e == |s| || Blank(s[e], formFeed)
      invariant forall i: nat, j: nat :: IsWord(s, i, j, formFeed) && i < e ==> j <= e && !Same(s[i..j], w)
    {
      ghost var e0 := e;
      while e < |s| && Blank(s[e], formFeed)
        invariant e0 <= e <= |s|
        invariant forall k :: e0 <= k < e ==> Blank(s[k], formFeed)
      {
        e := e + 1;
      }
      var c := e;
      while e < |s| && !Blank(s[e], formFeed)
        invariant c <= e <= |s|
        invariant forall k :: c <= k < e ==> !Blank(s[k], formFeed)
      {
        e := e + 1;
      }
      if e - c == |w| {
        var same := EqualFold(s[c..e], w);
        if same {
          assert IsWord(s, c, e, formFeed);
          return true;
        }
      }
      forall i: nat, j: nat | IsWord(s, i, j, formFeed) && i < e
        ensures j <= e && !Same(s[i..j], w)
      {
        WordHere(s, e0, c, e, i, j, formFeed);
      }
    }
    return false;
  }

  predicate BlankAt(s: string, k: int, formFeed: bool) {
    0 <= k < |s| && Blank(s[k], formFeed)
  }

  /** Between `e0` and `e` there is at most the word `s[c..e]`. */
  lemma WordHere(s: string, e0: nat, c: nat, e: nat, i: nat, j: nat, formFeed: bool)
    requires e0 <= c <= e <= |s| && IsWord(s, i, j, formFeed) && i < e
    requires forall k :: e0 <= k < c ==> Blank(s[k], formFeed)
    requires forall k :: c <= k < e ==> !Blank(s[k], formFeed)
    requires e == |s| || Blank(s[e], formFeed)
    ensures i < e0 || (i == c && j == e)
  {
    assert e0 <= i < c ==> BlankAt(s, i, formFeed);
    assert c < i ==> !BlankAt(s, i - 1, formFeed);
    assert c <= j < e ==> !BlankAt(s, j, formFeed);
    assert i <= e < j ==> !BlankAt(s, e, formFeed);
  }

  /** Looks for `w` anywhere in `s`. */
  method FindSubstring(s: string, w: Name) returns (found: bool)
    ensures found == exists at: nat :: SameAt(s, at, w)
  {
    for at := 0 to |s|
      invariant forall k: nat :: k < at ==> !SameAt(s, k, w)
    {
      var here := EqualFoldAt(s, at, w);
      if here {
        return true;
      }
    }
    return false;
  }

  /** The test of section 6.3, except on an empty operand of `|=`. */
  method AttrMatch(a: AttrSel, have: Option<string>) returns (ok: bool)
    ensures ok == AttrHolds(a, have)
    ensures ok == AttrStandard(a, have) <==> !EmptyDash(a, have)
  {
    AttrAgreesIff(a, have);
    if have.None? {
      return false;
    }
    if a.op == Present {
      return true;
    }
    if a.value.None? {
      return false;
    }
    var h, v := have.value, a.value.value;
    if |v| == 0 {
      return a.op == Equals && |h| == 0;
    }
    match a.op {
      case Equals =>
        ok := EqualFold(h, v);
      case Includes =>
        ok := FindWord(h, v, true);
      case Dash =>
        var starts := EqualFoldAt(h, 0, v);
        ok := starts && (|h| == |v| || h[|v|] == '-');
      case Prefix =>
        ok := EqualFoldAt(h, 0, v);
      case Suffix =>
        if |h| < |v| {
          return false;
        }
        ok := EqualFoldAt(h, |h| - |v|, v);
      case Substring =>
        ok := FindSubstring(h, v);
      case Present =>
        ok := true;
    }
  }

  method CompoundMatch(c: Compound, d: Doc, n: int) returns (ok: bool)
    requires IsNode(d, n)
    ensures ok == Holds(c, d, n)
    ensures ok == HoldsStandard(c, d, n) <==> !Differs(c, d, n)
  {
    hide Same, HasWord, AttrHolds, HoldsStandard, Differs;
    HoldsAgreesIff(c, d, n);
    var node := d.nodes[n];
    if c.tag.Some? {
      if node.tag.None? {
        return false;
      }
      var same := EqualFold(node.tag.value, c.tag.value);
      if !same {
        return false;
      }
    }
    if c.id.Some? && Attr(node, "id") != Some(c.id.value) {
      return false;
    }
    if |c.classes| > 0 {
      var v := Attr(node, "class");
      if v.None? {
        return false;
      }
      for k := 0 to |c.classes|
        invariant forall i :: 0 <= i < k ==> HasWord(v.value, c.classes[i], false)
      {
        var has := FindWord(v.value, c.classes[k], false);
        if !has {
          return false;
        }
      }
    }
    for k := 0 to |c.attrs|
      invariant forall i :: 0 <= i < k ==> AttrHolds(c.attrs[i], Attr(node, c.attrs[i].name))
    {
      var holds := AttrMatch(c.attrs[k], Attr(node, c.attrs[k].name));
      if !holds {
        return false;
      }
    }
    return !c.firstChild || (d.hasPrev && node.prev < 0);
  }

  // ---- the budgeted search ----

  /** What a budget of `steps` compound tests makes of an unbudgeted outcome: the outcome
      itself and the rest of the budget, or failure with the budget used up. */
  function Within(r: Outcome, steps: int): (bool, int) {
    if r.cost <= steps then (r.found, steps - r.cost)
    else (false, if steps > 0 then 0 else steps)
  }

  /** The search from `node`, testing at most `steps` compounds; `tests` counts them. */
  method ChainStep(parts: seq<Compound>, last: nat, d: Doc, node: int, steps: int)
    returns (found: bool, left: int, ghost tests: nat)
    requires InOrder(d) && last < |parts| && IsNode(d, node)
    ensures (found, left) == Within(Search(parts, last, d, node), steps)
    ensures tests == steps - left
    decreases last, 1, node
  {
    hide Holds, HoldsStandard, Differs;
    if steps <= 0 {
      return false, steps, 0;
    }
    left, tests := steps - 1, 1;
    var holds := CompoundMatch(parts[last], d, node);
    if !holds {
      return false, left, tests;
    }
    if last == 0 {
      return true, left, tests;
    }
    ghost var more;
    match parts[last].comb {
      case Child =>
        found, left, more := TryOne(parts, last - 1, d, d.nodes[node].parent, left);
      case Adjacent =>
        if !d.hasPrev {
          return false, left, tests;
        }
        found, left, more := TryOne(parts, last - 1, d, d.nodes[node].prev, left);
      case Sibling =>
        if !d.hasPrev {
          return false, left, tests;
        }
        found, left, more := TryAll(parts, last - 1, d, true, d.nodes[node].prev, left);
      case Descendant =>
        found, left, more := TryAll(parts, last - 1, d, false, d.nodes[node].parent, left);
    }
    tests := tests + more;
  }

  method TryOne(parts: seq<Compound>, last: nat, d: Doc, n: int, steps: nat)
    returns (found: bool, left: int, ghost tests: nat)
    requires InOrder(d) && last < |parts| && -1 <= n < |d.nodes|
    ensures (found, left) == Within(One(parts, last, d, n), steps)
    ensures tests == steps - left
    decreases last, 2, n
  {
    if n < 0 {
      return false, steps, 0;
    }
    found, left, tests := ChainStep(parts, last, d, n, steps);
  }

  /** Tries the elements above one after the other while the budget lasts. */
  method TryAll(parts: seq<Compound>, last: nat, d: Doc, siblings: bool, n: int, steps: nat)
    returns (found: bool, left: int, ghost tests: nat)
    requires InOrder(d) && last < |parts| && -1 <= n < |d.nodes|
    ensures (found, left) == Within(Walk(parts, last, d, siblings, n), steps)
    ensures tests == steps - left
    decreases last, 2, n
  {
    var a := n;
    ghost var whole := Walk(parts, last, d, siblings, n);
    left, tests := steps, 0;
    while a >= 0
      invariant -1 <= a <= n && 0 <= left && tests == steps - left
      invariant a >= 0 ==> left > 0 || steps == 0
      invariant whole == Outcome(Walk(parts, last, d, siblings, a).found,
                                 Walk(parts, last, d, siblings, a).cost + (steps - left))
      decreases a
    {
      ghost var more;
      found, left, more := ChainStep(parts, last, d, a, left);
      tests := tests + more;
      if found || left <= 0 {
        return;
      }
      a := Up(d, siblings, a);
    }
    return false, left, tests;
  }

  /** The budgeted matcher is exact while its budget lasts: success means the selector
      selects the element; failure with budget left means it does not; and no more than
      the budget of compounds is ever tested. */
  method SelectorMatches(parts: seq<Compound>, d: Doc, node: int, steps: nat) returns (found: bool, left: int, ghost tests: nat)
    requires InOrder(d) && parts != [] && IsNode(d, node)
    ensures found ==> Selects(parts, |parts| - 1, d, node)
    ensures !found && left > 0 ==> !Selects(parts, |parts| - 1, d, node)
    ensures tests == steps - left <= steps
    ensures (found, left) == Within(Search(parts, |parts| - 1, d, node), steps)
  {
    hide Search, Selects;
    SearchExact(parts, |parts| - 1, d, node);
    found, left, tests := ChainStep(parts, |parts| - 1, d, node, steps);
  }

  // ---- the rules that apply to an element ----

  datatype Sel = Sel(parts: seq<Compound>, ids: int, classes: int, types: int)

  datatype Rule = Rule(sels: seq<Sel>, order: int)

  datatype Candidate = Candidate(ids: int, classes: int, types: int, order: int, rule: int)

  /** Specificity compared as a number of three digits (section 9). */
  predicate MoreSpecific(a: Sel, b: Sel) {
    a.ids > b.ids || (a.ids == b.ids && (a.classes > b.classes || (a.classes == b.classes && a.types > b.types)))
  }

  ghost predicate WellFormed(rules: seq<Rule>) {
    forall i, j :: 0 <= i < |rules| && 0 <= j < |rules[i].sels| ==> rules[i].sels[j].parts != []
  }

  /** The matcher's verdict with a fresh budget. */
  ghost predicate Hits(s: Sel, d: Doc, node: int)
    requires InOrder(d) && IsNode(d, node) && s.parts != []
  {
    Within(Search(s.parts, |s.parts| - 1, d, node), STEPS_MAX).0
  }

  /** The selector selects the element. */
  ghost predicate Selected(s: Sel, d: Doc, node: int)
    requires InOrder(d) && s.parts != []
  {
    Selects(s.parts, |s.parts| - 1, d, node)
  }

  /** The search needs no more than the budget. */
  ghost predicate InBudget(s: Sel, d: Doc, node: int)
    requires InOrder(d) && IsNode(d, node) && s.parts != []
  {
    Search(s.parts, |s.parts| - 1, d, node).cost <= STEPS_MAX
  }

  /** A selector hits exactly the elements it selects within the budget. */
  lemma HitsIffSelected(s: Sel, d: Doc, node: int)
    requires InOrder(d) && IsNode(d, node) && s.parts != []
    ensures Hits(s, d, node) <==> Selected(s, d, node) && InBudget(s, d, node)
  {
    hide Search, Selects;
    SearchExact(s.parts, |s.parts| - 1, d, node);
  }

  /** `k` is the first of the most specific selectors that hit; -1 when none does. */
  ghost predicate IsBest(rule: Rule, d: Doc, node: int, k: int, n: nat)
    requires InOrder(d) && IsNode(d, node) && n <= |rule.sels|
    requires forall j :: 0 <= j < |rule.sels| ==> rule.sels[j].parts != []
  {
    if k < 0 then forall j :: 0 <= j < n ==> !Hits(rule.sels[j], d, node)
    else
      && k < n && Hits(rule.sels[k], d, node)
      && (forall j :: 0 <= j < n && Hits(rule.sels[j], d, node) ==> !MoreSpecific(rule.sels[j], rule.sels[k]))
      && (forall j :: 0 <= j < k && Hits(rule.sels[j], d, node) ==> MoreSpecific(rule.sels[k], rule.sels[j]))
  }

  method BestSelector(rule: Rule, d: Doc, node: int) returns (best: int)
    requires InOrder(d) && IsNode(d, node)
    requires forall j :: 0 <= j < |rule.sels| ==> rule.sels[j].parts != []
    ensures IsBest(rule, d, node, best, |rule.sels|)
  {
    hide Search, Selects, InOrder;
    best := -1;
    for j := 0 to |rule.sels|
      invariant -1 <= best < j
      invariant IsBest(rule, d, node, best, j)
    {
      var s := rule.sels[j];
      var found, left;
      ghost var tests;
      found, left, tests := SelectorMatches(s.parts, d, node, STEPS_MAX);
      if found && (best < 0 || MoreSpecific(s, rule.sels[best])) {
        best := j;
      }
    }
  }

  ghost predicate Applies(rule: Rule, d: Doc, node: int)
    requires InOrder(d) && IsNode(d, node)
    requires forall j :: 0 <= j < |rule.sels| ==> rule.sels[j].parts != []
  {
    exists j :: 0 <= j < |rule.sels| && Hits(rule.sels[j], d, node)
  }

  /** A rule applies exactly when one of its selectors selects the element within the budget. */
  lemma AppliesIffSelected(rule: Rule, d: Doc, node: int)
    requires InOrder(d) && IsNode(d, node)
    requires forall j :: 0 <= j < |rule.sels| ==> rule.sels[j].parts != []
    ensures Applies(rule, d, node) <==>
      exists j :: 0 <= j < |rule.sels| && Selected(rule.sels[j], d, node) && InBudget(rule.sels[j], d, node)
  {
    hide Selected, InBudget, Hits;
    forall j | 0 <= j < |rule.sels|
      ensures Hits(rule.sels[j], d, node) <==> Selected(rule.sels[j], d, node) && InBudget(rule.sels[j], d, node)
    {
      HitsIffSelected(rule.sels[j], d, node);
    }
  }

  /** The rules among the first `n` that apply, in sheet order. */
  ghost function Applicable(rules: seq<Rule>, d: Doc, node: int, n: nat): (r: seq<int>)
    requires InOrder(d) && IsNode(d, node) && WellFormed(rules) && n <= |rules|
    ensures forall k :: 0 <= k < |r| ==> 0 <= r[k] < n && Applies(rules[r[k]], d, node)
    ensures forall k, l :: 0 <= k < l < |r| ==> r[k] < r[l]
    ensures forall i :: 0 <= i < n && Applies(rules[i], d, node) ==> i in r
  {
    if n == 0 then []
    else if Applies(rules[n - 1], d, node) then Applicable(rules, d, node, n - 1) + [n - 1]
    else Applicable(rules, d, node, n - 1)
  }

  /** `c` describes rule `i` by the specificity of its best selector. */
  ghost predicate Describes(c: Candidate, rules: seq<Rule>, d: Doc, node: int, i: int)
    requires InOrder(d) && IsNode(d, node) && WellFormed(rules) && 0 <= i < |rules|
  {
    && c.rule == i && c.order == rules[i].order
    && exists k :: 0 <= k < |rules[i].sels| && IsBest(rules[i], d, node, k, |rules[i].sels|)
                   && c.ids == rules[i].sels[k].ids && c.classes == rules[i].sels[k].classes
                   && c.types == rules[i].sels[k].types
  }

  function Min(a: nat, b: nat): nat {
    if a < b then a else b
  }

  /** `cs` lists the applicable ones among the first `n` rules, as many as `room` allows. */
  ghost predicate Lists(cs: seq<Candidate>, rules: seq<Rule>, d: Doc, node: int, n: nat, room: nat)
    requires InOrder(d) && IsNode(d, node) && WellFormed(rules) && n <= |rules|
  {
    var all := Applicable(rules, d, node, n);
    |cs| == Min(|all|, room) && forall k :: 0 <= k < |cs| ==> Describes(cs[k], rules, d, node, all[k])
  }

  /** Fills `cands` with the applicable rules, as many as fit. */
  method RuleCandidates(rules: seq<Rule>, d: Doc, node: int, cands: array<Candidate>) returns (n: nat)
    requires InOrder(d) && IsNode(d, node) && WellFormed(rules)
    modifies cands
    ensures n <= cands.Length && Lists(cands[..n], rules, d, node, |rules|, cands.Length)
  {
    hide Hits, InOrder, IsBest, Lists, Applies;
    n := 0;
    NothingListed(rules, d, node, cands.Length);
    for i := 0 to |rules|
      invariant n <= cands.Length && Lists(cands[..n], rules, d, node, i, cands.Length)
    {
      var rule := rules[i];
      var best := BestSelector(rule, d, node);
      ghost var before := cands[..n];
      NextRule(before, rules, d, node, i, cands.Length, best);
      if best >= 0 && n < cands.Length {
        var s := rule.sels[best];
        cands[n] := Candidate(s.ids, s.classes, s.types, rule.order, i);
        n := n + 1;
        assert cands[..n] == before + [cands[n - 1]];
      }
    }
  }

  lemma NothingListed(rules: seq<Rule>, d: Doc, node: int, room: nat)
    requires InOrder(d) && IsNode(d, node) && WellFormed(rules)
    ensures Lists([], rules, d, node, 0, room)
  {
  }

  lemma NextRule(cs: seq<Candidate>, rules: seq<Rule>, d: Doc, node: int, i: nat, room: nat, best: int)
    requires InOrder(d) && IsNode(d, node) && WellFormed(rules) && i < |rules|
    requires Lists(cs, rules, d, node, i, room)
    requires IsBest(rules[i], d, node, best, |rules[i].sels|)
    ensures best < |rules[i].sels|
    ensures if best >= 0 && |cs| < room
            then var s := rules[i].sels[best];
              Lists(cs + [Candidate(s.ids, s.classes, s.types, rules[i].order, i)], rules, d, node, i + 1, room)
            else Lists(cs, rules, d, node, i + 1, room)
  {
    hide Hits, InOrder, IsBest, Applies;
    BestMeansApplies(rules[i], d, node, best);
    if best >= 0 && |cs| < room {
      var s := rules[i].sels[best];
      assert Describes(Candidate(s.ids, s.classes, s.types, rules[i].order, i), rules, d, node, i);
    }
  }

  lemma BestMeansApplies(rule: Rule, d: Doc, node: int, best: int)
    requires InOrder(d) && IsNode(d, node)
    requires forall j :: 0 <= j < |rule.sels| ==> rule.sels[j].parts != []
    requires IsBest(rule, d, node, best, |rule.sels|)
    ensures best >= 0 <==> Applies(rule, d, node)
    ensures best >= 0 ==> best < |rule.sels|
  {
    hide Hits;
  }
}
