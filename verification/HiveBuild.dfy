/** The bytes of a hive (tools/hivec.py:406-418, 468-550): node entries, value entries, names and
    data. */
module HiveBuild {
  import opened Bits
  import opened Records
  import opened StringTables
  import opened HivePaths
  import opened HiveNodes
  import opened HiveTree

  // ---- values ----

  function InsertValue(v: Value, s: seq<Value>): seq<Value> {
    if s == [] then [v] else if Less(v.name, s[0].name) then [v] + s else [s[0]] + InsertValue(v, s[1..])
  }

  /** By name; values of the same name keep their order. */
  function SortValues(vs: seq<Value>): seq<Value> {
    if vs == [] then [] else InsertValue(vs[|vs| - 1], SortValues(vs[..|vs| - 1]))
  }

  predicate ByName(s: seq<Value>) {
    forall i, j :: 0 <= i < j < |s| ==> !Less(s[j].name, s[i].name)
  }

  lemma {:induction false} InsertValueFacts(v: Value, s: seq<Value>)
    requires ByName(s)
    ensures ByName(InsertValue(v, s)) && multiset(InsertValue(v, s)) == multiset(s) + multiset{v}
    decreases |s|
  {
    hide Less;
    if s == [] {
    } else if Less(v.name, s[0].name) {
      forall j | 0 <= j < |s|
        ensures !Less(s[j].name, v.name)
      {
        LessTotal(s[0].name, s[0].name);
        NotAfter(v.name, s[0].name, s[j].name);
      }
    } else {
      InsertValueFacts(v, s[1..]);
      var rest := InsertValue(v, s[1..]);
      assert s == [s[0]] + s[1..];
      forall j | 0 <= j < |rest|
        ensures !Less(rest[j].name, s[0].name)
      {
        assert rest[j] in multiset(rest);
        assert rest[j] == v || rest[j] in s[1..];
      }
    }
  }

  lemma NotAfter(p: Path, q: Path, r: Path)
    requires Less(p, q) && !Less(r, q)
    ensures !Less(r, p)
  {
    if Less(r, p) {
      LessTransitive(r, p, q);
    }
  }

  /** The sorted values are the values, in order of their names. */
  lemma {:induction false} SortValuesFacts(vs: seq<Value>)
    ensures ByName(SortValues(vs)) && multiset(SortValues(vs)) == multiset(vs)
    decreases |vs|
  {
    hide ByName, Less;
    if vs == [] {
      NoneByName();
    } else {
      var n := |vs| - 1;
      SortValuesFacts(vs[..n]);
      InsertValueFacts(vs[n], SortValues(vs[..n]));
      assert vs == vs[..n] + [vs[n]];
    }
  }

  lemma NoneByName()
    ensures ByName([])
  {
  }

  /** A value with the node it belongs to. */
  datatype Item = Item(node: nat, value: Value)

  function ItemsOf(node: nat, vs: seq<Value>): seq<Item> {
    seq(|vs|, i requires 0 <= i < |vs| => Item(node, vs[i]))
  }

  function ValuesAt(b: Built, i: nat): seq<Value>
    requires i < |b.paths| && b.paths[i] in b.nodes
  {
    SortValues(b.nodes[b.paths[i]].values)
  }

  predicate AllNodes(b: Built) {
    forall i :: 0 <= i < |b.paths| ==> b.paths[i] in b.nodes
  }

  /** The values of the first `n` nodes, node after node. */
  function Items(b: Built, n: nat): seq<Item>
    requires AllNodes(b) && n <= |b.paths|
    decreases n, b
  {
    if n == 0 then [] else Items(b, n - 1) + ItemsOf(n - 1, ValuesAt(b, n - 1))
  }

  lemma ItemsStep(b: Built, n: nat)
    requires AllNodes(b) && n < |b.paths|
    ensures Items(b, n + 1) == Items(b, n) + ItemsOf(n, SortValues(b.nodes[b.paths[n]].values))
  {
    hide SortValues;
  }

  lemma {:induction false} ItemsPrefix(b: Built, m: nat, n: nat)
    requires AllNodes(b) && m <= n <= |b.paths|
    ensures Items(b, m) <= Items(b, n)
    decreases n
  {
    if m < n {
      ItemsPrefix(b, m, n - 1);
    }
  }

  /** The values of node `i` are one range of the value table, and no other row belongs to it. */
  lemma {:induction false} ItemsRange(b: Built, i: nat, n: nat, k: nat)
    requires AllNodes(b) && i < n <= |b.paths| && k < |Items(b, n)|
    ensures var first, count := |Items(b, i)|, |ValuesAt(b, i)|;
      && first + count <= |Items(b, n)|
      && (Items(b, n)[k].node == i <==> first <= k < first + count)
      && (first <= k < first + count ==> Items(b, n)[k].value == ValuesAt(b, i)[k - first])
    decreases n
  {
    hide SortValues;
    var before := Items(b, n - 1);
    if i < n - 1 {
      if k < |before| {
        ItemsRange(b, i, n - 1, k);
      } else {
        ItemsPrefix(b, i + 1, n - 1);
      }
    } else if k < |before| {
      NodesBelow(b, n - 1, k);
    }
  }

  lemma {:induction false} NodesBelow(b: Built, n: nat, k: nat)
    requires AllNodes(b) && n <= |b.paths| && k < |Items(b, n)|
    ensures Items(b, n)[k].node < n
    decreases n
  {
    hide SortValues;
    if n > 0 && k < |Items(b, n - 1)| {
      NodesBelow(b, n - 1, k);
    }
  }

  // ---- data ----

  /** The data of the first `n` items, joined. */
  function Data(items: seq<Item>, n: nat): seq<byte>
    requires n <= |items|
    decreases n, items
  {
    if n == 0 then [] else Data(items, n - 1) + items[n - 1].value.data
  }

  /** The data of item `k` stands at its offset. */
  lemma {:induction false} DataReadsBack(items: seq<Item>, k: nat, n: nat)
    requires k < n <= |items|
    ensures var off, d := |Data(items, k)|, items[k].value.data;
      off + |d| <= |Data(items, n)| && Data(items, n)[off..off + |d|] == d
    decreases n
  {
    if k < n - 1 {
      DataReadsBack(items, k, n - 1);
      var off, d, before := |Data(items, k)|, items[k].value.data, Data(items, n - 1);
      assert Data(items, n)[..|before|] == before;
      assert Data(items, n)[off..off + |d|] == before[off..off + |d|];
    }
  }
}
