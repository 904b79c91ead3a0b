/** Fixed-width records as struct.pack writes them and a packed C struct reads them, tables of such
    records, and a buffer filled segment by segment. */
module Records {
  import opened Bits

  /** `w` bytes, least significant first. */
  function Le(n: nat, w: nat): (r: seq<byte>)
    ensures |r| == w
    decreases w, n
  {
    if w == 0 then [] else [n % 256] + Le(n / 256, w - 1)
  }

  function FromLe(s: seq<byte>): nat {
    if s == [] then 0 else s[0] + 256 * FromLe(s[1..])
  }

  function Pow256(w: nat): nat {
    if w == 0 then 1 else 256 * Pow256(w - 1)
  }

  lemma {:induction false} LeRoundTrip(n: nat, w: nat)
    requires n < Pow256(w)
    ensures FromLe(Le(n, w)) == n
    decreases w
  {
    if w > 0 {
      LeRoundTrip(n / 256, w - 1);
    }
  }

  function Total(widths: seq<nat>): nat {
    if widths == [] then 0 else widths[0] + Total(widths[1..])
  }

  function Words(n: nat): seq<nat> {
    seq(n, _ => 4)
  }

  lemma {:induction false} TotalAppend(a: seq<nat>, b: seq<nat>)
    ensures Total(a + b) == Total(a) + Total(b)
    decreases |a|
  {
    if a == [] {
      assert a + b == b;
    } else {
      TotalAppend(a[1..], b);
      assert (a + b)[1..] == a[1..] + b;
    }
  }

  lemma {:induction false} TotalWords(n: nat)
    ensures Total(Words(n)) == 4 * n
    decreases n
  {
    if n > 0 {
      TotalWords(n - 1);
      assert Words(n)[1..] == Words(n - 1);
    }
  }

  lemma TotalTwo(a: nat, b: nat)
    ensures Total([a, b]) == a + b
  {
    TotalOne(a);
    TotalOne(b);
    TotalAppend([a], [b]);
    assert [a, b] == [a] + [b];
  }

  lemma TotalOne(a: nat)
    ensures Total([a]) == a
  {
  }

  predicate Fit(values: seq<nat>, widths: seq<nat>) {
    |values| == |widths| && forall i :: 0 <= i < |values| ==> values[i] < Pow256(widths[i])
  }

  /** The fields one after the other, each least significant byte first. */
  function Pack(values: seq<nat>, widths: seq<nat>): (r: seq<byte>)
    requires |values| == |widths|
    ensures |r| == Total(widths)
    decreases |widths|, values
  {
    if widths == [] then [] else Le(values[0], widths[0]) + Pack(values[1..], widths[1..])
  }

  /** The fields of the record that `bytes` starts with. */
  function Unpack(bytes: seq<byte>, widths: seq<nat>): (r: seq<nat>)
    requires |bytes| >= Total(widths)
    ensures |r| == |widths|
    decreases |widths|, bytes
  {
    if widths == [] then [] else [FromLe(bytes[..widths[0]])] + Unpack(bytes[widths[0]..], widths[1..])
  }

  function Slice(file: seq<byte>, at: nat, n: nat): seq<byte>
    requires at + n <= |file|
  {
    file[at..at + n]
  }

  /** Record `k` of the table at `off`. */
  function Row(file: seq<byte>, off: nat, k: nat, size: nat, widths: seq<nat>): (r: seq<nat>)
    requires Total(widths) == size && off + k * size + size <= |file|
    ensures |r| == |widths|
  {
    Unpack(Slice(file, off + k * size, size), widths)
  }

  lemma {:induction false} FromLeBound(s: seq<byte>)
    ensures FromLe(s) < Pow256(|s|)
    decreases |s|
  {
    if s != [] {
      FromLeBound(s[1..]);
    }
  }

  /** A field read holds no more than its width. */
  lemma {:induction false} UnpackFits(bytes: seq<byte>, widths: seq<nat>)
    requires |bytes| >= Total(widths)
    ensures Fit(Unpack(bytes, widths), widths)
    decreases |widths|
  {
    hide FromLe, Pow256;
    if widths != [] {
      FromLeBound(bytes[..widths[0]]);
      UnpackFits(bytes[widths[0]..], widths[1..]);
      var r, tail := Unpack(bytes, widths), Unpack(bytes[widths[0]..], widths[1..]);
      forall i | 0 <= i < |r| ensures r[i] < Pow256(widths[i]) {
        if i > 0 {
          assert r[i] == tail[i - 1] && widths[i] == widths[1..][i - 1];
        }
      }
    }
  }

  lemma SplitAfter(first: seq<byte>, tail: seq<byte>, rest: seq<byte>)
    ensures ((first + tail) + rest)[..|first|] == first
    ensures ((first + tail) + rest)[|first|..] == tail + rest
  {
  }

  lemma {:induction false} UnpackInverts(values: seq<nat>, widths: seq<nat>, rest: seq<byte>)
    requires Fit(values, widths)
    ensures Unpack(Pack(values, widths) + rest, widths) == values
    decreases |widths|
  {
    hide Le, FromLe, Pow256;
    if widths != [] {
      var first, tail := Le(values[0], widths[0]), Pack(values[1..], widths[1..]);
      LeRoundTrip(values[0], widths[0]);
      UnpackInverts(values[1..], widths[1..], rest);
      SplitAfter(first, tail, rest);
      assert [values[0]] + values[1..] == values;
    }
  }

  // ---- tables ----

  predicate Uniform(rows: seq<seq<byte>>, w: nat) {
    forall i :: 0 <= i < |rows| ==> |rows[i]| == w
  }

  function Table(rows: seq<seq<byte>>): seq<byte> {
    if rows == [] then [] else Table(rows[..|rows| - 1]) + rows[|rows| - 1]
  }

  lemma {:induction false} TableLength(rows: seq<seq<byte>>, w: nat)
    requires Uniform(rows, w)
    ensures |Table(rows)| == |rows| * w
    decreases |rows|
  {
    if rows != [] {
      TableLength(rows[..|rows| - 1], w);
      assert (|rows| - 1) * w + w == |rows| * w;
    }
  }

  lemma {:induction false} TableRow(rows: seq<seq<byte>>, w: nat, k: nat)
    requires Uniform(rows, w) && k < |rows|
    ensures k * w + w <= |Table(rows)| && Table(rows)[k * w..k * w + w] == rows[k]
    decreases |rows|
  {
    var n := |rows| - 1;
    TableLength(rows[..n], w);
    if k < n {
      TableRow(rows[..n], w, k);
      assert Table(rows)[..|Table(rows[..n])|] == Table(rows[..n]);
    }
  }

  // ---- segments in a buffer ----

  datatype Segment = Segment(at: nat, bytes: seq<byte>)

  function Write(out: seq<byte>, s: Segment): (r: seq<byte>)
    requires s.at + |s.bytes| <= |out|
    ensures |r| == |out|
  {
    out[..s.at] + s.bytes + out[s.at + |s.bytes|..]
  }

  /** Every segment ends before the next one starts, and inside the buffer. */
  predicate Apart(segs: seq<Segment>, size: nat) {
    && (forall i :: 0 <= i < |segs| ==> segs[i].at + |segs[i].bytes| <= size)
    && (forall i, j :: 0 <= i < j < |segs| ==> segs[i].at + |segs[i].bytes| <= segs[j].at)
  }

  function WriteAll(out: seq<byte>, segs: seq<Segment>): (r: seq<byte>)
    requires Apart(segs, |out|)
    ensures |r| == |out|
    decreases |segs|, out
  {
    if segs == [] then out else Write(WriteAll(out, segs[..|segs| - 1]), segs[|segs| - 1])
  }

  lemma LastSegment(segs: seq<Segment>, s: Segment, size: nat)
    requires Apart(segs + [s], size)
    ensures s.at + |s.bytes| <= size && Apart(segs, size)
  {
    var all := segs + [s];
    assert all[|segs|] == s;
    assert forall i :: 0 <= i < |segs| ==> all[i] == segs[i];
  }

  lemma WriteLast(out: seq<byte>, segs: seq<Segment>, s: Segment)
    requires Apart(segs + [s], |out|) && Apart(segs, |out|) && s.at + |s.bytes| <= |out|
    ensures WriteAll(out, segs + [s]) == Write(WriteAll(out, segs), s)
  {
    hide Write, Apart;
    assert (segs + [s])[..|segs|] == segs;
  }

  /** Each segment reads back as written. */
  lemma {:induction false} SegmentReads(out: seq<byte>, segs: seq<Segment>, k: nat)
    requires Apart(segs, |out|) && k < |segs|
    ensures WriteAll(out, segs)[segs[k].at..segs[k].at + |segs[k].bytes|] == segs[k].bytes
    decreases |segs|
  {
    var n := |segs| - 1;
    var s := segs[k];
    if k < n {
      SegmentReads(out, segs[..n], k);
      var before := WriteAll(out, segs[..n]);
      assert s.at + |s.bytes| <= segs[n].at;
      assert Write(before, segs[n])[s.at..s.at + |s.bytes|] == before[s.at..s.at + |s.bytes|];
    }
  }

  /** A slice of a slice. */
  lemma Nested(s: seq<byte>, off: nat, m: nat, lo: nat, n: nat)
    requires off + m <= |s| && lo + n <= m
    ensures s[off..off + m][lo..lo + n] == s[off + lo..off + lo + n]
  {
    var a, c := s[off..off + m][lo..lo + n], s[off + lo..off + lo + n];
    assert |a| == |c|;
    forall i | 0 <= i < n
      ensures a[i] == c[i]
    {
      assert a[i] == s[off..off + m][lo + i];
    }
  }
}
