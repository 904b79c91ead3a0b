/** Bytes, powers of two and the two ways DEFLATE reads a run of bits: numbers
    are stored least significant bit first, Huffman codes most significant bit
    first (section 3.1.1 of RFC 1951). */
module Bits {

  type byte = x: int | 0 <= x < 256
  type bit = x: int | 0 <= x < 2

  datatype Option<+T> = None | Some(value: T)

  function Pow2(n: nat): (r: nat)
    ensures r >= 1
  {
    if n == 0 then 1 else 2 * Pow2(n - 1)
  }

  lemma {:induction false} Pow2Add(a: nat, b: nat)
    ensures Pow2(a + b) == Pow2(a) * Pow2(b)
  {
    if a != 0 {
      Pow2Add(a - 1, b);
    }
  }

  lemma {:induction false} Pow2Monotone(a: nat, b: nat)
    requires a <= b
    ensures Pow2(a) <= Pow2(b)
  {
    if a < b {
      Pow2Monotone(a, b - 1);
    }
  }

  lemma Pow2Values()
    ensures Pow2(0) == 1 && Pow2(1) == 2 && Pow2(2) == 4 && Pow2(3) == 8 && Pow2(4) == 16
    ensures Pow2(5) == 32 && Pow2(6) == 64 && Pow2(7) == 128 && Pow2(8) == 256
  {
    assert Pow2(4) == 2 * Pow2(3);
    assert Pow2(8) == 2 * Pow2(7) && Pow2(6) == 2 * Pow2(5);
  }

  function Zeros(n: nat): (r: seq<byte>)
    ensures |r| == n
  {
    seq(n, _ => 0)
  }

  /** The bits of a byte string, each byte from its low bit up. */
  function ToBits(data: seq<byte>): (bits: seq<bit>)
    ensures |bits| == 8 * |data|
  {
    seq(8 * |data|, k requires 0 <= k < 8 * |data| => BitOfByte(data[k / 8], k % 8))
  }

  function BitOfByte(b: byte, i: nat): bit {
    b / Pow2(i) % 2
  }

  /** The `n` bits from `pos` on as a number, least significant bit first. */
  function Val(bits: seq<bit>, pos: nat, n: nat): nat
    requires pos + n <= |bits|
    decreases n, pos, bits
  {
    if n == 0 then 0 else bits[pos] + 2 * Val(bits, pos + 1, n - 1)
  }

  /** The `n` bits from `pos` on as a number, most significant bit first. */
  function Msb(bits: seq<bit>, pos: nat, n: nat): nat
    requires pos + n <= |bits|
  {
    if n == 0 then 0 else 2 * Msb(bits, pos, n - 1) + bits[pos + n - 1]
  }

  lemma {:induction false} ValBound(bits: seq<bit>, pos: nat, n: nat)
    requires pos + n <= |bits|
    ensures Val(bits, pos, n) < Pow2(n)
    decreases n
  {
    if n != 0 {
      ValBound(bits, pos + 1, n - 1);
    }
  }

  lemma {:induction false} ValSplit(bits: seq<bit>, pos: nat, a: nat, b: nat)
    requires pos + a + b <= |bits|
    ensures Val(bits, pos, a + b) == Val(bits, pos, a) + Pow2(a) * Val(bits, pos + a, b)
    decreases a
  {
    if a != 0 {
      ValSplit(bits, pos + 1, a - 1, b);
      MulAssoc(2, Pow2(a - 1), Val(bits, pos + a, b));
    }
  }

  lemma MulAssoc(a: int, b: int, c: int)
    ensures a * (b * c) == a * b * c
  {
  }

  lemma DivUnique(x: int, d: int, q: int, r: int)
    requires d > 0 && x == d * q + r && 0 <= r < d
    ensures x / d == q && x % d == r
  {
    QuotientUnique(d, q, r, x / d, x % d);
  }

  lemma MultipleIsZero(d: nat, q: nat)
    requires d > 0
    ensures d * q % d == 0 && q * d % d == 0
  {
    DivUnique(d * q, d, q, 0);
  }

  lemma MulMonotone(a: nat, c: nat, b: nat)
    requires a <= c
    ensures a * b <= c * b
  {
    assert (c - a) * b >= 0;
  }

  lemma DivBounds(x: nat, d: nat)
    requires d > 0
    ensures (x / d) * d <= x < (x / d) * d + d
  {
  }

  lemma QuotientUnique(d: int, q: int, r: int, q': int, r': int)
    requires d > 0 && 0 <= r < d && 0 <= r' < d
    requires d * q + r == d * q' + r'
    ensures q == q' && r == r'
  {
    if q < q' {
      MulGap(d, q, q');
    } else if q' < q {
      MulGap(d, q', q);
    }
  }

  lemma {:induction false} MulGap(d: int, q: int, q': int)
    requires d > 0 && q < q'
    ensures d * q' >= d * q + d
    decreases q' - q
  {
    assert d * q' == d * (q' - 1) + d;
    if q + 1 < q' {
      MulGap(d, q, q' - 1);
    }
  }

  lemma HalfAgain(b: nat, i: nat)
    ensures b / Pow2(i) / 2 == b / Pow2(i + 1)
  {
    var p, q := Pow2(i), b / Pow2(i) / 2;
    var r := p * (b / p % 2) + b % p;
    assert b == 2 * p * q + r by {
      assert b == p * (b / p) + b % p;
      assert b / p == 2 * q + b / p % 2;
      MulAssoc(p, 2, q);
      assert p * (2 * q + b / p % 2) == p * (2 * q) + p * (b / p % 2);
    }
    assert 0 <= r < 2 * p by {
      assert b / p % 2 == 0 || b / p % 2 == 1;
    }
    DivUnique(b, 2 * p, q, r);
  }

  lemma BitInByte(data: seq<byte>, i: nat, j: nat)
    requires i < |data| && j < 8
    ensures 8 * i + j < |ToBits(data)| && ToBits(data)[8 * i + j] == BitOfByte(data[i], j)
  {
    hide BitOfByte;
    DivUnique(8 * i + j, 8, i, j);
  }

  /** The `j` high bits of byte `k`. */
  lemma {:induction false} ByteTop(data: seq<byte>, k: nat, j: nat)
    requires k < |data| && j <= 8
    ensures Val(ToBits(data), 8 * k + 8 - j, j) == data[k] / Pow2(8 - j)
  {
    if j == 0 {
      Pow2Values();
    } else {
      ByteTop(data, k, j - 1);
      BitInByte(data, k, 8 - j);
      hide ToBits, Pow2;
      HalfAgain(data[k], 8 - j);
      assert Pow2(8 - j + 1) == Pow2(8 - (j - 1));
    }
  }

  /** A byte-aligned read of eight bits is the byte itself. */
  lemma ByteVal(data: seq<byte>, k: nat)
    requires k < |data|
    ensures Val(ToBits(data), 8 * k, 8) == data[k]
  {
    ByteTop(data, k, 8);
    Pow2Values();
  }

  /** Reading on to the end of byte `k` adds that byte above the bits read so far. */
  lemma AppendVal(data: seq<byte>, pos: nat, n: nat, k: nat)
    requires pos + n == 8 * k && k < |data|
    ensures Val(ToBits(data), pos, n + 8) == Val(ToBits(data), pos, n) + data[k] * Pow2(n)
  {
    hide *;
    var bits, at := ToBits(data), pos + n;
    ValSplit(bits, pos, n, 8);
    assert Val(bits, at, 8) == data[k] by {
      ByteVal(data, k);
    }
  }
}
