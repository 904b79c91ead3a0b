/** Infinite garble extension over the block cipher: libc/LibCrypto/src/aes.c:305-410. */
module Ige {
  import opened Galois
  import opened Aes

  /** The chaining state: the previous ciphertext and plaintext blocks. */
  datatype Chain = Chain(c: Block, p: Block)

  predicate WholeBlocks(m: seq<bv8>) {
    |m| % 16 == 0
  }

  function EncryptOne(k: Schedule, v: Chain, p: Block): Block
    requires k.Valid()
  {
    XorBlock(Encrypt(k, XorBlock(p, v.c)), v.p)
  }

  function DecryptOne(k: Schedule, v: Chain, c: Block): Block
    requires k.Valid()
  {
    XorBlock(Decrypt(k, XorBlock(c, v.p)), v.c)
  }

  function Encrypted(k: Schedule, v: Chain, m: seq<bv8>): (r: seq<bv8>)
    requires k.Valid() && WholeBlocks(m)
    ensures |r| == |m|
    decreases |m|, k, v
  {
    hide EncryptOne;
    if m == [] then []
    else
      var c := EncryptOne(k, v, m[..16]);
      c + Encrypted(k, Chain(c, m[..16]), m[16..])
  }

  function AfterEncrypting(k: Schedule, v: Chain, m: seq<bv8>): Chain
    requires k.Valid() && WholeBlocks(m)
    decreases |m|, k, v
  {
    hide EncryptOne;
    if m == [] then v else AfterEncrypting(k, Chain(EncryptOne(k, v, m[..16]), m[..16]), m[16..])
  }

  function Decrypted(k: Schedule, v: Chain, m: seq<bv8>): (r: seq<bv8>)
    requires k.Valid() && WholeBlocks(m)
    ensures |r| == |m|
    decreases |m|, k, v
  {
    hide DecryptOne;
    if m == [] then []
    else
      var p := DecryptOne(k, v, m[..16]);
      p + Decrypted(k, Chain(m[..16], p), m[16..])
  }

  function AfterDecrypting(k: Schedule, v: Chain, m: seq<bv8>): Chain
    requires k.Valid() && WholeBlocks(m)
    decreases |m|, k, v
  {
    hide DecryptOne;
    if m == [] then v else AfterDecrypting(k, Chain(m[..16], DecryptOne(k, v, m[..16])), m[16..])
  }

  lemma OneInverts(k: Schedule, v: Chain, p: Block)
    requires k.Valid()
    ensures DecryptOne(k, v, EncryptOne(k, v, p)) == p
  {
    hide XorBlock, Encrypt, Decrypt;
    var inner := XorBlock(p, v.c);
    XorBlockTwice(Encrypt(k, inner), v.p);
    DecryptInverts(k, inner);
    XorBlockTwice(p, v.c);
  }

  /** Decryption with the same iv gives the message back, and leaves the same iv behind. */
  lemma {:induction false} RoundTrip(k: Schedule, v: Chain, m: seq<bv8>)
    requires k.Valid() && WholeBlocks(m)
    ensures Decrypted(k, v, Encrypted(k, v, m)) == m
    ensures AfterDecrypting(k, v, Encrypted(k, v, m)) == AfterEncrypting(k, v, m)
    decreases |m|
  {
    hide EncryptOne, DecryptOne;
    if m != [] {
      var p := m[..16];
      var c := EncryptOne(k, v, p);
      var e := Encrypted(k, v, m);
      OneInverts(k, v, p);
      RoundTrip(k, Chain(c, p), m[16..]);
      assert e[..16] == c && e[16..] == Encrypted(k, Chain(c, p), m[16..]);
    }
  }

  /** Two calls in a row, the second on the iv left by the first, equal one call. */
  lemma {:induction false} SplitEncryption(k: Schedule, v: Chain, m: seq<bv8>, n: seq<bv8>)
    requires k.Valid() && WholeBlocks(m) && WholeBlocks(n)
    ensures WholeBlocks(m + n)
    ensures Encrypted(k, v, m + n) == Encrypted(k, v, m) + Encrypted(k, AfterEncrypting(k, v, m), n)
    ensures AfterEncrypting(k, v, m + n) == AfterEncrypting(k, AfterEncrypting(k, v, m), n)
    decreases |m|
  {
    hide EncryptOne;
    if m == [] {
      assert m + n == n;
    } else {
      var c := EncryptOne(k, v, m[..16]);
      SplitEncryption(k, Chain(c, m[..16]), m[16..], n);
      assert (m + n)[..16] == m[..16] && (m + n)[16..] == m[16..] + n;
    }
  }

  lemma {:induction false} SplitDecryption(k: Schedule, v: Chain, m: seq<bv8>, n: seq<bv8>)
    requires k.Valid() && WholeBlocks(m) && WholeBlocks(n)
    ensures WholeBlocks(m + n)
    ensures Decrypted(k, v, m + n) == Decrypted(k, v, m) + Decrypted(k, AfterDecrypting(k, v, m), n)
    ensures AfterDecrypting(k, v, m + n) == AfterDecrypting(k, AfterDecrypting(k, v, m), n)
    decreases |m|
  {
    hide DecryptOne;
    if m == [] {
      assert m + n == n;
    } else {
      var p := DecryptOne(k, v, m[..16]);
      SplitDecryption(k, Chain(m[..16], p), m[16..], n);
      assert (m + n)[..16] == m[..16] && (m + n)[16..] == m[16..] + n;
    }
  }

  /** The chain held by the 32 bytes of an iv. */
  function IvChain(iv: seq<bv8>): Chain
    requires |iv| == 32
  {
    Chain(iv[..16], iv[16..])
  }

  // ---- the code ----

  /** Copies the block at `off` of `from`. */
  method Load(from: array<bv8>, off: nat, to: array<bv8>)
    requires off + 16 <= from.Length && to.Length == 16 && from != to
    modifies to
    ensures to[..] == from[off..off + 16]
  {
    for i := 0 to 16
      invariant forall j :: 0 <= j < i ==> to[j] == from[off + j]
    {
      to[i] := from[off + i];
    }
  }

  /** Copies a block to `off` of `to`. */
  method Store(from: array<bv8>, to: array<bv8>, off: nat)
    requires off + 16 <= to.Length && from.Length == 16 && from != to
    modifies to
    ensures to[..] == old(to[..off]) + from[..] + old(to[off + 16..])
  {
    for i := 0 to 16
      invariant forall j :: 0 <= j < i ==> to[off + j] == from[j]
      invariant forall j :: 0 <= j < to.Length && !(off <= j < off + i) ==> to[j] == old(to[j])
    {
      to[off + i] := from[i];
    }
    assert to[..off] == old(to[..off]) && to[off + 16..] == old(to[off + 16..]);
    assert to[off..off + 16] == from[..];
  }

  /** `dst` may be either operand. */
  method XorInto(dst: array<bv8>, a: array<bv8>, b: array<bv8>)
    requires dst.Length == a.Length == b.Length == 16
    modifies dst
    ensures dst[..] == XorBlock(old(a[..]), old(b[..]))
  {
    hide Xor;
    for i := 0 to 16
      invariant forall j :: 0 <= j < i ==> dst[j] == Xor(old(a[j]), old(b[j]))
      invariant forall j :: i <= j < 16 ==> dst[j] == old(dst[j])
      invariant a != dst ==> a[..] == old(a[..])
      invariant b != dst ==> b[..] == old(b[..])
    {
      dst[i] := Xor(a[i], b[i]);
    }
  }

  lemma NextEncrypted(k: Schedule, v: Chain, m: seq<bv8>, off: nat)
    requires k.Valid() && off % 16 == 0 && off + 16 <= |m|
    ensures WholeBlocks(m[..off]) && WholeBlocks(m[..off + 16])
    ensures var w := AfterEncrypting(k, v, m[..off]);
      var b := m[off..off + 16];
      && Encrypted(k, v, m[..off + 16]) == Encrypted(k, v, m[..off]) + EncryptOne(k, w, b)
      && AfterEncrypting(k, v, m[..off + 16]) == Chain(EncryptOne(k, w, b), b)
  {
    hide EncryptOne;
    var b := m[off..off + 16];
    assert m[..off + 16] == m[..off] + b;
    SplitEncryption(k, v, m[..off], b);
    assert b[..16] == b && b[16..] == [];
  }

  lemma NextDecrypted(k: Schedule, v: Chain, m: seq<bv8>, off: nat)
    requires k.Valid() && off % 16 == 0 && off + 16 <= |m|
    ensures WholeBlocks(m[..off]) && WholeBlocks(m[..off + 16])
    ensures var w := AfterDecrypting(k, v, m[..off]);
      var b := m[off..off + 16];
      && Decrypted(k, v, m[..off + 16]) == Decrypted(k, v, m[..off]) + DecryptOne(k, w, b)
      && AfterDecrypting(k, v, m[..off + 16]) == Chain(b, DecryptOne(k, w, b))
  {
    hide DecryptOne;
    var b := m[off..off + 16];
    assert m[..off + 16] == m[..off] + b;
    SplitDecryption(k, v, m[..off], b);
    assert b[..16] == b && b[16..] == [];
  }

  method SaveIv(prevC: array<bv8>, prevP: array<bv8>, iv: array<bv8>)
    requires prevC.Length == prevP.Length == 16 && iv.Length == 32 && iv != prevC && iv != prevP
    modifies iv
    ensures IvChain(iv[..]) == Chain(prevC[..], prevP[..])
  {
    Store(prevC, iv, 0);
    Store(prevP, iv, 16);
  }

  /** One pass of the loop: the block at `off` of `src` goes to `off` of `dst`. */
  method EncryptAt(k: Schedule, prevC: array<bv8>, prevP: array<bv8>, src: array<bv8>, dst: array<bv8>, off: nat)
    requires k.Valid() && prevC.Length == prevP.Length == 16 && prevC != prevP
    requires off + 16 <= src.Length && off + 16 <= dst.Length
    requires prevC != src && prevC != dst && prevP != src && prevP != dst
    modifies prevC, prevP, dst
    ensures var b := old(src[off..off + 16]);
      var out := EncryptOne(k, old(Chain(prevC[..], prevP[..])), b);
      && dst[..] == old(dst[..off]) + out + old(dst[off + 16..])
      && Chain(prevC[..], prevP[..]) == Chain(out, b)
  {
    hide EncryptOne, XorBlock, Encrypt;
    var cur, tmp := new bv8[16], new bv8[16];
    Load(src, off, cur);
    OneIs(k, Chain(prevC[..], prevP[..]), cur[..]);
    XorInto(tmp, cur, prevC);
    EncryptBlock(k, tmp, tmp);
    XorInto(tmp, tmp, prevP);
    Store(tmp, dst, off);
    Copy(tmp, prevC);
    Copy(cur, prevP);
  }

  /** `d0` with `done` written over its beginning. */
  ghost function Written(d0: seq<bv8>, done: seq<bv8>): seq<bv8>
    requires |done| <= |d0|
  {
    done + d0[|done|..]
  }

  lemma Advance(d0: seq<bv8>, done: seq<bv8>, out: Block, d: seq<bv8>, off: nat)
    requires |done| == off && off + 16 <= |d0| && d == Written(d0, done)
    ensures d[..off] + out + d[off + 16..] == Written(d0, done + out)
    ensures d[off..off + 16] == d0[off..off + 16]
  {
  }

  lemma NoneWritten(d0: seq<bv8>)
    ensures Written(d0, []) == d0
  {
  }

  lemma SameBlock(s0: seq<bv8>, s: seq<bv8>, m: seq<bv8>, off: nat)
    requires off + 16 <= |m| <= |s| == |s0| && m == s0[..|m|]
    requires s[off..off + 16] == s0[off..off + 16]
    ensures s[off..off + 16] == m[off..off + 16]
  {
  }

  /** The whole loop, on the chain held by `prevC` and `prevP`. */
  method EncryptRun(k: Schedule, prevC: array<bv8>, prevP: array<bv8>, src: array<bv8>, dst: array<bv8>, len: nat)
    requires k.Valid() && prevC.Length == prevP.Length == 16 && prevC != prevP
    requires len % 16 == 0 && len <= src.Length && len <= dst.Length
    requires prevC != src && prevC != dst && prevP != src && prevP != dst
    modifies prevC, prevP, dst
    ensures var v := old(Chain(prevC[..], prevP[..]));
      && dst[..] == Written(old(dst[..]), Encrypted(k, v, old(src[..len])))
      && Chain(prevC[..], prevP[..]) == AfterEncrypting(k, v, old(src[..len]))
  {
    hide EncryptOne, Encrypted, AfterEncrypting, Written;
    ghost var s0, d0 := src[..], dst[..];
    ghost var m := s0[..len];
    ghost var v := Chain(prevC[..], prevP[..]);
    var off := 0;
    Nothing(k, v, m);
    NoneWritten(d0);
    while off < len
      invariant off % 16 == 0 && off <= len
      invariant dst[..] == Written(d0, Encrypted(k, v, m[..off]))
      invariant Chain(prevC[..], prevP[..]) == AfterEncrypting(k, v, m[..off])
      invariant src != dst ==> src[..] == s0
    {
      NextEncrypted(k, v, m, off);
      ghost var done, d := Encrypted(k, v, m[..off]), dst[..];
      ghost var out := EncryptOne(k, Chain(prevC[..], prevP[..]), m[off..off + 16]);
      Advance(d0, done, out, d, off);
      SameBlock(s0, src[..], m, off);
      EncryptAt(k, prevC, prevP, src, dst, off);
      off := off + 16;
    }
    assert m[..off] == m;
  }

  /** Encrypts the first `len` bytes of `src` into `dst`, which may be the same array. */
  method IgeEncrypt(k: Schedule, iv: array<bv8>, src: array<bv8>, dst: array<bv8>, len: nat) returns (status: int)
    requires k.Valid() && iv.Length == 32 && len <= src.Length && len <= dst.Length && iv != src && iv != dst
    modifies iv, dst
    ensures len == 0 || len % 16 != 0 ==> status == -1 && iv[..] == old(iv[..]) && dst[..] == old(dst[..])
    ensures len > 0 && len % 16 == 0 ==>
        && status == 0
        && dst[..] == Written(old(dst[..]), Encrypted(k, IvChain(old(iv[..])), old(src[..len])))
        && IvChain(iv[..]) == AfterEncrypting(k, IvChain(old(iv[..])), old(src[..len]))
  {
    hide Encrypted, AfterEncrypting;
    if len == 0 || len % 16 != 0 {
      return -1;
    }
    var prevC, prevP := new bv8[16], new bv8[16];
    Load(iv, 0, prevC);
    Load(iv, 16, prevP);
    assert Chain(prevC[..], prevP[..]) == IvChain(iv[..]);
    EncryptRun(k, prevC, prevP, src, dst, len);
    SaveIv(prevC, prevP, iv);
    return 0;
  }

  /** One pass of the loop: the block at `off` of `src` goes to `off` of `dst`. */
  method DecryptAt(k: Schedule, prevC: array<bv8>, prevP: array<bv8>, src: array<bv8>, dst: array<bv8>, off: nat)
    requires k.Valid() && prevC.Length == prevP.Length == 16 && prevC != prevP
    requires off + 16 <= src.Length && off + 16 <= dst.Length
    requires prevC != src && prevC != dst && prevP != src && prevP != dst
    modifies prevC, prevP, dst
    ensures var b := old(src[off..off + 16]);
      var out := DecryptOne(k, old(Chain(prevC[..], prevP[..])), b);
      && dst[..] == old(dst[..off]) + out + old(dst[off + 16..])
      && Chain(prevC[..], prevP[..]) == Chain(b, out)
  {
    hide DecryptOne, XorBlock, Decrypt;
    var cur, tmp := new bv8[16], new bv8[16];
    Load(src, off, cur);
    OneIs(k, Chain(prevC[..], prevP[..]), cur[..]);
    XorInto(tmp, cur, prevP);
    DecryptBlock(k, tmp, tmp);
    XorInto(tmp, tmp, prevC);
    Store(tmp, dst, off);
    Copy(tmp, prevP);
    Copy(cur, prevC);
  }

  /** The whole loop, on the chain held by `prevC` and `prevP`. */
  method DecryptRun(k: Schedule, prevC: array<bv8>, prevP: array<bv8>, src: array<bv8>, dst: array<bv8>, len: nat)
    requires k.Valid() && prevC.Length == prevP.Length == 16 && prevC != prevP
    requires len % 16 == 0 && len <= src.Length && len <= dst.Length
    requires prevC != src && prevC != dst && prevP != src && prevP != dst
    modifies prevC, prevP, dst
    ensures var v := old(Chain(prevC[..], prevP[..]));
      && dst[..] == Written(old(dst[..]), Decrypted(k, v, old(src[..len])))
      && Chain(prevC[..], prevP[..]) == AfterDecrypting(k, v, old(src[..len]))
  {
    hide DecryptOne, Decrypted, AfterDecrypting, Written;
    ghost var s0, d0 := src[..], dst[..];
    ghost var m := s0[..len];
    ghost var v := Chain(prevC[..], prevP[..]);
    var off := 0;
    Nothing(k, v, m);
    NoneWritten(d0);
    while off < len
      invariant off % 16 == 0 && off <= len
      invariant dst[..] == Written(d0, Decrypted(k, v, m[..off]))
      invariant Chain(prevC[..], prevP[..]) == AfterDecrypting(k, v, m[..off])
      invariant src != dst ==> src[..] == s0
    {
      NextDecrypted(k, v, m, off);
      ghost var done, d := Decrypted(k, v, m[..off]), dst[..];
      ghost var out := DecryptOne(k, Chain(prevC[..], prevP[..]), m[off..off + 16]);
      Advance(d0, done, out, d, off);
      SameBlock(s0, src[..], m, off);
      DecryptAt(k, prevC, prevP, src, dst, off);
      off := off + 16;
    }
    assert m[..off] == m;
  }

  /** Decrypts the first `len` bytes of `src` into `dst`, which may be the same array. */
  method IgeDecrypt(k: Schedule, iv: array<bv8>, src: array<bv8>, dst: array<bv8>, len: nat) returns (status: int)
    requires k.Valid() && iv.Length == 32 && len <= src.Length && len <= dst.Length && iv != src && iv != dst
    modifies iv, dst
    ensures len == 0 || len % 16 != 0 ==> status == -1 && iv[..] == old(iv[..]) && dst[..] == old(dst[..])
    ensures len > 0 && len % 16 == 0 ==>
        && status == 0
        && dst[..] == Written(old(dst[..]), Decrypted(k, IvChain(old(iv[..])), old(src[..len])))
        && IvChain(iv[..]) == AfterDecrypting(k, IvChain(old(iv[..])), old(src[..len]))
  {
    hide Decrypted, AfterDecrypting;
    if len == 0 || len % 16 != 0 {
      return -1;
    }
    var prevC, prevP := new bv8[16], new bv8[16];
    Load(iv, 0, prevC);
    Load(iv, 16, prevP);
    assert Chain(prevC[..], prevP[..]) == IvChain(iv[..]);
    DecryptRun(k, prevC, prevP, src, dst, len);
    SaveIv(prevC, prevP, iv);
    return 0;
  }

  lemma Nothing(k: Schedule, v: Chain, m: seq<bv8>)
    requires k.Valid()
    ensures Encrypted(k, v, m[..0]) == [] && AfterEncrypting(k, v, m[..0]) == v
    ensures Decrypted(k, v, m[..0]) == [] && AfterDecrypting(k, v, m[..0]) == v
  {
  }

  lemma OneIs(k: Schedule, v: Chain, b: Block)
    requires k.Valid()
    ensures EncryptOne(k, v, b) == XorBlock(Encrypt(k, XorBlock(b, v.c)), v.p)
    ensures DecryptOne(k, v, b) == XorBlock(Decrypt(k, XorBlock(b, v.p)), v.c)
  {
    hide XorBlock, Encrypt, Decrypt;
  }
}
