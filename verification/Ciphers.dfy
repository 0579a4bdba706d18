/**
 * AES in CBC mode (section 6.2 of NIST SP 800-38A) with PKCS#7 padding
 * (section 6.3 of RFC 5652). The block permutation, HMAC-SHA256 and the key
 * derivations are parameters: nothing about them is assumed beyond Lawful.
 */
module Ciphers {
  import opened Wrappers
  import opened Base64

  const BLOCK_SIZE: nat := 16

  type Block = b: seq<byte> | |b| == BLOCK_SIZE witness seq(BLOCK_SIZE, _ => 0)
  type Digest = b: seq<byte> | |b| == 32 witness seq(32, _ => 0)

  datatype Primitives = Primitives(
    encryptBlock: (seq<byte>, Block) -> Block,
    decryptBlock: (seq<byte>, Block) -> Block,
    hmac: (seq<byte>, seq<byte>) -> Digest,
    masterKey: (string, string, int) -> Digest,           // PBKDF2 of password, email, iterations
    stretch: (Digest, string) -> Digest                   // HKDF-Expand of key, info
  )

  /** Under every key the cipher permutes the blocks. */
  ghost predicate Lawful(p: Primitives) {
    && (forall k: seq<byte>, b: Block {:trigger p.encryptBlock(k, b)} :: p.decryptBlock(k, p.encryptBlock(k, b)) == b)
    && (forall k: seq<byte>, b: Block {:trigger p.decryptBlock(k, b)} :: p.encryptBlock(k, p.decryptBlock(k, b)) == b)
  }

  // ----- exclusive or -----

  function XorBits(a: nat, b: nat): nat
    decreases a + b
  {
    if a == 0 && b == 0 then 0 else (if a % 2 == b % 2 then 0 else 1) + 2 * XorBits(a / 2, b / 2)
  }

  lemma {:induction false} XorBelow(a: nat, b: nat, bound: nat, bits: nat)
    requires bound == Power(bits) && a < bound && b < bound
    ensures XorBits(a, b) < bound
    decreases bits
  {
    if bits > 0 {
      XorBelow(a / 2, b / 2, Power(bits - 1), bits - 1);
    }
  }

  function Power(bits: nat): (r: nat)
    ensures r > 0
  {
    if bits == 0 then 1 else 2 * Power(bits - 1)
  }

  function Xor(a: byte, b: byte): byte {
    assert Power(8) == 256;
    XorBelow(a, b, 256, 8);
    XorBits(a, b)
  }

  lemma XorHalves(a: nat, b: nat)
    ensures XorBits(a, b) % 2 == if a % 2 == b % 2 then 0 else 1
    ensures XorBits(a, b) / 2 == XorBits(a / 2, b / 2)
  {
  }

  lemma {:induction false} XorBitsCancels(a: nat, b: nat)
    ensures XorBits(XorBits(a, b), b) == a
    decreases a + b
  {
    if a != 0 || b != 0 {
      XorBitsCancels(a / 2, b / 2);
      hide XorBits;
      var x := XorBits(a, b);
      XorHalves(a, b);
      XorHalves(x, b);
      assert XorBits(x, b) % 2 == a % 2;
      assert XorBits(x, b) / 2 == a / 2;
    }
  }

  /** Bit i of n, counted from the low end. */
  function Bit(n: nat, i: nat): nat
    decreases i
  {
    if i == 0 then n % 2 else Bit(n / 2, i - 1)
  }

  lemma HalfQuotient(n: nat, p: nat)
    requires p in {1, 2, 4, 8, 16, 32, 64}
    ensures n / 2 / p == n / (2 * p)
  {
  }

  lemma PowersOfTwo(i: nat)
    requires i < 7
    ensures Power(i) in {1, 2, 4, 8, 16, 32, 64}
  {
    assert Power(0) == 1 && Power(1) == 2 && Power(2) == 4 && Power(3) == 8;
    assert Power(4) == 16 && Power(5) == 32 && Power(6) == 64;
  }

  lemma {:induction false} BitIs(n: nat, i: nat)
    requires i < 8
    ensures Bit(n, i) == n / Power(i) % 2
    decreases i
  {
    if i > 0 {
      BitIs(n / 2, i - 1);
      PowersOfTwo(i - 1);
      HalfQuotient(n, Power(i - 1));
    }
  }

  lemma {:induction false} XorBitsBit(a: nat, b: nat, i: nat)
    ensures Bit(XorBits(a, b), i) == (Bit(a, i) + Bit(b, i)) % 2
    decreases i
  {
    XorHalves(a, b);
    if i > 0 {
      XorBitsBit(a / 2, b / 2, i - 1);
    }
  }

  /** Exclusive or, bit by bit: each bit of the result is the sum of the two bits modulo 2. */
  lemma XorBit(a: byte, b: byte, i: nat)
    requires i < 8
    ensures Xor(a, b) / Power(i) % 2 == (a / Power(i) + b / Power(i)) % 2
  {
    XorBitsBit(a, b, i);
    BitIs(a, i);
    BitIs(b, i);
    BitIs(Xor(a, b), i);
    SumParity(a / Power(i), b / Power(i));
  }

  lemma SumParity(x: int, y: int)
    ensures (x % 2 + y % 2) % 2 == (x + y) % 2
  {
  }

  function XorSeq(a: seq<byte>, b: seq<byte>): (r: seq<byte>)
    requires |a| == |b|
    ensures |r| == |a|
    ensures forall i :: 0 <= i < |a| ==> r[i] == Xor(a[i], b[i])
  {
    seq(|a|, i requires 0 <= i < |a| => Xor(a[i], b[i]))
  }

  lemma XorSeqCancels(a: seq<byte>, b: seq<byte>)
    requires |a| == |b|
    ensures XorSeq(XorSeq(a, b), b) == a
  {
    forall i | 0 <= i < |a|
      ensures XorSeq(XorSeq(a, b), b)[i] == a[i]
    {
      XorBitsCancels(a[i], b[i]);
    }
  }

  // ----- CBC -----

  /** The specification: what a client of the vault does before uploading. */
  function EncryptCbc(p: Primitives, key: seq<byte>, iv: Block, plain: seq<byte>): (ct: seq<byte>)
    requires |plain| % BLOCK_SIZE == 0
    ensures |ct| == |plain|
    decreases |plain|
  {
    if plain == [] then []
    else
      var c: Block := p.encryptBlock(key, XorSeq(plain[..BLOCK_SIZE], iv));
      c + EncryptCbc(p, key, c, plain[BLOCK_SIZE..])
  }

  function DecryptCbc(p: Primitives, key: seq<byte>, iv: Block, ct: seq<byte>): (plain: seq<byte>)
    requires |ct| % BLOCK_SIZE == 0
    ensures |plain| == |ct|
    decreases |ct|
  {
    if ct == [] then []
    else XorSeq(p.decryptBlock(key, ct[..BLOCK_SIZE]), iv) + DecryptCbc(p, key, ct[..BLOCK_SIZE], ct[BLOCK_SIZE..])
  }

  lemma {:induction false} DecryptEncryptCbc(p: Primitives, key: seq<byte>, iv: Block, plain: seq<byte>)
    requires Lawful(p) && |plain| % BLOCK_SIZE == 0
    ensures DecryptCbc(p, key, iv, EncryptCbc(p, key, iv, plain)) == plain
    decreases |plain|
  {
    if plain != [] {
      var head, tail := plain[..BLOCK_SIZE], plain[BLOCK_SIZE..];
      var c: Block := p.encryptBlock(key, XorSeq(head, iv));
      DecryptEncryptCbc(p, key, c, tail);
      var ct := EncryptCbc(p, key, iv, plain);
      assert ct[..BLOCK_SIZE] == c && ct[BLOCK_SIZE..] == EncryptCbc(p, key, c, tail);
      XorSeqCancels(head, iv);
      assert plain == head + tail;
    }
  }

  lemma {:induction false} EncryptDecryptCbc(p: Primitives, key: seq<byte>, iv: Block, ct: seq<byte>)
    requires Lawful(p) && |ct| % BLOCK_SIZE == 0
    ensures EncryptCbc(p, key, iv, DecryptCbc(p, key, iv, ct)) == ct
    decreases |ct|
  {
    if ct != [] {
      var head, tail := ct[..BLOCK_SIZE], ct[BLOCK_SIZE..];
      var b: Block := p.decryptBlock(key, head);
      EncryptDecryptCbc(p, key, head, tail);
      var plain := DecryptCbc(p, key, iv, ct);
      assert plain[..BLOCK_SIZE] == XorSeq(b, iv) && plain[BLOCK_SIZE..] == DecryptCbc(p, key, head, tail);
      XorSeqCancels(b, iv);
      assert ct == head + tail;
    }
  }

  /** The j-th block of s. */
  function BlockOf(s: seq<byte>, j: nat): Block
    requires 16 * j + 16 <= |s|
  {
    s[16 * j..16 * j + 16]
  }

  /** The CBC equation of the standard: each ciphertext block is decrypted and added to the one before, the first to the IV. */
  lemma {:induction false} CbcBlock(p: Primitives, key: seq<byte>, iv: Block, ct: seq<byte>, j: nat)
    requires |ct| % 16 == 0 && 16 * j + 16 <= |ct|
    ensures BlockOf(DecryptCbc(p, key, iv, ct), j)
         == XorSeq(p.decryptBlock(key, BlockOf(ct, j)), if j == 0 then iv else BlockOf(ct, j - 1))
    decreases j
  {
    var head: Block, tail := ct[..16], ct[16..];
    var first := XorSeq(p.decryptBlock(key, head), iv);
    assert DecryptCbc(p, key, iv, ct) == first + DecryptCbc(p, key, head, tail);
    if j == 0 {
      assert BlockOf(ct, 0) == head;
    } else {
      CbcBlock(p, key, head, tail, j - 1);
      BlockOfTail(first, DecryptCbc(p, key, head, tail), j);
      assert ct == head + tail;
      BlockOfTail(head, tail, j);
      if j == 1 {
        assert BlockOf(ct, 0) == head;
      } else {
        BlockOfTail(head, tail, j - 1);
      }
    }
  }

  lemma BlockOfTail(head: seq<byte>, tail: seq<byte>, j: nat)
    requires |head| == 16 && 0 < j && 16 * j <= |tail|
    ensures BlockOf(head + tail, j) == BlockOf(tail, j - 1)
  {
  }

  lemma DecryptNext(p: Primitives, key: seq<byte>, prev: Block, ct: seq<byte>, block: Block, rest: seq<byte>)
    requires |ct| % BLOCK_SIZE == 0 && ct == block + rest
    ensures |rest| % BLOCK_SIZE == 0
    ensures DecryptCbc(p, key, prev, ct) == XorSeq(p.decryptBlock(key, block), prev) + DecryptCbc(p, key, block, rest)
  {
    assert ct[..BLOCK_SIZE] == block && ct[BLOCK_SIZE..] == rest;
  }

  lemma Associate(a: seq<byte>, b: seq<byte>, c: seq<byte>)
    ensures a + (b + c) == a + b + c
  {
  }

  /** mode.CryptBlocks(dst, ct) for a decrypter, on a buffer that does not overlap. */
  method CryptBlocks(p: Primitives, key: seq<byte>, iv: Block, dst: array<byte>, ct: seq<byte>)
    requires |ct| % BLOCK_SIZE == 0 && dst.Length == |ct|
    modifies dst
    ensures dst[..] == DecryptCbc(p, key, iv, ct)
  {
    hide Xor, XorSeq;
    var i, prev, rest := 0, iv, ct;
    ghost var whole := DecryptCbc(p, key, iv, ct);
    while rest != []
      invariant 0 <= i == |ct| - |rest| && |rest| % BLOCK_SIZE == 0
      invariant dst[..i] + DecryptCbc(p, key, prev, rest) == whole
      decreases |rest|
    {
      var block: Block, tail := rest[..BLOCK_SIZE], rest[BLOCK_SIZE..];
      var out := XorSeq(p.decryptBlock(key, block), prev);
      DecryptNext(p, key, prev, rest, block, tail);
      ghost var done := dst[..i];
      forall j | 0 <= j < BLOCK_SIZE {
        dst[i + j] := out[j];
      }
      assert dst[..i + BLOCK_SIZE] == done + out;
      Associate(done, out, DecryptCbc(p, key, block, tail));
      i, prev, rest := i + BLOCK_SIZE, block, tail;
    }
    assert dst[..i] == dst[..];
  }

  // ----- PKCS#7 -----

  datatype PaddingError = InvalidPadding | InvalidPaddingBytes

  function Repeat(v: byte, n: nat): (r: seq<byte>)
    ensures |r| == n
  {
    seq(n, i => v)
  }

  /** The specification: section 6.3 of RFC 5652 with 16-byte blocks. */
  function Pad(m: seq<byte>): (t: seq<byte>)
    ensures |t| % BLOCK_SIZE == 0 && |t| > |m|
  {
    var n := BLOCK_SIZE - |m| % BLOCK_SIZE;
    m + Repeat(n, n)
  }

  /** What the code accepts and returns; indexing an empty plaintext panics. */
  function Unpad(t: seq<byte>): Outcome<seq<byte>, PaddingError>
    requires |t| % BLOCK_SIZE == 0
  {
    if t == [] then Panic
    else
      var n := t[|t| - 1];
      if n > BLOCK_SIZE || n == 0 then Err(InvalidPadding)
      else if exists i :: |t| - n <= i < |t| && t[i] != n then Err(InvalidPaddingBytes)
      else Ok(t[..|t| - n])
  }

  /** t is m followed by n bytes n that fill it up to a multiple of 16. */
  ghost predicate PaddedBy(m: seq<byte>, t: seq<byte>, n: byte) {
    1 <= n <= 16 && (|m| + n as int) % 16 == 0 && t == m + seq(n as nat, _ => n)
  }

  lemma PadIff(m: seq<byte>, t: seq<byte>)
    ensures t == Pad(m) <==> exists n :: PaddedBy(m, t, n)
  {
    var n: byte := 16 - |m| % 16;
    assert Repeat(n, n) == seq(n as nat, _ => n);
    if t == Pad(m) {
      assert PaddedBy(m, t, n);
    }
    if k :| PaddedBy(m, t, k) {
      assert k == n;
    }
  }

  lemma UnpadPad(m: seq<byte>)
    ensures Unpad(Pad(m)) == Ok(m)
  {
    assert Pad(m)[..|m|] == m;
  }

  /** Unpadding accepts exactly the padded messages, and each has one message. */
  lemma UnpadIff(t: seq<byte>, m: seq<byte>)
    requires |t| % BLOCK_SIZE == 0
    ensures Unpad(t) == Ok(m) <==> t == Pad(m)
    ensures Unpad(t).Panic? <==> t == []
  {
    UnpadPad(m);
    if Unpad(t) == Ok(m) {
      var n := t[|t| - 1];
      assert m == t[..|t| - n] && forall i :: |t| - n <= i < |t| ==> t[i] == n;
      assert n == BLOCK_SIZE - |m| % BLOCK_SIZE;
      hide Unpad;
      assert t == m + Repeat(n, n);
    }
  }

  /** The source's last-byte test and loop over the padding bytes. */
  method StripPadding(plaintext: array<byte>) returns (r: Outcome<seq<byte>, PaddingError>)
    requires plaintext.Length % BLOCK_SIZE == 0
    ensures r == Unpad(plaintext[..])
  {
    var len := plaintext.Length;
    if len == 0 {
      return Panic;
    }
    var padding := plaintext[len - 1];
    if padding > BLOCK_SIZE || padding == 0 {
      return Err(InvalidPadding);
    }
    for i := len - padding to len
      invariant forall j :: len - padding <= j < i ==> plaintext[j] == padding
    {
      if plaintext[i] != padding {
        assert plaintext[..][i] != padding;
        return Err(InvalidPaddingBytes);
      }
    }
    return Ok(plaintext[..len - padding]);
  }
}
