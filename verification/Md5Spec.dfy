/** MD5 as section 3 of RFC 1321 defines it. */
module Md5Spec {
  import opened Basics

  type Word = bv32
  type Octet = bv8

  // ---------- words and bytes, low-order byte first ----------

  function Join(b0: Octet, b1: Octet, b2: Octet, b3: Octet): Word {
    (b0 as bv32) | ((b1 as bv32) << 8) | ((b2 as bv32) << 16) | ((b3 as bv32) << 24)
  }

  function WordAt(data: seq<Octet>, i: nat): Word
    requires i + 4 <= |data|
  {
    Join(data[i], data[i + 1], data[i + 2], data[i + 3])
  }

  function Low(w: Word): Octet {
    (w & 0xFF) as bv8
  }

  function Bytes(w: Word): (bs: seq<Octet>)
    ensures |bs| == 4
  {
    [Low(w), Low(w >> 8), Low(w >> 16), Low(w >> 24)]
  }

  // ---------- the 64 operations ----------

  function F(x: Word, y: Word, z: Word): Word { (x & y) | (!x & z) }

  function G(x: Word, y: Word, z: Word): Word { (x & z) | (y & !z) }

  function H(x: Word, y: Word, z: Word): Word { x ^ y ^ z }

  function I(x: Word, y: Word, z: Word): Word { y ^ (x | !z) }

  /** Entry i + 1 of the table made from the sine function. */
  function T(i: nat): Word
    requires i < 64
  {
    if i < 8 then Row(i, 0xD76AA478, 0xE8C7B756, 0x242070DB, 0xC1BDCEEE,
      0xF57C0FAF, 0x4787C62A, 0xA8304613, 0xFD469501)
    else if i < 16 then Row(i - 8, 0x698098D8, 0x8B44F7AF, 0xFFFF5BB1, 0x895CD7BE,
      0x6B901122, 0xFD987193, 0xA679438E, 0x49B40821)
    else if i < 24 then Row(i - 16, 0xF61E2562, 0xC040B340, 0x265E5A51, 0xE9B6C7AA,
      0xD62F105D, 0x02441453, 0xD8A1E681, 0xE7D3FBC8)
    else if i < 32 then Row(i - 24, 0x21E1CDE6, 0xC33707D6, 0xF4D50D87, 0x455A14ED,
      0xA9E3E905, 0xFCEFA3F8, 0x676F02D9, 0x8D2A4C8A)
    else if i < 40 then Row(i - 32, 0xFFFA3942, 0x8771F681, 0x6D9D6122, 0xFDE5380C,
      0xA4BEEA44, 0x4BDECFA9, 0xF6BB4B60, 0xBEBFBC70)
    else if i < 48 then Row(i - 40, 0x289B7EC6, 0xEAA127FA, 0xD4EF3085, 0x04881D05,
      0xD9D4D039, 0xE6DB99E5, 0x1FA27CF8, 0xC4AC5665)
    else if i < 56 then Row(i - 48, 0xF4292244, 0x432AFF97, 0xAB9423A7, 0xFC93A039,
      0x655B59C3, 0x8F0CCC92, 0xFFEFF47D, 0x85845DD1)
    else Row(i - 56, 0x6FA87E4F, 0xFE2CE6E0, 0xA3014314, 0x4E0811A1,
      0xF7537E82, 0xBD3AF235, 0x2AD7D2BB, 0xEB86D391)
  }

  /** Which word of the block operation i takes. */
  function K(i: nat): (k: nat)
    requires i < 64
    ensures k < 16
  {
    if i < 16 then i else if i < 32 then (1 + 5 * i) % 16 else if i < 48 then (5 + 3 * i) % 16 else (7 * i) % 16
  }

  /** How far operation i rotates. */
  function Turn(i: nat): (s: nat)
    requires i < 64
    ensures 0 < s < 32
  {
    if i < 16 then Row(i % 4, 7, 12, 17, 22, 7, 12, 17, 22)
    else if i < 32 then Row(i % 4, 5, 9, 14, 20, 5, 9, 14, 20)
    else if i < 48 then Row(i % 4, 4, 11, 16, 23, 4, 11, 16, 23)
    else Row(i % 4, 6, 10, 15, 21, 6, 10, 15, 21)
  }

  function Mix(i: nat, x: Word, y: Word, z: Word): Word {
    if i < 16 then F(x, y, z) else if i < 32 then G(x, y, z) else if i < 48 then H(x, y, z) else I(x, y, z)
  }

  function RotateLeft(x: Word, s: nat): Word
    requires 0 < s < 32
  {
    (x << s) | (x >> (32 - s))
  }

  datatype State = State(a: Word, b: Word, c: Word, d: Word)

  const INITIAL := State(0x67452301, 0xEFCDAB89, 0x98BADCFE, 0x10325476)

  type Block = x: seq<Word> | |x| == 16 witness seq(16, _ => 0)

  /** Addition modulo 2^32. */
  function Plus(a: Word, b: Word): Word { a + b }

  function Stepped(a: Word, b: Word, mixed: Word, word: Word, t: Word, n: nat): Word
    requires 0 < n < 32
  {
    Plus(b, RotateLeft(a + mixed + word + t, n))
  }

  function Step(s: State, mixed: Word, word: Word, t: Word, n: nat): State
    requires 0 < n < 32
  {
    State(s.d, Stepped(s.a, s.b, mixed, word, t, n), s.b, s.c)
  }

  /** The operation [ABCD k s i], after which the registers change names. */
  function Operation(x: Block, s: State, i: nat): State
    requires i < 64
  {
    Step(s, Mix(i, s.b, s.c, s.d), x[K(i)], T(i), Turn(i))
  }

  function Operations(x: Block, s: State, i: nat): State
    requires i <= 64
  {
    if i == 0 then s else Operation(x, Operations(x, s, i - 1), i - 1)
  }

  // ---------- whole messages ----------

  function Decode(data: seq<Octet>): (x: Block)
    requires |data| == 64
  {
    seq(16, i requires 0 <= i < 16 => WordAt(data, 4 * i))
  }

  function Compress(s: State, data: seq<Octet>): State
    requires |data| == 64
  {
    var t := Operations(Decode(data), s, 64);
    State(Plus(s.a, t.a), Plus(s.b, t.b), Plus(s.c, t.c), Plus(s.d, t.d))
  }

  type Chunk = b: seq<Octet> | |b| == 64 witness seq(64, _ => 0)

  type Compressor = (State, Chunk) -> State

  function Compression(): Compressor {
    (s: State, b: Chunk) => Compress(s, b)
  }

  /** The whole blocks of data, one after the other. */
  function Fold(f: Compressor, s: State, data: seq<Octet>): State
    decreases |data|
  {
    if |data| < 64 then s else Fold(f, f(s, data[..64]), data[64..])
  }

  const WORD := 0x1_0000_0000

  function Number(v: nat): (bs: seq<Octet>)
    requires v < WORD
    ensures |bs| == 4
  {
    [(v % 256) as bv8, (v / 256 % 256) as bv8, (v / 65536 % 256) as bv8, (v / 16777216) as bv8]
  }

  /** The low-order 64 bits of the number of bits in n bytes, as two words. */
  function Length(n: nat): (bs: seq<Octet>)
    ensures |bs| == 8
  {
    Number(8 * n % WORD) + Number(8 * n / WORD % WORD)
  }

  function PadLength(n: nat): (k: nat)
    ensures 1 <= k <= 64 && (n + k + 8) % 64 == 0
  {
    if n % 64 < 56 then 56 - n % 64 else 120 - n % 64
  }

  /** A single 1 bit, then zeros. */
  function Padding(k: nat): (p: seq<Octet>)
    requires k > 0
    ensures |p| == k
  {
    [0x80] + seq(k - 1, _ => 0)
  }

  function Padded(m: seq<Octet>): (p: seq<Octet>)
    ensures |p| == |m| + PadLength(|m|) + 8 && |p| % 64 == 0
  {
    m + Padding(PadLength(|m|)) + Length(|m|)
  }

  function Output(s: State): (d: seq<Octet>)
    ensures |d| == 16
  {
    Bytes(s.a) + Bytes(s.b) + Bytes(s.c) + Bytes(s.d)
  }

  function Md5(m: seq<Octet>): (d: seq<Octet>)
    ensures |d| == 16
  {
    Output(Fold(Compression(), INITIAL, Padded(m)))
  }

  // ---------- keyed hashing, section 2 of RFC 2104 ----------

  function XorKey(key: seq<Octet>, pad: Octet): (k: seq<Octet>)
    requires |key| <= 64
    ensures |k| == 64
  {
    seq(64, i requires 0 <= i < 64 => if i < |key| then pad ^ key[i] else pad)
  }

  /** For a key longer than a block its digest is the key. */
  function Hmac(key: seq<Octet>, text: seq<Octet>): (d: seq<Octet>)
    ensures |d| == 16
  {
    var k := if |key| <= 64 then key else Md5(key);
    Md5(XorKey(k, 0x5C) + Md5(XorKey(k, 0x36) + text))
  }

  // ---------- facts ----------

  lemma {:induction false} FoldOn(f: Compressor, s: State, a: seq<Octet>, b: seq<Octet>)
    requires |a| % 64 == 0
    ensures Fold(f, s, a + b) == Fold(f, Fold(f, s, a), b)
    decreases |a|
  {
    if a == [] {
      assert a + b == b;
    } else {
      assert (a + b)[..64] == a[..64] && (a + b)[64..] == a[64..] + b;
      FoldOn(f, f(s, a[..64]), a[64..], b);
    }
  }

  lemma FoldBlock(f: Compressor, s: State, a: seq<Octet>, b: Chunk)
    requires |a| % 64 == 0
    ensures Fold(f, s, a + b) == f(Fold(f, s, a), b)
  {
    FoldOn(f, s, a, b);
    assert b[..64] == b && b[64..] == [];
  }

  /** f computes the compression function. */
  ghost predicate Compresses(f: Compressor) {
    forall s: State, b: Chunk {:trigger Compress(s, b)} :: Compress(s, b) == f(s, b)
  }

  lemma {:induction false} FoldIs(f: Compressor, s: State, data: seq<Octet>)
    requires Compresses(f)
    ensures Fold(f, s, data) == Fold(Compression(), s, data)
    decreases |data|
  {
    if |data| >= 64 {
      assert f(s, data[..64]) == Compress(s, data[..64]);
      FoldIs(f, f(s, data[..64]), data[64..]);
    }
  }

  lemma PadByte(m: seq<Octet>, i: nat)
    requires |m| <= i < |m| + PadLength(|m|)
    ensures Padded(m)[i] == if i == |m| then 0x80 else 0
  {
    assert Padded(m)[i] == Padding(PadLength(|m|))[i - |m|];
  }

  /** No two messages have the same padded form. */
  lemma PaddedInjective(m: seq<Octet>, n: seq<Octet>)
    requires Padded(m) == Padded(n)
    ensures m == n
  {
    assert |m| + PadLength(|m|) == |Padded(m)| - 8 == |n| + PadLength(|n|);
    PadByte(m, |m|);
    PadByte(n, |n|);
    if |m| < |n| {
      PadByte(m, |n|);
    } else if |n| < |m| {
      PadByte(n, |m|);
    } else {
      assert m == Padded(m)[..|m|] && n == Padded(n)[..|n|];
    }
  }
}
