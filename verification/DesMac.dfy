/** 3DES.cpp's message authentication codes. */
module DesMac {
  import opened DesTables
  import opened DesBits
  import opened Des
  import opened DesInverse
  import opened DesCode
  import opened DesAlgo

  // ---------- the codes as functions ----------

  function XorBlocks(a: Block, b: Block): (r: Block) {
    seq(8, i requires 0 <= i < 8 => a[i] ^ b[i])
  }

  /** A block cipher under some key. */
  type BlockCipher = Block -> Block

  function Encryption(key: Block): BlockCipher {
    block => Encrypt(key, block)
  }

  function Decryption(key: Block): BlockCipher {
    block => Decrypt(key, block)
  }

  /** H_i of section 6.3.3 of ISO/IEC 9797-1:2011, H_0 being the initial value. */
  function Chained(e: BlockCipher, m: seq<Octet>, iv: Block, i: nat): (h: Block)
    requires 8 * i <= |m|
  {
    if i == 0 then iv else e(XorBlocks(m[8 * (i - 1)..8 * i], Chained(e, m, iv, i - 1)))
  }

  function Zeros(n: nat): (z: seq<Octet>)
    ensures |z| == n && forall i :: 0 <= i < n ==> z[i] == 0
  {
    seq(n, _ => 0)
  }

  /** Padding method 2: 0x80, then zeros up to a whole block. */
  function Pad(m: seq<Octet>): (p: seq<Octet>)
    ensures |p| == 8 * (|m| / 8 + 1)
  {
    m + [0x80] + Zeros(7 - |m| % 8)
  }

  function Des3Mac(e: BlockCipher, m: seq<Octet>, iv: Block): (r: seq<Octet>)
    ensures |r| == 4
  {
    Chained(e, m, iv, |m| / 8)[..4]
  }

  function Mac(e: BlockCipher, m: seq<Octet>, iv: Block): (r: seq<Octet>)
    ensures |r| == 4
  {
    Chained(e, Pad(m), iv, |m| / 8 + 1)[..4]
  }

  /** The last chaining value is also decrypted with the second key and encrypted with the first one again. */
  function Mac16(e: BlockCipher, d: BlockCipher, m: seq<Octet>, iv: Block): (r: seq<Octet>)
    ensures |r| == 4
  {
    e(d(Chained(e, Pad(m), iv, |m| / 8 + 1)))[..4]
  }

  // ---------- theorems ----------

  lemma PadByte(m: seq<Octet>, i: nat)
    requires |m| <= i < |Pad(m)|
    ensures Pad(m)[i] == if i == |m| then 0x80 else 0
  {
    assert i > |m| ==> Pad(m)[i] == Zeros(7 - |m| % 8)[i - |m| - 1];
  }

  /** Only whole messages pad to the same string. */
  lemma PadInjective(m: seq<Octet>, n: seq<Octet>)
    requires Pad(m) == Pad(n)
    ensures m == n
  {
    PadByte(m, |m|);
    PadByte(n, |n|);
    if |m| < |n| {
      PadByte(m, |n|);
    } else if |n| < |m| {
      PadByte(n, |m|);
    } else {
      assert m == Pad(m)[..|m|] && n == Pad(n)[..|n|];
    }
  }

  lemma MacIsDes3MacOfPadded(e: BlockCipher, m: seq<Octet>, iv: Block)
    ensures Mac(e, m, iv) == Des3Mac(e, Pad(m), iv)
  {
    assert |Pad(m)| / 8 == |m| / 8 + 1;
  }

  lemma {:induction false} ChainedPrefix(e: BlockCipher, m: seq<Octet>, n: seq<Octet>, iv: Block, i: nat)
    requires 8 * i <= |m| && m <= n
    ensures Chained(e, m, iv, i) == Chained(e, n, iv, i)
  {
    if i > 0 {
      ChainedPrefix(e, m, n, iv, i - 1);
      assert m[8 * (i - 1)..8 * i] == n[8 * (i - 1)..8 * i];
    }
  }

  /** DES3MAC does not look at bytes after the last whole block. */
  lemma Des3MacIgnoresTail(e: BlockCipher, m: seq<Octet>, tail: seq<Octet>, iv: Block)
    requires |m| % 8 == 0 && |tail| < 8
    ensures Des3Mac(e, m + tail, iv) == Des3Mac(e, m, iv)
  {
    assert |m + tail| / 8 == |m| / 8;
    ChainedPrefix(e, m, m + tail, iv, |m| / 8);
  }

  /** With equal key halves the extra steps cancel. */
  lemma Mac16EqualHalves(key: DoubleKey, m: seq<Octet>, iv: Block)
    requires key[..8] == key[8..]
    ensures Mac16(Encryption(key[..8]), Decryption(key[8..]), m, iv) == Mac(Encryption(key[..8]), m, iv)
  {
    Inverse(key[..8], Chained(Encryption(key[..8]), Pad(m), iv, |m| / 8 + 1));
  }

  /** Block i of a padded message. */
  function BlockAt(p: seq<Octet>, i: nat): (b: Block)
    requires 8 * (i + 1) <= |p|
    ensures b == p[8 * i..8 * (i + 1)]
  {
    p[8 * i..8 * (i + 1)]
  }

  /** The last chaining value: the last block of the padded message, chained and enciphered. */
  lemma LastChained(e: BlockCipher, m: seq<Octet>, iv: Block, n: nat)
    requires n == |m| / 8 + 1
    ensures Chained(e, Pad(m), iv, n) == e(XorBlocks(BlockAt(Pad(m), n - 1), Chained(e, Pad(m), iv, n - 1)))
  {
  }

  /** MAC is the left half of the last block enciphered, algorithm 1 of ISO/IEC 9797-1:2011. */
  lemma MacEnciphersLast(key: Block, m: seq<Octet>, iv: Block, n: nat)
    requires n == |m| / 8 + 1
    ensures Mac(Encryption(key), m, iv)
      == Encrypt(key, XorBlocks(BlockAt(Pad(m), n - 1), Chained(Encryption(key), Pad(m), iv, n - 1)))[..4]
  {
    LastChained(Encryption(key), m, iv, n);
  }

  lemma Mac16Last(e: BlockCipher, d: BlockCipher, m: seq<Octet>, iv: Block, n: nat)
    requires n == |m| / 8 + 1
    ensures Mac16(e, d, m, iv) == e(d(e(XorBlocks(BlockAt(Pad(m), n - 1), Chained(e, Pad(m), iv, n - 1)))))[..4]
  {
    LastChained(e, m, iv, n);
  }

  lemma TripleEncryption(key: DoubleKey, block: Block)
    ensures Encryption(key[..8])(Decryption(key[8..])(Encryption(key[..8])(block))) == Encrypt3(key, block)
  {
  }

  /** MAC16 runs DES under the first half of the key and the two-key triple DES on the last block, algorithm 3 of
      ISO/IEC 9797-1:2011. */
  lemma Mac16EnciphersLast(key: DoubleKey, m: seq<Octet>, iv: Block, n: nat)
    requires n == |m| / 8 + 1
    ensures Mac16(Encryption(key[..8]), Decryption(key[8..]), m, iv)
      == Encrypt3(key, XorBlocks(BlockAt(Pad(m), n - 1), Chained(Encryption(key[..8]), Pad(m), iv, n - 1)))[..4]
  {
    Mac16Last(Encryption(key[..8]), Decryption(key[8..]), m, iv, n);
    TripleEncryption(key, XorBlocks(BlockAt(Pad(m), n - 1), Chained(Encryption(key[..8]), Pad(m), iv, n - 1)));
  }

  ghost predicate Injective(e: BlockCipher) {
    forall a, b :: e(a) == e(b) ==> a == b
  }

  lemma EncryptInjective(key: Block)
    ensures Injective(Encryption(key))
  {
    forall a, b | Encryption(key)(a) == Encryption(key)(b) ensures a == b {
      Inverse(key, a);
      Inverse(key, b);
    }
  }

  lemma XorBack(a: Octet, b: Octet)
    ensures a ^ b ^ a == b && a ^ b ^ b == a
  {
  }

  lemma XorSame(a: Octet, b: Octet, d: Octet)
    ensures a ^ b == a ^ d ==> b == d
    ensures b ^ a == d ^ a ==> b == d
  {
    XorBack(a, b);
    XorBack(a, d);
    XorBack(b, a);
    XorBack(d, a);
  }

  lemma XorBlocksInjective(a: Block, b: Block, c: Block, d: Block)
    requires XorBlocks(a, b) == XorBlocks(c, d)
    ensures a == c <==> b == d
  {
    forall i | 0 <= i < 8 ensures a[i] ^ b[i] == c[i] ^ d[i] {
      assert XorBlocks(a, b)[i] == XorBlocks(c, d)[i];
    }
    if a == c {
      forall i | 0 <= i < 8 ensures b[i] == d[i] { XorSame(a[i], b[i], d[i]); }
    } else if b == d {
      forall i | 0 <= i < 8 ensures a[i] == c[i] { XorSame(b[i], a[i], c[i]); }
    }
  }

  /** Changing one block of a message changes the chaining value at its end. */
  lemma {:induction false} OneBlockChangeShows(e: BlockCipher, m: seq<Octet>, n: seq<Octet>, iv: Block, at: nat, i: nat)
    requires Injective(e) && |m| == |n| && at < i && 8 * i <= |m|
    requires m[..8 * at] == n[..8 * at] && m[8 * (at + 1)..] == n[8 * (at + 1)..]
    requires m[8 * at..8 * (at + 1)] != n[8 * at..8 * (at + 1)]
    ensures Chained(e, m, iv, i) != Chained(e, n, iv, i)
  {
    var a, b: Block := m[8 * (i - 1)..8 * i], n[8 * (i - 1)..8 * i];
    var h, g := Chained(e, m, iv, i - 1), Chained(e, n, iv, i - 1);
    if at == i - 1 {
      ChainedPrefix(e, m[..8 * at], m, iv, at);
      ChainedPrefix(e, n[..8 * at], n, iv, at);
    } else {
      OneBlockChangeShows(e, m, n, iv, at, i - 1);
      var from := 8 * (i - 1) - 8 * (at + 1);
      assert a == m[8 * (at + 1)..][from..from + 8] && b == n[8 * (at + 1)..][from..from + 8];
    }
    if XorBlocks(a, h) == XorBlocks(b, g) {
      XorBlocksInjective(a, h, b, g);
    }
  }
}
