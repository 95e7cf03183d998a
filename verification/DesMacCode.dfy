/** 3DES.cpp's MAC routines over arrays, each proved to compute its function of DesMac. */
module DesMacCode {
  import opened Basics
  import opened DesTables
  import opened DesBits
  import opened Des
  import opened DesInverse
  import opened DesCode
  import opened DesAlgo
  import opened DesMac

  lemma AllZeros(s: seq<Octet>, n: nat)
    requires |s| == n && forall i | 0 <= i < n :: s[i] == 0
    ensures s == Zeros(n)
  {
  }

  method MemsetZero(a: array<Octet>)
    modifies a
    ensures a[..] == Zeros(a.Length)
  {
    forall i | 0 <= i < a.Length {
      a[i] := 0;
    }
    AllZeros(a[..], a.Length);
  }

  /** BitXor on eight bytes. */
  method XorBytes(data1: array<Octet>, data2: array<Octet>, dest: array<Octet>)
    requires data1.Length == data2.Length == dest.Length == 8 && dest != data1 && dest != data2
    modifies dest
    ensures dest[..] == XorBlocks(data1[..], data2[..])
  {
    ghost var was, a, b := dest[..], data1[..], data2[..];
    ghost var full := XorBlocks(a, b);
    BegunEnds(was, full);
    for i := 0 to 8
      invariant data1[..] == a && data2[..] == b && dest[..] == Begun(was, full, i)
    {
      BegunNext(was, full, i);
      assert full[i] == a[i] ^ b[i];
      dest[i] := data1[i] ^ data2[i];
    }
    AllOver(was, full);
  }

  lemma WholeBlock(m: seq<Octet>, i: nat)
    requires i < |m| / 8
    ensures Moved(Zeros(8), 0, m, 8 * i, 8) == Pad(m)[8 * i..8 * (i + 1)]
  {
  }

  lemma LastBlock(m: seq<Octet>, i: nat, rest: nat, started: Block)
    requires i == |m| / 8 && rest == |m| % 8
    requires started == Moved(Zeros(8), 0, m, 8 * i, rest)[rest := 0x80]
    ensures started == Pad(m)[8 * i..8 * (i + 1)]
    ensures forall j | rest < j < 8 :: started[j] == 0
  {
    var p := Pad(m);
    assert p[8 * i..8 * (i + 1)] == m[8 * i..] + [0x80] + Zeros(7 - rest);
  }

  /** The last block of the padded message, with the bytes behind the message stored one by one. */
  method LoadLast(src: array<Octet>, len: nat, i: nat, temp: array<Octet>, append: nat, ghost m: seq<Octet>)
    requires len <= src.Length && i == len / 8 && append == len - 8 * i && temp.Length == 8 && temp != src
    requires m == src[..][..len] && temp[..] == Zeros(8)
    modifies temp
    ensures temp[..] == Pad(m)[8 * i..8 * (i + 1)]
  {
    Memcpy(temp, 0, src, 8 * i, append);
    temp[append] := 0x80;
    LastBlock(m, i, append, temp[..]);
    ghost var done := temp[..];
    for j := append + 1 to 8
      invariant temp[..] == done
    {
      temp[j] := 0x00;
    }
  }

  /** Block i of the padded message. */
  method LoadBlock(src: array<Octet>, len: nat, i: nat, temp: array<Octet>)
    requires len <= src.Length && i <= len / 8 && temp.Length == 8 && temp != src
    modifies temp
    ensures temp[..] == Pad(src[..][..len])[8 * i..8 * (i + 1)]
  {
    ghost var m := src[..][..len];
    var n := len / 8 + 1;
    var append := 8 - (n * 8 - len);
    MemsetZero(temp);
    if i == n - 1 {
      LoadLast(src, len, i, temp, append, m);
    } else {
      Memcpy(temp, 0, src, 8 * i, 8);
      WholeBlock(m, i);
    }
  }

  /** Block i of the message itself. */
  method LoadWhole(src: array<Octet>, len: nat, i: nat, temp: array<Octet>)
    requires len <= src.Length && i < len / 8 && temp.Length == 8 && temp != src
    modifies temp
    ensures temp[..] == src[..][..len][8 * i..8 * (i + 1)]
  {
    MemsetZero(temp);
    Memcpy(temp, 0, src, 8 * i, 8);
  }

  /** e is encryption, or decryption, under a key. */
  ghost predicate Implements(e: BlockCipher, k: Block, encrypt: bool) {
    if encrypt then forall b {:trigger Encrypt(k, b)} :: Encrypt(k, b) == e(b)
    else forall b {:trigger Decrypt(k, b)} :: Decrypt(k, b) == e(b)
  }

  /** EnDES or DeDES between arrays of one block. */
  method CipherBlock(key: array<Octet>, src: array<Octet>, dst: array<Octet>, encrypt: bool, ghost e: BlockCipher)
    requires key.Length >= 8 && src.Length == dst.Length == 8 && Implements(e, key[..][..8], encrypt)
    modifies dst
    ensures dst[..] == e(old(src[..]))
  {
    ghost var b: Block := src[..];
    AllOver(b, b);
    if encrypt {
      AllOver(dst[..], Encrypt(key[..][..8], b));
      EnDES(key, src, dst);
    } else {
      AllOver(dst[..], Decrypt(key[..][..8], b));
      DeDES(key, src, dst);
    }
  }

  /** One chaining step: the state is encrypted after a block has been added to it. */
  method ChainBlock(key: array<Octet>, temp: array<Octet>, state: array<Octet>, ghost e: BlockCipher)
    requires key.Length >= 8 && Implements(e, key[..][..8], true)
    requires temp.Length == state.Length == 8 && state != temp && state != key
    modifies state
    ensures state[..] == e(XorBlocks(temp[..], old(state[..])))
  {
    var dea := new Octet[8];
    assert dea != temp && dea != state && dea != key;
    XorBytes(temp, state, dea);
    MemsetZero(state);
    CipherBlock(key, dea, state, true, e);
  }

  lemma ChainNext(e: BlockCipher, p: seq<Octet>, iv: Block, i: nat)
    requires 8 * (i + 1) <= |p|
    ensures Chained(e, p, iv, i + 1) == e(XorBlocks(p[8 * i..8 * (i + 1)], Chained(e, p, iv, i)))
  {
  }

  /** The chain over the padded message, which MAC and MAC16 both run. */
  method ChainPadded(key: array<Octet>, src: array<Octet>, len: nat, state: array<Octet>, ghost e: BlockCipher)
    requires key.Length >= 8 && len <= src.Length && state.Length == 8
    requires Implements(e, key[..][..8], true) && state != key && state != src
    modifies state
    ensures state[..] == Chained(e, Pad(src[..][..len]), old(state[..]), len / 8 + 1)
  {
    var temp := new Octet[8];
    assert temp != src && temp != state && temp != key;
    ghost var all, k, iv := src[..], key[..], state[..];
    ghost var p := Pad(all[..len]);
    for i := 0 to len / 8 + 1
      invariant src[..] == all && key[..] == k && state[..] == Chained(e, p, iv, i)
      modifies state, temp
    {
      ChainNext(e, p, iv, i);
      LoadBlock(src, len, i, temp);
      ChainBlock(key, temp, state, e);
    }
  }

  /** The chain over the whole blocks, which DES3MAC runs. */
  method ChainWhole(key: array<Octet>, src: array<Octet>, len: nat, state: array<Octet>, ghost e: BlockCipher)
    requires key.Length >= 8 && len <= src.Length && state.Length == 8
    requires Implements(e, key[..][..8], true) && state != key && state != src
    modifies state
    ensures state[..] == Chained(e, src[..][..len], old(state[..]), len / 8)
  {
    var temp := new Octet[8];
    assert temp != src && temp != state && temp != key;
    ghost var all, k, iv := src[..], key[..], state[..];
    ghost var m := all[..len];
    for i := 0 to len / 8
      invariant src[..] == all && key[..] == k && state[..] == Chained(e, m, iv, i)
      modifies state, temp
    {
      ChainNext(e, m, iv, i);
      LoadWhole(src, len, i, temp);
      ChainBlock(key, temp, state, e);
    }
  }

  /** An eight-byte copy. */
  method Copy8(src: array<Octet>) returns (copy: array<Octet>)
    requires src.Length >= 8
    ensures fresh(copy) && copy.Length == 8 && copy[..] == src[..][..8]
  {
    copy := new Octet[8];
    Memcpy(copy, 0, src, 0, 8);
  }

  lemma Truncated(was: seq<Octet>, h: Block)
    requires |was| >= 4
    ensures Moved(was, 0, h, 0, 4) == Over(was, h[..4])
  {
  }

  method MacWith(key: array<Octet>, src: array<Octet>, len: nat, init: array<Octet>, dst: array<Octet>, ghost e: BlockCipher)
    requires key.Length >= 8 && len <= src.Length && init.Length >= 8 && dst.Length >= 4
    requires Implements(e, key[..][..8], true)
    modifies dst
    ensures dst[..] == Over(old(dst[..]), Mac(e, old(src[..])[..len], old(init[..])[..8]))
  {
    ghost var m, iv := src[..][..len], init[..][..8];
    var state := Copy8(init);
    assert |m| == len && src[..][..len] == m && state[..] == iv;
    ChainPadded(key, src, len, state, e);
    Truncated(dst[..], state[..]);
    Memcpy(dst, 0, state, 0, 4);
  }

  method Des3MacWith(key: array<Octet>, src: array<Octet>, len: nat, init: array<Octet>, dst: array<Octet>, ghost e: BlockCipher)
    requires key.Length >= 8 && len <= src.Length && init.Length >= 8 && dst.Length >= 4
    requires Implements(e, key[..][..8], true)
    modifies dst
    ensures dst[..] == Over(old(dst[..]), Des3Mac(e, old(src[..])[..len], old(init[..])[..8]))
  {
    ghost var m, iv := src[..][..len], init[..][..8];
    var state := Copy8(init);
    assert |m| == len && src[..][..len] == m && state[..] == iv;
    ChainWhole(key, src, len, state, e);
    Truncated(dst[..], state[..]);
    Memcpy(dst, 0, state, 0, 4);
  }

  /** The last chaining value under the second key and then under the first one again. */
  method LastSteps(keyA: array<Octet>, keyB: array<Octet>, state: array<Octet>, ghost e: BlockCipher, ghost d: BlockCipher)
    requires keyA.Length >= 8 && keyB.Length >= 8 && state.Length == 8 && state != keyA && state != keyB
    requires Implements(e, keyA[..][..8], true) && Implements(d, keyB[..][..8], false)
    modifies state
    ensures state[..] == e(d(old(state[..])))
  {
    var dea := new Octet[8];
    CipherBlock(keyB, state, dea, false, d);
    CipherBlock(keyA, dea, state, true, e);
  }

  /** The chain and the last steps of MAC16. */
  method ChainTwo(keyA: array<Octet>, keyB: array<Octet>, src: array<Octet>, len: nat, state: array<Octet>,
      ghost e: BlockCipher, ghost d: BlockCipher, ghost m: seq<Octet>, ghost iv: Block)
    requires keyA.Length >= 8 && keyB.Length >= 8 && len <= src.Length && state.Length == 8
    requires state != keyA && state != keyB && state != src && m == src[..][..len] && iv == state[..]
    requires Implements(e, keyA[..][..8], true) && Implements(d, keyB[..][..8], false)
    modifies state
    ensures state[..] == e(d(Chained(e, Pad(m), iv, |m| / 8 + 1)))
  {
    ChainPadded(keyA, src, len, state, e);
    LastSteps(keyA, keyB, state, e, d);
  }

  method Mac16With(key: array<Octet>, src: array<Octet>, len: nat, init: array<Octet>, dst: array<Octet>,
      ghost e: BlockCipher, ghost d: BlockCipher)
    requires key.Length >= 16 && len <= src.Length && init.Length >= 8 && dst.Length >= 4
    requires Implements(e, key[..][..16][..8], true) && Implements(d, key[..][..16][8..], false)
    modifies dst
    ensures dst[..] == Over(old(dst[..]), Mac16(e, d, old(src[..])[..len], old(init[..])[..8]))
  {
    ghost var m, iv := src[..][..len], init[..][..8];
    var keyA, keyB := SplitKey(key);
    var state := Copy8(init);
    AllOver(keyA[..], keyA[..]);
    AllOver(keyB[..], keyB[..]);
    assert |m| == len && src[..][..len] == m && state[..] == iv;
    ChainTwo(keyA, keyB, src, len, state, e, d, m, iv);
    Truncated(dst[..], state[..]);
    Memcpy(dst, 0, state, 0, 4);
  }

  /** MAC */
  method ComputeMac(key: array<Octet>, src: array<Octet>, len: nat, init: array<Octet>, dst: array<Octet>)
    requires key.Length >= 8 && len <= src.Length && init.Length >= 8 && dst.Length >= 4
    modifies dst
    ensures dst[..] == Over(old(dst[..]), Mac(Encryption(old(key[..])[..8]), old(src[..])[..len], old(init[..])[..8]))
  {
    MacWith(key, src, len, init, dst, Encryption(key[..][..8]));
  }

  /** DES3MAC */
  method ComputeDes3Mac(key: array<Octet>, src: array<Octet>, len: nat, init: array<Octet>, dst: array<Octet>)
    requires key.Length >= 8 && len <= src.Length && init.Length >= 8 && dst.Length >= 4
    modifies dst
    ensures dst[..]
      == Over(old(dst[..]), Des3Mac(Encryption(old(key[..])[..8]), old(src[..])[..len], old(init[..])[..8]))
  {
    Des3MacWith(key, src, len, init, dst, Encryption(key[..][..8]));
  }

  /** MAC16 */
  method ComputeMac16(key: array<Octet>, src: array<Octet>, len: nat, init: array<Octet>, dst: array<Octet>)
    requires key.Length >= 16 && len <= src.Length && init.Length >= 8 && dst.Length >= 4
    modifies dst
    ensures dst[..] == Over(old(dst[..]), Mac16(Encryption(old(key[..])[..16][..8]), Decryption(old(key[..])[..16][8..]),
      old(src[..])[..len], old(init[..])[..8]))
  {
    Mac16With(key, src, len, init, dst, Encryption(key[..][..16][..8]), Decryption(key[..][..16][8..]));
  }
}
