/** Decryption undoes encryption, in both orders. */
module DesInverse {
  import opened DesTables
  import opened DesBits
  import opened Des

  function Reverse(ks: Keys): (r: Keys)
    ensures |r| == |ks| && forall i :: 0 <= i < |ks| ==> r[i] == ks[|ks| - 1 - i]
  {
    seq(|ks|, i requires 0 <= i < |ks| => ks[|ks| - 1 - i])
  }

  lemma PermutationsCancel(s: Bits)
    requires |s| == 64
    ensures Select(IpTable, Select(IpInverseTable, s)) == s
    ensures Select(IpInverseTable, Select(IpTable, s)) == s
  {
    forall i | 0 <= i < 64
      ensures Select(IpTable, Select(IpInverseTable, s))[i] == s[i]
      ensures Select(IpInverseTable, Select(IpTable, s))[i] == s[i]
    {
      IpUndoesInverse(i);
      InverseUndoesIp(i);
    }
  }

  // ---------- the rounds ----------

  lemma {:induction false} FirstRound(lr: Bits, k: Bits, ks: Keys)
    requires |lr| == 64 && |k| == 48
    ensures Rounds(lr, [k] + ks) == Rounds(Round(lr, k), ks)
  {
    var all: Keys := [k] + ks;
    if ks == [] {
      assert all[..0] == [];
      assert Rounds(lr, all) == Round(Rounds(lr, all[..0]), k);
    } else {
      FirstRound(lr, k, ks[..|ks| - 1]);
      assert all[..|all| - 1] == [k] + ks[..|ks| - 1];
    }
  }

  lemma RoundSwapped(lr: Bits, k: Bits)
    requires |lr| == 64 && |k| == 48
    ensures Round(Swap(Round(lr, k)), k) == Swap(lr)
  {
    var l, r := lr[..32], lr[32..];
    var mixed := Xor(l, F(r, k));
    assert Round(lr, k)[..32] == r && Round(lr, k)[32..] == mixed;
    assert Swap(Round(lr, k))[..32] == mixed && Swap(Round(lr, k))[32..] == r;
    XorCancels(l, F(r, k));
  }

  /** The Feistel network, its halves swapped and its keys taken in reverse, runs backwards. */
  lemma {:induction false} RoundsCancel(lr: Bits, ks: Keys)
    requires |lr| == 64
    ensures Rounds(Swap(Rounds(lr, ks)), Reverse(ks)) == Swap(lr)
  {
    if ks != [] {
      var init, k := ks[..|ks| - 1], ks[|ks| - 1];
      var before := Rounds(lr, init);
      assert Reverse(ks) == [k] + Reverse(init);
      FirstRound(Swap(Rounds(lr, ks)), k, Reverse(init));
      RoundSwapped(before, k);
      RoundsCancel(lr, init);
    }
  }

  lemma MiddleCancels(lr: Bits, ks: Keys)
    requires |lr| == 64
    ensures Swap(Rounds(Swap(Rounds(lr, ks)), Reverse(ks))) == lr
  {
    RoundsCancel(lr, ks);
    assert Swap(Swap(lr)) == lr;
  }

  lemma CipherCancels(block: Block, ks: Keys)
    ensures Cipher(Cipher(block, ks), Reverse(ks)) == block
  {
    var bits := Unpack(block);
    var lr := Select(IpTable, bits);
    var swapped := Swap(Rounds(lr, ks));
    var out := Select(IpInverseTable, swapped);
    assert Unpack(Cipher(block, ks)) == out by { UnpackPack(out); }
    assert Select(IpTable, out) == swapped by { PermutationsCancel(swapped); }
    assert Swap(Rounds(swapped, Reverse(ks))) == lr by { MiddleCancels(lr, ks); }
    assert Select(IpInverseTable, lr) == bits by { PermutationsCancel(bits); }
    PackUnpack(block);
  }

  // ---------- the key schedule ----------

  /** How far the first i left shifts turn a half in all. */
  function Total(i: nat): (n: nat)
    requires i <= 16
    ensures i <= n <= 2 * i
  {
    if i == 0 then 0 else Total(i - 1) + Shifts(i - 1)
  }

  lemma TotalBound(i: nat)
    requires i <= 16
    ensures Total(i) <= 28 && Total(16) == 28
  {
    assert Total(4) == 6;
    assert Total(8) == 14;
    assert Total(12) == 21;
    assert Total(16) == 28;
    if i < 16 { TotalGrows(i); }
  }

  lemma {:induction false} TotalGrows(i: nat)
    requires i <= 16
    ensures Total(i) + (16 - i) <= Total(16)
    decreases 16 - i
  {
    if i < 16 { TotalGrows(i + 1); }
  }

  lemma RotlRotl(h: Bits, m: nat, n: nat)
    requires m + n <= |h|
    ensures Rotl(Rotl(h, m), n) == Rotl(h, m + n)
  {
  }

  lemma RotrRotl(h: Bits, n: nat)
    requires n <= |h|
    ensures Rotr(Rotl(h, n), n) == h && Rotl(Rotr(h, n), n) == h
  {
  }

  /** The left shifts add up. */
  lemma {:induction false} TurnedLeft(h: Bits, i: nat)
    requires |h| == 28 && i <= 16
    ensures Total(i) <= 28 && Turned(h, i, true) == Rotl(h, Total(i))
  {
    TotalBound(i);
    if i > 0 {
      TotalBound(i - 1);
      TurnedLeft(h, i - 1);
      RotlRotl(h, Total(i - 1), Shifts(i - 1));
    }
  }

  /** The right shifts visit the halves of the left shifts in reverse. */
  lemma {:induction false} TurnedRight(h: Bits, i: nat)
    requires |h| == 28 && 1 <= i <= 16
    ensures Turned(h, i, false) == Turned(h, 17 - i, true)
  {
    if i == 1 {
      TurnedLeft(h, 16);
      TotalBound(16);
    } else {
      TurnedRight(h, i - 1);
      ShiftsMirror(i - 1);
      RotrRotl(Turned(h, 17 - i, true), Shifts(i - 1));
    }
  }

  lemma KeysReversed(key: Block, encrypt: bool)
    ensures RoundKeys(key, !encrypt) == Reverse(RoundKeys(key, encrypt))
  {
    var cd := Select(Pc1Table, Unpack(key));
    forall i | 0 <= i < 16 ensures RoundKey(cd, i, false) == RoundKey(cd, 15 - i, true) {
      TurnedRight(cd[..28], i + 1);
      TurnedRight(cd[28..], i + 1);
    }
  }

  // ---------- the theorems ----------

  /** DeDES undoes EnDES and EnDES undoes DeDES. */
  lemma Inverse(key: Block, block: Block)
    ensures Decrypt(key, Encrypt(key, block)) == block
    ensures Encrypt(key, Decrypt(key, block)) == block
  {
    KeysReversed(key, true);
    KeysReversed(key, false);
    CipherCancels(block, RoundKeys(key, true));
    CipherCancels(block, RoundKeys(key, false));
  }

  lemma Inverse3(key: DoubleKey, block: Block)
    ensures Decrypt3(key, Encrypt3(key, block)) == block
    ensures Encrypt3(key, Decrypt3(key, block)) == block
  {
    var a, b := key[..8], key[8..];
    var once, back := Encrypt(a, block), Decrypt(a, block);
    Inverse(a, Decrypt(b, once));
    Inverse(a, Encrypt(b, back));
    Inverse(b, once);
    Inverse(b, back);
    Inverse(a, block);
  }

  /** Taking the outer step off again, which is under the first half of the key, leaves the inner step under the
      second one. */
  lemma OuterHalf(key: DoubleKey, block: Block)
    ensures Decrypt(key[..8], Encrypt3(key, block)) == Decrypt(key[8..], Encrypt(key[..8], block))
    ensures Encrypt(key[..8], Decrypt3(key, block)) == Encrypt(key[8..], Decrypt(key[..8], block))
  {
    Inverse(key[..8], Decrypt(key[8..], Encrypt(key[..8], block)));
    Inverse(key[..8], Encrypt(key[8..], Decrypt(key[..8], block)));
  }

  /** With equal halves the triple encryption is the single one. */
  lemma EqualHalves(key: DoubleKey, block: Block)
    requires key[..8] == key[8..]
    ensures Encrypt3(key, block) == Encrypt(key[..8], block)
    ensures Decrypt3(key, block) == Decrypt(key[..8], block)
  {
    Inverse(key[..8], block);
  }
}
