/** 3DES.cpp's block ciphers, each proved to compute its function of Des. */
module DesAlgo {
  import opened Basics
  import opened DesTables
  import opened DesBits
  import opened Des
  import opened DesCode

  lemma FSteps(r: Bits, k: Bits, e: Bits, x: Bits, b: Bits, out: Bits)
    requires |r| == 32 && |k| == 48 && e == Select(ETable, r) && x == Xor(k, e)
    requires b == Boxes(x) && out == Select(PTable, b)
    ensures out == F(r, k)
  {
  }

  lemma AllOver<T>(s: seq<T>, full: seq<T>)
    requires |full| == |s|
    ensures Over(s, full) == full && full[..|full|] == full && full[0..|full|] == full
  {
  }

  method FFunction(r: array<bool>, from: nat, k: array<bool>, result: array<bool>)
    requires from + 32 <= r.Length && k.Length == 48 && result.Length == 32 && result != r && result != k
    modifies result
    ensures result[..] == F(r[..][from..from + 32], k[..])
  {
    var temp := new bool[48];
    var sResult := new bool[32];
    assert temp != r && temp != k && sResult != result && sResult != temp;
    AllOver(temp[..], Select(ETable, r[..][from..from + 32]));
    SelectExchangeFromTable(ETable, r, from, temp);
    ghost var e := temp[..];
    AllOver(e, e);
    AllOver(k[..], k[..]);
    AllOver(e, Xor(k[..], e));
    BitXor(k, temp, 48, temp);
    ghost var x := temp[..];
    SChange(temp, sResult);
    ghost var b := sResult[..];
    AllOver(b, b);
    AllOver(result[..], Select(PTable, b));
    SelectExchangeFromTable(PTable, sResult, 0, result);
    FSteps(r[..][from..from + 32], k[..], e, x, b, result[..]);
  }

  lemma NextRound(was: Bits, k: Bits, f: Bits, mid: Bits, now: Bits)
    requires |was| == 64 && |k| == 48
    requires f == Xor(was[..32], F(was[32..32 + 32], k))
    requires mid == Moved(was, 0, was, 32, 32) && now == Moved(mid, 32, f, 0, 32)
    ensures now == Round(was, k)
  {
    assert was[32..32 + 32] == was[32..];
    assert mid[..32] == was[32..] && mid[32 + 32..] == [];
    assert f[0..0 + 32] == f;
  }

  /** One turn of DesAlgo's loop: L and R take their next values. */
  method Feistel(lr: array<bool>, k: array<bool>)
    requires lr.Length == 64 && k.Length == 48 && lr != k
    modifies lr
    ensures lr[..] == Round(old(lr[..]), k[..])
  {
    ghost var was := lr[..];
    var fResult := new bool[32];
    assert fResult != lr && fResult != k;
    FFunction(lr, 32, k, fResult);
    ghost var f := fResult[..];
    AllOver(f, f);
    AllOver(f, Xor(was[..32], f));
    BitXor(lr, fResult, 32, fResult);
    f := fResult[..];
    Memcpy(lr, 0, lr, 32, 32);
    ghost var mid := lr[..];
    Memcpy(lr, 32, fResult, 0, 32);
    NextRound(was, k[..], f, mid, lr[..]);
  }

  lemma SwapSteps(was: Bits, l: Bits, mid: Bits, now: Bits)
    requires |was| == 64 && |l| == 32 && l == Moved(l, 0, was, 0, 32)
    requires mid == Moved(was, 0, was, 32, 32) && now == Moved(mid, 32, l, 0, 32)
    ensures now == Swap(was)
  {
    assert l == was[..32];
    assert mid[..32] == was[32..] && mid[32 + 32..] == [];
    assert l[0..0 + 32] == l;
  }

  /** L and R change places. */
  method SwapHalves(lr: array<bool>)
    requires lr.Length == 64
    modifies lr
    ensures lr[..] == Swap(old(lr[..]))
  {
    ghost var was := lr[..];
    var tempD := new bool[32];
    assert tempD != lr;
    Memcpy(tempD, 0, lr, 0, 32);
    ghost var l := tempD[..];
    Memcpy(lr, 0, lr, 32, 32);
    ghost var mid := lr[..];
    Memcpy(lr, 32, tempD, 0, 32);
    SwapSteps(was, l, mid, lr[..]);
  }

  lemma UnpackedAll(s: Bits, bs: seq<Octet>)
    requires |s| == 8 * |bs|
    ensures Written(s, 0, bs) == Unpack(bs)
  {
  }

  /** The bits of a block or a key, put through a table. */
  method UnpackSelect(src: array<Octet>, t: Table) returns (out: array<bool>)
    requires src.Length >= 8 && InSize(t) == 64
    ensures fresh(out) && out.Length == OutSize(t) && out[..] == Select(t, Unpack(src[..][..8]))
  {
    var input := new bool[64];
    out := new bool[OutSize(t)];
    assert out != input && src as object != input;
    UnpackedAll(input[..], src[..][..8]);
    assert src[..8] == src[..][..8];
    BitToByte(src, input, 0, 8);
    AllOver(input[..], input[..]);
    AllOver(out[..], Select(t, input[..]));
    SelectExchangeFromTable(t, input, 0, out);
  }

  /** The last step: the inverse permutation, packed. */
  method SelectPack(lr: array<bool>, dst: array<Octet>)
    requires lr.Length == 64 && dst.Length >= 8
    modifies dst
    ensures dst[..] == Over(old(dst[..]), Pack(Select(IpInverseTable, old(lr[..]))))
  {
    var output := new bool[64];
    assert output != lr && output as object != dst;
    AllOver(lr[..], lr[..]);
    AllOver(output[..], Select(IpInverseTable, lr[..]));
    SelectExchangeFromTable(IpInverseTable, lr, 0, output);
    AllOver(output[..], output[..]);
    ByteToBit(output, dst, 8);
  }

  lemma KeyStep(key: Block, i: nat, encrypt: bool, cd: Bits, k: Bits)
    requires |cd| == 56 && cd == Select(Pc1Table, Unpack(key)) && i < 16
    requires k == Select(Pc2Table, Turned(cd[..28], i + 1, encrypt) + Turned(cd[28..], i + 1, encrypt))
    ensures k == RoundKeys(key, encrypt)[i]
  {
  }

  lemma AlgoSteps(key: Block, src: Block, encrypt: bool, lr0: Bits, ks: Keys)
    requires lr0 == Select(IpTable, Unpack(src)) && ks == RoundKeys(key, encrypt)
    ensures |Rounds(lr0, ks)| == 64 && |Swap(Rounds(lr0, ks))| == 64
    ensures |Select(IpInverseTable, Swap(Rounds(lr0, ks)))| == 64
    ensures Pack(Select(IpInverseTable, Swap(Rounds(lr0, ks)))) == Algo(key, src, encrypt)
  {
  }

  /** The sixteen rounds. */
  method SixteenRounds(lr: array<bool>, cd: array<bool>, encrypt: bool, ghost key: Block)
    requires lr.Length == 64 && cd.Length == 56 && lr != cd
    requires cd[..] == Select(Pc1Table, Unpack(key))
    modifies lr, cd
    ensures lr[..] == Rounds(old(lr[..]), RoundKeys(key, encrypt))
  {
    var k := new bool[48];
    ghost var lr0, cd0, ks := lr[..], cd[..], RoundKeys(key, encrypt);
    for i := 0 to 16
      invariant lr != k && cd != k
      invariant lr[..] == Rounds(lr0, ks[..i])
      invariant cd[..] == Turned(cd0[..28], i, encrypt) + Turned(cd0[28..], i, encrypt)
    {
      Shift(cd, i, encrypt, cd0[..28], cd0[28..]);
      ghost var cd1 := cd[..];
      AllOver(cd1, cd1);
      AllOver(k[..], Select(Pc2Table, cd1));
      SelectExchangeFromTable(Pc2Table, cd, 0, k);
      KeyStep(key, i, encrypt, cd0, k[..]);
      Feistel(lr, k);
      RoundStep(lr0, ks, i);
    }
    AllOver(ks, ks);
  }

  /** dst may be src or key. */
  method DesAlgo(key: array<Octet>, src: array<Octet>, dst: array<Octet>, encrypt: bool)
    requires key.Length >= 8 && src.Length >= 8 && dst.Length >= 8
    modifies dst
    ensures dst[..] == Over(old(dst[..]), Algo(old(key[..])[..8], old(src[..])[..8], encrypt))
  {
    ghost var keyBlock, block: Block := key[..][..8], src[..][..8];
    var lr := UnpackSelect(src, IpTable);
    ghost var lr0 := lr[..];
    var cd := UnpackSelect(key, Pc1Table);
    SixteenRounds(lr, cd, encrypt, keyBlock);
    SwapHalves(lr);
    SelectPack(lr, dst);
    AlgoSteps(keyBlock, block, encrypt, lr0, RoundKeys(keyBlock, encrypt));
  }

  method EnDES(key: array<Octet>, src: array<Octet>, dst: array<Octet>)
    requires key.Length >= 8 && src.Length >= 8 && dst.Length >= 8
    modifies dst
    ensures dst[..] == Over(old(dst[..]), Encrypt(old(key[..])[..8], old(src[..])[..8]))
  {
    DesAlgo(key, src, dst, true);
  }

  method DeDES(key: array<Octet>, src: array<Octet>, dst: array<Octet>)
    requires key.Length >= 8 && src.Length >= 8 && dst.Length >= 8
    modifies dst
    ensures dst[..] == Over(old(dst[..]), Decrypt(old(key[..])[..8], old(src[..])[..8]))
  {
    DesAlgo(key, src, dst, false);
  }

  /** The two halves of a key, copied out. */
  method SplitKey(key: array<Octet>) returns (lKey: array<Octet>, rKey: array<Octet>)
    requires key.Length >= 16
    ensures fresh(lKey) && fresh(rKey) && lKey.Length == rKey.Length == 8
    ensures lKey[..] == key[..][..16][..8] && rKey[..] == key[..][..16][8..]
  {
    lKey := new Octet[8];
    rKey := new Octet[8];
    Memcpy(lKey, 0, key, 0, 8);
    Memcpy(rKey, 0, key, 8, 8);
  }

  lemma OverTwice<T>(s: seq<T>, a: seq<T>, b: seq<T>)
    requires |a| == |b| <= |s|
    ensures Over(Over(s, a), b) == Over(s, b) && Over(s, a)[..|a|] == a
  {
  }

  method En3DES(key: array<Octet>, src: array<Octet>, dst: array<Octet>)
    requires key.Length >= 16 && src.Length >= 8 && dst.Length >= 8
    modifies dst
    ensures dst[..] == Over(old(dst[..]), Encrypt3(old(key[..])[..16], old(src[..])[..8]))
  {
    ghost var was, block := dst[..], src[..][..8];
    var lKey, rKey := SplitKey(key);
    var tmp := new Octet[8];
    ghost var a, b := lKey[..][..8], rKey[..][..8];
    AllOver(lKey[..], lKey[..]);
    AllOver(rKey[..], rKey[..]);
    EnDES(lKey, src, dst);
    ghost var one := Encrypt(a, block);
    OverTwice(was, one, one);
    DeDES(rKey, dst, tmp);
    ghost var two := Decrypt(b, one);
    AllOver(tmp[..], two);
    OverTwice(was, one, Encrypt(a, two));
    EnDES(lKey, tmp, dst);
  }

  method De3DES(key: array<Octet>, src: array<Octet>, dst: array<Octet>)
    requires key.Length >= 16 && src.Length >= 8 && dst.Length >= 8
    modifies dst
    ensures dst[..] == Over(old(dst[..]), Decrypt3(old(key[..])[..16], old(src[..])[..8]))
  {
    ghost var was, block := dst[..], src[..][..8];
    var lKey, rKey := SplitKey(key);
    var tmp := new Octet[8];
    ghost var a, b := lKey[..][..8], rKey[..][..8];
    AllOver(lKey[..], lKey[..]);
    AllOver(rKey[..], rKey[..]);
    DeDES(lKey, src, dst);
    ghost var one := Decrypt(a, block);
    OverTwice(was, one, one);
    EnDES(rKey, dst, tmp);
    ghost var two := Encrypt(b, one);
    AllOver(tmp[..], two);
    OverTwice(was, one, Decrypt(a, two));
    DeDES(lKey, tmp, dst);
  }
}
