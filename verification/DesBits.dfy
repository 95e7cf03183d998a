/** Bytes as the bit arrays 3DES.cpp unpacks them into, most significant bit first. */
module DesBits {
  import opened Basics
  import opened DesTables

  type Bits = seq<bool>
  type Octet = bv8
  type Block = b: seq<Octet> | |b| == 8 witness seq(8, _ => 0)

  function Mask(j: nat): bv8
    requires j < 8
  {
    Row(j, 0x80, 0x40, 0x20, 0x10, 0x08, 0x04, 0x02, 0x01)
  }

  /** Bit j of an octet: BYTEStruct's b(7-j). */
  predicate Bit(b: Octet, j: nat)
    requires j < 8
  {
    b & Mask(j) != 0
  }

  function On(b: bool, j: nat): bv8
    requires j < 8
  {
    if b then Mask(j) else 0
  }

  function Gather(s: Bits, at: nat): Octet
    requires at + 8 <= |s|
  {
    On(s[at], 0) | On(s[at + 1], 1) | On(s[at + 2], 2) | On(s[at + 3], 3)
    | On(s[at + 4], 4) | On(s[at + 5], 5) | On(s[at + 6], 6) | On(s[at + 7], 7)
  }

  function EightBits(b: Octet): (s: Bits)
    ensures |s| == 8
  {
    [Bit(b, 0), Bit(b, 1), Bit(b, 2), Bit(b, 3), Bit(b, 4), Bit(b, 5), Bit(b, 6), Bit(b, 7)]
  }

  /** What BitToByte, named for the opposite direction, stores. */
  function Unpack(bs: seq<Octet>): (s: Bits)
    ensures |s| == 8 * |bs|
  {
    if bs == [] then [] else Unpack(bs[..|bs| - 1]) + EightBits(bs[|bs| - 1])
  }

  /** What ByteToBit stores. */
  function Pack(s: Bits): (bs: seq<Octet>)
    requires |s| % 8 == 0
    ensures |bs| == |s| / 8
  {
    seq(|s| / 8, i requires 0 <= i < |s| / 8 => Gather(s, 8 * i))
  }

  function Xor(s: Bits, t: Bits): (r: Bits)
    requires |s| == |t|
    ensures |r| == |s|
  {
    seq(|s|, i requires 0 <= i < |s| => s[i] != t[i])
  }

  function Not(s: Bits): (r: Bits)
    ensures |r| == |s|
  {
    seq(|s|, i requires 0 <= i < |s| => !s[i])
  }

  /** The bitwise complement of a byte string. */
  function Complement(bs: seq<Octet>): (r: seq<Octet>)
    ensures |r| == |bs|
  {
    seq(|bs|, i requires 0 <= i < |bs| => !bs[i])
  }

  lemma HighBit(s: Bits, at: nat, j: nat)
    requires at + 8 <= |s| && j < 4
    ensures Bit(Gather(s, at), j) == s[at + j]
  {
    if j == 0 {} else if j == 1 {} else if j == 2 {} else {}
  }

  lemma LowBit(s: Bits, at: nat, j: nat)
    requires at + 8 <= |s| && 4 <= j < 8
    ensures Bit(Gather(s, at), j) == s[at + j]
  {
    if j == 4 {} else if j == 5 {} else if j == 6 {} else {}
  }

  lemma GatherBits(b: Octet, s: Bits, at: nat)
    requires at + 8 <= |s|
    requires forall j | 0 <= j < 8 :: s[at + j] == Bit(b, j)
    ensures Gather(s, at) == b
  {
    assert s[at + 0] == Bit(b, 0) && s[at + 1] == Bit(b, 1) && s[at + 2] == Bit(b, 2) && s[at + 3] == Bit(b, 3);
    assert s[at + 4] == Bit(b, 4) && s[at + 5] == Bit(b, 5) && s[at + 6] == Bit(b, 6) && s[at + 7] == Bit(b, 7);
  }

  lemma EightBitsAt(b: Octet, j: nat)
    requires j < 8
    ensures EightBits(b)[j] == Bit(b, j)
  {
  }

  lemma {:induction false} UnpackAt(bs: seq<Octet>, i: nat, j: nat)
    requires i < |bs| && j < 8
    ensures Unpack(bs)[8 * i + j] == Bit(bs[i], j)
  {
    if i < |bs| - 1 {
      UnpackAt(bs[..|bs| - 1], i, j);
    } else {
      EightBitsAt(bs[i], j);
    }
  }

  lemma Digits(b: Octet)
    ensures (b & 0x80 != 0 <==> (b >> 7) & 1 == 1) && (b & 0x40 != 0 <==> (b >> 6) & 1 == 1)
    ensures (b & 0x20 != 0 <==> (b >> 5) & 1 == 1) && (b & 0x10 != 0 <==> (b >> 4) & 1 == 1)
    ensures (b & 0x08 != 0 <==> (b >> 3) & 1 == 1) && (b & 0x04 != 0 <==> (b >> 2) & 1 == 1)
    ensures (b & 0x02 != 0 <==> (b >> 1) & 1 == 1) && (b & 0x01 != 0 <==> (b >> 0) & 1 == 1)
  {
  }

  function OfByte(t: Bits, at: nat, j: nat): bool
    requires at + 8 <= |t| && j < 8
  {
    t[at + j]
  }

  /** The bits of t from at on are the binary digits of b, the highest first. */
  predicate Digitwise(t: Bits, at: nat, b: Octet)
    requires at + 8 <= |t|
  {
    && t[at] == ((b >> 7) & 1 == 1) && t[at + 1] == ((b >> 6) & 1 == 1)
    && t[at + 2] == ((b >> 5) & 1 == 1) && t[at + 3] == ((b >> 4) & 1 == 1)
    && t[at + 4] == ((b >> 3) & 1 == 1) && t[at + 5] == ((b >> 2) & 1 == 1)
    && t[at + 6] == ((b >> 1) & 1 == 1) && t[at + 7] == ((b >> 0) & 1 == 1)
  }

  lemma DigitsAt(t: Bits, at: nat, b: Octet)
    requires at + 8 <= |t| && forall j: nat {:trigger OfByte(t, at, j)} | j < 8 :: OfByte(t, at, j) == Bit(b, j)
    ensures Digitwise(t, at, b)
  {
    Digits(b);
    assert OfByte(t, at, 0) == Bit(b, 0) && OfByte(t, at, 1) == Bit(b, 1) && OfByte(t, at, 2) == Bit(b, 2);
    assert OfByte(t, at, 3) == Bit(b, 3) && OfByte(t, at, 4) == Bit(b, 4) && OfByte(t, at, 5) == Bit(b, 5);
    assert OfByte(t, at, 6) == Bit(b, 6) && OfByte(t, at, 7) == Bit(b, 7);
  }

  /** The bits of a block are numbered from its left end, as in FIPS 46-3: the highest binary digit of a byte comes first. */
  lemma BlockBits(bs: seq<Octet>, i: nat)
    requires i < |bs|
    ensures Digitwise(Unpack(bs), 8 * i, bs[i])
  {
    forall j: nat | j < 8 ensures OfByte(Unpack(bs), 8 * i, j) == Bit(bs[i], j) {
      UnpackAt(bs, i, j);
    }
    DigitsAt(Unpack(bs), 8 * i, bs[i]);
  }

  lemma GatherUnpacked(bs: seq<Octet>, i: nat)
    requires i < |bs|
    ensures Gather(Unpack(bs), 8 * i) == bs[i]
  {
    var s := Unpack(bs);
    forall j | 0 <= j < 8 ensures s[8 * i + j] == Bit(bs[i], j) {
      UnpackAt(bs, i, j);
    }
    GatherBits(bs[i], s, 8 * i);
  }

  lemma PackUnpack(bs: seq<Octet>)
    ensures Pack(Unpack(bs)) == bs
  {
    var s := Unpack(bs);
    forall i | 0 <= i < |bs| ensures Pack(s)[i] == bs[i] {
      GatherUnpacked(bs, i);
    }
  }

  lemma UnpackPack(s: Bits)
    requires |s| % 8 == 0
    ensures Unpack(Pack(s)) == s
  {
    forall k | 0 <= k < |s| ensures Unpack(Pack(s))[k] == s[k] {
      var i, j := k / 8, k % 8;
      UnpackAt(Pack(s), i, j);
      if j < 4 {
        HighBit(s, 8 * i, j);
      } else {
        LowBit(s, 8 * i, j);
      }
    }
  }

  lemma MaskComplement(b: Octet, m: Octet)
    requires m & (m - 1) == 0 && m != 0
    ensures !b & m != 0 <==> b & m == 0
  {
  }

  lemma BitComplement(b: Octet, j: nat)
    requires j < 8
    ensures Bit(!b, j) == !Bit(b, j)
  {
    MaskComplement(b, Mask(j));
  }

  lemma UnpackComplement(bs: seq<Octet>)
    ensures Unpack(Complement(bs)) == Not(Unpack(bs))
  {
    forall k | 0 <= k < 8 * |bs| ensures Unpack(Complement(bs))[k] == Not(Unpack(bs))[k] {
      var i, j := k / 8, k % 8;
      UnpackAt(bs, i, j);
      UnpackAt(Complement(bs), i, j);
      BitComplement(bs[i], j);
    }
  }

  lemma PackNot(s: Bits)
    requires |s| % 8 == 0
    ensures Pack(Not(s)) == Complement(Pack(s))
  {
    UnpackPack(s);
    UnpackComplement(Pack(s));
    PackUnpack(Complement(Pack(s)));
  }

  lemma XorCancels(s: Bits, t: Bits)
    requires |s| == |t|
    ensures Xor(Xor(s, t), t) == s
  {
  }

  lemma XorNots(s: Bits, t: Bits)
    requires |s| == |t|
    ensures Xor(Not(s), Not(t)) == Xor(s, t)
    ensures Xor(Not(s), t) == Not(Xor(s, t))
  {
  }
}
