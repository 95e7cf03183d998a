/** 3DES.cpp's routines over arrays, each proved to compute its function of Des. */
module DesCode {
  import opened DesTables
  import opened DesBits
  import opened Des

  lemma Stored(was: Bits, at: nat, e: Bits, now: Bits)
    requires |e| == 8 && at + 8 <= |was|
    requires now == was[at + 7 := e[7]][at + 6 := e[6]][at + 5 := e[5]][at + 4 := e[4]]
      [at + 3 := e[3]][at + 2 := e[2]][at + 1 := e[1]][at := e[0]]
    ensures now == was[..at] + e + was[at + 8..]
  {
  }

  /** Stores eight bits, the last one first. */
  method StoreBits(dst: array<bool>, at: nat, b0: bool, b1: bool, b2: bool, b3: bool,
      b4: bool, b5: bool, b6: bool, b7: bool)
    requires at + 8 <= dst.Length
    modifies dst
    ensures dst[..] == old(dst[..])[..at] + [b7, b6, b5, b4, b3, b2, b1, b0] + old(dst[..])[at + 8..]
  {
    ghost var was := dst[..];
    dst[at + 7] := b0;
    dst[at + 6] := b1;
    dst[at + 5] := b2;
    dst[at + 4] := b3;
    dst[at + 3] := b4;
    dst[at + 2] := b5;
    dst[at + 1] := b6;
    dst[at + 0] := b7;
    Stored(was, at, [b7, b6, b5, b4, b3, b2, b1, b0], dst[..]);
  }

  /** s with the bits of bs written over it from to on. */
  function Written(s: Bits, to: nat, bs: seq<Octet>): (r: Bits)
    requires to + 8 * |bs| <= |s|
    ensures |r| == |s|
  {
    s[..to] + Unpack(bs) + s[to + 8 * |bs|..]
  }

  lemma WrittenNext(s: Bits, to: nat, bs: seq<Octet>, b: Octet, at: nat)
    requires to + 8 * |bs| + 8 <= |s| && at == to + 8 * |bs|
    ensures Written(s, to, bs)[..at] + EightBits(b) + Written(s, to, bs)[at + 8..] == Written(s, to, bs + [b])
  {
    var w := Written(s, to, bs);
    assert (bs + [b])[..|bs|] == bs;
    assert w[..at] == s[..to] + Unpack(bs);
    assert w[at + 8..] == s[at + 8..];
  }

  method StoreByte(dst: array<bool>, at: nat, b: Octet)
    requires at + 8 <= dst.Length
    modifies dst
    ensures dst[..] == old(dst[..])[..at] + EightBits(b) + old(dst[..])[at + 8..]
  {
    StoreBits(dst, at, Bit(b, 7), Bit(b, 6), Bit(b, 5), Bit(b, 4), Bit(b, 3), Bit(b, 2), Bit(b, 1), Bit(b, 0));
  }

  /** Unpacks n bytes into the array of bits at to. */
  method BitToByte(src: array<Octet>, dst: array<bool>, to: nat, n: nat)
    requires n <= src.Length && to + 8 * n <= dst.Length && src as object != dst
    modifies dst
    ensures dst[..] == Written(old(dst[..]), to, src[..n])
  {
    ghost var was, bs := dst[..], src[..];
    for i := 0 to n
      invariant src[..] == bs && dst[..] == Written(was, to, bs[..i])
    {
      var b := src[i];
      assert bs[..i + 1] == bs[..i] + [b];
      WrittenNext(was, to, bs[..i], b, to + 8 * i);
      StoreByte(dst, to + 8 * i, b);
    }
  }

  /** s with full written over its beginning. */
  function Over<T>(s: seq<T>, full: seq<T>): (r: seq<T>)
    requires |full| <= |s|
    ensures |r| == |s|
  {
    full + s[|full|..]
  }

  /** The first i elements of full written over the beginning of s. */
  function Begun<T>(s: seq<T>, full: seq<T>, i: nat): (r: seq<T>)
    requires i <= |full| <= |s|
    ensures |r| == |s| && (i < |s| ==> r[i] == s[i])
  {
    Over(s, full[..i])
  }

  lemma BegunEnds<T>(s: seq<T>, full: seq<T>)
    requires |full| <= |s|
    ensures Begun(s, full, 0) == s && Begun(s, full, |full|) == Over(s, full)
  {
    assert full[..|full|] == full;
  }

  lemma BegunNext<T>(s: seq<T>, full: seq<T>, i: nat)
    requires i < |full| <= |s|
    ensures Begun(s, full, i)[i := full[i]] == Begun(s, full, i + 1)
  {
  }

  lemma PackAt(all: Bits, n: nat, i: nat)
    requires 8 * n <= |all| && i < n
    ensures Pack(all[..8 * n])[i] == Gather(all, 8 * i)
  {
  }

  /** Packs an array of bits into n bytes. */
  method ByteToBit(src: array<bool>, dst: array<Octet>, n: nat)
    requires 8 * n <= src.Length && n <= dst.Length && src as object != dst
    modifies dst
    ensures dst[..] == Over(old(dst[..]), Pack(src[..][..8 * n]))
  {
    ghost var was, all := dst[..], src[..];
    ghost var full := Pack(all[..8 * n]);
    BegunEnds(was, full);
    for i := 0 to n
      invariant src[..] == all && dst[..] == Begun(was, full, i)
    {
      BegunNext(was, full, i);
      PackAt(all, n, i);
      dst[i] := Gather(src[..], 8 * i);
    }
  }

  lemma XorAt(all1: Bits, all2: Bits, len: nat, i: nat)
    requires i < len <= |all1| && len <= |all2|
    ensures Xor(all1[..len], all2[..len])[i] == (all1[i] != all2[i])
  {
  }

  /** Dest may be either operand. */
  method BitXor(data1: array<bool>, data2: array<bool>, len: nat, dest: array<bool>)
    requires len <= data1.Length && len <= data2.Length && len <= dest.Length
    modifies dest
    ensures dest[..] == Over(old(dest[..]), Xor(old(data1[..])[..len], old(data2[..])[..len]))
  {
    ghost var was, all1, all2 := dest[..], data1[..], data2[..];
    ghost var full := Xor(all1[..len], all2[..len]);
    BegunEnds(was, full);
    for i := 0 to len
      invariant dest[..] == Begun(was, full, i)
      invariant data1 != dest ==> data1[..] == all1
      invariant data2 != dest ==> data2[..] == all2
    {
      BegunNext(was, full, i);
      XorAt(all1, all2, len, i);
      assert data1[i] == all1[i];
      assert data2[i] == all2[i];
      dest[i] := data1[i] != data2[i];
    }
  }

  predicate Fits(p: seq<nat>, n: nat) {
    forall i :: 0 <= i < |p| ==> p[i] < n
  }

  function Pick(p: seq<nat>, s: Bits): (r: Bits)
    requires Fits(p, |s|)
    ensures |r| == |p|
  {
    seq(|p|, i requires 0 <= i < |p| => s[p[i]])
  }

  lemma PickAt(p: seq<nat>, all: Bits, from: nat, n: nat, i: nat)
    requires from + n <= |all| && Fits(p, n) && i < |p|
    ensures Pick(p, all[from..from + n])[i] == all[from + p[i]]
  {
  }

  function Wiring(t: Table): (p: seq<nat>)
    ensures |p| == OutSize(t) && Fits(p, InSize(t))
  {
    seq(OutSize(t), i requires 0 <= i < OutSize(t) => Entry(t, i))
  }

  lemma SelectPicks(t: Table, s: Bits)
    requires |s| == InSize(t)
    ensures Select(t, s) == Pick(Wiring(t), s)
  {
  }

  /** src points into an array of bits. */
  method SelectExchange(p: seq<nat>, src: array<bool>, from: nat, n: nat, dst: array<bool>)
    requires from + n <= src.Length && |p| <= dst.Length && src != dst && Fits(p, n)
    modifies dst
    ensures dst[..] == Over(old(dst[..]), Pick(p, src[..][from..from + n]))
  {
    ghost var was, all := dst[..], src[..];
    ghost var full := Pick(p, all[from..from + n]);
    BegunEnds(was, full);
    for i := 0 to |p|
      invariant src[..] == all && dst[..] == Begun(was, full, i)
    {
      BegunNext(was, full, i);
      PickAt(p, all, from, n, i);
      dst[i] := src[from + p[i]];
    }
  }

  method SelectExchangeFromTable(t: Table, src: array<bool>, from: nat, dst: array<bool>)
    requires from + InSize(t) <= src.Length && OutSize(t) <= dst.Length && src != dst
    modifies dst
    ensures dst[..] == Over(old(dst[..]), Select(t, src[..][from..from + InSize(t)]))
  {
    SelectPicks(t, src[..][from..from + InSize(t)]);
    SelectExchange(Wiring(t), src, from, InSize(t), dst);
  }

  /** s with its 28 bits from at on replaced. */
  function Replaced(s: Bits, at: nat, turned: Bits): Bits
    requires at + 28 <= |s| && |turned| == 28
  {
    s[..at] + turned + s[at + 28..]
  }

  /** s after the bits up to at + i have moved n places down. */
  function MovedDown(s: Bits, at: nat, n: nat, i: nat): (r: Bits)
    requires n <= i <= 28 && at + 28 <= |s|
    ensures |r| == |s| && (i < 28 ==> r[at + i] == s[at + i])
  {
    s[..at] + s[at + n..at + i] + s[at + i - n..]
  }

  lemma MoveDown(s: Bits, at: nat, n: nat, i: nat)
    requires n <= i < 28 && at + 28 <= |s|
    ensures MovedDown(s, at, n, i)[at + i - n := s[at + i]] == MovedDown(s, at, n, i + 1)
  {
  }

  /** s after the bits from at + i on have moved n places up. */
  function MovedUp(s: Bits, at: nat, n: nat, i: nat): (r: Bits)
    requires n <= i <= 28 && at + 28 <= |s|
    ensures |r| == |s| && (i > n ==> r[at + i - 1 - n] == s[at + i - 1 - n])
  {
    s[..at + i] + s[at + i - n..at + 28 - n] + s[at + 28..]
  }

  lemma MoveUp(s: Bits, at: nat, n: nat, i: nat)
    requires n <= i < 28 && at + 28 <= |s|
    ensures MovedUp(s, at, n, i + 1)[at + i := s[at + i - n]] == MovedUp(s, at, n, i)
  {
  }

  /** s after i of the bits that fell out below have been put back above. */
  function FilledAbove(s: Bits, at: nat, n: nat, i: nat): (r: Bits)
    requires i <= n <= 28 && at + 28 <= |s|
    ensures |r| == |s|
  {
    var moved := MovedDown(s, at, n, 28);
    moved[..at + 28 - n] + s[at..at + i] + moved[at + 28 - n + i..]
  }

  lemma FillAbove(s: Bits, at: nat, n: nat, i: nat)
    requires i < n <= 28 && at + 28 <= |s|
    ensures FilledAbove(s, at, n, i)[at + 28 - n + i := s[at + i]] == FilledAbove(s, at, n, i + 1)
  {
  }

  lemma TurnedDown(s: Bits, at: nat, n: nat)
    requires n <= 28 && at + 28 <= |s|
    ensures FilledAbove(s, at, n, 0) == MovedDown(s, at, n, 28)
    ensures FilledAbove(s, at, n, n) == Replaced(s, at, Rotl(s[at..at + 28], n))
  {
  }

  /** s after i of the bits that fell out above have been put back below. */
  function FilledBelow(s: Bits, at: nat, n: nat, i: nat): (r: Bits)
    requires i <= n <= 28 && at + 28 <= |s|
    ensures |r| == |s|
  {
    var moved := MovedUp(s, at, n, n);
    moved[..at] + s[at + 28 - n..at + 28 - n + i] + moved[at + i..]
  }

  lemma FillBelow(s: Bits, at: nat, n: nat, i: nat)
    requires i < n <= 28 && at + 28 <= |s|
    ensures FilledBelow(s, at, n, i)[at + i := s[at + 28 - n + i]] == FilledBelow(s, at, n, i + 1)
  {
  }

  lemma TurnedUp(s: Bits, at: nat, n: nat)
    requires n <= 28 && at + 28 <= |s|
    ensures FilledBelow(s, at, n, 0) == MovedUp(s, at, n, n)
    ensures FilledBelow(s, at, n, n) == Replaced(s, at, Rotr(s[at..at + 28], n))
  {
  }

  /** Turns the 28 bits from at on to the left, in place. */
  method LShift(buf: array<bool>, at: nat, n: nat)
    requires at + 28 <= buf.Length && n <= 2
    modifies buf
    ensures buf[..] == Replaced(old(buf[..]), at, Rotl(old(buf[..])[at..at + 28], n))
  {
    ghost var was := buf[..];
    var temp := new bool[2];
    for i := 0 to n
      invariant buf[..] == was && forall m | 0 <= m < i :: temp[m] == was[at + m]
    {
      temp[i] := buf[at + i];
    }
    for i := n to 28
      invariant buf[..] == MovedDown(was, at, n, i) && forall m | 0 <= m < n :: temp[m] == was[at + m]
    {
      MoveDown(was, at, n, i);
      buf[at + i - n] := buf[at + i];
    }
    TurnedDown(was, at, n);
    for i := 0 to n
      invariant buf[..] == FilledAbove(was, at, n, i) && forall m | 0 <= m < n :: temp[m] == was[at + m]
    {
      FillAbove(was, at, n, i);
      buf[at + 27 - (n - 1) + i] := temp[i];
    }
  }

  /** Turns the 28 bits from at on to the right, in place. */
  method RShift(buf: array<bool>, at: nat, n: nat)
    requires at + 28 <= buf.Length && n <= 2
    modifies buf
    ensures buf[..] == Replaced(old(buf[..]), at, Rotr(old(buf[..])[at..at + 28], n))
  {
    ghost var was := buf[..];
    var temp := new bool[2];
    for i := 0 to n
      invariant buf[..] == was && forall m | n - i <= m < n :: temp[m] == was[at + 28 - n + m]
    {
      temp[(n - 1) - i] := buf[at + 27 - i];
    }
    for i := 28 downto n
      invariant buf[..] == MovedUp(was, at, n, i)
      invariant forall m | 0 <= m < n :: temp[m] == was[at + 28 - n + m]
    {
      MoveUp(was, at, n, i);
      buf[at + i] := buf[at + i - n];
    }
    TurnedUp(was, at, n);
    for i := 0 to n
      invariant buf[..] == FilledBelow(was, at, n, i)
      invariant forall m | 0 <= m < n :: temp[m] == was[at + 28 - n + m]
    {
      FillBelow(was, at, n, i);
      buf[at + i] := temp[i];
    }
  }

  lemma BothHalves(c: Bits, d: Bits, c1: Bits, d1: Bits, half: Bits, now: Bits)
    requires |c| == |d| == |c1| == |d1| == 28
    requires half == Replaced(c + d, 0, c1) && now == Replaced(half, 28, d1)
    ensures half[28..28 + 28] == d && now == c1 + d1
  {
    assert (c + d)[..0] == [] && (c + d)[28..] == d;
    assert half == c1 + d;
    assert half[..28] == c1 && half[56..] == [];
  }

  /** One turn of both halves of the key; deciphering does not turn before its first round. */
  method Shift(cd: array<bool>, circle: nat, encrypt: bool, ghost c: Bits, ghost d: Bits)
    requires cd.Length == 56 && circle < 16 && |c| == 28 && |d| == 28
    requires cd[..] == Turned(c, circle, encrypt) + Turned(d, circle, encrypt)
    modifies cd
    ensures cd[..] == Turned(c, circle + 1, encrypt) + Turned(d, circle + 1, encrypt)
  {
    ghost var c0, d0 := Turned(c, circle, encrypt), Turned(d, circle, encrypt);
    assert cd[..][0..0 + 28] == c0;
    if !encrypt {
      if circle != 0 {
        RShift(cd, 0, Shifts(circle));
        ghost var half := cd[..];
        RShift(cd, 28, Shifts(circle));
        BothHalves(c0, d0, Rotr(c0, Shifts(circle)), Rotr(half[28..28 + 28], Shifts(circle)), half, cd[..]);
      }
    } else {
      LShift(cd, 0, Shifts(circle));
      ghost var half := cd[..];
      LShift(cd, 28, Shifts(circle));
      BothHalves(c0, d0, Rotl(c0, Shifts(circle)), Rotl(half[28..28 + 28], Shifts(circle)), half, cd[..]);
    }
  }

  lemma HighNibble(hi: Octet, lo: Octet, j: nat)
    requires hi < 16 && lo < 16 && j < 4
    ensures Bit(hi * 16 + lo, j) == Bit(hi, 4 + j)
  {
    if j == 0 {} else if j == 1 {} else if j == 2 {} else {}
  }

  lemma LowNibble(hi: Octet, lo: Octet, j: nat)
    requires hi < 16 && lo < 16 && 4 <= j < 8
    ensures Bit(hi * 16 + lo, j) == Bit(lo, j)
  {
    if j == 4 {} else if j == 5 {} else if j == 6 {} else {}
  }

  /** Bit j of the four that come from box n. */
  function OfBox(full: Bits, n: nat, j: nat): (b: bool)
    requires 4 * n + 4 <= |full| && j < 4
  {
    full[4 * n + j]
  }

  predicate Nibble(full: Bits, n: nat, b: Octet)
    requires 4 * n + 4 <= |full|
  {
    b < 16 && forall j: nat {:trigger OfBox(full, n, j)} | j < 4 :: OfBox(full, n, j) == Bit(b, 4 + j)
  }

  /** Two neighbouring boxes fill one byte. */
  lemma BoxPair(full: Bits, p: nat, hi: Octet, lo: Octet, j: nat)
    requires |full| == 32 && p < 4 && j < 8 && Nibble(full, 2 * p, hi) && Nibble(full, 2 * p + 1, lo)
    ensures Bit(hi * 16 + lo, j) == full[8 * p + j]
  {
    if j < 4 {
      HighNibble(hi, lo, j);
      assert OfBox(full, 2 * p, j) == Bit(hi, 4 + j);
    } else {
      LowNibble(hi, lo, j);
      assert OfBox(full, 2 * p + 1, j - 4) == Bit(lo, j);
    }
  }

  lemma BytePair(full: Bits, p: nat, hi: Octet, lo: Octet)
    requires |full| == 32 && p < 4 && Nibble(full, 2 * p, hi) && Nibble(full, 2 * p + 1, lo)
    ensures Unpack([hi * 16 + lo]) == full[8 * p..8 * p + 8]
  {
    var b := hi * 16 + lo;
    assert [b][..0] == [] && Unpack([b]) == EightBits(b);
    forall j | 0 <= j < 8 ensures EightBits(b)[j] == full[8 * p + j] {
      BoxPair(full, p, hi, lo, j);
      EightBitsAt(b, j);
    }
  }

  /** The six bits that go into box n. */
  function Group(x: Bits, n: nat): (g: nat)
    requires |x| == 48 && n < 8
    ensures g < 64
  {
    Six(x, 6 * n)
  }

  /** bx holds what the eight boxes make of x. */
  predicate Boxed(x: Bits, bx: seq<Octet>) {
    && |x| == 48 && |bx| == 8
    && (forall n: nat {:trigger bx[n]} | n < 8 :: bx[n] < 16)
    && (forall n: nat {:trigger Group(x, n)} | n < 8 :: bx[n] == S(n, Group(x, n)))
  }

  /** The bits of full are the four bits of each value in bx. */
  predicate Spread(bx: seq<Octet>, full: Bits) {
    && |bx| == 8 && |full| == 32
    && forall n: nat {:trigger bx[n]} | n < 8 :: Nibble(full, n, bx[n])
  }

  lemma Quotient(n: nat, j: nat)
    requires j < 4
    ensures (4 * n + j) / 4 == n && (4 * n + j) % 4 == j
  {
  }

  lemma BoxesAt(x: Bits, k: nat, n: nat, j: nat)
    requires |x| == 48 && k < 32 && n == k / 4 && j == k % 4
    ensures Boxes(x)[k] == Bit(S(n, Group(x, n)), 4 + j)
  {
  }

  lemma BoxBit(x: Bits, bx: seq<Octet>, n: nat, j: nat)
    requires Boxed(x, bx) && n < 8 && j < 4
    ensures OfBox(Boxes(x), n, j) == Bit(bx[n], 4 + j)
  {
    Quotient(n, j);
    BoxesAt(x, 4 * n + j, n, j);
    assert bx[n] == S(n, Group(x, n));
  }

  lemma BoxNibble(x: Bits, bx: seq<Octet>, n: nat, full: Bits)
    requires Boxed(x, bx) && n < 8 && full == Boxes(x)
    ensures Nibble(full, n, bx[n])
  {
    forall j: nat | j < 4 ensures OfBox(full, n, j) == Bit(bx[n], 4 + j) {
      BoxBit(x, bx, n, j);
    }
  }

  lemma BoxesSpread(x: Bits, bx: seq<Octet>, full: Bits)
    requires Boxed(x, bx) && full == Boxes(x)
    ensures Spread(bx, full)
  {
    forall n: nat | n < 8 ensures Nibble(full, n, bx[n]) {
      BoxNibble(x, bx, n, full);
    }
  }

  /** The values of the eight boxes. */
  ghost function Values(x: Bits): (bx: seq<Octet>)
    requires |x| == 48
    ensures Boxed(x, bx)
  {
    seq(8, n requires 0 <= n < 8 => S(n, Group(x, n)))
  }

  lemma BytePlaced(full: Bits, p: nat, before: Bits, bs: seq<Octet>)
    requires |full| == |before| == 32 && p < 4 && |bs| == 1
    requires before[..8 * p] == full[..8 * p] && Unpack(bs) == full[8 * p..8 * p + 8]
    ensures Written(before, 8 * p, bs)[..8 * (p + 1)] == full[..8 * (p + 1)]
  {
  }

  /** Stores the byte two boxes make. */
  method StorePair(sTemp: array<Octet>, result: array<bool>, i: nat, ghost full: Bits, ghost p: nat, ghost hi: Octet,
                   ghost lo: Octet)
    requires |full| == 32 && p < 4 && i == 2 * p + 1 && sTemp as object != result
    requires sTemp.Length == 1 && result.Length == 32 && result[..8 * p] == full[..8 * p]
    requires Nibble(full, 2 * p, hi) && Nibble(full, 2 * p + 1, lo) && sTemp[0] == hi * 16 + lo
    modifies result
    ensures result[..8 * (p + 1)] == full[..8 * (p + 1)]
  {
    BytePair(full, p, hi, lo);
    assert sTemp[..1] == [sTemp[0]];
    var to := i / 2 * 8;
    assert to == 8 * p;
    BytePlaced(full, p, result[..], sTemp[..1]);
    BitToByte(sTemp, result, to, 1);
  }

  /** One entry of the selection tables, by the six bits of group i. */
  method Look(src: array<bool>, i: nat, ghost bx: seq<Octet>) returns (b: Octet)
    requires src.Length == 48 && i < 8 && Boxed(src[..], bx)
    ensures b == bx[i]
  {
    var nPos := Group(src[..], i);
    b := S(i, nPos);
  }

  /** The loop of SChange. */
  method BoxLoop(src: array<bool>, result: array<bool>, ghost x: Bits, ghost bx: seq<Octet>, ghost full: Bits)
    requires src.Length == 48 && result.Length == 32 && src != result
    requires src[..] == x && Boxed(x, bx) && Spread(bx, full)
    modifies result
    ensures result[..] == full
  {
    ghost var p := 0;
    var sTemp := new Octet[1];
    assert sTemp as object != src && sTemp as object != result;
    for i := 0 to 8
      invariant src[..] == x
      invariant p == i / 2 && (i % 2 == 1 ==> sTemp[0] == bx[2 * p] * 16)
      invariant result[..8 * p] == full[..8 * p]
    {
      var b := Look(src, i, bx);
      if i % 2 == 0 {
        sTemp[0] := b * 16;
      } else {
        sTemp[0] := sTemp[0] + b;
        StorePair(sTemp, result, i, full, p, bx[2 * p], bx[2 * p + 1]);
        p := p + 1;
      }
    }
  }

  method SChange(src: array<bool>, result: array<bool>)
    requires src.Length == 48 && result.Length == 32 && src != result
    modifies result
    ensures result[..] == Boxes(src[..])
  {
    ghost var x, bx, full := src[..], Values(src[..]), Boxes(src[..]);
    BoxesSpread(x, bx, full);
    BoxLoop(src, result, x, bx, full);
  }
}
