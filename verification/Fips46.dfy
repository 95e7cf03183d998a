/** The data encryption standard of FIPS 46-3, and that DesAlgo computes it. */
module Fips46 {
  import opened DesTables
  import opened FipsTables
  import opened DesBits
  import opened Des
  import opened DesInverse

  // ---------- the standard's own formulation ----------

  function InitialPermutation(b: Bits): (r: Bits)
    requires |b| == 64
    ensures |r| == 64
  {
    seq(64, i requires 0 <= i < 64 => b[StandardIp(i) - 1])
  }

  function InversePermutation(b: Bits): (r: Bits)
    requires |b| == 64
    ensures |r| == 64
  {
    seq(64, i requires 0 <= i < 64 => b[StandardIpInverse(i) - 1])
  }

  function PermutationP(b: Bits): (r: Bits)
    requires |b| == 32
    ensures |r| == 32
  {
    seq(32, i requires 0 <= i < 32 => b[StandardP(i) - 1])
  }

  function PermutedChoice1(key: Bits): (cd: Bits)
    requires |key| == 64
    ensures |cd| == 56
  {
    seq(56, i requires 0 <= i < 56 => key[StandardPc1(i) - 1])
  }

  /** How far C_n and D_n have been shifted. */
  function LeftShifts(n: nat): (v: nat)
    requires n <= 16
    ensures v <= 2 * n
  {
    if n == 0 then 0 else LeftShifts(n - 1) + StandardShifts(n)
  }

  function Expansion(r: Bits): (e: Bits)
    requires |r| == 32
    ensures |e| == 48
  {
    seq(48, i requires 0 <= i < 48 => r[StandardE(i) - 1])
  }

  function PermutedChoice2(cd: Bits): (k: Bits)
    requires |cd| == 56
    ensures |k| == 48
  {
    seq(48, i requires 0 <= i < 48 => cd[StandardPc2(i) - 1])
  }

  /** The first and last bit of a group of six choose the row. */
  function RowOf(x: Bits, at: nat): (i: nat)
    requires at + 6 <= |x|
    ensures i < 4
  {
    Worth(x[at], 2) + Worth(x[at + 5], 1)
  }

  /** The four bits between them choose the column. */
  function ColumnOf(x: Bits, at: nat): (j: nat)
    requires at + 6 <= |x|
    ensures j < 16
  {
    Worth(x[at + 1], 8) + Worth(x[at + 2], 4) + Worth(x[at + 3], 2) + Worth(x[at + 4], 1)
  }

  function Selection(x: Bits): (r: Bits)
    requires |x| == 48
    ensures |r| == 32
  {
    seq(32, i requires 0 <= i < 32 =>
      Bit(Box(i / 4 + 1, RowOf(x, 6 * (i / 4)), ColumnOf(x, 6 * (i / 4))), 4 + i % 4))
  }

  /** The cipher function f. */
  function CipherFunction(r: Bits, k: Bits): (out: Bits)
    requires |r| == 32 && |k| == 48
    ensures |out| == 32
  {
    PermutationP(Selection(Xor(Expansion(r), k)))
  }

  /** K_n, 1 <= n <= 16: both halves turned left by the number of shifts made so far. */
  function KeyOf(key: Block, n: nat): (k: Bits)
    requires 1 <= n <= 16
    ensures |k| == 48
  {
    var cd := PermutedChoice1(Unpack(key));
    SameShifts(n);
    PermutedChoice2(Rotl(cd[..28], LeftShifts(n)) + Rotl(cd[28..], LeftShifts(n)))
  }

  /** L_n and R_n; deciphering takes the keys from K_16 down to K_1. */
  function LeftRight(key: Block, block: Block, n: nat, encipher: bool): (lr: (Bits, Bits))
    requires n <= 16
    ensures |lr.0| == 32 && |lr.1| == 32
  {
    if n == 0 then
      var permuted := InitialPermutation(Unpack(block));
      (permuted[..32], permuted[32..])
    else
      var (l, r) := LeftRight(key, block, n - 1, encipher);
      (r, Xor(l, CipherFunction(r, KeyOf(key, if encipher then n else 17 - n))))
  }

  /** The preoutput block R_16 L_16 goes through the inverse initial permutation. */
  function Standard(key: Block, block: Block, encipher: bool): (out: Block) {
    var (l, r) := LeftRight(key, block, 16, encipher);
    Pack(InversePermutation(r + l))
  }

  // ---------- the tables that are held unchanged ----------

  lemma SamePermutations(b: Bits)
    requires |b| == 64
    ensures Select(IpTable, b) == InitialPermutation(b) && Select(IpInverseTable, b) == InversePermutation(b)
  {
    forall i | 0 <= i < 64
      ensures Select(IpTable, b)[i] == InitialPermutation(b)[i] && Select(IpInverseTable, b)[i] == InversePermutation(b)[i]
    {
      IpAgrees(i);
    }
  }

  lemma SameP(b: Bits)
    requires |b| == 32
    ensures Select(PTable, b) == PermutationP(b)
  {
    forall i | 0 <= i < 32 ensures Select(PTable, b)[i] == PermutationP(b)[i] {
      PAgrees(i);
    }
  }

  lemma SameChoice1(key: Bits)
    requires |key| == 64
    ensures Select(Pc1Table, key) == PermutedChoice1(key)
  {
    forall i | 0 <= i < 56 ensures Select(Pc1Table, key)[i] == PermutedChoice1(key)[i] {
      Pc1Agrees(i);
    }
  }

  lemma {:induction false} SameTotal(n: nat)
    requires n <= 16
    ensures LeftShifts(n) == Total(n)
  {
    if n > 0 {
      SameTotal(n - 1);
      ShiftsAgree(n - 1);
    }
  }

  lemma SameShifts(n: nat)
    requires n <= 16
    ensures LeftShifts(n) == Total(n) <= 28
  {
    SameTotal(n);
    TotalBound(n);
  }

  // ---------- the rearrangement ----------

  /** Each group of six with its two row bits moved to the front. */
  function Regrouped(x: Bits): (r: Bits)
    requires |x| == 48
    ensures |r| == 48
  {
    seq(48, i requires 0 <= i < 48 => x[6 * (i / 6) + Regroup(i % 6)])
  }

  lemma ExpansionRegrouped(r: Bits)
    requires |r| == 32
    ensures Select(ETable, r) == Regrouped(Expansion(r))
  {
    forall i | 0 <= i < 48 ensures Select(ETable, r)[i] == Regrouped(Expansion(r))[i] {
      ERearranged(i / 6, i % 6);
    }
  }

  lemma ChoiceRegrouped(cd: Bits)
    requires |cd| == 56
    ensures Select(Pc2Table, cd) == Regrouped(PermutedChoice2(cd))
  {
    forall i | 0 <= i < 48 ensures Select(Pc2Table, cd)[i] == Regrouped(PermutedChoice2(cd))[i] {
      Pc2Rearranged(i / 6, i % 6);
    }
  }

  lemma RegroupedAt(x: Bits, g: nat, j: nat)
    requires |x| == 48 && g < 8 && j < 6
    ensures Regrouped(x)[6 * g + j] == x[6 * g + Regroup(j)]
  {
    assert (6 * g + j) / 6 == g && (6 * g + j) % 6 == j;
  }

  lemma GroupRegrouped(x: Bits, g: nat, at: nat)
    requires |x| == 48 && g < 8 && at == 6 * g
    ensures Regrouped(x)[at..at + 6] == [x[at], x[at + 5], x[at + 1], x[at + 2], x[at + 3], x[at + 4]]
  {
    forall j {:trigger Regrouped(x)[at..at + 6][j]} | 0 <= j < 6
      ensures Regrouped(x)[at..at + 6][j] == [x[at], x[at + 5], x[at + 1], x[at + 2], x[at + 3], x[at + 4]][j]
    {
      RegroupedAt(x, g, j);
    }
  }

  lemma IndexOfGroup(x: Bits, y: Bits, at: nat)
    requires at + 6 <= |x| == |y|
    requires y[at..at + 6] == [x[at], x[at + 5], x[at + 1], x[at + 2], x[at + 3], x[at + 4]]
    ensures Six(y, at) == 16 * RowOf(x, at) + ColumnOf(x, at)
  {
    var s := y[at..at + 6];
    assert y[at] == s[0] && y[at + 1] == s[1] && y[at + 2] == s[2];
    assert y[at + 3] == s[3] && y[at + 4] == s[4] && y[at + 5] == s[5];
  }

  /** On rearranged bits the plain index is the row and column index. */
  lemma IndexIsRowColumn(x: Bits, g: nat)
    requires |x| == 48 && g < 8
    ensures Six(Regrouped(x), 6 * g) == 16 * RowOf(x, 6 * g) + ColumnOf(x, 6 * g)
  {
    GroupRegrouped(x, g, 6 * g);
    IndexOfGroup(x, Regrouped(x), 6 * g);
  }

  /** A box on rearranged bits is the box on the row and column of the group. */
  lemma BoxRegrouped(x: Bits, g: nat)
    requires |x| == 48 && g < 8
    ensures S(g, Six(Regrouped(x), 6 * g)) == Box(g + 1, RowOf(x, 6 * g), ColumnOf(x, 6 * g))
  {
    IndexIsRowColumn(x, g);
    BoxesAgree(g, RowOf(x, 6 * g), ColumnOf(x, 6 * g));
  }

  lemma BoxesIndex(y: Bits, i: nat, g: nat, b: Octet)
    requires |y| == 48 && i < 32 && g == i / 4 && b == S(g, Six(y, 6 * g))
    ensures Boxes(y)[i] == Bit(b, 4 + i % 4)
  {
  }

  lemma SelectionIndex(x: Bits, i: nat, g: nat, b: Octet)
    requires |x| == 48 && i < 32 && g == i / 4 && b == Box(g + 1, RowOf(x, 6 * g), ColumnOf(x, 6 * g))
    ensures Selection(x)[i] == Bit(b, 4 + i % 4)
  {
  }

  lemma SelectionAt(x: Bits, i: nat, g: nat)
    requires |x| == 48 && i < 32 && g == i / 4
    ensures Boxes(Regrouped(x))[i] == Selection(x)[i]
  {
    var b := S(g, Six(Regrouped(x), 6 * g));
    BoxRegrouped(x, g);
    BoxesIndex(Regrouped(x), i, g, b);
    SelectionIndex(x, i, g, b);
  }

  lemma BoxesRegrouped(x: Bits)
    requires |x| == 48
    ensures Boxes(Regrouped(x)) == Selection(x)
  {
    forall i | 0 <= i < 32 ensures Boxes(Regrouped(x))[i] == Selection(x)[i] {
      SelectionAt(x, i, i / 4);
    }
  }

  /** With both tables rearranged the round function is the standard's. */
  lemma SameCipherFunction(r: Bits, k: Bits)
    requires |r| == 32 && |k| == 48
    ensures F(r, Regrouped(k)) == CipherFunction(r, k)
  {
    ExpansionRegrouped(r);
    var x := Xor(Expansion(r), k);
    assert Xor(Regrouped(k), Regrouped(Expansion(r))) == Regrouped(x);
    BoxesRegrouped(x);
    SameP(Selection(x));
  }

  lemma SameKey(key: Block, i: nat, encrypt: bool)
    requires i < 16
    ensures RoundKeys(key, encrypt)[i] == Regrouped(KeyOf(key, if encrypt then i + 1 else 16 - i))
  {
    var cd := Select(Pc1Table, Unpack(key));
    var n := if encrypt then i + 1 else 16 - i;
    SameChoice1(Unpack(key));
    SameShifts(n);
    if !encrypt {
      TurnedRight(cd[..28], i + 1);
      TurnedRight(cd[28..], i + 1);
    }
    TurnedLeft(cd[..28], n);
    TurnedLeft(cd[28..], n);
    ChoiceRegrouped(Rotl(cd[..28], Total(n)) + Rotl(cd[28..], Total(n)));
  }

  lemma SameRound(l: Bits, r: Bits, k: Bits)
    requires |l| == |r| == 32 && |k| == 48
    ensures Round(l + r, Regrouped(k)) == r + Xor(l, CipherFunction(r, k))
  {
    assert (l + r)[..32] == l && (l + r)[32..] == r;
    SameCipherFunction(r, k);
  }

  lemma {:induction false} SameRounds(key: Block, block: Block, n: nat, encrypt: bool)
    requires n <= 16
    ensures Rounds(Select(IpTable, Unpack(block)), RoundKeys(key, encrypt)[..n])
      == LeftRight(key, block, n, encrypt).0 + LeftRight(key, block, n, encrypt).1
  {
    if n == 0 {
      SamePermutations(Unpack(block));
    } else {
      SameRounds(key, block, n - 1, encrypt);
      RoundStep(Select(IpTable, Unpack(block)), RoundKeys(key, encrypt), n - 1);
      var (l, r) := LeftRight(key, block, n - 1, encrypt);
      SameKey(key, n - 1, encrypt);
      SameRound(l, r, KeyOf(key, if encrypt then n else 17 - n));
    }
  }

  /** DesAlgo is the standard's algorithm, for every key and block and both directions. */
  lemma RefinesStandard(key: Block, block: Block, encrypt: bool)
    ensures Algo(key, block, encrypt) == Standard(key, block, encrypt)
  {
    SameRounds(key, block, 16, encrypt);
    assert RoundKeys(key, encrypt)[..16] == RoundKeys(key, encrypt);
    var (l, r) := LeftRight(key, block, 16, encrypt);
    assert Swap(l + r) == r + l;
    SamePermutations(r + l);
  }

  // ---------- the complementation property ----------

  lemma SelectNot(t: Table, s: Bits)
    requires |s| == InSize(t)
    ensures Select(t, Not(s)) == Not(Select(t, s))
  {
  }

  lemma RoundNot(lr: Bits, k: Bits)
    requires |lr| == 64 && |k| == 48
    ensures Round(Not(lr), Not(k)) == Not(Round(lr, k))
  {
    var l, r := lr[..32], lr[32..];
    assert Not(lr)[..32] == Not(l) && Not(lr)[32..] == Not(r);
    SelectNot(ETable, r);
    XorNots(k, Select(ETable, r));
    XorNots(l, F(r, k));
    assert Not(r + Xor(l, F(r, k))) == Not(r) + Not(Xor(l, F(r, k)));
  }

  lemma {:induction false} RoundsNot(lr: Bits, ks: Keys, nots: Keys)
    requires |lr| == 64 && |nots| == |ks|
    requires forall i | 0 <= i < |ks| :: nots[i] == Not(ks[i])
    ensures Rounds(Not(lr), nots) == Not(Rounds(lr, ks))
  {
    if ks != [] {
      RoundsNot(lr, ks[..|ks| - 1], nots[..|ks| - 1]);
      RoundNot(Rounds(lr, ks[..|ks| - 1]), ks[|ks| - 1]);
    }
  }

  lemma RotNot(h: Bits, n: nat)
    requires n <= |h|
    ensures Rotl(Not(h), n) == Not(Rotl(h, n)) && Rotr(Not(h), n) == Not(Rotr(h, n))
  {
  }

  lemma {:induction false} TurnedNot(h: Bits, i: nat, encrypt: bool)
    requires |h| == 28 && i <= 16
    ensures Turned(Not(h), i, encrypt) == Not(Turned(h, i, encrypt))
  {
    if i > 0 {
      TurnedNot(h, i - 1, encrypt);
      RotNot(Turned(h, i - 1, encrypt), Shifts(i - 1));
    }
  }

  lemma HalvesNot(cd: Bits, c: Bits, d: Bits)
    requires |cd| == 56 && |c| == |d| == 28
    ensures Not(cd)[..28] == Not(cd[..28]) && Not(cd)[28..] == Not(cd[28..])
    ensures Not(c) + Not(d) == Not(c + d)
  {
  }

  lemma RoundKeyNot(cd: Bits, i: nat, encrypt: bool)
    requires |cd| == 56 && i < 16
    ensures RoundKey(Not(cd), i, encrypt) == Not(RoundKey(cd, i, encrypt))
  {
    var c, d := Turned(cd[..28], i + 1, encrypt), Turned(cd[28..], i + 1, encrypt);
    HalvesNot(cd, c, d);
    TurnedNot(cd[..28], i + 1, encrypt);
    TurnedNot(cd[28..], i + 1, encrypt);
    SelectNot(Pc2Table, c + d);
  }

  lemma KeyNot(key: Block, i: nat, encrypt: bool)
    requires i < 16
    ensures RoundKeys(Complement(key), encrypt)[i] == Not(RoundKeys(key, encrypt)[i])
  {
    UnpackComplement(key);
    SelectNot(Pc1Table, Unpack(key));
    RoundKeyNot(Select(Pc1Table, Unpack(key)), i, encrypt);
  }

  lemma CipherNot(bits: Bits, ks: Keys, nots: Keys)
    requires |bits| == 64 && |nots| == |ks|
    requires forall i | 0 <= i < |ks| :: nots[i] == Not(ks[i])
    ensures Select(IpInverseTable, Swap(Rounds(Select(IpTable, Not(bits)), nots)))
      == Not(Select(IpInverseTable, Swap(Rounds(Select(IpTable, bits), ks))))
  {
    SelectNot(IpTable, bits);
    RoundsNot(Select(IpTable, bits), ks, nots);
    var out := Rounds(Select(IpTable, bits), ks);
    assert Swap(Not(out)) == Not(Swap(out));
    SelectNot(IpInverseTable, Swap(out));
  }

  /** Complementing key and block complements the result. */
  lemma Complementation(key: Block, block: Block, encrypt: bool)
    ensures Algo(Complement(key), Complement(block), encrypt) == Complement(Algo(key, block, encrypt))
  {
    var ks, nots := RoundKeys(key, encrypt), RoundKeys(Complement(key), encrypt);
    forall i | 0 <= i < 16 ensures nots[i] == Not(ks[i]) {
      KeyNot(key, i, encrypt);
    }
    UnpackComplement(block);
    CipherNot(Unpack(block), ks, nots);
    PackNot(Select(IpInverseTable, Swap(Rounds(Select(IpTable, Unpack(block)), ks))));
  }
}
