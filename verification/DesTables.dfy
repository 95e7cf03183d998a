/** The tables of 3DES.cpp, and the tables of FIPS 46-3 they rearrange. */
module DesTables {
  import opened Basics

  /** TABLE_ip: the initial permutation. */
  function Ip(i: nat): (v: nat)
    requires i < 64
    ensures v < 64
  {
    if i < 8 then Row(i, 57, 49, 41, 33, 25, 17, 9, 1)
    else if i < 16 then Row(i - 8, 59, 51, 43, 35, 27, 19, 11, 3)
    else if i < 24 then Row(i - 16, 61, 53, 45, 37, 29, 21, 13, 5)
    else if i < 32 then Row(i - 24, 63, 55, 47, 39, 31, 23, 15, 7)
    else if i < 40 then Row(i - 32, 56, 48, 40, 32, 24, 16, 8, 0)
    else if i < 48 then Row(i - 40, 58, 50, 42, 34, 26, 18, 10, 2)
    else if i < 56 then Row(i - 48, 60, 52, 44, 36, 28, 20, 12, 4)
    else Row(i - 56, 62, 54, 46, 38, 30, 22, 14, 6)
  }

  /** TABLE_ip_1: its inverse. */
  function IpInverse(i: nat): (v: nat)
    requires i < 64
    ensures v < 64
  {
    if i < 8 then Row(i, 39, 7, 47, 15, 55, 23, 63, 31)
    else if i < 16 then Row(i - 8, 38, 6, 46, 14, 54, 22, 62, 30)
    else if i < 24 then Row(i - 16, 37, 5, 45, 13, 53, 21, 61, 29)
    else if i < 32 then Row(i - 24, 36, 4, 44, 12, 52, 20, 60, 28)
    else if i < 40 then Row(i - 32, 35, 3, 43, 11, 51, 19, 59, 27)
    else if i < 48 then Row(i - 40, 34, 2, 42, 10, 50, 18, 58, 26)
    else if i < 56 then Row(i - 48, 33, 1, 41, 9, 49, 17, 57, 25)
    else Row(i - 56, 32, 0, 40, 8, 48, 16, 56, 24)
  }

  /** TABLE_p. */
  function P(i: nat): (v: nat)
    requires i < 32
    ensures v < 32
  {
    if i < 8 then Row(i, 15, 6, 19, 20, 28, 11, 27, 16)
    else if i < 16 then Row(i - 8, 0, 14, 22, 25, 4, 17, 30, 9)
    else if i < 24 then Row(i - 16, 1, 7, 23, 13, 31, 26, 2, 8)
    else Row(i - 24, 18, 12, 29, 5, 21, 10, 3, 24)
  }

  /** TABLE_pc_1. */
  function Pc1(i: nat): (v: nat)
    requires i < 56
    ensures v < 64
  {
    if i < 8 then Row(i, 56, 48, 40, 32, 24, 16, 8, 0)
    else if i < 16 then Row(i - 8, 57, 49, 41, 33, 25, 17, 9, 1)
    else if i < 24 then Row(i - 16, 58, 50, 42, 34, 26, 18, 10, 2)
    else if i < 32 then Row(i - 24, 59, 51, 43, 35, 62, 54, 46, 38)
    else if i < 40 then Row(i - 32, 30, 22, 14, 6, 61, 53, 45, 37)
    else if i < 48 then Row(i - 40, 29, 21, 13, 5, 60, 52, 44, 36)
    else Row(i - 48, 28, 20, 12, 4, 27, 19, 11, 3)
  }

  /** TABLE_ePro: the bit selection table E with the first and last bit of each group of six put first. */
  function EPro(i: nat): (v: nat)
    requires i < 48
    ensures v < 32
  {
    if i < 8 then Row(i, 31, 4, 0, 1, 2, 3, 3, 8)
    else if i < 16 then Row(i - 8, 4, 5, 6, 7, 7, 12, 8, 9)
    else if i < 24 then Row(i - 16, 10, 11, 11, 16, 12, 13, 14, 15)
    else if i < 32 then Row(i - 24, 15, 20, 16, 17, 18, 19, 19, 24)
    else if i < 40 then Row(i - 32, 20, 21, 22, 23, 23, 28, 24, 25)
    else Row(i - 40, 26, 27, 27, 0, 28, 29, 30, 31)
  }

  /** TABLE_pc_2Pro: PC-2, rearranged the same way. */
  function Pc2Pro(i: nat): (v: nat)
    requires i < 48
    ensures v < 56
  {
    if i < 8 then Row(i, 13, 4, 16, 10, 23, 0, 2, 9)
    else if i < 16 then Row(i - 8, 27, 14, 5, 20, 22, 7, 18, 11)
    else if i < 24 then Row(i - 16, 3, 25, 15, 1, 6, 26, 19, 12)
    else if i < 32 then Row(i - 24, 40, 54, 51, 30, 36, 46, 29, 47)
    else if i < 40 then Row(i - 32, 39, 50, 44, 32, 43, 52, 48, 38)
    else Row(i - 40, 55, 33, 45, 31, 41, 49, 35, 28)
  }

  /** TABLE_shift. */
  function Shifts(i: nat): (v: nat)
    requires i < 16
    ensures 1 <= v <= 2
  {
    if i < 8 then Row(i, 1, 1, 2, 2, 2, 2, 2, 2)
    else Row(i - 8, 1, 2, 2, 2, 2, 2, 2, 1)
  }

  /** TABLE_s[0], the selection function S1: four rows of sixteen. */
  function S1(n: nat): (v: bv8)
    requires n < 64
    ensures v < 16
  {
    if n < 8 then Row(n, 14, 4, 13, 1, 2, 15, 11, 8)
    else if n < 16 then Row(n - 8, 3, 10, 6, 12, 5, 9, 0, 7)
    else if n < 24 then Row(n - 16, 0, 15, 7, 4, 14, 2, 13, 1)
    else if n < 32 then Row(n - 24, 10, 6, 12, 11, 9, 5, 3, 8)
    else if n < 40 then Row(n - 32, 4, 1, 14, 8, 13, 6, 2, 11)
    else if n < 48 then Row(n - 40, 15, 12, 9, 7, 3, 10, 5, 0)
    else if n < 56 then Row(n - 48, 15, 12, 8, 2, 4, 9, 1, 7)
    else Row(n - 56, 5, 11, 3, 14, 10, 0, 6, 13)
  }

  /** TABLE_s[1], the selection function S2: four rows of sixteen. */
  function S2(n: nat): (v: bv8)
    requires n < 64
    ensures v < 16
  {
    if n < 8 then Row(n, 15, 1, 8, 14, 6, 11, 3, 4)
    else if n < 16 then Row(n - 8, 9, 7, 2, 13, 12, 0, 5, 10)
    else if n < 24 then Row(n - 16, 3, 13, 4, 7, 15, 2, 8, 14)
    else if n < 32 then Row(n - 24, 12, 0, 1, 10, 6, 9, 11, 5)
    else if n < 40 then Row(n - 32, 0, 14, 7, 11, 10, 4, 13, 1)
    else if n < 48 then Row(n - 40, 5, 8, 12, 6, 9, 3, 2, 15)
    else if n < 56 then Row(n - 48, 13, 8, 10, 1, 3, 15, 4, 2)
    else Row(n - 56, 11, 6, 7, 12, 0, 5, 14, 9)
  }

  /** TABLE_s[2], the selection function S3: four rows of sixteen. */
  function S3(n: nat): (v: bv8)
    requires n < 64
    ensures v < 16
  {
    if n < 8 then Row(n, 10, 0, 9, 14, 6, 3, 15, 5)
    else if n < 16 then Row(n - 8, 1, 13, 12, 7, 11, 4, 2, 8)
    else if n < 24 then Row(n - 16, 13, 7, 0, 9, 3, 4, 6, 10)
    else if n < 32 then Row(n - 24, 2, 8, 5, 14, 12, 11, 15, 1)
    else if n < 40 then Row(n - 32, 13, 6, 4, 9, 8, 15, 3, 0)
    else if n < 48 then Row(n - 40, 11, 1, 2, 12, 5, 10, 14, 7)
    else if n < 56 then Row(n - 48, 1, 10, 13, 0, 6, 9, 8, 7)
    else Row(n - 56, 4, 15, 14, 3, 11, 5, 2, 12)
  }

  /** TABLE_s[3], the selection function S4: four rows of sixteen. */
  function S4(n: nat): (v: bv8)
    requires n < 64
    ensures v < 16
  {
    if n < 8 then Row(n, 7, 13, 14, 3, 0, 6, 9, 10)
    else if n < 16 then Row(n - 8, 1, 2, 8, 5, 11, 12, 4, 15)
    else if n < 24 then Row(n - 16, 13, 8, 11, 5, 6, 15, 0, 3)
    else if n < 32 then Row(n - 24, 4, 7, 2, 12, 1, 10, 14, 9)
    else if n < 40 then Row(n - 32, 10, 6, 9, 0, 12, 11, 7, 13)
    else if n < 48 then Row(n - 40, 15, 1, 3, 14, 5, 2, 8, 4)
    else if n < 56 then Row(n - 48, 3, 15, 0, 6, 10, 1, 13, 8)
    else Row(n - 56, 9, 4, 5, 11, 12, 7, 2, 14)
  }

  /** TABLE_s[4], the selection function S5: four rows of sixteen. */
  function S5(n: nat): (v: bv8)
    requires n < 64
    ensures v < 16
  {
    if n < 8 then Row(n, 2, 12, 4, 1, 7, 10, 11, 6)
    else if n < 16 then Row(n - 8, 8, 5, 3, 15, 13, 0, 14, 9)
    else if n < 24 then Row(n - 16, 14, 11, 2, 12, 4, 7, 13, 1)
    else if n < 32 then Row(n - 24, 5, 0, 15, 10, 3, 9, 8, 6)
    else if n < 40 then Row(n - 32, 4, 2, 1, 11, 10, 13, 7, 8)
    else if n < 48 then Row(n - 40, 15, 9, 12, 5, 6, 3, 0, 14)
    else if n < 56 then Row(n - 48, 11, 8, 12, 7, 1, 14, 2, 13)
    else Row(n - 56, 6, 15, 0, 9, 10, 4, 5, 3)
  }

  /** TABLE_s[5], the selection function S6: four rows of sixteen. */
  function S6(n: nat): (v: bv8)
    requires n < 64
    ensures v < 16
  {
    if n < 8 then Row(n, 12, 1, 10, 15, 9, 2, 6, 8)
    else if n < 16 then Row(n - 8, 0, 13, 3, 4, 14, 7, 5, 11)
    else if n < 24 then Row(n - 16, 10, 15, 4, 2, 7, 12, 9, 5)
    else if n < 32 then Row(n - 24, 6, 1, 13, 14, 0, 11, 3, 8)
    else if n < 40 then Row(n - 32, 9, 14, 15, 5, 2, 8, 12, 3)
    else if n < 48 then Row(n - 40, 7, 0, 4, 10, 1, 13, 11, 6)
    else if n < 56 then Row(n - 48, 4, 3, 2, 12, 9, 5, 15, 10)
    else Row(n - 56, 11, 14, 1, 7, 6, 0, 8, 13)
  }

  /** TABLE_s[6], the selection function S7: four rows of sixteen. */
  function S7(n: nat): (v: bv8)
    requires n < 64
    ensures v < 16
  {
    if n < 8 then Row(n, 4, 11, 2, 14, 15, 0, 8, 13)
    else if n < 16 then Row(n - 8, 3, 12, 9, 7, 5, 10, 6, 1)
    else if n < 24 then Row(n - 16, 13, 0, 11, 7, 4, 9, 1, 10)
    else if n < 32 then Row(n - 24, 14, 3, 5, 12, 2, 15, 8, 6)
    else if n < 40 then Row(n - 32, 1, 4, 11, 13, 12, 3, 7, 14)
    else if n < 48 then Row(n - 40, 10, 15, 6, 8, 0, 5, 9, 2)
    else if n < 56 then Row(n - 48, 6, 11, 13, 8, 1, 4, 10, 7)
    else Row(n - 56, 9, 5, 0, 15, 14, 2, 3, 12)
  }

  /** TABLE_s[7], the selection function S8: four rows of sixteen. */
  function S8(n: nat): (v: bv8)
    requires n < 64
    ensures v < 16
  {
    if n < 8 then Row(n, 13, 2, 8, 4, 6, 15, 11, 1)
    else if n < 16 then Row(n - 8, 10, 9, 3, 14, 5, 0, 12, 7)
    else if n < 24 then Row(n - 16, 1, 15, 13, 8, 10, 3, 7, 4)
    else if n < 32 then Row(n - 24, 12, 5, 6, 11, 0, 14, 9, 2)
    else if n < 40 then Row(n - 32, 7, 11, 4, 1, 9, 12, 14, 2)
    else if n < 48 then Row(n - 40, 0, 6, 10, 13, 15, 3, 5, 8)
    else if n < 56 then Row(n - 48, 2, 1, 14, 7, 4, 10, 8, 13)
    else Row(n - 56, 15, 12, 9, 0, 3, 5, 6, 11)
  }

  /** TABLE_s[i][n] */
  function S(i: nat, n: nat): (v: bv8)
    requires i < 8 && n < 64
    ensures v < 16
  {
    if i == 0 then S1(n) else if i == 1 then S2(n) else if i == 2 then S3(n) else if i == 3 then S4(n)
    else if i == 4 then S5(n) else if i == 5 then S6(n) else if i == 6 then S7(n) else S8(n)
  }

  /** FIPS 46-3, the E bit-selection table; bits are numbered from 1. */
  function StandardE(i: nat): (v: nat)
    requires i < 48
    ensures 1 <= v <= 32
  {
    if i < 8 then Row(i, 32, 1, 2, 3, 4, 5, 4, 5)
    else if i < 16 then Row(i - 8, 6, 7, 8, 9, 8, 9, 10, 11)
    else if i < 24 then Row(i - 16, 12, 13, 12, 13, 14, 15, 16, 17)
    else if i < 32 then Row(i - 24, 16, 17, 18, 19, 20, 21, 20, 21)
    else if i < 40 then Row(i - 32, 22, 23, 24, 25, 24, 25, 26, 27)
    else Row(i - 40, 28, 29, 28, 29, 30, 31, 32, 1)
  }

  /** FIPS 46-3, Appendix 1, permuted choice 2; bits are numbered from 1. */
  function StandardPc2(i: nat): (v: nat)
    requires i < 48
    ensures 1 <= v <= 56
  {
    if i < 8 then Row(i, 14, 17, 11, 24, 1, 5, 3, 28)
    else if i < 16 then Row(i - 8, 15, 6, 21, 10, 23, 19, 12, 4)
    else if i < 24 then Row(i - 16, 26, 8, 16, 7, 27, 20, 13, 2)
    else if i < 32 then Row(i - 24, 41, 52, 31, 37, 47, 55, 30, 40)
    else if i < 40 then Row(i - 32, 51, 45, 33, 48, 44, 49, 39, 56)
    else Row(i - 40, 34, 53, 46, 42, 50, 36, 29, 32)
  }

  /** Where the rearrangement takes bit j of a group of six from: the two row bits come first. */
  function Regroup(j: nat): (v: nat)
    requires j < 6
    ensures v < 6
  {
    if j == 0 then 0 else if j == 1 then 5 else j - 1
  }

  lemma ERearranged(k: nat, j: nat)
    requires k < 8 && j < 6
    ensures EPro(6 * k + j) == StandardE(6 * k + Regroup(j)) - 1
  {
  }

  lemma Pc2Rearranged(k: nat, j: nat)
    requires k < 8 && j < 6
    ensures Pc2Pro(6 * k + j) == StandardPc2(6 * k + Regroup(j)) - 1
  {
  }

  lemma IpUndoesInverse(i: nat)
    requires i < 64
    ensures Ip(IpInverse(i)) == i
  {
  }

  lemma InverseUndoesIp(i: nat)
    requires i < 64
    ensures IpInverse(Ip(i)) == i
  {
  }

  /** The schedule read backwards, its first entry left out, is the schedule read forwards. */
  lemma ShiftsMirror(i: nat)
    requires 1 <= i < 16
    ensures Shifts(i) == Shifts(16 - i)
  {
  }
}
