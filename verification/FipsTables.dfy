/** The tables of FIPS 46-3 in the standard's layout, bits numbered from 1 and the boxes by row and column, and that
    the tables of 3DES.cpp agree with them. */
module FipsTables {
  import opened Basics
  import opened DesTables

  // ---------- the standard's tables ----------

  /** IP */
  function StandardIp(i: nat): (v: nat)
    requires i < 64
    ensures 1 <= v <= 64
  {
    if i < 8 then Row(i, 58, 50, 42, 34, 26, 18, 10, 2)
    else if i < 16 then Row(i - 8, 60, 52, 44, 36, 28, 20, 12, 4)
    else if i < 24 then Row(i - 16, 62, 54, 46, 38, 30, 22, 14, 6)
    else if i < 32 then Row(i - 24, 64, 56, 48, 40, 32, 24, 16, 8)
    else if i < 40 then Row(i - 32, 57, 49, 41, 33, 25, 17, 9, 1)
    else if i < 48 then Row(i - 40, 59, 51, 43, 35, 27, 19, 11, 3)
    else if i < 56 then Row(i - 48, 61, 53, 45, 37, 29, 21, 13, 5)
    else Row(i - 56, 63, 55, 47, 39, 31, 23, 15, 7)
  }

  /** The inverse of IP. */
  function StandardIpInverse(i: nat): (v: nat)
    requires i < 64
    ensures 1 <= v <= 64
  {
    if i < 8 then Row(i, 40, 8, 48, 16, 56, 24, 64, 32)
    else if i < 16 then Row(i - 8, 39, 7, 47, 15, 55, 23, 63, 31)
    else if i < 24 then Row(i - 16, 38, 6, 46, 14, 54, 22, 62, 30)
    else if i < 32 then Row(i - 24, 37, 5, 45, 13, 53, 21, 61, 29)
    else if i < 40 then Row(i - 32, 36, 4, 44, 12, 52, 20, 60, 28)
    else if i < 48 then Row(i - 40, 35, 3, 43, 11, 51, 19, 59, 27)
    else if i < 56 then Row(i - 48, 34, 2, 42, 10, 50, 18, 58, 26)
    else Row(i - 56, 33, 1, 41, 9, 49, 17, 57, 25)
  }

  /** P */
  function StandardP(i: nat): (v: nat)
    requires i < 32
    ensures 1 <= v <= 32
  {
    if i < 8 then Row(i, 16, 7, 20, 21, 29, 12, 28, 17)
    else if i < 16 then Row(i - 8, 1, 15, 23, 26, 5, 18, 31, 10)
    else if i < 24 then Row(i - 16, 2, 8, 24, 14, 32, 27, 3, 9)
    else Row(i - 24, 19, 13, 30, 6, 22, 11, 4, 25)
  }

  /** Permuted choice 1: the upper half makes C, the lower half D. */
  function StandardPc1(i: nat): (v: nat)
    requires i < 56
    ensures 1 <= v <= 64
  {
    if i < 28 then Seven(i, 57, 49, 41, 33, 25, 17, 9,
      1, 58, 50, 42, 34, 26, 18,
      10, 2, 59, 51, 43, 35, 27,
      19, 11, 3, 60, 52, 44, 36)
    else Seven(i - 28, 63, 55, 47, 39, 31, 23, 15,
      7, 62, 54, 46, 38, 30, 22,
      14, 6, 61, 53, 45, 37, 29,
      21, 13, 5, 28, 20, 12, 4)
  }

  /** Four lines of seven. */
  function Seven(i: nat,
    a: nat, b: nat, c: nat, d: nat, e: nat, f: nat, g: nat, h: nat, j: nat, k: nat, l: nat, m: nat, n: nat, o: nat,
    p: nat, q: nat, r: nat, s: nat, t: nat, u: nat, v: nat, w: nat, x: nat, y: nat, z: nat, aa: nat, bb: nat, cc: nat): nat
  {
    if i < 7 then Row(i, a, b, c, d, e, f, g, g)
    else if i < 14 then Row(i - 7, h, j, k, l, m, n, o, o)
    else if i < 21 then Row(i - 14, p, q, r, s, t, u, v, v)
    else Row(i - 21, w, x, y, z, aa, bb, cc, cc)
  }

  /** The number of left shifts in iteration n, 1 <= n <= 16. */
  function StandardShifts(n: nat): (v: nat)
    requires 1 <= n <= 16
    ensures 1 <= v <= 2
  {
    if n == 1 || n == 2 || n == 9 || n == 16 then 1 else 2
  }

  /** A line of a selection function. */
  function Line(column: nat,
    a: bv8, b: bv8, c: bv8, d: bv8, e: bv8, f: bv8, g: bv8, h: bv8,
    i: bv8, j: bv8, k: bv8, l: bv8, m: bv8, n: bv8, o: bv8, p: bv8): bv8
  {
    if column < 8 then Row(column, a, b, c, d, e, f, g, h) else Row(column - 8, i, j, k, l, m, n, o, p)
  }

  /** S1 */
  function Box1(row: nat, column: nat): (v: bv8)
    requires row < 4 && column < 16
    ensures v < 16
  {
    if row == 0 then Line(column, 14, 4, 13, 1, 2, 15, 11, 8, 3, 10, 6, 12, 5, 9, 0, 7)
    else if row == 1 then Line(column, 0, 15, 7, 4, 14, 2, 13, 1, 10, 6, 12, 11, 9, 5, 3, 8)
    else if row == 2 then Line(column, 4, 1, 14, 8, 13, 6, 2, 11, 15, 12, 9, 7, 3, 10, 5, 0)
    else Line(column, 15, 12, 8, 2, 4, 9, 1, 7, 5, 11, 3, 14, 10, 0, 6, 13)
  }

  /** S2 */
  function Box2(row: nat, column: nat): (v: bv8)
    requires row < 4 && column < 16
    ensures v < 16
  {
    if row == 0 then Line(column, 15, 1, 8, 14, 6, 11, 3, 4, 9, 7, 2, 13, 12, 0, 5, 10)
    else if row == 1 then Line(column, 3, 13, 4, 7, 15, 2, 8, 14, 12, 0, 1, 10, 6, 9, 11, 5)
    else if row == 2 then Line(column, 0, 14, 7, 11, 10, 4, 13, 1, 5, 8, 12, 6, 9, 3, 2, 15)
    else Line(column, 13, 8, 10, 1, 3, 15, 4, 2, 11, 6, 7, 12, 0, 5, 14, 9)
  }

  /** S3 */
  function Box3(row: nat, column: nat): (v: bv8)
    requires row < 4 && column < 16
    ensures v < 16
  {
    if row == 0 then Line(column, 10, 0, 9, 14, 6, 3, 15, 5, 1, 13, 12, 7, 11, 4, 2, 8)
    else if row == 1 then Line(column, 13, 7, 0, 9, 3, 4, 6, 10, 2, 8, 5, 14, 12, 11, 15, 1)
    else if row == 2 then Line(column, 13, 6, 4, 9, 8, 15, 3, 0, 11, 1, 2, 12, 5, 10, 14, 7)
    else Line(column, 1, 10, 13, 0, 6, 9, 8, 7, 4, 15, 14, 3, 11, 5, 2, 12)
  }

  /** S4 */
  function Box4(row: nat, column: nat): (v: bv8)
    requires row < 4 && column < 16
    ensures v < 16
  {
    if row == 0 then Line(column, 7, 13, 14, 3, 0, 6, 9, 10, 1, 2, 8, 5, 11, 12, 4, 15)
    else if row == 1 then Line(column, 13, 8, 11, 5, 6, 15, 0, 3, 4, 7, 2, 12, 1, 10, 14, 9)
    else if row == 2 then Line(column, 10, 6, 9, 0, 12, 11, 7, 13, 15, 1, 3, 14, 5, 2, 8, 4)
    else Line(column, 3, 15, 0, 6, 10, 1, 13, 8, 9, 4, 5, 11, 12, 7, 2, 14)
  }

  /** S5 */
  function Box5(row: nat, column: nat): (v: bv8)
    requires row < 4 && column < 16
    ensures v < 16
  {
    if row == 0 then Line(column, 2, 12, 4, 1, 7, 10, 11, 6, 8, 5, 3, 15, 13, 0, 14, 9)
    else if row == 1 then Line(column, 14, 11, 2, 12, 4, 7, 13, 1, 5, 0, 15, 10, 3, 9, 8, 6)
    else if row == 2 then Line(column, 4, 2, 1, 11, 10, 13, 7, 8, 15, 9, 12, 5, 6, 3, 0, 14)
    else Line(column, 11, 8, 12, 7, 1, 14, 2, 13, 6, 15, 0, 9, 10, 4, 5, 3)
  }

  /** S6 */
  function Box6(row: nat, column: nat): (v: bv8)
    requires row < 4 && column < 16
    ensures v < 16
  {
    if row == 0 then Line(column, 12, 1, 10, 15, 9, 2, 6, 8, 0, 13, 3, 4, 14, 7, 5, 11)
    else if row == 1 then Line(column, 10, 15, 4, 2, 7, 12, 9, 5, 6, 1, 13, 14, 0, 11, 3, 8)
    else if row == 2 then Line(column, 9, 14, 15, 5, 2, 8, 12, 3, 7, 0, 4, 10, 1, 13, 11, 6)
    else Line(column, 4, 3, 2, 12, 9, 5, 15, 10, 11, 14, 1, 7, 6, 0, 8, 13)
  }

  /** S7 */
  function Box7(row: nat, column: nat): (v: bv8)
    requires row < 4 && column < 16
    ensures v < 16
  {
    if row == 0 then Line(column, 4, 11, 2, 14, 15, 0, 8, 13, 3, 12, 9, 7, 5, 10, 6, 1)
    else if row == 1 then Line(column, 13, 0, 11, 7, 4, 9, 1, 10, 14, 3, 5, 12, 2, 15, 8, 6)
    else if row == 2 then Line(column, 1, 4, 11, 13, 12, 3, 7, 14, 10, 15, 6, 8, 0, 5, 9, 2)
    else Line(column, 6, 11, 13, 8, 1, 4, 10, 7, 9, 5, 0, 15, 14, 2, 3, 12)
  }

  /** S8 */
  function Box8(row: nat, column: nat): (v: bv8)
    requires row < 4 && column < 16
    ensures v < 16
  {
    if row == 0 then Line(column, 13, 2, 8, 4, 6, 15, 11, 1, 10, 9, 3, 14, 5, 0, 12, 7)
    else if row == 1 then Line(column, 1, 15, 13, 8, 10, 3, 7, 4, 12, 5, 6, 11, 0, 14, 9, 2)
    else if row == 2 then Line(column, 7, 11, 4, 1, 9, 12, 14, 2, 0, 6, 10, 13, 15, 3, 5, 8)
    else Line(column, 2, 1, 14, 7, 4, 10, 8, 13, 15, 12, 9, 0, 3, 5, 6, 11)
  }

  function Box(i: nat, row: nat, column: nat): (v: bv8)
    requires 1 <= i <= 8 && row < 4 && column < 16
    ensures v < 16
  {
    if i == 1 then Box1(row, column) else if i == 2 then Box2(row, column)
    else if i == 3 then Box3(row, column) else if i == 4 then Box4(row, column)
    else if i == 5 then Box5(row, column) else if i == 6 then Box6(row, column)
    else if i == 7 then Box7(row, column) else Box8(row, column)
  }

  // ---------- agreement ----------

  lemma IpAgrees(i: nat)
    requires i < 64
    ensures Ip(i) == StandardIp(i) - 1 && IpInverse(i) == StandardIpInverse(i) - 1
  {
  }

  lemma PAgrees(i: nat)
    requires i < 32
    ensures P(i) == StandardP(i) - 1
  {
  }

  lemma Pc1Agrees(i: nat)
    requires i < 56
    ensures Pc1(i) == StandardPc1(i) - 1
  {
  }

  lemma ShiftsAgree(i: nat)
    requires i < 16
    ensures Shifts(i) == StandardShifts(i + 1)
  {
  }

  lemma Box1Agrees(row: nat, column: nat)
    requires row < 4 && column < 16
    ensures S1(16 * row + column) == Box1(row, column)
  {
    if row == 0 {} else if row == 1 {} else if row == 2 {} else {}
  }

  lemma Box2Agrees(row: nat, column: nat)
    requires row < 4 && column < 16
    ensures S2(16 * row + column) == Box2(row, column)
  {
    if row == 0 {} else if row == 1 {} else if row == 2 {} else {}
  }

  lemma Box3Agrees(row: nat, column: nat)
    requires row < 4 && column < 16
    ensures S3(16 * row + column) == Box3(row, column)
  {
    if row == 0 {} else if row == 1 {} else if row == 2 {} else {}
  }

  lemma Box4Agrees(row: nat, column: nat)
    requires row < 4 && column < 16
    ensures S4(16 * row + column) == Box4(row, column)
  {
    if row == 0 {} else if row == 1 {} else if row == 2 {} else {}
  }

  lemma Box5Agrees(row: nat, column: nat)
    requires row < 4 && column < 16
    ensures S5(16 * row + column) == Box5(row, column)
  {
    if row == 0 {} else if row == 1 {} else if row == 2 {} else {}
  }

  lemma Box6Agrees(row: nat, column: nat)
    requires row < 4 && column < 16
    ensures S6(16 * row + column) == Box6(row, column)
  {
    if row == 0 {} else if row == 1 {} else if row == 2 {} else {}
  }

  lemma Box7Agrees(row: nat, column: nat)
    requires row < 4 && column < 16
    ensures S7(16 * row + column) == Box7(row, column)
  {
    if row == 0 {} else if row == 1 {} else if row == 2 {} else {}
  }

  lemma Box8Agrees(row: nat, column: nat)
    requires row < 4 && column < 16
    ensures S8(16 * row + column) == Box8(row, column)
  {
    if row == 0 {} else if row == 1 {} else if row == 2 {} else {}
  }

  /** The boxes of 3DES.cpp, four rows of sixteen one after the other, are the selection functions. */
  lemma BoxesAgree(i: nat, row: nat, column: nat)
    requires i < 8 && row < 4 && column < 16
    ensures S(i, 16 * row + column) == Box(i + 1, row, column)
  {
    if i == 0 {
      Box1Agrees(row, column);
    } else if i == 1 {
      Box2Agrees(row, column);
    } else if i == 2 {
      Box3Agrees(row, column);
    } else if i == 3 {
      Box4Agrees(row, column);
    } else if i == 4 {
      Box5Agrees(row, column);
    } else if i == 5 {
      Box6Agrees(row, column);
    } else if i == 6 {
      Box7Agrees(row, column);
    } else {
      Box8Agrees(row, column);
    }
  }
}
