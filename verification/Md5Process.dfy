/** md5_process: the 64 operations of one block, as md5.cpp writes them out. */
module Md5Process {
  import opened Md5Spec

  /** The macro S; the mask keeps all 32 bits. */
  function S(x: Word, n: nat): Word
    requires 0 < n < 32
  {
    (x << n) | ((x & 0xFFFFFFFF) >> (32 - n))
  }

  /** The registers after each operation. */
  ghost predicate IsTrace(x: Block, trace: seq<State>) {
    |trace| == 65
    && forall i {:trigger Operation(x, trace[i], i)} :: 0 <= i < 64 ==> trace[i + 1] == Operation(x, trace[i], i)
  }

  lemma SameF(x: Word, y: Word, z: Word)
    ensures z ^ (x & (y ^ z)) == F(x, y, z)
  {
  }

  lemma SameG(x: Word, y: Word, z: Word)
    ensures y ^ (z & (x ^ y)) == G(x, y, z)
  {
  }

  lemma SameS(x: Word, n: nat)
    requires 0 < n < 32
    ensures S(x, n) == RotateLeft(x, n)
  {
    assert x & 0xFFFFFFFF == x;
  }

  /** What the macro P leaves in its first argument. */
  function Macro(a: Word, b: Word, mixed: Word, word: Word, t: Word, n: nat): Word
    requires 0 < n < 32
  {
    Plus(S(a + (mixed + word + t), n), b)
  }

  lemma PlusCommutes(a: Word, b: Word)
    ensures Plus(a, b) == Plus(b, a)
  {
  }

  lemma MacroIsStepped(a: Word, b: Word, mixed: Word, word: Word, t: Word, n: nat)
    requires 0 < n < 32
    ensures Macro(a, b, mixed, word, t, n) == Stepped(a, b, mixed, word, t, n)
  {
    var u := a + (mixed + word + t);
    assert u == a + mixed + word + t;
    SameS(u, n);
    PlusCommutes(RotateLeft(u, n), b);
  }

  lemma OperationIs(x: Block, s: State, i: nat, mixed: Word, k: nat, t: Word, n: nat)
    requires i < 64 && mixed == Mix(i, s.b, s.c, s.d) && k == K(i) && t == T(i) && n == Turn(i)
    ensures Operation(x, s, i) == Step(s, mixed, x[k], t, n)
  {
  }

  /** The macro P of round 1. */
  method PF(a: Word, b: Word, c: Word, d: Word, x: Block, k: nat, s: nat, t: Word, ghost trace: seq<State>, ghost i: nat)
    returns (r: Word)
    requires 0 <= i < 16 && k == K(i) && s == Turn(i) && t == T(i)
    requires IsTrace(x, trace) && trace[i] == State(a, b, c, d)
    ensures trace[i + 1] == State(d, r, b, c)
  {
    var f := d ^ (b & (c ^ d));
    SameF(b, c, d);
    OperationIs(x, trace[i], i, f, k, t, s);
    MacroIsStepped(a, b, f, x[k], t, s);
    r := Macro(a, b, f, x[k], t, s);
  }

  /** The macro P of round 2. */
  method PG(a: Word, b: Word, c: Word, d: Word, x: Block, k: nat, s: nat, t: Word, ghost trace: seq<State>, ghost i: nat)
    returns (r: Word)
    requires 16 <= i < 32 && k == K(i) && s == Turn(i) && t == T(i)
    requires IsTrace(x, trace) && trace[i] == State(a, b, c, d)
    ensures trace[i + 1] == State(d, r, b, c)
  {
    var f := c ^ (d & (b ^ c));
    SameG(b, c, d);
    OperationIs(x, trace[i], i, f, k, t, s);
    MacroIsStepped(a, b, f, x[k], t, s);
    r := Macro(a, b, f, x[k], t, s);
  }

  /** The macro P of round 3. */
  method PH(a: Word, b: Word, c: Word, d: Word, x: Block, k: nat, s: nat, t: Word, ghost trace: seq<State>, ghost i: nat)
    returns (r: Word)
    requires 32 <= i < 48 && k == K(i) && s == Turn(i) && t == T(i)
    requires IsTrace(x, trace) && trace[i] == State(a, b, c, d)
    ensures trace[i + 1] == State(d, r, b, c)
  {
    var f := b ^ c ^ d;
    assert f == H(b, c, d);
    OperationIs(x, trace[i], i, f, k, t, s);
    MacroIsStepped(a, b, f, x[k], t, s);
    r := Macro(a, b, f, x[k], t, s);
  }

  /** The macro P of round 4. */
  method PI(a: Word, b: Word, c: Word, d: Word, x: Block, k: nat, s: nat, t: Word, ghost trace: seq<State>, ghost i: nat)
    returns (r: Word)
    requires 48 <= i < 64 && k == K(i) && s == Turn(i) && t == T(i)
    requires IsTrace(x, trace) && trace[i] == State(a, b, c, d)
    ensures trace[i + 1] == State(d, r, b, c)
  {
    var f := c ^ (b | !d);
    assert f == I(b, c, d);
    OperationIs(x, trace[i], i, f, k, t, s);
    MacroIsStepped(a, b, f, x[k], t, s);
    r := Macro(a, b, f, x[k], t, s);
  }

  /** Round 1 of section 3.4, first half. */
  method Round1a(x: Block, a0: Word, b0: Word, c0: Word, d0: Word, ghost trace: seq<State>)
    returns (a: Word, b: Word, c: Word, d: Word)
    requires IsTrace(x, trace) && trace[0] == State(a0, b0, c0, d0)
    ensures trace[8] == State(a, b, c, d)
  {
    a, b, c, d := a0, b0, c0, d0;
    a := PF(a, b, c, d, x, 0, 7, 0xD76AA478, trace, 0);
    d := PF(d, a, b, c, x, 1, 12, 0xE8C7B756, trace, 1);
    c := PF(c, d, a, b, x, 2, 17, 0x242070DB, trace, 2);
    b := PF(b, c, d, a, x, 3, 22, 0xC1BDCEEE, trace, 3);
    a := PF(a, b, c, d, x, 4, 7, 0xF57C0FAF, trace, 4);
    d := PF(d, a, b, c, x, 5, 12, 0x4787C62A, trace, 5);
    c := PF(c, d, a, b, x, 6, 17, 0xA8304613, trace, 6);
    b := PF(b, c, d, a, x, 7, 22, 0xFD469501, trace, 7);
  }

  /** Round 1 of section 3.4, second half. */
  method Round1b(x: Block, a0: Word, b0: Word, c0: Word, d0: Word, ghost trace: seq<State>)
    returns (a: Word, b: Word, c: Word, d: Word)
    requires IsTrace(x, trace) && trace[8] == State(a0, b0, c0, d0)
    ensures trace[16] == State(a, b, c, d)
  {
    a, b, c, d := a0, b0, c0, d0;
    a := PF(a, b, c, d, x, 8, 7, 0x698098D8, trace, 8);
    d := PF(d, a, b, c, x, 9, 12, 0x8B44F7AF, trace, 9);
    c := PF(c, d, a, b, x, 10, 17, 0xFFFF5BB1, trace, 10);
    b := PF(b, c, d, a, x, 11, 22, 0x895CD7BE, trace, 11);
    a := PF(a, b, c, d, x, 12, 7, 0x6B901122, trace, 12);
    d := PF(d, a, b, c, x, 13, 12, 0xFD987193, trace, 13);
    c := PF(c, d, a, b, x, 14, 17, 0xA679438E, trace, 14);
    b := PF(b, c, d, a, x, 15, 22, 0x49B40821, trace, 15);
  }

  /** Round 2 of section 3.4, first half. */
  method Round2a(x: Block, a0: Word, b0: Word, c0: Word, d0: Word, ghost trace: seq<State>)
    returns (a: Word, b: Word, c: Word, d: Word)
    requires IsTrace(x, trace) && trace[16] == State(a0, b0, c0, d0)
    ensures trace[24] == State(a, b, c, d)
  {
    a, b, c, d := a0, b0, c0, d0;
    a := PG(a, b, c, d, x, 1, 5, 0xF61E2562, trace, 16);
    d := PG(d, a, b, c, x, 6, 9, 0xC040B340, trace, 17);
    c := PG(c, d, a, b, x, 11, 14, 0x265E5A51, trace, 18);
    b := PG(b, c, d, a, x, 0, 20, 0xE9B6C7AA, trace, 19);
    a := PG(a, b, c, d, x, 5, 5, 0xD62F105D, trace, 20);
    d := PG(d, a, b, c, x, 10, 9, 0x02441453, trace, 21);
    c := PG(c, d, a, b, x, 15, 14, 0xD8A1E681, trace, 22);
    b := PG(b, c, d, a, x, 4, 20, 0xE7D3FBC8, trace, 23);
  }

  /** Round 2 of section 3.4, second half. */
  method Round2b(x: Block, a0: Word, b0: Word, c0: Word, d0: Word, ghost trace: seq<State>)
    returns (a: Word, b: Word, c: Word, d: Word)
    requires IsTrace(x, trace) && trace[24] == State(a0, b0, c0, d0)
    ensures trace[32] == State(a, b, c, d)
  {
    a, b, c, d := a0, b0, c0, d0;
    a := PG(a, b, c, d, x, 9, 5, 0x21E1CDE6, trace, 24);
    d := PG(d, a, b, c, x, 14, 9, 0xC33707D6, trace, 25);
    c := PG(c, d, a, b, x, 3, 14, 0xF4D50D87, trace, 26);
    b := PG(b, c, d, a, x, 8, 20, 0x455A14ED, trace, 27);
    a := PG(a, b, c, d, x, 13, 5, 0xA9E3E905, trace, 28);
    d := PG(d, a, b, c, x, 2, 9, 0xFCEFA3F8, trace, 29);
    c := PG(c, d, a, b, x, 7, 14, 0x676F02D9, trace, 30);
    b := PG(b, c, d, a, x, 12, 20, 0x8D2A4C8A, trace, 31);
  }

  /** Round 3 of section 3.4, first half. */
  method Round3a(x: Block, a0: Word, b0: Word, c0: Word, d0: Word, ghost trace: seq<State>)
    returns (a: Word, b: Word, c: Word, d: Word)
    requires IsTrace(x, trace) && trace[32] == State(a0, b0, c0, d0)
    ensures trace[40] == State(a, b, c, d)
  {
    a, b, c, d := a0, b0, c0, d0;
    a := PH(a, b, c, d, x, 5, 4, 0xFFFA3942, trace, 32);
    d := PH(d, a, b, c, x, 8, 11, 0x8771F681, trace, 33);
    c := PH(c, d, a, b, x, 11, 16, 0x6D9D6122, trace, 34);
    b := PH(b, c, d, a, x, 14, 23, 0xFDE5380C, trace, 35);
    a := PH(a, b, c, d, x, 1, 4, 0xA4BEEA44, trace, 36);
    d := PH(d, a, b, c, x, 4, 11, 0x4BDECFA9, trace, 37);
    c := PH(c, d, a, b, x, 7, 16, 0xF6BB4B60, trace, 38);
    b := PH(b, c, d, a, x, 10, 23, 0xBEBFBC70, trace, 39);
  }

  /** Round 3 of section 3.4, second half. */
  method Round3b(x: Block, a0: Word, b0: Word, c0: Word, d0: Word, ghost trace: seq<State>)
    returns (a: Word, b: Word, c: Word, d: Word)
    requires IsTrace(x, trace) && trace[40] == State(a0, b0, c0, d0)
    ensures trace[48] == State(a, b, c, d)
  {
    a, b, c, d := a0, b0, c0, d0;
    a := PH(a, b, c, d, x, 13, 4, 0x289B7EC6, trace, 40);
    d := PH(d, a, b, c, x, 0, 11, 0xEAA127FA, trace, 41);
    c := PH(c, d, a, b, x, 3, 16, 0xD4EF3085, trace, 42);
    b := PH(b, c, d, a, x, 6, 23, 0x04881D05, trace, 43);
    a := PH(a, b, c, d, x, 9, 4, 0xD9D4D039, trace, 44);
    d := PH(d, a, b, c, x, 12, 11, 0xE6DB99E5, trace, 45);
    c := PH(c, d, a, b, x, 15, 16, 0x1FA27CF8, trace, 46);
    b := PH(b, c, d, a, x, 2, 23, 0xC4AC5665, trace, 47);
  }

  /** Round 4 of section 3.4, first half. */
  method Round4a(x: Block, a0: Word, b0: Word, c0: Word, d0: Word, ghost trace: seq<State>)
    returns (a: Word, b: Word, c: Word, d: Word)
    requires IsTrace(x, trace) && trace[48] == State(a0, b0, c0, d0)
    ensures trace[56] == State(a, b, c, d)
  {
    a, b, c, d := a0, b0, c0, d0;
    a := PI(a, b, c, d, x, 0, 6, 0xF4292244, trace, 48);
    d := PI(d, a, b, c, x, 7, 10, 0x432AFF97, trace, 49);
    c := PI(c, d, a, b, x, 14, 15, 0xAB9423A7, trace, 50);
    b := PI(b, c, d, a, x, 5, 21, 0xFC93A039, trace, 51);
    a := PI(a, b, c, d, x, 12, 6, 0x655B59C3, trace, 52);
    d := PI(d, a, b, c, x, 3, 10, 0x8F0CCC92, trace, 53);
    c := PI(c, d, a, b, x, 10, 15, 0xFFEFF47D, trace, 54);
    b := PI(b, c, d, a, x, 1, 21, 0x85845DD1, trace, 55);
  }

  /** Round 4 of section 3.4, second half. */
  method Round4b(x: Block, a0: Word, b0: Word, c0: Word, d0: Word, ghost trace: seq<State>)
    returns (a: Word, b: Word, c: Word, d: Word)
    requires IsTrace(x, trace) && trace[56] == State(a0, b0, c0, d0)
    ensures trace[64] == State(a, b, c, d)
  {
    a, b, c, d := a0, b0, c0, d0;
    a := PI(a, b, c, d, x, 8, 6, 0x6FA87E4F, trace, 56);
    d := PI(d, a, b, c, x, 15, 10, 0xFE2CE6E0, trace, 57);
    c := PI(c, d, a, b, x, 6, 15, 0xA3014314, trace, 58);
    b := PI(b, c, d, a, x, 13, 21, 0x4E0811A1, trace, 59);
    a := PI(a, b, c, d, x, 4, 6, 0xF7537E82, trace, 60);
    d := PI(d, a, b, c, x, 11, 10, 0xBD3AF235, trace, 61);
    c := PI(c, d, a, b, x, 2, 15, 0x2AD7D2BB, trace, 62);
    b := PI(b, c, d, a, x, 9, 21, 0xEB86D391, trace, 63);
  }
}
