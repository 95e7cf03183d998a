/** The constants of MD5, against the test suite of RFC 1321. */
module Md5Vectors {
  import opened Basics
  import opened Md5Spec
  import Rfc1321 = Md5Spec
  import opened Md5Process
  import opened Md5

  /** Section 3.3 of RFC 1321: the registers, low-order bytes first. */
  lemma InitialBytes()
    ensures Output(INITIAL) == [0x01, 0x23, 0x45, 0x67, 0x89, 0xAB, 0xCD, 0xEF, 0xFE, 0xDC, 0xBA, 0x98, 0x76, 0x54, 0x32, 0x10]
  {
    assert Bytes(INITIAL.a) == [0x01, 0x23, 0x45, 0x67];
    assert Bytes(INITIAL.b) == [0x89, 0xAB, 0xCD, 0xEF];
    assert Bytes(INITIAL.c) == [0xFE, 0xDC, 0xBA, 0x98];
    assert Bytes(INITIAL.d) == [0x76, 0x54, 0x32, 0x10];
  }

  // ---------- bytes and words ----------

  /** Decoding undoes encoding, section 2 of RFC 1321: low-order byte first. */
  lemma WordOfBytes(w: Word)
    ensures WordAt(Bytes(w), 0) == w
  {
    assert Join(Low(w), Low(w >> 8), Low(w >> 16), Low(w >> 24)) == w;
  }

  /** The byte of b that counts units of unit. */
  function ByteOf(b: nat, unit: nat): Octet
    requires unit > 0
  {
    (b / unit % 256) as bv8
  }

  /** Section 3.2: the length in bits, byte by byte, the low-order one first; higher bits are not written. */
  lemma LengthBytes(n: nat)
    ensures Length(n) ==
      [ByteOf(8 * n, 0x1), ByteOf(8 * n, 0x100), ByteOf(8 * n, 0x1_0000), ByteOf(8 * n, 0x100_0000),
       ByteOf(8 * n, 0x1_0000_0000), ByteOf(8 * n, 0x100_0000_0000), ByteOf(8 * n, 0x1_0000_0000_0000),
       ByteOf(8 * n, 0x100_0000_0000_0000)]
  {
    WordBytes(8 * n);
    WordBytes(8 * n / WORD);
    HighDigits(8 * n);
  }

  lemma WordBytes(v: nat)
    ensures Number(v % WORD) == [ByteOf(v, 0x1), ByteOf(v, 0x100), ByteOf(v, 0x1_0000), ByteOf(v, 0x100_0000)]
  {
    WordDigits(v);
  }

  lemma HighDigits(b: nat)
    ensures b / WORD / 0x100 == b / 0x10000000000
    ensures b / WORD / 0x10000 == b / 0x1000000000000
    ensures b / WORD / 0x1000000 == b / 0x100000000000000
  {
  }

  lemma SecondByte(w: nat, q: nat)
    ensures (w + WORD * q) / 0x100 == w / 0x100 + 0x100_0000 * q
  {
  }

  lemma ThirdByte(w: nat, q: nat)
    ensures (w + WORD * q) / 0x1_0000 == w / 0x1_0000 + 0x1_0000 * q
  {
  }

  lemma FourthByte(w: nat, q: nat)
    ensures (w + WORD * q) / 0x100_0000 == w / 0x100_0000 + 0x100 * q
  {
  }

  lemma Remains(a: nat, k: nat)
    ensures (a + 0x100 * k) % 0x100 == a % 0x100
  {
  }

  /** Reduction modulo 2^32 leaves the four low-order bytes alone. */
  lemma WordDigits(v: nat)
    ensures v % WORD % 256 == v % 256 && v % WORD / 0x100 % 256 == v / 0x100 % 256
    ensures v % WORD / 0x10000 % 256 == v / 0x10000 % 256 && v % WORD / 0x1000000 == v / 0x1000000 % 256
  {
    var w, q := v % WORD, v / WORD;
    assert v == w + WORD * q;
    SecondByte(w, q);
    ThirdByte(w, q);
    FourthByte(w, q);
    Remains(w, 0x100_0000 * q);
    Remains(w / 0x100, 0x1_0000 * q);
    Remains(w / 0x1_0000, 0x100 * q);
    Remains(w / 0x100_0000, q);
  }

  // ---------- the block of the empty message ----------

  /** The one block that the empty message pads to. */
  ghost predicate Empty(x: Block) {
    x[0] == 0x80 && forall i :: 1 <= i < 16 ==> x[i] == 0
  }

  lemma EmptyPadded()
    ensures |Padded([])| == 64 && Padded([])[0] == 0x80 && forall i :: 0 < i < 64 ==> Padded([])[i] == 0
  {
    var p := Padded([]);
    assert PadLength(0) == 56;
    forall i | 0 < i < 64 ensures p[i] == 0 {
      if i < 56 {
        PadByte([], i);
      } else {
        assert Length(0) == [0, 0, 0, 0, 0, 0, 0, 0];
        assert p[i] == Length(0)[i - 56];
      }
    }
    PadByte([], 0);
  }

  lemma EmptyDecodes()
    ensures Empty(Decode(Padded([])))
  {
    EmptyPadded();
    var p := Padded([]);
    forall i | 0 <= i < 16 ensures Decode(p)[i] == if i == 0 then 0x80 else 0 {
      assert Decode(p)[i] == Join(p[4 * i], 0, 0, 0);
    }
  }

  /** One operation, from literals to literals. */
  lemma Do(x: Block, trace: seq<State>, i: nat, a: Word, b: Word, c: Word, d: Word, word: Word, n: nat, r: Word)
    requires i < 64 && IsTrace(x, trace) && trace[i] == State(a, b, c, d) && n == Turn(i) && word == x[K(i)]
    requires Stepped(a, b, Mix(i, b, c, d), word, T(i), n) == r
    ensures trace[i + 1] == State(d, r, b, c)
  {
    assert trace[i + 1] == Operation(x, trace[i], i);
  }

  lemma Stage0(x: Block, trace: seq<State>)
    requires Empty(x) && IsTrace(x, trace) && trace[0] == State(0x67452301, 0xEFCDAB89, 0x98BADCFE, 0x10325476)
    ensures trace[4] == State(0xA5202774, 0x1B163203, 0xE7F06B23, 0xF59592DD)
  {
    Do(x, trace, 0, 0x67452301, 0xEFCDAB89, 0x98BADCFE, 0x10325476, 0x80, 7, 0xA5202774);
    Do(x, trace, 1, 0x10325476, 0xA5202774, 0xEFCDAB89, 0x98BADCFE, 0, 12, 0xF59592DD);
    Do(x, trace, 2, 0x98BADCFE, 0xF59592DD, 0xA5202774, 0xEFCDAB89, 0, 17, 0xE7F06B23);
    Do(x, trace, 3, 0xEFCDAB89, 0xE7F06B23, 0xF59592DD, 0xA5202774, 0, 22, 0x1B163203);
  }

  lemma Stage1(x: Block, trace: seq<State>)
    requires Empty(x) && IsTrace(x, trace) && trace[4] == State(0xA5202774, 0x1B163203, 0xE7F06B23, 0xF59592DD)
    ensures trace[8] == State(0x32033344, 0x9BC13CE9, 0xF5B158DB, 0x2F35D494)
  {
    Do(x, trace, 4, 0xA5202774, 0x1B163203, 0xE7F06B23, 0xF59592DD, 0, 7, 0x32033344);
    Do(x, trace, 5, 0xF59592DD, 0x32033344, 0x1B163203, 0xE7F06B23, 0, 12, 0x2F35D494);
    Do(x, trace, 6, 0xE7F06B23, 0x2F35D494, 0x32033344, 0x1B163203, 0, 17, 0xF5B158DB);
    Do(x, trace, 7, 0x1B163203, 0xF5B158DB, 0x2F35D494, 0x32033344, 0, 22, 0x9BC13CE9);
  }

  lemma Stage2(x: Block, trace: seq<State>)
    requires Empty(x) && IsTrace(x, trace) && trace[8] == State(0x32033344, 0x9BC13CE9, 0xF5B158DB, 0x2F35D494)
    ensures trace[12] == State(0x3893B991, 0x70768A29, 0xE1EF0576, 0xFCE4A312)
  {
    Do(x, trace, 8, 0x32033344, 0x9BC13CE9, 0xF5B158DB, 0x2F35D494, 0, 7, 0x3893B991);
    Do(x, trace, 9, 0x2F35D494, 0x3893B991, 0x9BC13CE9, 0xF5B158DB, 0, 12, 0xFCE4A312);
    Do(x, trace, 10, 0xF5B158DB, 0xFCE4A312, 0x3893B991, 0x9BC13CE9, 0, 17, 0xE1EF0576);
    Do(x, trace, 11, 0x9BC13CE9, 0xE1EF0576, 0xFCE4A312, 0x3893B991, 0, 22, 0x70768A29);
  }

  lemma Stage3(x: Block, trace: seq<State>)
    requires Empty(x) && IsTrace(x, trace) && trace[12] == State(0x3893B991, 0x70768A29, 0xE1EF0576, 0xFCE4A312)
    ensures trace[16] == State(0xF56C7CF1, 0xD6819C6A, 0x5AA53F75, 0x374943A7)
  {
    Do(x, trace, 12, 0x3893B991, 0x70768A29, 0xE1EF0576, 0xFCE4A312, 0, 7, 0xF56C7CF1);
    Do(x, trace, 13, 0xFCE4A312, 0xF56C7CF1, 0x70768A29, 0xE1EF0576, 0, 12, 0x374943A7);
    Do(x, trace, 14, 0xE1EF0576, 0x374943A7, 0xF56C7CF1, 0x70768A29, 0, 17, 0x5AA53F75);
    Do(x, trace, 15, 0x70768A29, 0x5AA53F75, 0x374943A7, 0xF56C7CF1, 0, 22, 0xD6819C6A);
  }

  lemma Stage4(x: Block, trace: seq<State>)
    requires Empty(x) && IsTrace(x, trace) && trace[16] == State(0xF56C7CF1, 0xD6819C6A, 0x5AA53F75, 0x374943A7)
    ensures trace[20] == State(0x1C7D7513, 0xBD782E17, 0xC095F13A, 0x7BD57A3A)
  {
    Do(x, trace, 16, 0xF56C7CF1, 0xD6819C6A, 0x5AA53F75, 0x374943A7, 0, 5, 0x1C7D7513);
    Do(x, trace, 17, 0x374943A7, 0x1C7D7513, 0xD6819C6A, 0x5AA53F75, 0, 9, 0x7BD57A3A);
    Do(x, trace, 18, 0x5AA53F75, 0x7BD57A3A, 0x1C7D7513, 0xD6819C6A, 0, 14, 0xC095F13A);
    Do(x, trace, 19, 0xD6819C6A, 0xC095F13A, 0x7BD57A3A, 0x1C7D7513, 0x80, 20, 0xBD782E17);
  }

  lemma Stage5(x: Block, trace: seq<State>)
    requires Empty(x) && IsTrace(x, trace) && trace[20] == State(0x1C7D7513, 0xBD782E17, 0xC095F13A, 0x7BD57A3A)
    ensures trace[24] == State(0x3D1E3E6C, 0xE422531A, 0xEB41643E, 0x68B7B3E3)
  {
    Do(x, trace, 20, 0x1C7D7513, 0xBD782E17, 0xC095F13A, 0x7BD57A3A, 0, 5, 0x3D1E3E6C);
    Do(x, trace, 21, 0x7BD57A3A, 0x3D1E3E6C, 0xBD782E17, 0xC095F13A, 0, 9, 0x68B7B3E3);
    Do(x, trace, 22, 0xC095F13A, 0x68B7B3E3, 0x3D1E3E6C, 0xBD782E17, 0, 14, 0xEB41643E);
    Do(x, trace, 23, 0xBD782E17, 0xEB41643E, 0x68B7B3E3, 0x3D1E3E6C, 0, 20, 0xE422531A);
  }

  lemma Stage6(x: Block, trace: seq<State>)
    requires Empty(x) && IsTrace(x, trace) && trace[24] == State(0x3D1E3E6C, 0xE422531A, 0xEB41643E, 0x68B7B3E3)
    ensures trace[28] == State(0x306EC122, 0xA0572807, 0xA3C663DA, 0xD28C77C2)
  {
    Do(x, trace, 24, 0x3D1E3E6C, 0xE422531A, 0xEB41643E, 0x68B7B3E3, 0, 5, 0x306EC122);
    Do(x, trace, 25, 0x68B7B3E3, 0x306EC122, 0xE422531A, 0xEB41643E, 0, 9, 0xD28C77C2);
    Do(x, trace, 26, 0xEB41643E, 0xD28C77C2, 0x306EC122, 0xE422531A, 0, 14, 0xA3C663DA);
    Do(x, trace, 27, 0xE422531A, 0xA3C663DA, 0xD28C77C2, 0x306EC122, 0, 20, 0xA0572807);
  }

  lemma Stage7(x: Block, trace: seq<State>)
    requires Empty(x) && IsTrace(x, trace) && trace[28] == State(0x306EC122, 0xA0572807, 0xA3C663DA, 0xD28C77C2)
    ensures trace[32] == State(0x13707036, 0xA2205F1F, 0x1C31C384, 0xAE7813DB)
  {
    Do(x, trace, 28, 0x306EC122, 0xA0572807, 0xA3C663DA, 0xD28C77C2, 0, 5, 0x13707036);
    Do(x, trace, 29, 0xD28C77C2, 0x13707036, 0xA0572807, 0xA3C663DA, 0, 9, 0xAE7813DB);
    Do(x, trace, 30, 0xA3C663DA, 0xAE7813DB, 0x13707036, 0xA0572807, 0, 14, 0x1C31C384);
    Do(x, trace, 31, 0xA0572807, 0x1C31C384, 0xAE7813DB, 0x13707036, 0, 20, 0xA2205F1F);
  }

  lemma Stage8(x: Block, trace: seq<State>)
    requires Empty(x) && IsTrace(x, trace) && trace[32] == State(0x13707036, 0xA2205F1F, 0x1C31C384, 0xAE7813DB)
    ensures trace[36] == State(0xDF63EAA1, 0x004B6669, 0x12F3E755, 0xC3689F5B)
  {
    Do(x, trace, 32, 0x13707036, 0xA2205F1F, 0x1C31C384, 0xAE7813DB, 0, 4, 0xDF63EAA1);
    Do(x, trace, 33, 0xAE7813DB, 0xDF63EAA1, 0xA2205F1F, 0x1C31C384, 0, 11, 0xC3689F5B);
    Do(x, trace, 34, 0x1C31C384, 0xC3689F5B, 0xDF63EAA1, 0xA2205F1F, 0, 16, 0x12F3E755);
    Do(x, trace, 35, 0xA2205F1F, 0x12F3E755, 0xC3689F5B, 0xDF63EAA1, 0, 23, 0x004B6669);
  }

  lemma Stage9(x: Block, trace: seq<State>)
    requires Empty(x) && IsTrace(x, trace) && trace[36] == State(0xDF63EAA1, 0x004B6669, 0x12F3E755, 0xC3689F5B)
    ensures trace[40] == State(0x5F7A9B2E, 0xC5DC8C15, 0x91CA4CB7, 0xABC34E16)
  {
    Do(x, trace, 36, 0xDF63EAA1, 0x004B6669, 0x12F3E755, 0xC3689F5B, 0, 4, 0x5F7A9B2E);
    Do(x, trace, 37, 0xC3689F5B, 0x5F7A9B2E, 0x004B6669, 0x12F3E755, 0, 11, 0xABC34E16);
    Do(x, trace, 38, 0x12F3E755, 0xABC34E16, 0x5F7A9B2E, 0x004B6669, 0, 16, 0x91CA4CB7);
    Do(x, trace, 39, 0x004B6669, 0x91CA4CB7, 0xABC34E16, 0x5F7A9B2E, 0, 23, 0xC5DC8C15);
  }

  lemma Stage10(x: Block, trace: seq<State>)
    requires Empty(x) && IsTrace(x, trace) && trace[40] == State(0x5F7A9B2E, 0xC5DC8C15, 0x91CA4CB7, 0xABC34E16)
    ensures trace[44] == State(0x4497169D, 0x0FE32453, 0xFD95F243, 0x76FD93D4)
  {
    Do(x, trace, 40, 0x5F7A9B2E, 0xC5DC8C15, 0x91CA4CB7, 0xABC34E16, 0, 4, 0x4497169D);
    Do(x, trace, 41, 0xABC34E16, 0x4497169D, 0xC5DC8C15, 0x91CA4CB7, 0x80, 11, 0x76FD93D4);
    Do(x, trace, 42, 0x91CA4CB7, 0x76FD93D4, 0x4497169D, 0xC5DC8C15, 0, 16, 0xFD95F243);
    Do(x, trace, 43, 0xC5DC8C15, 0xFD95F243, 0x76FD93D4, 0x4497169D, 0, 23, 0x0FE32453);
  }

  lemma Stage11(x: Block, trace: seq<State>)
    requires Empty(x) && IsTrace(x, trace) && trace[44] == State(0x4497169D, 0x0FE32453, 0xFD95F243, 0x76FD93D4)
    ensures trace[48] == State(0x3F55EDFD, 0xCA7D2DBD, 0x68D84EA2, 0x22A31F54)
  {
    Do(x, trace, 44, 0x4497169D, 0x0FE32453, 0xFD95F243, 0x76FD93D4, 0, 4, 0x3F55EDFD);
    Do(x, trace, 45, 0x76FD93D4, 0x3F55EDFD, 0x0FE32453, 0xFD95F243, 0, 11, 0x22A31F54);
    Do(x, trace, 46, 0xFD95F243, 0x22A31F54, 0x3F55EDFD, 0x0FE32453, 0, 16, 0x68D84EA2);
    Do(x, trace, 47, 0x0FE32453, 0x68D84EA2, 0x22A31F54, 0x3F55EDFD, 0, 23, 0xCA7D2DBD);
  }

  lemma Stage12(x: Block, trace: seq<State>)
    requires Empty(x) && IsTrace(x, trace) && trace[48] == State(0x3F55EDFD, 0xCA7D2DBD, 0x68D84EA2, 0x22A31F54)
    ensures trace[52] == State(0x93AA2577, 0x561E0689, 0xCD85B8CB, 0x1688DC85)
  {
    Do(x, trace, 48, 0x3F55EDFD, 0xCA7D2DBD, 0x68D84EA2, 0x22A31F54, 0x80, 6, 0x93AA2577);
    Do(x, trace, 49, 0x22A31F54, 0x93AA2577, 0xCA7D2DBD, 0x68D84EA2, 0, 10, 0x1688DC85);
    Do(x, trace, 50, 0x68D84EA2, 0x1688DC85, 0x93AA2577, 0xCA7D2DBD, 0, 15, 0xCD85B8CB);
    Do(x, trace, 51, 0xCA7D2DBD, 0xCD85B8CB, 0x1688DC85, 0x93AA2577, 0, 21, 0x561E0689);
  }

  lemma Stage13(x: Block, trace: seq<State>)
    requires Empty(x) && IsTrace(x, trace) && trace[52] == State(0x93AA2577, 0x561E0689, 0xCD85B8CB, 0x1688DC85)
    ensures trace[56] == State(0x5625A114, 0x1E77FA61, 0x392AD0D0, 0x3450F42B)
  {
    Do(x, trace, 52, 0x93AA2577, 0x561E0689, 0xCD85B8CB, 0x1688DC85, 0, 6, 0x5625A114);
    Do(x, trace, 53, 0x1688DC85, 0x5625A114, 0x561E0689, 0xCD85B8CB, 0, 10, 0x3450F42B);
    Do(x, trace, 54, 0xCD85B8CB, 0x3450F42B, 0x5625A114, 0x561E0689, 0, 15, 0x392AD0D0);
    Do(x, trace, 55, 0x561E0689, 0x392AD0D0, 0x3450F42B, 0x5625A114, 0, 21, 0x1E77FA61);
  }

  lemma Stage14(x: Block, trace: seq<State>)
    requires Empty(x) && IsTrace(x, trace) && trace[56] == State(0x5625A114, 0x1E77FA61, 0x392AD0D0, 0x3450F42B)
    ensures trace[60] == State(0x474A9C8C, 0x30130182, 0x36594B14, 0xDFCE00BC)
  {
    Do(x, trace, 56, 0x5625A114, 0x1E77FA61, 0x392AD0D0, 0x3450F42B, 0, 6, 0x474A9C8C);
    Do(x, trace, 57, 0x3450F42B, 0x474A9C8C, 0x1E77FA61, 0x392AD0D0, 0, 10, 0xDFCE00BC);
    Do(x, trace, 58, 0x392AD0D0, 0xDFCE00BC, 0x474A9C8C, 0x1E77FA61, 0, 15, 0x36594B14);
    Do(x, trace, 59, 0x1E77FA61, 0x36594B14, 0xDFCE00BC, 0x474A9C8C, 0, 21, 0x30130182);
  }

  lemma Stage15(x: Block, trace: seq<State>)
    requires Empty(x) && IsTrace(x, trace) && trace[60] == State(0x474A9C8C, 0x30130182, 0x36594B14, 0xDFCE00BC)
    ensures trace[64] == State(0x7246FAD3, 0x14E45506, 0xFF4EA3EB, 0x6E10A476)
  {
    Do(x, trace, 60, 0x474A9C8C, 0x30130182, 0x36594B14, 0xDFCE00BC, 0, 6, 0x7246FAD3);
    Do(x, trace, 61, 0xDFCE00BC, 0x7246FAD3, 0x30130182, 0x36594B14, 0, 10, 0x6E10A476);
    Do(x, trace, 62, 0x36594B14, 0x6E10A476, 0x7246FAD3, 0x30130182, 0, 15, 0xFF4EA3EB);
    Do(x, trace, 63, 0x30130182, 0xFF4EA3EB, 0x6E10A476, 0x7246FAD3, 0, 21, 0x14E45506);
  }

  lemma EmptyOperations(x: Block)
    requires Empty(x)
    ensures Operations(x, State(0x67452301, 0xEFCDAB89, 0x98BADCFE, 0x10325476), 64)
      == State(0x7246FAD3, 0x14E45506, 0xFF4EA3EB, 0x6E10A476)
  {
    var s := State(0x67452301, 0xEFCDAB89, 0x98BADCFE, 0x10325476);
    var trace := Trace(x, s);
    TraceIsTrace(x, s);
    Stage0(x, trace);
    Stage1(x, trace);
    Stage2(x, trace);
    Stage3(x, trace);
    Stage4(x, trace);
    Stage5(x, trace);
    Stage6(x, trace);
    Stage7(x, trace);
    Stage8(x, trace);
    Stage9(x, trace);
    Stage10(x, trace);
    Stage11(x, trace);
    Stage12(x, trace);
    Stage13(x, trace);
    Stage14(x, trace);
    Stage15(x, trace);
  }

  lemma EmptyCompresses(data: Chunk)
    requires Empty(Decode(data))
    ensures Compress(INITIAL, data) == State(0xD98C1DD4, 0x04B2008F, 0x980980E9, 0x7E42F8EC)
  {
    EmptyOperations(Decode(data));
  }

  lemma DigestBytes(s: State)
    requires s == State(0xD98C1DD4, 0x04B2008F, 0x980980E9, 0x7E42F8EC)
    ensures Output(s) == [0xD4, 0x1D, 0x8C, 0xD9, 0x8F, 0x00, 0xB2, 0x04, 0xE9, 0x80, 0x09, 0x98, 0xEC, 0xF8, 0x42, 0x7E]
  {
    assert Bytes(0xD98C1DD4) == [0xD4, 0x1D, 0x8C, 0xD9];
    assert Bytes(0x04B2008F) == [0x8F, 0x00, 0xB2, 0x04];
    assert Bytes(0x980980E9) == [0xE9, 0x80, 0x09, 0x98];
    assert Bytes(0x7E42F8EC) == [0xEC, 0xF8, 0x42, 0x7E];
  }

  lemma OneBlock(s: State, p: Chunk)
    ensures Fold(Compression(), s, p) == Compress(s, p)
  {
    assert p[..64] == p && p[64..] == [];
  }

  /** The first line of section A.5 of RFC 1321: MD5 ("") = d41d8cd98f00b204e9800998ecf8427e. */
  lemma EmptyDigest()
    ensures Rfc1321.Md5([]) == [0xD4, 0x1D, 0x8C, 0xD9, 0x8F, 0x00, 0xB2, 0x04, 0xE9, 0x80, 0x09, 0x98, 0xEC, 0xF8, 0x42, 0x7E]
  {
    EmptyPadded();
    EmptyDecodes();
    EmptyCompresses(Padded([]));
    OneBlock(INITIAL, Padded([]));
    DigestBytes(Compress(INITIAL, Padded([])));
  }

  // ---------- the keyed hash ----------

  /** b, n times over. */
  function Repeated(b: Octet, n: nat): (s: seq<Octet>)
    ensures |s| == n
  {
    seq(n, _ => b)
  }

  function Xor(a: seq<Octet>, b: seq<Octet>): (s: seq<Octet>)
    requires |a| == |b|
    ensures |s| == |a|
  {
    seq(|a|, i requires 0 <= i < |a| => a[i] ^ b[i])
  }

  /** Section 2 of RFC 2104: H(K XOR opad, H(K XOR ipad, text)), with zeros behind K up to 64 bytes, ipad the byte
      0x36 and opad the byte 0x5C repeated 64 times. */
  lemma HmacIsRfc2104(key: seq<Octet>, text: seq<Octet>)
    requires |key| <= 64
    ensures var k := key + Repeated(0, 64 - |key|);
      Hmac(key, text)
      == Rfc1321.Md5(Xor(k, Repeated(0x5C, 64)) + Rfc1321.Md5(Xor(k, Repeated(0x36, 64)) + text))
  {
    PadsTo(key, 0x5C);
    PadsTo(key, 0x36);
  }

  lemma PadsTo(key: seq<Octet>, pad: Octet)
    requires |key| <= 64
    ensures XorKey(key, pad) == Xor(key + Repeated(0, 64 - |key|), Repeated(pad, 64))
  {
    var k := key + Repeated(0, 64 - |key|);
    forall i | 0 <= i < 64 ensures XorKey(key, pad)[i] == k[i] ^ pad {
      if i < |key| {
        XorCommutes(pad, key[i]);
      } else {
        XorZero(pad);
      }
    }
  }

  lemma XorCommutes(a: Octet, b: Octet)
    ensures a ^ b == b ^ a
  {
  }

  lemma XorZero(a: Octet)
    ensures 0 ^ a == a
  {
  }
}
