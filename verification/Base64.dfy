/** gSOAP's base64 codec (section 4 of RFC 4648). */
module Base64 {
  import opened Basics
  import opened Memory

  // ---------- the alphabet ----------

  type Sextet = v: int | 0 <= v < 64

  /** soap_base64o */
  function Letter(v: Sextet): (b: Byte)
    ensures b != 0 && b != 61
  {
    if v < 26 then 65 + v else if v < 52 then 97 + (v - 26) else if v < 62 then 48 + (v - 52) else if v == 62 then 43 else 47
  }

  datatype Class = Digit(v: Sextet) | Blank | Bad

  /** soap_base64i, and what the reader makes of a byte outside it. */
  function ClassOf(b: Byte): Class
    requires b != 0 && b != 61
  {
    if b == 43 then Digit(62) else if b == 47 then Digit(63)
    else if 48 <= b <= 57 then Digit(52 + (b - 48))
    else if 65 <= b <= 90 then Digit(b - 65)
    else if 97 <= b <= 122 then Digit(26 + (b - 97))
    else if b <= 32 then Blank
    else Bad
  }

  // ---------- encoding ----------

  function Quad(b0: Byte, b1: Byte, b2: Byte): (q: seq<Byte>)
    ensures |q| == 4
  {
    [Letter(b0 / 4), Letter(b0 % 4 * 16 + b1 / 16), Letter(b1 % 16 * 4 + b2 / 64), Letter(b2 % 64)]
  }

  /** Groups of three bytes; what is left over is padded. */
  function Encode(s: seq<Byte>): (t: seq<Byte>)
    ensures |t| == (|s| + 2) / 3 * 4
  {
    if s == [] then []
    else if |s| == 1 then Quad(s[0], 0, 0)[..2] + [61, 61]
    else if |s| == 2 then Quad(s[0], s[1], 0)[..3] + [61]
    else Quad(s[0], s[1], s[2]) + Encode(s[3..])
  }

  // ---------- decoding ----------

  /** The digits up to the first '=' or the end; None at a byte that does not belong. */
  function Digits(t: seq<Byte>): (r: Option<seq<Sextet>>)
    requires forall i :: 0 <= i < |t| ==> t[i] != 0
    ensures r.Some? ==> |r.value| <= |t|
  {
    if t == [] || t[0] == 61 then Some([])
    else
      match ClassOf(t[0])
      case Bad => None
      case Blank => Digits(t[1..])
      case Digit(v) =>
        match Digits(t[1..])
        case None => None
        case Some(vs) => Some([v] + vs)
  }

  function Triple(v0: Sextet, v1: Sextet, v2: Sextet, v3: Sextet): (s: seq<Byte>)
    ensures |s| == 3
  {
    [v0 * 4 + v1 / 16, v1 % 16 * 16 + v2 / 4, v2 % 4 * 64 + v3]
  }

  /** Three bytes from four digits; two digits left over make one byte, three make two. */
  function Bytes8(vs: seq<Sextet>): (s: seq<Byte>)
    ensures 4 * |s| <= 3 * |vs|
  {
    if |vs| < 2 then []
    else if |vs| == 2 then Triple(vs[0], vs[1], 0, 0)[..1]
    else if |vs| == 3 then Triple(vs[0], vs[1], vs[2], 0)[..2]
    else Triple(vs[0], vs[1], vs[2], vs[3]) + Bytes8(vs[4..])
  }

  ghost predicate NoNul(t: seq<Byte>) {
    forall i :: 0 <= i < |t| ==> t[i] != 0
  }

  function Decode(t: seq<Byte>): Option<seq<Byte>>
    requires NoNul(t)
  {
    match Digits(t)
    case None => None
    case Some(vs) => Some(Bytes8(vs))
  }

  // ---------- theorems ----------

  /** Table 1 of RFC 4648, eight characters to a line. */
  function Table1(line: nat): (t: string)
    requires line < 8
    ensures |t| == 8
  {
    Row(line, "ABCDEFGH", "IJKLMNOP", "QRSTUVWX", "YZabcdef",
      "ghijklmn", "opqrstuv", "wxyz0123", "456789+/")
  }

  lemma LetterIs(v: Sextet)
    ensures Letter(v) == Table1(v / 8)[v % 8] as int
  {
    var line := v / 8;
    if line == 0 {} else if line == 1 {} else if line == 2 {} else if line == 3 {}
    else if line == 4 {} else if line == 5 {} else if line == 6 {} else {}
  }

  /** Section 4 of RFC 4648: a group of 24 bits, the first byte highest, is cut into four groups of six. */
  lemma QuadIs24Bits(b0: Byte, b1: Byte, b2: Byte, n: nat)
    requires n == 0x1_0000 * b0 + 0x100 * b1 + b2
    ensures Quad(b0, b1, b2) == [Letter(n / 0x4_0000), Letter(n / 0x1000 % 64), Letter(n / 64 % 64), Letter(n % 64)]
  {
    Sextets(b0, b1, b2, n);
  }

  lemma Sextets(b0: Byte, b1: Byte, b2: Byte, n: nat)
    requires n == 0x1_0000 * b0 + 0x100 * b1 + b2
    ensures n / 0x4_0000 == b0 / 4 && n / 0x1000 % 64 == b0 % 4 * 16 + b1 / 16
    ensures n / 64 % 64 == b1 % 16 * 4 + b2 / 64 && n % 64 == b2 % 64
  {
    Cut(n, n / 64, n % 64);
    Shifted(b0, b1, b2);
    Middle(b0, b1, b2);
    High(b0, b1);
  }

  lemma Cut(n: nat, q: nat, r: nat)
    requires q == n / 64 && r == n % 64
    ensures n / 0x1000 == q / 64 && n / 0x4_0000 == q / 64 / 64
  {
  }

  lemma Shifted(b0: Byte, b1: Byte, b2: Byte)
    ensures (0x1_0000 * b0 + 0x100 * b1 + b2) / 64 == 1024 * b0 + 4 * b1 + b2 / 64
    ensures (0x1_0000 * b0 + 0x100 * b1 + b2) % 64 == b2 % 64
  {
  }

  lemma Middle(b0: Byte, b1: Byte, b2: Byte)
    ensures (1024 * b0 + 4 * b1 + b2 / 64) % 64 == b1 % 16 * 4 + b2 / 64
    ensures (1024 * b0 + 4 * b1 + b2 / 64) / 64 == 16 * b0 + b1 / 16
  {
    var h := b2 / 64;
    assert 4 * b1 == 64 * (b1 / 16) + 4 * (b1 % 16);
    assert 1024 * b0 + 4 * b1 + h == 64 * (16 * b0 + b1 / 16) + (4 * (b1 % 16) + h);
  }

  lemma High(b0: Byte, b1: Byte)
    ensures (16 * b0 + b1 / 16) % 64 == b0 % 4 * 16 + b1 / 16 && (16 * b0 + b1 / 16) / 64 == b0 / 4
  {
    assert 16 * b0 + b1 / 16 == 64 * (b0 / 4) + (16 * (b0 % 4) + b1 / 16);
  }

  function Octets(s: string): (b: seq<Byte>)
    requires forall i :: 0 <= i < |s| ==> s[i] as int < 256
    ensures |b| == |s|
  {
    seq(|s|, i requires 0 <= i < |s| => s[i] as int)
  }

  /** The test vectors of section 10 of RFC 4648 that end in each of the three ways. */
  lemma TestVectors()
    ensures Encode(Octets("f")) == Octets("Zg==")
    ensures Encode(Octets("fo")) == Octets("Zm8=")
    ensures Encode(Octets("foo")) == Octets("Zm9v")
  {
    assert Octets("f") == [102] && Octets("fo") == [102, 111] && Octets("foo") == [102, 111, 111];
    assert [102, 111, 111][3..] == [];
    assert Octets("Zg==") == [90, 103, 61, 61] && Octets("Zm8=") == [90, 109, 56, 61];
    assert Octets("Zm9v") == [90, 109, 57, 118];
  }

  lemma LetterReads(v: Sextet)
    ensures ClassOf(Letter(v)) == Digit(v)
  {
  }

  lemma TripleOfQuad(b0: Byte, b1: Byte, b2: Byte)
    ensures Triple(b0 / 4, b0 % 4 * 16 + b1 / 16, b1 % 16 * 4 + b2 / 64, b2 % 64) == [b0, b1, b2]
  {
  }

  lemma DigitNext(v: Sextet, t: seq<Byte>)
    requires NoNul(t) && Digits(t).Some?
    ensures NoNul([Letter(v)] + t) && Digits([Letter(v)] + t) == Some([v] + Digits(t).value)
  {
    LetterReads(v);
    assert ([Letter(v)] + t)[1..] == t;
  }

  function Letters(vs: seq<Sextet>): (t: seq<Byte>)
    ensures |t| == |vs|
  {
    seq(|vs|, i requires 0 <= i < |vs| => Letter(vs[i]))
  }

  lemma {:induction false} DigitsRead(vs: seq<Sextet>, t: seq<Byte>)
    requires NoNul(t) && Digits(t).Some?
    ensures NoNul(Letters(vs) + t) && Digits(Letters(vs) + t) == Some(vs + Digits(t).value)
  {
    var read := Digits(t).value;
    if vs == [] {
      assert Letters(vs) + t == t && vs + read == read;
    } else {
      DigitsRead(vs[1..], t);
      DigitNext(vs[0], Letters(vs[1..]) + t);
      assert Letters(vs) + t == [Letter(vs[0])] + (Letters(vs[1..]) + t);
      assert [vs[0]] + (vs[1..] + read) == vs + read;
    }
  }

  /** The last group. */
  lemma OneDecodes(b: Byte)
    ensures NoNul(Encode([b])) && Decode(Encode([b])) == Some([b])
  {
    var vs := [b / 4, b % 4 * 16];
    TripleOfQuad(b, 0, 0);
    assert Triple(b / 4, b % 4 * 16, 0, 0) == [b, 0, 0];
    assert [b, 0, 0 as Byte][..1] == [b];
    assert Encode([b]) == Letters(vs) + [61, 61];
    DigitsRead(vs, [61, 61]);
    assert vs + [] == vs;
  }

  lemma TwoDecode(b: Byte, c: Byte)
    ensures NoNul(Encode([b, c])) && Decode(Encode([b, c])) == Some([b, c])
  {
    var vs := [b / 4, b % 4 * 16 + c / 16, c % 16 * 4];
    TripleOfQuad(b, c, 0);
    assert Triple(vs[0], vs[1], vs[2], 0) == [b, c, 0];
    assert [b, c, 0 as Byte][..2] == [b, c];
    assert Encode([b, c]) == Letters(vs) + [61];
    DigitsRead(vs, [61]);
    assert vs + [] == vs;
  }

  lemma GroupDecodes(b0: Byte, b1: Byte, b2: Byte, t: seq<Byte>)
    requires NoNul(t) && Digits(t).Some?
    ensures NoNul(Quad(b0, b1, b2) + t)
    ensures Decode(Quad(b0, b1, b2) + t) == Some([b0, b1, b2] + Bytes8(Digits(t).value))
  {
    var v0, v1, v2, v3 := b0 / 4, b0 % 4 * 16 + b1 / 16, b1 % 16 * 4 + b2 / 64, b2 % 64;
    var vs := [v0, v1, v2, v3];
    assert Letters(vs) == Quad(b0, b1, b2);
    DigitsRead(vs, t);
    TripleOfQuad(b0, b1, b2);
    assert (vs + Digits(t).value)[4..] == Digits(t).value;
  }

  /** Decoding undoes encoding. */
  lemma {:induction false} DecodesEncoded(s: seq<Byte>)
    ensures NoNul(Encode(s)) && Decode(Encode(s)) == Some(s)
  {
    if |s| == 1 {
      OneDecodes(s[0]);
      assert s == [s[0]];
    } else if |s| == 2 {
      TwoDecode(s[0], s[1]);
      assert s == [s[0], s[1]];
    } else if s != [] {
      DecodesEncoded(s[3..]);
      GroupDecodes(s[0], s[1], s[2], Encode(s[3..]));
      assert s == [s[0], s[1], s[2]] + s[3..];
    }
  }

  ghost predicate AllBlank(ws: seq<Byte>) {
    forall i :: 0 <= i < |ws| ==> 0 < ws[i] <= 32
  }

  lemma {:induction false} BlanksSkipped(ws: seq<Byte>, b: seq<Byte>)
    requires AllBlank(ws) && NoNul(b)
    ensures NoNul(ws + b) && Digits(ws + b) == Digits(b)
  {
    if ws == [] {
      assert ws + b == b;
    } else {
      assert (ws + b)[1..] == ws[1..] + b;
      BlanksSkipped(ws[1..], b);
    }
  }

  /** White space put in anywhere changes nothing. */
  lemma {:induction false} BlanksIgnored(a: seq<Byte>, ws: seq<Byte>, b: seq<Byte>)
    requires NoNul(a) && NoNul(b) && AllBlank(ws)
    ensures NoNul(a + ws + b) && Decode(a + ws + b) == Decode(a + b)
  {
    DigitsIgnore(a, ws, b);
  }

  lemma {:induction false} DigitsIgnore(a: seq<Byte>, ws: seq<Byte>, b: seq<Byte>)
    requires NoNul(a) && NoNul(b) && AllBlank(ws)
    ensures NoNul(a + ws + b) && Digits(a + ws + b) == Digits(a + b)
  {
    if a == [] {
      BlanksSkipped(ws, b);
      assert a + ws + b == ws + b && a + b == b;
    } else {
      DigitsIgnore(a[1..], ws, b);
      assert (a + ws + b)[1..] == a[1..] + ws + b && (a + b)[1..] == a[1..] + b;
    }
  }

  /** A byte that does not belong, before the first '='. */
  ghost predicate Foreign(t: seq<Byte>, i: int)
    requires NoNul(t)
  {
    0 <= i < |t| && (forall j :: 0 <= j <= i ==> t[j] != 61) && ClassOf(t[i]).Bad?
  }

  /** Decoding fails exactly when there is one. */
  lemma {:induction false} FailsIff(t: seq<Byte>)
    requires NoNul(t)
    ensures Decode(t).None? <==> exists i :: Foreign(t, i)
  {
    if t != [] && t[0] != 61 {
      var r := t[1..];
      FailsIff(r);
      if ClassOf(t[0]).Bad? {
        assert Foreign(t, 0);
      } else if i :| Foreign(r, i) {
        assert forall j :: 1 <= j <= i + 1 ==> t[j] == r[j - 1];
        assert Foreign(t, i + 1);
      } else if i :| Foreign(t, i) {
        assert Foreign(r, i - 1);
      }
    }
  }
}
