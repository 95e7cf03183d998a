/** gSOAP's XML strings: how they are escaped, and how the reader takes them back. */
module SoapText {
  import opened Memory
  import opened Unicode

  // ---------- writing ----------

  ghost predicate NoNul(s: seq<Byte>) {
    forall i :: 0 <= i < |s| ==> s[i] != 0
  }

  /** One character; flag is set for attribute values, and canonical leaves line feeds in content alone. */
  function Escape(c: Byte, flag: bool, canonical: bool): (e: seq<Byte>)
    requires c != 0
    ensures e != []
  {
    if c == 9 && flag then [38, 35, 120, 57, 59]                      // &#x9;
    else if c == 10 && (flag || !canonical) then [38, 35, 120, 65, 59] // &#xA;
    else if c == 13 then [38, 35, 120, 68, 59]                         // &#xD;
    else if c == 38 then [38, 97, 109, 112, 59]                        // &amp;
    else if c == 60 then [38, 108, 116, 59]                            // &lt;
    else if c == 62 && !flag then [38, 103, 116, 59]                   // &gt;
    else if c == 34 && flag then [38, 113, 117, 111, 116, 59]          // &quot;
    else Utf8(c)
  }

  function Escaped(s: seq<Byte>, flag: bool, canonical: bool): (e: seq<Byte>)
    requires NoNul(s)
  {
    if s == [] then [] else Escape(s[0], flag, canonical) + Escaped(s[1..], flag, canonical)
  }

  // ---------- reading characters ----------

  const EOF := -1
  const SOAP_LT := -2
  const SOAP_TT := -3
  const SOAP_GT := -4
  const SOAP_QT := -5
  const SOAP_AP := -6
  const UNKNOWN_CHAR := 127

  /** The bit that marks a character reference. */
  const REF := -0x8000_0000

  /** The names of the HTML entities and their codes. */
  type Html = map<seq<Byte>, nat>

  /** A character and the input after it; Other stands for comments, CDATA sections and processing
      instructions, and for input that stops inside a tag or a character. */
  datatype Got = Got(c: int, rest: seq<Byte>) | Other

  predicate IsBlank(b: Byte) {
    b <= 32
  }

  function SkipBlanks(t: seq<Byte>): (r: seq<Byte>)
    ensures |r| <= |t|
  {
    if t == [] || !IsBlank(t[0]) then t else SkipBlanks(t[1..])
  }

  function DigitOf(b: Byte, base: nat): (d: nat)
    requires base == 10 || base == 16
    ensures d <= base
  {
    if 48 <= b <= 57 then b - 48
    else if base == 16 && 97 <= b <= 102 then b - 87
    else if base == 16 && 65 <= b <= 70 then b - 55
    else base
  }

  /** The digits a string starts with. */
  function Number(s: seq<Byte>, base: nat, v: nat): nat
    requires base == 10 || base == 16
    decreases |s|
  {
    if s == [] || DigitOf(s[0], base) == base then v else Number(s[1..], base, v * base + DigitOf(s[0], base))
  }

  /** The value of a reference. */
  function Reference(tmp: seq<Byte>, html: Html): nat {
    if tmp != [] && tmp[0] == 35 then
      if |tmp| > 1 && (tmp[1] == 120 || tmp[1] == 88) then Number(tmp[2..], 16, 0) else Number(tmp[1..], 10, 0)
    else if tmp == [108, 116] then 60
    else if tmp == [103, 116] then 62
    else if tmp == [97, 109, 112] then 38
    else if tmp == [113, 117, 111, 116] then 34
    else if tmp == [97, 112, 111, 115] then 39
    else if tmp in html then html[tmp]
    else UNKNOWN_CHAR
  }

  /** Where a reference ends: at a semicolon, at the end of the input, or after seven characters. */
  function ReferenceEnd(t: seq<Byte>, i: nat): (k: nat)
    requires i <= 7 && i <= |t|
    ensures i <= k <= 7 && k <= |t|
    decreases 7 - i
  {
    if i == 7 || i == |t| || t[i] == 59 then i else ReferenceEnd(t, i + 1)
  }

  /** soap_char */
  function GetReference(t: seq<Byte>, html: Html): (g: Got)
    ensures g.Got? && |g.rest| <= |t|
  {
    var k := ReferenceEnd(t, 0);
    Got(Reference(t[..k], html) + REF, if k < 7 && k < |t| then t[k + 1..] else t[k..])
  }

  /** soap_get outside a CDATA section, once its first byte, or the character put back, is c. */
  function Switched(c: int, t: seq<Byte>, html: Html): (g: Got)
    ensures g.Got? ==> |g.rest| <= |t| && (g.c == EOF ==> c == EOF)
  {
    if c == 60 then
      var r := SkipBlanks(t);
      if r == [] || r[0] == 33 || r[0] == 63 || r[0] == 37 then Other
      else if r[0] == 47 then Got(SOAP_TT, r[1..])
      else Got(SOAP_LT, r)
    else if c == 62 then Got(SOAP_GT, t)
    else if c == 34 then Got(SOAP_QT, t)
    else if c == 39 then Got(SOAP_AP, t)
    else if c == 38 then
      var g := GetReference(t, html);
      if g.c == EOF then Other else g
    else Got(c, t)
  }

  /** soap_get, with nothing ahead. */
  function Get(t: seq<Byte>, html: Html): (g: Got)
    ensures g.Got? ==> |g.rest| <= |t| && (g.c != EOF ==> |g.rest| < |t|)
  {
    if t == [] then Got(EOF, []) else Switched(t[0], t[1..], html)
  }

  /** soap_getutf8 on a character of soap_get. */
  function Multibyte(c: int, t: seq<Byte>): (g: Got)
    ensures g.Got? ==> |g.rest| <= |t| && (g.c == EOF ==> c == EOF && g.rest == t)
  {
    if c < 0x80 || c > 0xFF then Got(c, t)
    else if t == [] then Other
    else if t[0] < 0x80 then Got(c, t)
    else if |t| < Follow(c) then Other
    else Got(Value(c, t[..Follow(c)]), t[Follow(c)..])
  }

  /** soap_getutf8 */
  function GetUtf8(ahead: int, t: seq<Byte>, html: Html): (g: Got)
    ensures g.Got? ==> |g.rest| <= |t| && (ahead == 0 && g.c != EOF ==> |g.rest| < |t|)
  {
    if ahead != 0 then Multibyte(ahead, t)
    else
      match Get(t, html)
      case Other => Other
      case Got(c, rest) => Multibyte(c, rest)
  }

  // ---------- reading a string ----------

  /** A string, how many characters it took, and what the reader leaves. */
  datatype Reading = Reading(s: seq<Byte>, l: nat, ahead: int, rest: seq<Byte>) | Unread

  function Add(bytes: seq<Byte>, r: Reading): Reading {
    match r
    case Unread => Unread
    case Reading(s, l, ahead, rest) => Reading(bytes + s, l + 1, ahead, rest)
  }

  function Weight(ahead: int, t: seq<Byte>): nat {
    3 * |t| + if ahead == 0 then 0 else if ahead == EOF then 1 else 2
  }

  /** soap_string_in with flag set: everything up to the closing tag n elements up. */
  function ReadString(ahead: int, t: seq<Byte>, n: nat, html: Html): (r: Reading)
    decreases Weight(ahead, t)
  {
    match GetUtf8(ahead, t, html)
    case Other => Unread
    case Got(c, rest) =>
      if c == EOF || (c == SOAP_TT && n == 0) then Reading([], 0, c, rest)
      else if c == SOAP_TT then Add([60, 47], ReadString(0, rest, n - 1, html))
      else if c == SOAP_LT then Add([60], ReadString(0, rest, n + 1, html))
      else if c == SOAP_GT then Add([62], ReadString(0, rest, n, html))
      else if c == SOAP_QT then Add([34], ReadString(0, rest, n, html))
      else if c == SOAP_AP then Add([39], ReadString(0, rest, n, html))
      else if c == 47 && n > 0 then
        match Get(rest, html)
        case Other => Unread
        case Got(d, more) => Add([47], ReadString(d, more, if d == SOAP_GT then n - 1 else n, html))
      else Add([c % 256], ReadString(0, rest, n, html))
  }

  // ---------- round trip ----------

  /** What one character reads back as. */
  predicate Means(v: int, c: Byte) {
    v != EOF && v != SOAP_TT && v != SOAP_LT
    && if v == SOAP_GT then c == 62 else if v == SOAP_QT then c == 34 else if v == SOAP_AP then c == 39 else v % 256 == c
  }

  lemma ReferenceReads(tmp: seq<Byte>, z: seq<Byte>, html: Html)
    requires |tmp| <= 6 && forall i :: 0 <= i < |tmp| ==> tmp[i] != 59
    ensures Get([38] + tmp + [59] + z, html) ==
      if Reference(tmp, html) + REF == EOF then Other else Got(Reference(tmp, html) + REF, z)
  {
    var t := tmp + [59] + z;
    assert [38] + tmp + [59] + z == [38] + t;
    ReferenceEnds(tmp, z, 0);
    assert t[..|tmp|] == tmp && t[|tmp| + 1..] == z;
    assert ([38] + t)[1..] == t;
  }

  lemma {:induction false} ReferenceEnds(tmp: seq<Byte>, z: seq<Byte>, i: nat)
    requires i <= |tmp| <= 6 && forall k :: 0 <= k < |tmp| ==> tmp[k] != 59
    ensures ReferenceEnd(tmp + [59] + z, i) == |tmp|
    decreases |tmp| - i
  {
    if i < |tmp| {
      assert (tmp + [59] + z)[i] == tmp[i];
      ReferenceEnds(tmp, z, i + 1);
    }
  }

  /** The references that are written, and the five predefined entities of section 4.6 of XML 1.0. */
  lemma References(html: Html)
    ensures Reference([35, 120, 57], html) == 9 && Reference([35, 120, 65], html) == 10
    ensures Reference([35, 120, 68], html) == 13 && Reference([97, 109, 112], html) == 38
    ensures Reference([108, 116], html) == 60 && Reference([103, 116], html) == 62
    ensures Reference([113, 117, 111, 116], html) == 34 && Reference([97, 112, 111, 115], html) == 39
  {
    HexDigit(57);
    HexDigit(65);
    HexDigit(68);
    assert [35, 120, 57][2..] == [57];
    assert [35, 120, 65][2..] == [65];
    assert [35, 120, 68][2..] == [68];
  }

  lemma HexDigit(b: Byte)
    requires DigitOf(b, 16) < 16
    ensures Number([b], 16, 0) == DigitOf(b, 16)
  {
    assert [b][1..] == [];
  }

  /** The reference an escaped character is written as, if it is. */
  function Name(c: Byte): (tmp: seq<Byte>)
    requires c in {9, 10, 13, 38, 60, 62, 34}
    ensures |tmp| <= 6 && forall i :: 0 <= i < |tmp| ==> tmp[i] != 59
  {
    if c == 9 then [35, 120, 57] else if c == 10 then [35, 120, 65] else if c == 13 then [35, 120, 68]
    else if c == 38 then [97, 109, 112] else if c == 60 then [108, 116] else if c == 62 then [103, 116]
    else [113, 117, 111, 116]
  }

  lemma NamedReads(c: Byte, z: seq<Byte>, html: Html)
    requires c in {9, 10, 13, 38, 60, 62, 34}
    ensures GetUtf8(0, [38] + Name(c) + [59] + z, html) == Got(c + REF, z)
  {
    References(html);
    ReferenceReads(Name(c), z, html);
  }

  lemma PlainReads(c: Byte, z: seq<Byte>, html: Html)
    requires c != 0 && c != 38 && c != 60
    ensures var g := GetUtf8(0, Utf8(c) + z, html); g.Got? && g.rest == z && Means(g.c, c)
  {
    var t := Utf8(c) + z;
    if c < 0x80 {
      assert t[1..] == z;
    } else {
      Decodes(c);
      var rest := t[1..];
      assert t[0] == Utf8(c)[0] && |Utf8(c)| == 2;
      assert rest == Utf8(c)[1..] + z;
      assert rest[..1] == Utf8(c)[1..] && rest[1..] == z;
    }
  }

  lemma EscapeIs(c: Byte, flag: bool, canonical: bool) returns (plain: bool)
    requires c != 0
    ensures plain ==> c != 38 && c != 60 && Escape(c, flag, canonical) == Utf8(c)
    ensures !plain ==> c in {9, 10, 13, 38, 60, 62, 34} && Escape(c, flag, canonical) == [38] + Name(c) + [59]
  {
    plain := !((c == 9 && flag) || (c == 10 && (flag || !canonical)) || c == 13 || c == 38 || c == 60
      || (c == 62 && !flag) || (c == 34 && flag));
  }

  lemma OneReads(c: Byte, flag: bool, canonical: bool, z: seq<Byte>, html: Html)
    requires c != 0
    ensures var g := GetUtf8(0, Escape(c, flag, canonical) + z, html); g.Got? && g.rest == z && Means(g.c, c)
  {
    var plain := EscapeIs(c, flag, canonical);
    if plain {
      PlainReads(c, z, html);
    } else {
      NamedReads(c, z, html);
    }
  }

  lemma OneAdds(c: Byte, t: seq<Byte>, rest: seq<Byte>, v: int, html: Html)
    requires GetUtf8(0, t, html) == Got(v, rest) && Means(v, c)
    ensures ReadString(0, t, 0, html) == Add([c], ReadString(0, rest, 0, html))
  {
  }

  lemma EndReads(z: seq<Byte>, html: Html)
    ensures ReadString(0, [60, 47] + z, 0, html) == Reading([], 0, SOAP_TT, z)
  {
    var t := [60, 47] + z;
    assert t[1..] == [47] + z && t[1..][1..] == z;
  }

  lemma EscapedNext(s: seq<Byte>, flag: bool, canonical: bool, end: seq<Byte>)
    requires NoNul(s) && s != []
    ensures Escaped(s, flag, canonical) + end == Escape(s[0], flag, canonical) + (Escaped(s[1..], flag, canonical) + end)
  {
  }

  /** A string that has been written, with a closing tag after it, is read back and the reader stops at the tag. */
  lemma {:induction false} ReadsBack(s: seq<Byte>, flag: bool, canonical: bool, z: seq<Byte>, html: Html)
    requires NoNul(s)
    ensures ReadString(0, Escaped(s, flag, canonical) + ([60, 47] + z), 0, html) == Reading(s, |s|, SOAP_TT, z)
  {
    var end := [60, 47] + z;
    if s == [] {
      assert Escaped(s, flag, canonical) + end == end;
      EndReads(z, html);
    } else {
      var more := Escaped(s[1..], flag, canonical) + end;
      var t := Escape(s[0], flag, canonical) + more;
      assert [s[0]] + s[1..] == s;
      ReadsBack(s[1..], flag, canonical, z, html);
      OneReads(s[0], flag, canonical, more, html);
      OneAdds(s[0], t, more, GetUtf8(0, t, html).c, html);
      EscapedNext(s, flag, canonical, end);
    }
  }
}
