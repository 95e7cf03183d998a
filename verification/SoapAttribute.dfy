/** Attribute values: what soap_string_out writes for them, and how soap_getattrval reads them back. */
module SoapAttribute {
  import opened Basics
  import opened Memory
  import opened Unicode
  import opened SoapText

  // ---------- what is never sent as it is ----------

  /** No byte of e would end an attribute value, start a tag, or be changed by attribute-value normalization, section
      3.3.3 of XML 1.0. */
  ghost predicate AttributeSafe(e: seq<Byte>) {
    forall i :: 0 <= i < |e| ==> e[i] != 34 && e[i] != 60 && e[i] != 9 && e[i] != 10 && e[i] != 13
  }

  /** No byte of e would start or end a tag, or be changed by end-of-line handling, section 2.11 of XML 1.0. */
  ghost predicate ContentSafe(e: seq<Byte>) {
    forall i :: 0 <= i < |e| ==> e[i] != 60 && e[i] != 62 && e[i] != 13
  }

  lemma EscapeSafe(c: Byte, canonical: bool)
    requires c != 0
    ensures AttributeSafe(Escape(c, true, canonical)) && ContentSafe(Escape(c, false, canonical))
  {
    if c >= 0x80 {
      OctetTable(c);
    }
  }

  lemma {:induction false} EscapedSafe(s: seq<Byte>, canonical: bool)
    requires NoNul(s)
    ensures AttributeSafe(Escaped(s, true, canonical)) && ContentSafe(Escaped(s, false, canonical))
  {
    if s != [] {
      EscapeSafe(s[0], canonical);
      EscapedSafe(s[1..], canonical);
    }
  }

  // ---------- soap_getattrval ----------

  /** soap_get */
  function GetAhead(ahead: int, t: seq<Byte>, html: Html): (g: Got)
    ensures g.Got? ==> |g.rest| <= |t|
  {
    if ahead != 0 then Switched(ahead, t, html) else Get(t, html)
  }

  /** What a call leaves: the bytes stored, and whether the delimiter was found behind them or the buffer is full.
      Ended is the end of the input, Unseen what this model leaves out. */
  datatype Window = Window(value: seq<Byte>, closed: bool, ahead: int, rest: seq<Byte>) | Ended | Unseen

  function Push(b: Byte, w: Window): Window {
    if w.Window? then w.(value := [b] + w.value) else w
  }

  /** A blank as delimiter stands for the end of a value without quotes. */
  const BLANK := 32

  predicate Delimits(c: int, d: int) {
    if d == BLANK then c == SOAP_GT || c in {9, 10, 13, 32, 47} else c == d && (c == SOAP_QT || c == SOAP_AP)
  }

  /** The byte that is stored for a character. */
  function Stored(c: int): Byte {
    if c == SOAP_TT || c == SOAP_LT then 60
    else if c == SOAP_GT then 62
    else if c == SOAP_QT then 34
    else if c == SOAP_AP then 39
    else c % 256
  }

  /** soap_getattrval with n bytes of buffer and delimiter d. */
  function ReadWindow(ahead: int, t: seq<Byte>, d: int, n: nat, html: Html): (w: Window)
    ensures w.Window? ==> |w.value| <= n && (w.closed ==> |w.value| < n) && (!w.closed ==> |w.value| == n)
    decreases n
  {
    if n == 0 then Window([], false, ahead, t)
    else
      match GetAhead(ahead, t, html)
      case Other => Unseen
      case Got(c, rest) =>
        if Delimits(c, d) then Window([], true, if d == BLANK then c else 0, rest)
        else if c == EOF then Ended
        else Push(Stored(c), ReadWindow(if c == SOAP_TT then 47 else 0, rest, d, n - 1, html))
  }

  // ---------- what is read of what was written ----------

  /** The bytes of s with each byte from 0x80 on as its two-byte encoding. */
  function Expanded(s: seq<Byte>): (v: seq<Byte>)
    requires NoNul(s)
    ensures |s| <= |v|
  {
    if s == [] then [] else Utf8(s[0]) + Expanded(s[1..])
  }

  /** A piece of written text that soap_get takes in one go, and the byte it stands for. */
  datatype Unit = Unit(text: seq<Byte>, byte: Byte)

  /** g is the byte of u and leaves z. */
  predicate Yields(u: Unit, d: int, g: Got, z: seq<Byte>) {
    g.Got? && g.rest == z && g.c != EOF && g.c != SOAP_TT && !Delimits(g.c, d) && Stored(g.c) == u.byte
  }

  ghost predicate ReadsAs(u: Unit, d: int) {
    forall z: seq<Byte>, html: Html {:trigger GetAhead(0, u.text + z, html)} :: Yields(u, d, GetAhead(0, u.text + z, html), z)
  }

  function Text(us: seq<Unit>): seq<Byte> {
    if us == [] then [] else us[0].text + Text(us[1..])
  }

  function Meaning(us: seq<Unit>): (v: seq<Byte>)
    ensures |v| == |us|
  {
    if us == [] then [] else [us[0].byte] + Meaning(us[1..])
  }

  /** The units of one written character. */
  function UnitsOf(c: Byte, canonical: bool): (us: seq<Unit>)
    requires c != 0
  {
    if c < 0x80 then [Unit(Escape(c, true, canonical), c)]
    else seq(|Utf8(c)|, i requires 0 <= i < |Utf8(c)| => Unit([Utf8(c)[i]], Utf8(c)[i]))
  }

  function Units(s: seq<Byte>, canonical: bool): (us: seq<Unit>)
    requires NoNul(s)
  {
    if s == [] then [] else UnitsOf(s[0], canonical) + Units(s[1..], canonical)
  }

  lemma {:induction false} TextJoins(us: seq<Unit>, vs: seq<Unit>)
    ensures Text(us + vs) == Text(us) + Text(vs) && Meaning(us + vs) == Meaning(us) + Meaning(vs)
  {
    if us == [] {
      assert us + vs == vs;
    } else {
      assert (us + vs)[1..] == us[1..] + vs;
      TextJoins(us[1..], vs);
      Associate(us[0].text, Text(us[1..]), Text(vs));
      Associate([us[0].byte], Meaning(us[1..]), Meaning(vs));
    }
  }

  lemma OneUnit(u: Unit)
    ensures Text([u]) == u.text && Meaning([u]) == [u.byte]
  {
    assert [u][1..] == [];
  }

  lemma HighUnits(c: Byte, canonical: bool)
    requires c >= 0x80
    ensures Text(UnitsOf(c, canonical)) == Utf8(c) == Meaning(UnitsOf(c, canonical))
  {
    OctetTable(c);
    var u := Utf8(c);
    var us := UnitsOf(c, canonical);
    assert us == [Unit([u[0]], u[0])] + [Unit([u[1]], u[1])];
    TextJoins([us[0]], [us[1]]);
    OneUnit(us[0]);
    OneUnit(us[1]);
  }

  lemma LowUnits(c: Byte, canonical: bool)
    requires 0 < c < 0x80
    ensures Text(UnitsOf(c, canonical)) == Escape(c, true, canonical) && Meaning(UnitsOf(c, canonical)) == [c] == Utf8(c)
  {
    OneUnit(UnitsOf(c, canonical)[0]);
  }

  lemma {:induction false} UnitsWrite(s: seq<Byte>, canonical: bool)
    requires NoNul(s)
    ensures Text(Units(s, canonical)) == Escaped(s, true, canonical) && Meaning(Units(s, canonical)) == Expanded(s)
  {
    if s != [] {
      UnitsWrite(s[1..], canonical);
      TextJoins(UnitsOf(s[0], canonical), Units(s[1..], canonical));
      if s[0] < 0x80 {
        LowUnits(s[0], canonical);
      } else {
        HighUnits(s[0], canonical);
      }
    }
  }

  // ---------- one unit ----------

  lemma ByteYields(b: Byte, z: seq<Byte>, html: Html)
    requires b != 0 && b != 60 && b != 34 && b != 38
    ensures Yields(Unit([b], b), SOAP_QT, GetAhead(0, [b] + z, html), z)
  {
    assert ([b] + z)[1..] == z;
  }

  lemma ByteReads(b: Byte)
    requires b != 0 && b != 60 && b != 34 && b != 38
    ensures ReadsAs(Unit([b], b), SOAP_QT)
  {
    var u := Unit([b], b);
    forall z: seq<Byte>, html: Html ensures Yields(u, SOAP_QT, GetAhead(0, u.text + z, html), z) {
      ByteYields(b, z, html);
    }
  }

  lemma ReferenceYields(u: Unit, c: Byte, z: seq<Byte>, html: Html)
    requires c in {9, 10, 13, 38, 60, 34} && u == Unit([38] + Name(c) + [59], c)
    ensures Yields(u, SOAP_QT, GetAhead(0, u.text + z, html), z)
  {
    NamedReads(c, z, html);
    assert (c + REF) % 256 == c;
  }

  lemma ReferenceReadsAs(u: Unit, c: Byte)
    requires c in {9, 10, 13, 38, 60, 34} && u == Unit([38] + Name(c) + [59], c)
    ensures ReadsAs(u, SOAP_QT)
  {
    forall z: seq<Byte>, html: Html ensures Yields(u, SOAP_QT, GetAhead(0, u.text + z, html), z) {
      ReferenceYields(u, c, z, html);
    }
  }

  lemma UnitReads(c: Byte, canonical: bool, k: nat)
    requires c != 0 && k < |UnitsOf(c, canonical)|
    ensures ReadsAs(UnitsOf(c, canonical)[k], SOAP_QT)
  {
    if c >= 0x80 {
      OctetTable(c);
      ByteReads(Utf8(c)[k]);
    } else if c in {9, 10, 13, 38, 60, 34} {
      assert Escape(c, true, canonical) == [38] + Name(c) + [59];
      ReferenceReadsAs(UnitsOf(c, canonical)[0], c);
    } else {
      ByteReads(c);
    }
  }

  ghost predicate AllRead(us: seq<Unit>) {
    us == [] || (ReadsAs(us[0], SOAP_QT) && AllRead(us[1..]))
  }

  lemma {:induction false} AllReadJoin(us: seq<Unit>, vs: seq<Unit>)
    requires AllRead(us) && AllRead(vs)
    ensures AllRead(us + vs)
  {
    if us == [] {
      assert us + vs == vs;
    } else {
      assert (us + vs)[1..] == us[1..] + vs;
      AllReadJoin(us[1..], vs);
    }
  }

  lemma CharacterRead(c: Byte, canonical: bool)
    requires c != 0
    ensures AllRead(UnitsOf(c, canonical))
  {
    var us := UnitsOf(c, canonical);
    UnitReads(c, canonical, 0);
    if c >= 0x80 {
      OctetTable(c);
      UnitReads(c, canonical, 1);
      assert us[1..][0] == us[1] && us[1..][1..] == [];
    }
  }

  lemma {:induction false} UnitsRead(s: seq<Byte>, canonical: bool)
    requires NoNul(s)
    ensures AllRead(Units(s, canonical))
  {
    if s != [] {
      UnitsRead(s[1..], canonical);
      CharacterRead(s[0], canonical);
      AllReadJoin(UnitsOf(s[0], canonical), Units(s[1..], canonical));
    }
  }

  // ---------- windows ----------

  lemma QuoteCloses(z: seq<Byte>, n: nat, html: Html)
    requires n > 0
    ensures ReadWindow(0, [34] + z, SOAP_QT, n, html) == Window([], true, 0, z)
  {
    assert ([34] + z)[1..] == z;
  }

  lemma UnitStep(u: Unit, t: seq<Byte>, n: nat, html: Html)
    requires ReadsAs(u, SOAP_QT) && n > 0
    ensures ReadWindow(0, u.text + t, SOAP_QT, n, html) == Push(u.byte, ReadWindow(0, t, SOAP_QT, n - 1, html))
  {
    var g := GetAhead(0, u.text + t, html);
    assert g.Got? && g.rest == t;
  }

  lemma Slices(us: seq<Unit>, n: nat)
    requires 0 < n <= |us|
    ensures Meaning(us[..n]) == [us[0].byte] + Meaning(us[1..][..n - 1]) && us[n..] == us[1..][n - 1..]
  {
    assert us[..n][1..] == us[1..][..n - 1];
  }

  /** A buffer of n bytes takes the first n bytes of the value, or all of it and the quote. */
  lemma {:induction false} WindowReads(us: seq<Unit>, z: seq<Byte>, n: nat, html: Html)
    requires AllRead(us)
    ensures ReadWindow(0, Text(us) + ([34] + z), SOAP_QT, n, html) ==
      if |us| < n then Window(Meaning(us), true, 0, z)
      else Window(Meaning(us[..n]), false, 0, Text(us[n..]) + ([34] + z))
    decreases |us|
  {
    var end := [34] + z;
    if n == 0 {
      assert us[..0] == [] && us[0..] == us;
    } else if us == [] {
      assert Text(us) + end == end;
      QuoteCloses(z, n, html);
    } else {
      var more := Text(us[1..]) + end;
      Associate(us[0].text, Text(us[1..]), end);
      UnitStep(us[0], more, n, html);
      WindowReads(us[1..], z, n - 1, html);
      if |us| >= n {
        Slices(us, n);
      }
    }
  }

  /** An attribute value that has been written, with its quote behind it, is read back by a buffer that is large enough
      as the bytes of its encoding, and the reader stops behind the quote. */
  lemma AttributeReads(s: seq<Byte>, canonical: bool, z: seq<Byte>, n: nat, html: Html)
    requires NoNul(s) && |Expanded(s)| < n
    ensures ReadWindow(0, Escaped(s, true, canonical) + ([34] + z), SOAP_QT, n, html) == Window(Expanded(s), true, 0, z)
  {
    UnitsWrite(s, canonical);
    UnitsRead(s, canonical);
    WindowReads(Units(s, canonical), z, n, html);
  }

  lemma {:induction false} ExpandedNoNul(s: seq<Byte>)
    requires NoNul(s)
    ensures NoNul(Expanded(s))
  {
    if s != [] {
      ExpandedNoNul(s[1..]);
    }
  }

  /** Any window of written text that is closed holds the whole value, and none meets the end of the input. */
  lemma WrittenWindow(s: seq<Byte>, canonical: bool, z: seq<Byte>, n: nat, html: Html)
    requires NoNul(s)
    ensures var w := ReadWindow(0, Escaped(s, true, canonical) + ([34] + z), SOAP_QT, n, html);
      w.Window? && (w.closed ==> w == Window(Expanded(s), true, 0, z))
  {
    UnitsWrite(s, canonical);
    UnitsRead(s, canonical);
    WindowReads(Units(s, canonical), z, n, html);
  }

  // ---------- which values come back as they were ----------

  ghost predicate Ascii(s: seq<Byte>) {
    forall i :: 0 <= i < |s| ==> s[i] < 0x80
  }

  /** A value is what it was when it was written if and only if it is ASCII. */
  lemma {:induction false} ExpandedIff(s: seq<Byte>)
    requires NoNul(s)
    ensures Expanded(s) == s <==> Ascii(s)
    ensures |Expanded(s)| == |s| <==> Ascii(s)
  {
    if s != [] {
      ExpandedIff(s[1..]);
      assert s == [s[0]] + s[1..];
      if s[0] >= 0x80 {
        OctetTable(s[0]);
      }
    }
  }

  /** What soap_s2string keeps of a value when it is neither Latin nor UTF-8: the ASCII characters. */
  function Kept(v: seq<Byte>): seq<Byte> {
    if v == [] then [] else (if v[0] < 0x80 then [v[0]] else []) + Kept(v[1..])
  }

  lemma {:induction false} KeptJoins(a: seq<Byte>, b: seq<Byte>)
    ensures Kept(a + b) == Kept(a) + Kept(b)
  {
    if a == [] {
      assert a + b == b;
    } else {
      assert (a + b)[1..] == a[1..] + b;
      KeptJoins(a[1..], b);
    }
  }

  lemma KeptPair(a: Byte, b: Byte)
    requires a >= 0x80 && b >= 0x80
    ensures Kept([a, b]) == []
  {
    assert Kept([b]) == [] + Kept([b][1..]) && Kept([b][1..]) == [];
    assert [a, b][1..] == [b];
  }

  /** The characters above ASCII are dropped from an attribute that is made a string; the others stay. */
  lemma {:induction false} KeptOfExpanded(s: seq<Byte>)
    requires NoNul(s)
    ensures Kept(Expanded(s)) == Kept(s)
  {
    if s != [] {
      KeptOfExpanded(s[1..]);
      KeptJoins(Utf8(s[0]), Expanded(s[1..]));
      if s[0] >= 0x80 {
        OctetTable(s[0]);
        KeptPair(Utf8(s[0])[0], Utf8(s[0])[1]);
      } else {
        assert [s[0]][1..] == [];
      }
    }
  }

  lemma {:induction false} KeptIff(s: seq<Byte>)
    ensures |Kept(s)| <= |s| && (Kept(s) == s <==> Ascii(s)) && (|Kept(s)| == |s| <==> Ascii(s))
  {
    if s != [] {
      KeptIff(s[1..]);
      assert s == [s[0]] + s[1..];
    }
  }

  /** A string that goes out as an attribute and is read back with soap_s2string survives if and only if it is ASCII. */
  lemma AttributeSurvivesIff(s: seq<Byte>)
    requires NoNul(s)
    ensures Kept(Expanded(s)) == s <==> Ascii(s)
  {
    KeptOfExpanded(s);
    KeptIff(s);
  }

  /** A lone byte 0xE9 is lost. */
  lemma AccentLost()
    ensures Kept(Expanded([0xE9])) == []
  {
    KeptOfExpanded([0xE9]);
    assert [0xE9][1..] == [];
  }

  /** A quote inside a value is not its end. */
  lemma QuoteInside()
    ensures Escaped([97, 34, 98], true, false) == [97, 38, 113, 117, 111, 116, 59, 98]
  {
    var s := [97, 34, 98];
    assert s[1..] == [34, 98] && s[1..][1..] == [98] && s[1..][1..][1..] == [];
    assert Escaped([98], true, false) == [98] + Escaped([], true, false) == [98];
  }
}
