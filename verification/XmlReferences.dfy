/** What references in XML text stand for, and which characters of it may be written as they are. */
module XmlReferences {
  import opened Basics
  import opened XmlText
  import opened XmlTextProofs
  import opened XmlTree
  import opened XmlRoundTrip

  // ---------- numeric references ----------

  /** The value of a digit, section 4.1 of XML 1.0: hexadecimal ones in either case. */
  function Digit(c: char): (v: nat)
    ensures v <= 16
  {
    match c
    case '0' => 0 case '1' => 1 case '2' => 2 case '3' => 3 case '4' => 4
    case '5' => 5 case '6' => 6 case '7' => 7 case '8' => 8 case '9' => 9
    case 'a' => 10 case 'b' => 11 case 'c' => 12 case 'd' => 13 case 'e' => 14 case 'f' => 15
    case 'A' => 10 case 'B' => 11 case 'C' => 12 case 'D' => 13 case 'E' => 14 case 'F' => 15
    case _ => 16
  }

  predicate AllDigits(ds: string, base: nat) {
    forall i :: 0 <= i < |ds| ==> Digit(ds[i]) < base
  }

  /** The number that digits write, the most significant one first. */
  function Positional(ds: string, base: nat): nat
    requires AllDigits(ds, base)
  {
    if ds == [] then 0 else base * Positional(ds[..|ds| - 1], base) + Digit(ds[|ds| - 1])
  }

  lemma DigitAgrees(c: char, base: nat)
    requires (base == 10 || base == 16) && Digit(c) < base
    ensures DigitOf(c, base) == Digit(c) && c != ';' && c != '#' && c != 'x'
  {
  }

  lemma Reduces(a: nat, m: nat, p: nat)
    ensures (a % WORD + m % WORD * p) % WORD == (a + m * p) % WORD
  {
    var q, r := a / WORD, m / WORD;
    assert a == a % WORD + WORD * q && m == m % WORD + WORD * r;
    assert m * p == m % WORD * p + WORD * (r * p) by {
      assert (WORD * r) * p == WORD * (r * p);
      assert (m % WORD + WORD * r) * p == m % WORD * p + (WORD * r) * p;
    }
    WholeWords(a % WORD + m % WORD * p, q + r * p);
  }

  lemma WholeWords(n: nat, k: nat)
    ensures (n + WORD * k) % WORD == n % WORD
  {
  }

  /** What has been added up when digits worth p come in front. */
  function Summed(ucs: nat, mult: nat, p: nat): (r: nat)
    ensures r < WORD
  {
    (ucs + mult * p) % WORD
  }

  lemma OneMore(ucs: nat, mult: nat, base: nat, d: nat, p: nat, v: nat)
    requires v == base * p + d
    ensures Summed(Summed(ucs, mult, d), mult * base % WORD, p) == Summed(ucs, mult, v)
  {
    Reduces(ucs + mult * d, mult * base, p);
    assert mult * base * p == mult * (base * p);
    assert mult * (base * p + d) == mult * (base * p) + mult * d;
  }

  lemma BackwardStep(t: string, q: nat, stop: nat, base: nat, mult: nat, ucs: nat)
    requires stop < q < |t| && t[q] != t[stop] && (base == 10 || base == 16) && DigitOf(t[q], base) < base
    ensures Backwards(t, q, stop, base, mult, ucs)
      == Backwards(t, q - 1, stop, base, mult * base % WORD, (ucs + mult * DigitOf(t[q], base)) % WORD)
  {
  }

  /** ds stands in t behind position stop. */
  predicate Stands(t: string, stop: nat, ds: string) {
    stop + |ds| < |t| && t[stop + 1..stop + 1 + |ds|] == ds && (t[stop] == '#' || t[stop] == 'x')
  }

  lemma StandsFront(t: string, stop: nat, ds: string)
    requires ds != [] && Stands(t, stop, ds)
    ensures Stands(t, stop, ds[..|ds| - 1]) && t[stop + |ds|] == ds[|ds| - 1]
  {
    var part := t[stop + 1..stop + 1 + |ds|];
    assert part[|ds| - 1] == t[stop + |ds|];
    assert t[stop + 1..stop + |ds|] == part[..|ds| - 1];
  }

  lemma NothingSummed(t: string, stop: nat, base: nat, mult: nat, ucs: nat)
    requires stop < |t| && (base == 10 || base == 16) && ucs < WORD
    ensures Backwards(t, stop, stop, base, mult, ucs) == Some(Summed(ucs, mult, 0))
  {
  }

  lemma LastDigit(t: string, stop: nat, ds: string, base: nat, mult: nat, ucs: nat)
    requires (base == 10 || base == 16) && ds != [] && AllDigits(ds, base) && Stands(t, stop, ds)
    ensures Backwards(t, stop + |ds|, stop, base, mult, ucs)
      == Backwards(t, stop + |ds| - 1, stop, base, mult * base % WORD, Summed(ucs, mult, Digit(ds[|ds| - 1])))
  {
    StandsFront(t, stop, ds);
    DigitAgrees(ds[|ds| - 1], base);
    BackwardStep(t, stop + |ds|, stop, base, mult, ucs);
  }

  /** The digits are added up from the last one backwards, in 32 bits. */
  lemma {:induction false} BackwardsAdds(t: string, stop: nat, ds: string, base: nat, mult: nat, ucs: nat)
    requires (base == 10 || base == 16) && AllDigits(ds, base) && Stands(t, stop, ds) && ucs < WORD
    ensures Backwards(t, stop + |ds|, stop, base, mult, ucs) == Some(Summed(ucs, mult, Positional(ds, base)))
    decreases |ds|
  {
    if ds == [] {
      NothingSummed(t, stop, base, mult, ucs);
    } else {
      var next, more := Summed(ucs, mult, Digit(ds[|ds| - 1])), mult * base % WORD;
      StandsFront(t, stop, ds);
      LastDigit(t, stop, ds, base, mult, ucs);
      BackwardsAdds(t, stop, ds[..|ds| - 1], base, more, next);
      OneMore(ucs, mult, base, Digit(ds[|ds| - 1]), Positional(ds[..|ds| - 1], base), Positional(ds, base));
    }
  }

  /** The first semicolon behind a reference's digits is its end. */
  lemma SemiBehind(t: string, from: nat, ds: string, base: nat, rest: string)
    requires (base == 10 || base == 16) && AllDigits(ds, base)
    requires from <= |t| && t[from..] == ds + ([';'] + rest)
    ensures FirstSemi(t, from) == from + |ds| < |t| && t[from..from + |ds|] == ds && t[from + |ds| + 1..] == rest
  {
    var tail, k := t[from..], from + |ds|;
    assert t[k] == tail[|ds|] == ';';
    forall j | from <= j < k ensures t[j] != ';' {
      assert t[j] == tail[j - from] == ds[j - from];
      DigitAgrees(ds[j - from], base);
    }
    FirstSemiIs(t, from, k);
    assert t[from..k] == tail[..|ds|] == ds;
    assert t[k + 1..] == tail[|ds| + 1..] == rest;
  }

  lemma NumericIs(t: string, stop: nat, base: nat, k: nat, ucs: nat)
    requires stop + 1 < |t| && (base == 10 || base == 16) && FirstSemi(t, stop + 1) == k < |t|
    requires Backwards(t, k - 1, stop, base, 1, 0) == Some(ucs)
    ensures Numeric(t, stop, base) == Read([(ucs % 256) as char], t[k + 1..])
  {
  }

  lemma NumericReads(t: string, stop: nat, ds: string, base: nat, rest: string)
    requires (base == 10 || base == 16) && ds != [] && AllDigits(ds, base)
    requires stop + 1 < |t| && (t[stop] == '#' || t[stop] == 'x')
    requires t[stop + 1..] == ds + ([';'] + rest)
    ensures Numeric(t, stop, base) == Read([(Positional(ds, base) % WORD % 256) as char], rest)
  {
    SemiBehind(t, stop + 1, ds, base, rest);
    BackwardsAdds(t, stop, ds, base, 1, 0);
    NumericIs(t, stop, base, stop + 1 + |ds|, Summed(0, 1, Positional(ds, base)));
  }

  /** A decimal reference is the character with the low byte of its number. */
  lemma DecimalReads(ds: string, rest: string)
    requires ds != [] && AllDigits(ds, 10)
    ensures GetEntity("&#" + (ds + ([';'] + rest))) == Read([(Positional(ds, 10) % WORD % 256) as char], rest)
  {
    var t := "&#" + (ds + ([';'] + rest));
    assert t[2] == ds[0];
    DigitAgrees(ds[0], 10);
    NumericReads(t, 1, ds, 10, rest);
  }

  /** A hexadecimal one as well, with digits of either case. */
  lemma HexadecimalReads(ds: string, rest: string)
    requires ds != [] && AllDigits(ds, 16)
    ensures GetEntity("&#x" + (ds + ([';'] + rest))) == Read([(Positional(ds, 16) % WORD % 256) as char], rest)
  {
    var t := "&#x" + (ds + ([';'] + rest));
    NumericReads(t, 2, ds, 16, rest);
  }

  // ---------- references by name ----------

  lemma NameReadsAs(name: string, c: char, rest: string)
    requires (name, c) in [("&amp;", '&'), ("&lt;", '<'), ("&gt;", '>'), ("&quot;", '\"'), ("&apos;", '\'')]
    ensures GetEntity(name + rest) == Read([c], rest)
  {
    var t := name + rest;
    assert t[..|name|] == name && t[|name|..] == rest;
    assert t[1] == name[1] && t[2] == name[2];
  }

  /** The five predefined entities, section 4.6 of XML 1.0. */
  lemma NamesRead(rest: string)
    ensures GetEntity("&amp;" + rest) == Read("&", rest)
    ensures GetEntity("&lt;" + rest) == Read("<", rest)
    ensures GetEntity("&gt;" + rest) == Read(">", rest)
    ensures GetEntity("&quot;" + rest) == Read("\"", rest)
    ensures GetEntity("&apos;" + rest) == Read("'", rest)
  {
    NameReadsAs("&amp;", '&', rest);
    NameReadsAs("&lt;", '<', rest);
    NameReadsAs("&gt;", '>', rest);
    NameReadsAs("&quot;", '\"', rest);
    NameReadsAs("&apos;", '\'', rest);
  }

  // ---------- what is never written as it is ----------

  /** Characters that have a meaning of their own in XML, and those below the space. */
  predicate Special(c: char) {
    c == '<' || c == '>' || c == '\"' || c == '\'' || c as int < 32
  }

  /** No character of e is special. */
  ghost predicate Plain(e: string) {
    forall i :: 0 <= i < |e| ==> !Special(e[i])
  }

  lemma EscapePlain(c: char)
    ensures Plain(Escape(c))
  {
    if c as int < 32 {
      DigitPlain(c as int / 16);
      DigitPlain(c as int % 16);
    }
  }

  lemma DigitPlain(v: nat)
    requires v < 16
    ensures !Special(HexDigit(v))
  {
  }

  /** Whatever a value or text without "&#x" is, its encoding holds no quote, no bracket and no control character. */
  lemma {:induction false} EncodePlain(s: string)
    requires NoHex(s)
    ensures Plain(Encode(s))
  {
    if s != [] {
      NoHexTail(s);
      EscapePlain(s[0]);
      EncodePlain(s[1..]);
    }
  }

  // ---------- characters of names and white space ----------

  /** Productions 4 and 4a of XML 1.0, as far as ASCII goes. */
  predicate NameStartChar(c: char) {
    c == ':' || 'A' <= c <= 'Z' || c == '_' || 'a' <= c <= 'z'
  }

  predicate NameChar(c: char) {
    NameStartChar(c) || c == '-' || c == '.' || '0' <= c <= '9'
  }

  /** Production 3 of XML 1.0. */
  predicate WhiteSpace(c: char) {
    c == ' ' || c == '\t' || c == '\r' || c == '\n'
  }

  /** In ASCII names are those of XML 1.0, except that none starts with a colon and that DEL is a letter; vertical tab
      and form feed count as white space. */
  lemma CharactersAgree(c: char)
    requires c as int < 128
    ensures StartsName(c) <==> (NameStartChar(c) && c != ':') || c as int == 127
    ensures InName(c) <==> NameChar(c) || c as int == 127
    ensures IsSpace(c) <==> WhiteSpace(c) || c as int == 11 || c as int == 12
  {
  }

  // ---------- a document ----------

  lemma DecimalValue(rest: string)
    requires rest != []
    ensures ReadValue("&#65;" + ("\"" + rest), '\"') == Read("A", rest)
  {
    var ds, z := "65", "\"" + rest;
    assert ds[..1] == "6" && ds[..1][..0] == [] && Positional(ds, 10) == 65;
    DecimalReads(ds, z);
    var t := "&#65;" + z;
    assert t == "&#" + (ds + ([';'] + z));
    assert z[1..] == rest;
    assert ReadValue(z, '\"') == Read("", rest);
    assert "A" + "" == "A";
  }

  lemma DecimalAttribute(rest: string)
    requires rest != []
    ensures ParseAttribute("b=\"&#65;\"" + rest) == Done(Attribute("b", "A"), rest)
  {
    var value := "&#65;" + ("\"" + rest);
    var quoted := "\"" + value;
    var sign := "=" + quoted;
    assert "b=\"&#65;\"" + rest == "b" + sign;
    NameReads("b", sign);
    NoneSkips(sign);
    NoneSkips(quoted);
    assert sign[1..] == quoted && quoted[1..] == value;
    DecimalValue(rest);
  }

  lemma DecimalOpened(from: string, e: Node)
    requires from == "b=\"&#65;\"" + "/>" && e == Element("a", [Attribute("b", "A")], [])
    ensures ParseOpened("a", [], " " + from) == Done(e, [])
  {
    var b := Attribute("b", "A");
    DecimalAttribute("/>");
    OneSkips(' ', from);
    NoneSkips(from);
    AttributeStep("a", [], b, " " + from, from, "/>");
    assert [] + [b] == [b] && "/>"[2..] == [];
  }

  lemma DecimalElement(t: string, e: Node)
    requires t == "<a b=\"&#65;\"/>" && e == Element("a", [Attribute("b", "A")], [])
    ensures ParseElement(t) == Done(e, [])
  {
    var from := "b=\"&#65;\"" + "/>";
    assert t[1..] == "a" + (" " + from);
    DecimalOpened(from, e);
    NameReads("a", " " + from);
    NoneSkips(t);
  }

  /** <a b="&#65;"/> is an element with the attribute b that is "A". */
  lemma DecimalInDocument()
    ensures ParseDocument("<a b=\"&#65;\"/>") == Done([Element("a", [Attribute("b", "A")], [])], [])
  {
    var t, e := "<a b=\"&#65;\"/>", Element("a", [Attribute("b", "A")], []);
    DecimalElement(t, e);
    NoneSkips(t);
    NodeStep([], e, t, t, []);
    assert [] + [e] == [e];
  }
}
