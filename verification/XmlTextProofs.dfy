/** What is written as text or as an attribute value is read back. */
module XmlTextProofs {
  import opened Basics
  import opened XmlText

  ghost predicate NoHex(s: string) {
    forall i {:trigger s[i]} :: 0 <= i && i + 2 < |s| && s[i] == '&' && s[i + 1] == '#' ==> s[i + 2] != 'x'
  }

  lemma NoHexTail(s: string)
    requires s != [] && NoHex(s)
    ensures NoHex(s[1..]) && !StartsHex(s)
  {
    var t := s[1..];
    forall i | 0 <= i && i + 2 < |t| && t[i] == '&' && t[i + 1] == '#' ensures t[i + 2] != 'x' {
      assert s[i + 1] == '&';
    }
    var first := s[0];
  }

  // ---------- one character ----------

  lemma {:induction false} FirstSemiIs(t: string, i: nat, k: nat)
    requires i <= k < |t| && t[k] == ';' && forall j :: i <= j < k ==> t[j] != ';'
    ensures FirstSemi(t, i) == k
    decreases k - i
  {
    if i < k {
      FirstSemiIs(t, i + 1, k);
    }
  }

  lemma DigitReads(v: nat)
    requires v < 16
    ensures DigitOf(HexDigit(v), 16) == v && HexDigit(v) != ';' && HexDigit(v) != 'x'
  {
  }

  lemma TwoDigits(t: string, h: nat, l: nat)
    requires |t| > 5 && t[2] == 'x' && h < 16 && l < 16 && t[3] == HexDigit(h) && t[4] == HexDigit(l)
    ensures Backwards(t, 4, 2, 16, 1, 0) == Some(16 * h + l)
  {
    assert Backwards(t, 2, 2, 16, 256, l + 16 * h) == Some(16 * h + l);
    OneDigit(t, 3, h, 16, l);
    OneDigit(t, 4, l, 1, 0);
  }

  lemma OneDigit(t: string, q: nat, d: nat, mult: nat, ucs: nat)
    requires 2 < q < |t| && t[2] == 'x' && d < 16 && t[q] == HexDigit(d) && mult * 16 < WORD && ucs + mult * d < WORD
    ensures Backwards(t, q, 2, 16, mult, ucs) == Backwards(t, q - 1, 2, 16, mult * 16, ucs + mult * d)
  {
    DigitReads(d);
    Under(mult * 16);
    Under(ucs + mult * d);
  }

  lemma Under(n: nat)
    requires n < WORD
    ensures n % WORD == n
  {
  }

  lemma ControlReads(c: char, z: string)
    requires c as int < 32
    ensures GetChar(Escape(c) + z) == Read([c], z)
  {
    var h, l := c as int / 16, c as int % 16;
    var t := Escape(c) + z;
    DigitReads(h);
    DigitReads(l);
    assert t[..6] == Escape(c) && t[6..] == z;
    assert t[0] == '&' && t[1] == '#' && t[2] == 'x' && t[3] == HexDigit(h) && t[4] == HexDigit(l) && t[5] == ';';
    FirstSemiIs(t, 3, 5);
    TwoDigits(t, h, l);
  }

  /** A reference by name. */
  lemma NamedReads(e: string, c: char, t: string)
    requires c as int >= 32 && e == Escape(c) && |e| > 1 && e <= t
    ensures GetChar(t) == Read([c], t[|e|..])
  {
    assert t[0] == '&' && t[1] == e[1] && t[1] != '#';
    assert t[1] != 'a' || t[2] == e[2];
  }

  lemma EscapeReads(c: char, z: string)
    requires c as int < 256
    ensures GetChar(Escape(c) + z) == Read([c], z)
  {
    var e := Escape(c);
    var t := e + z;
    assert t[..|e|] == e && t[|e|..] == z;
    if c as int < 32 {
      ControlReads(c, z);
    } else if |e| > 1 {
      NamedReads(e, c, t);
    }
  }

  lemma EncodeNext(v: string, z: string)
    requires v != [] && !StartsHex(v)
    ensures Encode(v) + z == Escape(v[0]) + (Encode(v[1..]) + z)
    ensures Encode(v) + z != [] && (Encode(v) + z)[0] == Escape(v[0])[0]
  {
    var e, r := Escape(v[0]), Encode(v[1..]);
    assert Encode(v) == e + r;
    Associate(e, r, z);
  }

  // ---------- names ----------

  lemma {:induction false} NameEnds(n: string, z: string, i: nat)
    requires i <= |n| && forall k :: 0 <= k < |n| ==> InName(n[k])
    requires z == [] || !InName(z[0])
    ensures NameEnd(n + z, i) == |n|
    decreases |n| - i
  {
    if i < |n| {
      assert (n + z)[i] == n[i];
      NameEnds(n, z, i + 1);
    }
  }

  // ---------- attribute values ----------

  predicate IsQuote(q: char) {
    q == '\"' || q == '\''
  }

  lemma ValueStep(t: string, q: char, c: char, more: string)
    requires t != [] && t[0] != q && GetChar(t) == Read([c], more)
    ensures ReadValue(t, q) == Prepend([c], ReadValue(more, q))
  {
  }

  lemma EscapeStarts(c: char)
    ensures c == '\"' || c == '\'' || c == '<' ==> Escape(c)[0] != c
    ensures Escape(c)[0] != '\"' && Escape(c)[0] != '\'' && Escape(c)[0] != '<'
    ensures c != ' ' ==> !IsSpace(Escape(c)[0])
  {
  }

  lemma {:induction false} ValueReads(v: string, q: char, rest: string)
    requires IsString(v) && NoHex(v) && IsQuote(q) && rest != []
    ensures ReadValue(Encode(v) + ([q] + rest), q) == Read(v, rest)
    decreases |v|
  {
    var z := [q] + rest;
    if v == [] {
      assert Encode(v) + z == z && z[1..] == rest;
    } else {
      NoHexTail(v);
      ValueReads(v[1..], q, rest);
      EncodeNext(v, z);
      EscapeReads(v[0], Encode(v[1..]) + z);
      EscapeStarts(v[0]);
      ValueStep(Encode(v) + z, q, v[0], Encode(v[1..]) + z);
      assert [v[0]] + v[1..] == v;
    }
  }

  // ---------- element text ----------

  /** What condensing white space leaves alone: no space at the end, none after another. */
  ghost predicate Condensed(v: string) {
    (v != [] ==> v[|v| - 1] != ' ')
    && forall i {:trigger v[i]} :: 0 <= i && i + 1 < |v| && v[i] == ' ' ==> v[i + 1] != ' '
  }

  lemma CondensedTail(v: string)
    requires v != [] && Condensed(v)
    ensures Condensed(v[1..]) && (v[0] == ' ' ==> v[1..] != [] && v[1] != ' ')
  {
    var t := v[1..];
    forall i | 0 <= i && i + 1 < |t| && t[i] == ' ' ensures t[i + 1] != ' ' {
      assert v[i + 1] == ' ';
    }
  }

  /** Where text ends: white space, then a tag. */
  predicate AtTag(z: string) {
    |Skip(z)| > 1 && Skip(z)[0] == '<'
  }

  lemma {:induction false} TagReads(z: string, space: bool)
    requires AtTag(z)
    ensures ReadCondensed(z, space) == Read("", Skip(z))
    decreases |z|
  {
    if IsSpace(z[0]) {
      TagReads(z[1..], true);
    }
  }

  lemma TextStep(t: string, space: bool, c: char, more: string)
    requires t != [] && t[0] != '<' && !IsSpace(t[0]) && GetChar(t) == Read([c], more)
    ensures ReadCondensed(t, space) == Prepend((if space then " " else "") + [c], ReadCondensed(more, false))
  {
  }

  lemma SpaceStep(t: string, space: bool)
    requires t != [] && IsSpace(t[0])
    ensures ReadCondensed(t, space) == ReadCondensed(t[1..], true)
  {
  }

  function Gap(space: bool): string {
    if space then " " else ""
  }

  lemma Joined(space: bool, c: char, w: string, r: string)
    ensures Prepend((if space then " " else "") + [c], Read(w, r)) == Read(Gap(space) + ([c] + w), r)
  {
    assert Gap(space) + ([c] + w) == (Gap(space) + [c]) + w;
  }

  lemma {:induction false} TextReads(v: string, z: string, space: bool)
    requires IsString(v) && NoHex(v) && Condensed(v) && AtTag(z)
    requires space && v != [] ==> v[0] != ' '
    ensures ReadCondensed(Encode(v) + z, space) == Read(Gap(space && v != []) + v, Skip(z))
    decreases |v|
  {
    if v == [] {
      assert Encode(v) + z == z;
      TagReads(z, space);
    } else {
      var c, w := v[0], v[1..];
      NoHexTail(v);
      CondensedTail(v);
      EncodeNext(v, z);
      var more := Encode(w) + z;
      assert v == [c] + w;
      if c == ' ' {
        assert (Escape(' ') + more)[1..] == more;
        SpaceStep(Encode(v) + z, space);
        TextReads(w, z, true);
        assert Gap(true) + w == v == Gap(false) + v;
      } else {
        TextReads(w, z, false);
        assert Gap(false) + w == w;
        EscapeReads(c, more);
        EscapeStarts(c);
        TextStep(Encode(v) + z, space, c, more);
        Joined(space, c, w, Skip(z));
      }
    }
  }

  // ---------- exactly which values survive ----------

  lemma {:induction false} ReadShortens(t: string, q: char)
    ensures ReadValue(t, q).Read? ==> |ReadValue(t, q).rest| < |t|
  {
  }

  /** No value can be read back longer, and none that holds "&#x" as long as it was. */
  lemma {:induction false} ValueShrinks(v: string, q: char, rest: string)
    requires IsString(v) && IsQuote(q)
    ensures var r := ReadValue(Encode(v) + ([q] + rest), q);
      r.Read? ==> |r.rest| < |rest| || (|r.out| <= |v| && (NoHex(v) || |r.out| < |v|))
    decreases |v|
  {
    var z := [q] + rest;
    if v == [] {
      assert Encode(v) + z == z;
    } else if StartsHex(v) {
      HexShrinks(v, q, rest);
    } else {
      ValueShrinks(v[1..], q, rest);
      EncodeNext(v, z);
      EscapeReads(v[0], Encode(v[1..]) + z);
      EscapeStarts(v[0]);
      ValueStep(Encode(v) + z, q, v[0], Encode(v[1..]) + z);
      if NoHex(v[1..]) && !NoHex(v) {
        var i :| 0 <= i && i + 2 < |v| && v[i] == '&' && v[i + 1] == '#' && v[i + 2] == 'x';
        assert i > 0;
        assert v[1..][i - 1] == '&' && v[1..][i] == '#' && v[1..][i + 1] == 'x';
      }
    }
  }

  /** The reference swallows at least three characters and yields one. */
  lemma {:induction false} HexShrinks(v: string, q: char, rest: string)
    requires IsString(v) && IsQuote(q) && StartsHex(v)
    ensures var r := ReadValue(Encode(v) + ([q] + rest), q);
      r.Read? ==> |r.rest| < |rest| || |r.out| < |v|
    decreases |v|, 0
  {
    var z := [q] + rest;
    var j := PassEnd(v, 1);
    var third := v[2];
    var t := v[..j] + (Encode(v[j..]) + z);
    assert Encode(v) + z == t;
    var k := FirstSemi(t, 3);
    ReferenceReads(t, q);
    if k < |t| {
      if v[j] == ';' {
        SemiPasses(v, j, z, t);
        ValueShrinks(v[j + 1..], q, rest);
      } else {
        LastShrinks(v, j, z, t, k);
        ReadShortens(t[k + 1..], q);
        QuoteEnds(q, rest);
      }
    }
  }

  lemma QuoteEnds(q: char, rest: string)
    ensures ReadValue([q] + rest, q) == if rest == [] then Null else Read("", rest)
  {
    assert ([q] + rest)[1..] == rest;
  }

  lemma ReferenceReads(t: string, q: char)
    requires |t| > 3 && t[0] == '&' && t[1] == '#' && t[2] == 'x' && IsQuote(q)
    ensures var k := FirstSemi(t, 3); ReadValue(t, q).Read? ==>
      k < |t| && ReadValue(t[k + 1..], q).Read? && ReadValue(t, q).rest == ReadValue(t[k + 1..], q).rest
      && |ReadValue(t, q).out| == 1 + |ReadValue(t[k + 1..], q).out|
  {
  }

  lemma SemiPasses(v: string, j: nat, z: string, t: string)
    requires StartsHex(v) && j == PassEnd(v, 1) && v[j] == ';' && t == v[..j] + (Encode(v[j..]) + z)
    ensures FirstSemi(t, 3) == j >= 3 && t[j + 1..] == Encode(v[j + 1..]) + z
  {
    assert v[1] == '#' && v[2] == 'x';
    assert v[j..][1..] == v[j + 1..];
    EncodeNext(v[j..], z);
    assert t[j..] == [';'] + (Encode(v[j + 1..]) + z);
    FirstSemiIs(t, 3, j);
  }

  /** u is what follows some semicolon of z. */
  ghost predicate BehindSemi(z: string, u: string) {
    exists i :: 0 <= i < |z| && z[i] == ';' && u == z[i + 1..]
  }

  /** Without a semicolon the whole value, or more than it, goes into the reference. */
  lemma LastShrinks(v: string, j: nat, z: string, t: string, k: nat)
    requires StartsHex(v) && j == |v| - 1 && v[j] != ';' && z != [] && z[0] != ';'
    requires forall i :: 1 <= i < j ==> v[i] != ';'
    requires t == v[..j] + (Encode(v[j..]) + z) && k == FirstSemi(t, 3) && k < |t|
    ensures t[k + 1..] == z || BehindSemi(z, t[k + 1..])
    ensures t[k + 1..] == z || |t[k + 1..]| < |z|
  {
    var e := Escape(v[j]);
    assert v[j..][1..] == [] && Encode(v[j..]) == e;
    assert t[j..j + |e|] == e && t[j + |e|..] == z;
    assert k >= j;
    if k < j + |e| {
      assert e[k - j] == ';';
      EscapeEnds(v[j], k - j);
    } else {
      var i := k - (j + |e|);
      assert t[k] == z[i] && t[k + 1..] == z[i + 1..];
    }
  }

  lemma EscapeEnds(c: char, i: nat)
    requires i < |Escape(c)| && Escape(c)[i] == ';'
    ensures i == |Escape(c)| - 1
  {
    if c as int < 32 {
      DigitReads(c as int / 16);
      DigitReads(c as int % 16);
    }
  }

  /** An attribute value survives printing and reading exactly when it does not hold "&#x". */
  lemma ValueReadsIff(v: string, q: char, rest: string)
    requires IsString(v) && IsQuote(q) && rest != []
    ensures ReadValue(Encode(v) + ([q] + rest), q) == Read(v, rest) <==> NoHex(v)
  {
    ValueShrinks(v, q, rest);
    if NoHex(v) {
      ValueReads(v, q, rest);
    }
  }

  /** A value that holds a reference of its own comes back as what the reference stands for. */
  lemma HexReferenceLost(rest: string)
    requires rest != []
    ensures Encode("&#x41;") == "&#x41;"
    ensures ReadValue(Encode("&#x41;") + (['"'] + rest), '"') == Read("A", rest)
  {
    var v := "&#x41;";
    assert PassEnd(v, 1) == PassEnd(v, 4) == 5;
    assert v[5..] == ";" && Encode(";") == ";" + Encode([]);
    var t := v + (['"'] + rest);
    assert FirstSemi(t, 3) == FirstSemi(t, 5) == 5;
    assert Backwards(t, 4, 2, 16, 1, 0) == Some(0x41);
    assert t[6..] == ['"'] + rest;
    assert ReadValue(t[6..], '"') == Read("", rest);
  }
}
