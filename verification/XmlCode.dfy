/** TinyXML's routines over a character buffer, each proved to compute its function of XmlText or XmlTree. */
module XmlCode {
  import opened Basics
  import opened XmlText
  import opened XmlTextProofs
  import opened XmlTree

  /** A null pointer; any other pointer is an index into the buffer, its end standing for the NUL. */
  const NULL := -1

  type Pointer = int

  predicate Points(s: string, p: Pointer) {
    p == NULL || 0 <= p <= |s|
  }

  /** What a pointer points at. */
  function Rest(s: string, p: Pointer): string
    requires Points(s, p)
  {
    if p == NULL then "" else s[p..]
  }

  /** q and out are what r says. */
  ghost predicate Reads(s: string, q: Pointer, out: string, r: Read) {
    match r
    case Null => q == NULL
    case Read(o, rest) => 0 <= q <= |s| && s[q..] == rest && out == o
  }

  // ---------- EncodeString ----------

  lemma PassEndNext(s: string, i: nat)
    requires i < |s|
    ensures PassEnd(s, i) == if i == |s| - 1 || s[i] == ';' then i else PassEnd(s, i + 1)
  {
  }

  lemma PlainStep(total: string, before: string, s: string)
    requires before + Encode(s) == total && s != [] && !StartsHex(s)
    ensures (before + Escape(s[0])) + Encode(s[1..]) == total
  {
  }

  lemma HexStep(total: string, before: string, s: string)
    requires before + Encode(s) == total && s != [] && StartsHex(s)
    ensures (before + s[..PassEnd(s, 1)]) + Encode(s[PassEnd(s, 1)..]) == total
  {
    var j := PassEnd(s, 1);
    assert Encode(s) == s[..j] + Encode(s[j..]);
  }

  /** The characters EncodeString appends for one that stands alone. */
  method EscapeChar(c: char) returns (e: string)
    ensures e == Escape(c)
  {
    if c == '&' {
      e := "&amp;";
    } else if c == '<' {
      e := "&lt;";
    } else if c == '>' {
      e := "&gt;";
    } else if c == '\"' {
      e := "&quot;";
    } else if c == '\'' {
      e := "&apos;";
    } else if c as int < 32 {
      e := "&#x" + [HexDigit(c as int / 16), HexDigit(c as int % 16)] + ";";
    } else {
      e := [c];
    }
  }

  /** Appends an escaped string to out0. */
  method EncodeString(str: string, out0: string) returns (out: string)
    ensures out == out0 + Encode(str)
  {
    out := out0;
    var i := 0;
    ghost var total := out0 + Encode(str);
    assert str[0..] == str;
    while i < |str|
      invariant 0 <= i <= |str|
      invariant out + Encode(str[i..]) == total
    {
      ghost var s := str[i..];
      var c := str[i];
      if c == '&' && i < |str| - 2 && str[i + 1] == '#' && str[i + 2] == 'x' {
        HexStep(total, out, s);
        out, i := PassReference(str, i, out);
      } else {
        PlainStep(total, out, s);
        assert s[1..] == str[i + 1..];
        var e := EscapeChar(c);
        out := out + e;
        i := i + 1;
      }
    }
    assert out == out + Encode(str[i..]);
  }

  /** The inner loop: a reference is copied up to its semicolon. */
  method PassReference(str: string, i0: nat, out0: string) returns (out: string, i: nat)
    requires i0 < |str| && StartsHex(str[i0..])
    ensures i <= |str| && out == out0 + str[i0..][..PassEnd(str[i0..], 1)]
    ensures i == i0 + PassEnd(str[i0..], 1) && str[i..] == str[i0..][PassEnd(str[i0..], 1)..]
  {
    ghost var s := str[i0..];
    out, i := out0, i0;
    while i < |str| - 1
      invariant i0 <= i < |str| && out == out0 + str[i0..i]
      invariant PassEnd(s, if i == i0 then 1 else i - i0) == PassEnd(s, 1)
      invariant i > i0 ==> str[i] != ';'
    {
      out := out + [str[i]];
      i := i + 1;
      assert s[i - i0] == str[i];
      PassEndNext(s, i - i0);
      if str[i] == ';' {
        break;
      }
    }
  }

  // ---------- white space, names and comparisons ----------

  method SkipWhiteSpace(s: string, p: Pointer) returns (q: Pointer)
    requires Points(s, p)
    ensures Points(s, q) && Rest(s, q) == Skip(Rest(s, p)) && (q == NULL <==> p == NULL || p == |s|)
    ensures q != NULL ==> p <= q
  {
    if p == NULL || p == |s| {
      return NULL;
    }
    q := p;
    while q < |s| && IsSpace(s[q])
      invariant p <= q <= |s| && Skip(s[q..]) == Skip(s[p..])
    {
      assert s[q..][1..] == s[q + 1..];
      q := q + 1;
    }
  }

  method StringEqual(s: string, p: Pointer, tag: string) returns (b: bool)
    requires 0 <= p < |s|
    ensures b <==> tag <= s[p..]
  {
    var q, i := p, 0;
    while q < |s| && i < |tag| && s[q] == tag[i]
      invariant 0 <= i <= |tag| && q == p + i <= |s| && s[p..q] == tag[..i]
    {
      q, i := q + 1, i + 1;
    }
    b := i == |tag|;
    if b {
      assert tag == s[p..q] == s[p..][..i];
    } else if i < |s| - p {
      assert s[p..][i] == s[q] != tag[i];
    }
  }

  method ReadNameAt(s: string, p: Pointer) returns (q: Pointer, name: string)
    requires Points(s, p)
    ensures Reads(s, q, name, ReadName(Rest(s, p)))
  {
    name := "";
    if p != NULL && p < |s| && StartsName(s[p]) {
      q := p;
      while q < |s| && InName(s[q])
        invariant p <= q <= |s| && forall k :: p <= k < q ==> InName(s[k])
      {
        q := q + 1;
      }
      name := s[p..q];
      assert s[p..] == name + s[q..];
      NameEnds(name, s[q..], 0);
    } else {
      q := NULL;
    }
  }

  // ---------- GetEntity and GetChar ----------

  lemma {:induction false} FirstSemiShifts(s: string, p: nat, i: nat)
    requires p + i <= |s|
    ensures FirstSemi(s, p + i) == p + FirstSemi(s[p..], i)
    decreases |s| - i
  {
    if p + i < |s| && s[p + i] != ';' {
      FirstSemiShifts(s, p, i + 1);
    }
  }

  lemma {:induction false} BackwardsShifts(s: string, p: nat, q: nat, stop: nat, base: nat, mult: nat, ucs: nat)
    requires stop <= q && p + q < |s| && (base == 10 || base == 16)
    ensures Backwards(s, p + q, p + stop, base, mult, ucs) == Backwards(s[p..], q, stop, base, mult, ucs)
    decreases q
  {
    assert s[p..][q] == s[p + q] && s[p..][stop] == s[p + stop];
    if q != stop && s[p + q] != s[p + stop] && DigitOf(s[p + q], base) != base {
      BackwardsShifts(s, p, q - 1, stop, base, mult * base % WORD, (ucs + mult * DigitOf(s[p + q], base)) % WORD);
    }
  }

  /** The digits before k, read back to the character at stop. */
  method ReadDigits(s: string, k: nat, stop: nat, base: nat) returns (r: Option<nat>)
    requires stop < k <= |s| && (base == 10 || base == 16)
    ensures r == Backwards(s, k - 1, stop, base, 1, 0)
  {
    var mult: nat, ucs: nat := 1, 0;
    var q := k - 1;
    while s[q] != s[stop]
      invariant stop <= q < |s|
      invariant Backwards(s, q, stop, base, mult, ucs) == Backwards(s, k - 1, stop, base, 1, 0)
      decreases q
    {
      var d := DigitOf(s[q], base);
      if d == base {
        return None;
      }
      ucs := (ucs + mult * d) % WORD;
      mult := mult * base % WORD;
      q := q - 1;
    }
    r := Some(ucs);
  }

  /** A numeric reference: its digits lie between stop and the next semicolon. */
  method ReadNumber(s: string, p: Pointer, stop: Pointer, base: nat) returns (q: Pointer, value: string)
    requires 0 <= p <= stop && stop + 1 < |s| && (base == 10 || base == 16)
    ensures Reads(s, q, value, Numeric(s[p..], stop - p, base))
  {
    q, value := NULL, "";
    var k := FirstSemi(s, stop + 1);
    FirstSemiShifts(s, p, stop + 1 - p);
    if k < |s| {
      BackwardsShifts(s, p, k - 1 - p, stop - p, base, 1, 0);
      var ucs := ReadDigits(s, k, stop, base);
      if ucs.Some? {
        value := [(ucs.value % 256) as char];
        q := k + 1;
        assert s[p..][k - p + 1..] == s[q..];
      }
    }
  }

  method GetEntityAt(s: string, p: Pointer) returns (q: Pointer, value: string)
    requires 0 <= p < |s|
    ensures Reads(s, q, value, GetEntity(s[p..]))
  {
    ghost var t := s[p..];
    if p + 2 < |s| && s[p + 1] == '#' {
      if s[p + 2] == 'x' {
        if p + 3 == |s| {
          return NULL, "";
        }
        q, value := ReadNumber(s, p, p + 2, 16);
      } else {
        q, value := ReadNumber(s, p, p + 1, 10);
      }
    } else {
      var entities := [("&amp;", '&'), ("&lt;", '<'), ("&gt;", '>'), ("&quot;", '\"'), ("&apos;", '\'')];
      var i := 0;
      while i < 5
        invariant 0 <= i <= 5
        invariant i > 0 ==> !("&amp;" <= t)
        invariant i > 1 ==> !("&lt;" <= t)
        invariant i > 2 ==> !("&gt;" <= t)
        invariant i > 3 ==> !("&quot;" <= t)
        invariant i > 4 ==> !("&apos;" <= t)
      {
        var found := StringEqual(s, p, entities[i].0);
        if found {
          q := p + |entities[i].0|;
          assert t[|entities[i].0|..] == s[q..];
          return q, [entities[i].1];
        }
        i := i + 1;
      }
      q, value := p + 1, "";
    }
  }

  method GetCharAt(s: string, p: Pointer) returns (q: Pointer, value: string)
    requires 0 <= p < |s|
    ensures Reads(s, q, value, GetChar(s[p..]))
  {
    if s[p] == '&' {
      q, value := GetEntityAt(s, p);
    } else {
      q, value := p + 1, [s[p]];
      assert s[p..][..1] == [s[p]];
    }
  }

  // ---------- ReadText ----------

  lemma ValueEnds(t: string, q: char)
    requires t != [] && t[0] == q
    ensures ReadValue(t, q) == if |t| == 1 then Null else Read("", t[1..])
  {
  }

  lemma ValueMoves(t: string, q: char, total: Read, before: string)
    requires total == Prepend(before, ReadValue(t, q)) && t != [] && t[0] != q
    ensures GetChar(t).Null? ==> total == Null
    ensures GetChar(t).Read? ==> total == Prepend(before + GetChar(t).out, ReadValue(GetChar(t).rest, q))
  {
    if GetChar(t).Read? && ReadValue(GetChar(t).rest, q).Read? {
      var out, more := GetChar(t).out, ReadValue(GetChar(t).rest, q).out;
      assert before + (out + more) == (before + out) + more;
    }
  }

  /** ReadText keeping white space, up to a quote. */
  method ReadTextKept(s: string, p: Pointer, quote: char) returns (q: Pointer, text: string)
    requires 0 <= p <= |s|
    ensures Reads(s, q, text, ReadValue(s[p..], quote))
  {
    q, text := p, "";
    ghost var total := ReadValue(s[p..], quote);
    assert total == Prepend("", ReadValue(s[p..], quote));
    while q != NULL && q < |s| && s[q] != quote
      invariant Points(s, q)
      invariant total == if q == NULL then Null else Prepend(text, ReadValue(s[q..], quote))
      decreases if q == NULL then 0 else 1 + |s| - q
    {
      ValueMoves(s[q..], quote, total, text);
      var value;
      q, value := GetCharAt(s, q);
      text := text + value;
    }
    if q != NULL && q < |s| {
      ValueEnds(s[q..], quote);
      assert s[q..][1..] == s[q + 1..];
      q := q + 1;
    }
    if q == |s| {
      q := NULL;
    }
  }

  lemma CondensedMoves(t: string, space: bool, total: Read, before: string)
    requires total == Prepend(before, ReadCondensed(t, space)) && t != [] && t[0] != '<'
    ensures IsSpace(t[0]) ==> total == Prepend(before, ReadCondensed(t[1..], true))
    ensures !IsSpace(t[0]) && GetChar(t).Null? ==> total == Null
    ensures !IsSpace(t[0]) && GetChar(t).Read? ==>
      total == Prepend(before + (if space then " " else "") + GetChar(t).out, ReadCondensed(GetChar(t).rest, false))
  {
    if !IsSpace(t[0]) && GetChar(t).Read? && ReadCondensed(GetChar(t).rest, false).Read? {
      var gap, out, more := if space then " " else "", GetChar(t).out, ReadCondensed(GetChar(t).rest, false).out;
      assert before + ((gap + out) + more) == ((before + gap) + out) + more;
    }
  }

  lemma PrependNothing(r: Read)
    ensures Prepend("", r) == r
  {
  }

  /** ReadText condensing white space, up to a tag. */
  method ReadTextCondensed(s: string, p0: Pointer) returns (q: Pointer, text: string)
    requires Points(s, p0)
    ensures match ReadCondensed(Skip(Rest(s, p0)), false)
      case Null => q == NULL
      case Read(out, rest) => 0 < q < |s| && s[q - 1..] == rest && text == out
  {
    text := "";
    q := SkipWhiteSpace(s, p0);
    var whitespace := false;
    ghost var total := ReadCondensed(Skip(Rest(s, p0)), false);
    PrependNothing(total);
    while q != NULL && q < |s| && s[q] != '<'
      invariant Points(s, q)
      invariant total == if q == NULL then Null else Prepend(text, ReadCondensed(s[q..], whitespace))
      decreases if q == NULL then 0 else 1 + |s| - q
    {
      CondensedMoves(s[q..], whitespace, total, text);
      if IsSpace(s[q]) {
        assert s[q..][1..] == s[q + 1..];
        whitespace := true;
        q := q + 1;
      } else {
        text := text + if whitespace then " " else "";
        whitespace := false;
        var value;
        q, value := GetCharAt(s, q);
        text := text + value;
      }
    }
    if q != NULL && q < |s| {
      q := q + 1;
    }
    if q == |s| {
      q := NULL;
    }
  }
}
