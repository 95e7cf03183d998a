/** Exactly which texts of elements survive printing and reading. */
module XmlTextExact {
  import opened Basics
  import opened XmlText
  import opened XmlTextProofs

  function One(space: bool): nat {
    if space then 1 else 0
  }

  /** Nothing of v is lost when it is read behind white space, or behind none. */
  ghost predicate Keeps(v: string, space: bool) {
    NoHex(v) && Condensed(v) && (space ==> v != [] && v[0] != ' ')
  }

  /** What was read is no longer than v and the space in front of it, and shorter if something was lost. */
  ghost predicate NotLonger(r: Read, v: string, space: bool, z: string) {
    r.Read? ==> |r.rest| < |Skip(z)| || (|r.out| <= |v| + One(space) && (Keeps(v, space) || |r.out| < |v| + One(space)))
  }

  lemma KeepsPlain(v: string, space: bool)
    requires v != [] && v[0] != ' ' && !StartsHex(v) && Keeps(v[1..], false)
    ensures Keeps(v, space)
  {
    NoHexPush(v);
    CondensedPush(v);
  }

  lemma KeepsSpace(v: string)
    requires v != [] && v[0] == ' ' && Keeps(v[1..], true)
    ensures Keeps(v, false)
  {
    NoHexPush(v);
    CondensedPush(v);
  }

  lemma NoHexPush(v: string)
    requires v != [] && !StartsHex(v) && NoHex(v[1..])
    ensures NoHex(v)
  {
    var w := v[1..];
    forall i {:trigger v[i]} | 0 <= i && i + 2 < |v| && v[i] == '&' && v[i + 1] == '#'
      ensures v[i + 2] != 'x'
    {
      assert i > 0 ==> w[i - 1] == v[i] && w[i] == v[i + 1] && w[i + 1] == v[i + 2];
    }
  }

  lemma CondensedPush(v: string)
    requires v != [] && Condensed(v[1..]) && (v[0] == ' ' ==> |v| > 1 && v[1] != ' ')
    ensures Condensed(v)
  {
    var w := v[1..];
    assert w != [] ==> v[|v| - 1] == w[|w| - 1];
    forall i {:trigger v[i]} | 0 <= i && i + 1 < |v| && v[i] == ' '
      ensures v[i + 1] != ' '
    {
      assert i > 0 ==> w[i - 1] == ' ' && w[i] == v[i + 1];
    }
  }

  lemma {:induction false} SemiNotSkipped(z: string, i: nat)
    requires i < |z| && z[i] == ';' && !IsSpace(';')
    ensures |z[i + 1..]| < |Skip(z)|
  {
    if i > 0 && IsSpace(z[0]) {
      SemiNotSkipped(z[1..], i - 1);
    }
  }

  lemma ReferenceText(t: string, space: bool)
    requires |t| > 3 && t[0] == '&' && t[1] == '#' && t[2] == 'x'
    ensures var k := FirstSemi(t, 3); ReadCondensed(t, space).Read? ==>
      k < |t| && ReadCondensed(t[k + 1..], false).Read? && ReadCondensed(t, space).rest == ReadCondensed(t[k + 1..], false).rest
      && |ReadCondensed(t, space).out| == One(space) + 1 + |ReadCondensed(t[k + 1..], false).out|
  {
    assert !IsSpace('&');
  }

  lemma {:induction false} TextShrinks(v: string, z: string, space: bool)
    requires IsString(v) && AtTag(z)
    ensures NotLonger(ReadCondensed(Encode(v) + z, space), v, space, z)
    decreases |v|, 1
  {
    if v == [] {
      assert Encode(v) + z == z;
      TagReads(z, space);
    } else if StartsHex(v) {
      HexTextShrinks(v, z, space);
    } else {
      var w, more := v[1..], Encode(v[1..]) + z;
      EncodeNext(v, z);
      if v[0] == ' ' {
        assert (Escape(' ') + more)[1..] == more;
        SpaceStep(Encode(v) + z, space);
        TextShrinks(w, z, true);
        if Keeps(w, true) {
          KeepsSpace(v);
        }
      } else {
        TextShrinks(w, z, false);
        EscapeReads(v[0], more);
        EscapeStarts(v[0]);
        TextStep(Encode(v) + z, space, v[0], more);
        if Keeps(w, false) {
          KeepsPlain(v, space);
        }
      }
    }
  }

  lemma {:induction false} HexTextShrinks(v: string, z: string, space: bool)
    requires IsString(v) && AtTag(z) && StartsHex(v)
    ensures NotLonger(ReadCondensed(Encode(v) + z, space), v, space, z)
    decreases |v|, 0
  {
    var j := PassEnd(v, 1);
    var third := v[2];
    var t := v[..j] + (Encode(v[j..]) + z);
    assert Encode(v) + z == t;
    var k := FirstSemi(t, 3);
    ReferenceText(t, space);
    if k < |t| {
      if v[j] == ';' {
        SemiPasses(v, j, z, t);
        TextShrinks(v[j + 1..], z, false);
      } else {
        LastShrinks(v, j, z, t, k);
        if t[k + 1..] == z {
          TagReads(z, false);
        } else {
          var i :| 0 <= i < |z| && z[i] == ';' && t[k + 1..] == z[i + 1..];
          SemiNotSkipped(z, i);
        }
      }
    }
  }

  /** A text can be read back at all only if it starts with no space. */
  ghost predicate ReadableText(v: string) {
    NoHex(v) && Condensed(v) && (v != [] ==> v[0] != ' ')
  }

  lemma {:induction false} StartShrinks(v: string, z: string)
    requires IsString(v) && AtTag(z)
    ensures var r := ReadCondensed(Skip(Encode(v) + z), false);
      r.Read? ==> |r.rest| < |Skip(z)| || (|r.out| <= |v| && (ReadableText(v) || |r.out| < |v|))
  {
    var t := Encode(v) + z;
    if v == [] {
      assert t == z;
    } else if v[0] == ' ' {
      EncodeNext(v, z);
      assert t[1..] == Encode(v[1..]) + z;
      StartShrinks(v[1..], z);
    } else {
      FirstStays(v, z);
      TextShrinks(v, z, false);
    }
  }

  lemma FirstStays(v: string, z: string)
    requires IsString(v) && v != [] && v[0] != ' '
    ensures Skip(Encode(v) + z) == Encode(v) + z
  {
    if StartsHex(v) {
      var j := PassEnd(v, 1);
      assert Encode(v) == v[..j] + Encode(v[j..]);
    } else {
      EncodeNext(v, z);
      EscapeStarts(v[0]);
    }
  }

  /** The text of an element survives printing and reading if and only if it holds no "&#x" and no leading,
      trailing or doubled space. */
  lemma TextReadsIff(v: string, z: string)
    requires IsString(v) && AtTag(z)
    ensures ReadCondensed(Skip(Encode(v) + z), false) == Read(v, Skip(z)) <==> ReadableText(v)
  {
    StartShrinks(v, z);
    if ReadableText(v) {
      TextReads(v, z, false);
      if v == [] {
        assert Encode(v) + z == z;
        TagReads(Skip(z), false);
        SkipSkips(z);
      } else {
        FirstStays(v, z);
        assert Gap(false) + v == v;
      }
    }
  }

  lemma {:induction false} SkipSkips(z: string)
    ensures Skip(Skip(z)) == Skip(z)
  {
    if z != [] && IsSpace(z[0]) {
      SkipSkips(z[1..]);
    }
  }

  /** Two spaces come back as one. */
  lemma DoubledSpaceLost(z: string)
    requires AtTag(z)
    ensures ReadCondensed(Skip(Encode("a  b") + z), false) != Read("a  b", Skip(z))
  {
    var v := "a  b";
    assert v[1] == ' ' && v[2] == ' ';
    TextReadsIff(v, z);
  }
}
