/** UTF-8 in its original form, up to six bytes (section 2 of RFC 2279), as gSOAP and TinyXML write and read it. */
module Unicode {
  import opened Memory

  // ---------- the encoding ----------

  /** c without its low 6k bits. */
  function Drop(c: nat, k: nat): (r: nat) {
    if k == 0 then c else Drop(c, k - 1) / 64
  }

  /** How many bytes follow the first one. */
  function Tail(c: int): (k: nat)
    ensures k < 6
  {
    if c < 0x80 then 0 else if c < 0x800 then 1 else if c < 0x1_0000 then 2
    else if c < 0x20_0000 then 3 else if c < 0x400_0000 then 4 else 5
  }

  /** The marker of a first byte that k bytes follow. */
  function Mark(k: nat): (m: nat)
    requires 1 <= k <= 5
  {
    if k == 1 then 0xC0 else if k == 2 then 0xE0 else if k == 3 then 0xF0 else if k == 4 then 0xF8 else 0xFC
  }

  /** How many values the other bits of such a byte have. */
  function Room(k: nat): (m: nat)
    requires 1 <= k <= 5
    ensures m > 0 && Mark(k) % m == 0
  {
    if k == 1 then 32 else if k == 2 then 16 else if k == 3 then 8 else if k == 4 then 4 else 2
  }

  /** A byte after the first one. */
  function More(v: nat): (b: Byte)
    ensures 0x80 <= b < 0xC0 && b % 64 == v % 64
  {
    0x80 + v % 64
  }

  /** The low 6k bits, six to a byte. */
  function Low(c: nat, k: nat): (s: seq<Byte>)
    ensures |s| == k
    ensures forall i :: 0 <= i < k ==> 0x80 <= s[i] < 0xC0
  {
    if k == 0 then [] else [More(Drop(c, k - 1))] + Low(c, k - 1)
  }

  predicate Encodable(c: int) {
    0 < c < 0x8000_0000
  }

  lemma Drops(c: nat)
    ensures Drop(c, 1) == c / 64 && Drop(c, 2) == c / 0x1000 && Drop(c, 3) == c / 0x4_0000
    ensures Drop(c, 4) == c / 0x100_0000 && Drop(c, 5) == c / 0x4000_0000
  {
    assert Drop(c, 1) == c / 64;
    assert Drop(c, 2) == c / 64 / 64 == c / 0x1000;
    assert Drop(c, 3) == c / 0x1000 / 64 == c / 0x4_0000;
    assert Drop(c, 4) == c / 0x4_0000 / 64 == c / 0x100_0000;
    assert Drop(c, 5) == c / 0x100_0000 / 64 == c / 0x4000_0000;
  }

  lemma LeadFits(c: nat)
    requires 0x80 <= c < 0x8000_0000
    ensures Drop(c, Tail(c)) < Room(Tail(c))
  {
    Drops(c);
  }

  function Utf8(c: int): (s: seq<Byte>)
    requires Encodable(c)
    ensures 1 <= |s| <= 6 && forall i :: 0 <= i < |s| ==> s[i] != 0
  {
    if c < 0x80 then [c]
    else
      LeadFits(c);
      [Mark(Tail(c)) + Drop(c, Tail(c))] + Low(c, Tail(c))
  }

  lemma {:induction false} LowAt(c: nat, k: nat, i: nat)
    requires i < k
    ensures Low(c, k)[i] == 0x80 + Drop(c, k - 1 - i) % 64
  {
    if i > 0 {
      LowAt(c, k - 1, i - 1);
    }
  }

  /** Byte i of an encoding, 0 < i. */
  lemma ByteAt(c: nat, i: nat)
    requires 0x80 <= c < 0x8000_0000 && 1 <= i <= Tail(c)
    ensures |Utf8(c)| == Tail(c) + 1 && Utf8(c)[i] == 0x80 + Drop(c, Tail(c) - i) % 64
  {
    LowAt(c, Tail(c), i - 1);
  }

  lemma FirstByte(c: nat)
    requires 0x80 <= c < 0x8000_0000
    ensures Utf8(c)[0] == Mark(Tail(c)) + Drop(c, Tail(c))
  {
  }

  lemma UpToThree(c: nat)
    requires 0x80 <= c < 0x1_0000
    ensures c < 0x800 ==> Utf8(c) == [0xC0 + c / 0x40, 0x80 + c % 0x40]
    ensures c >= 0x800 ==> Utf8(c) == [0xE0 + c / 0x1000, 0x80 + c / 0x40 % 0x40, 0x80 + c % 0x40]
  {
    Drops(c);
    FirstByte(c);
    ByteAt(c, 1);
    if c >= 0x800 {
      ByteAt(c, 2);
    }
  }

  lemma FourBytes(c: nat)
    requires 0x1_0000 <= c < 0x20_0000
    ensures Utf8(c) == [0xF0 + c / 0x4_0000, 0x80 + c / 0x1000 % 0x40, 0x80 + c / 0x40 % 0x40, 0x80 + c % 0x40]
  {
    Drops(c);
    FirstByte(c);
    ByteAt(c, 1);
    ByteAt(c, 2);
    ByteAt(c, 3);
  }

  lemma FiveBytes(c: nat)
    requires 0x20_0000 <= c < 0x400_0000
    ensures Utf8(c) ==
      [0xF8 + c / 0x100_0000, 0x80 + c / 0x4_0000 % 0x40, 0x80 + c / 0x1000 % 0x40, 0x80 + c / 0x40 % 0x40, 0x80 + c % 0x40]
  {
    Drops(c);
    FirstByte(c);
    ByteAt(c, 1);
    ByteAt(c, 2);
    ByteAt(c, 3);
    ByteAt(c, 4);
  }

  lemma SixBytes(c: nat)
    requires 0x400_0000 <= c < 0x8000_0000
    ensures Utf8(c) ==
      [0xFC + c / 0x4000_0000, 0x80 + c / 0x100_0000 % 0x40, 0x80 + c / 0x4_0000 % 0x40, 0x80 + c / 0x1000 % 0x40,
       0x80 + c / 0x40 % 0x40, 0x80 + c % 0x40]
  {
    Drops(c);
    FirstByte(c);
    ByteAt(c, 1);
    ByteAt(c, 2);
    ByteAt(c, 3);
    ByteAt(c, 4);
    ByteAt(c, 5);
  }

  /** The table of section 2 of RFC 2279, whose first four lines are those of section 3 of RFC 3629. */
  lemma OctetTable(c: nat)
    requires 0 < c < 0x8000_0000
    ensures c < 0x80 ==> Utf8(c) == [c]
    ensures 0x80 <= c < 0x800 ==> Utf8(c) == [0xC0 + c / 0x40, 0x80 + c % 0x40]
    ensures 0x800 <= c < 0x1_0000 ==> Utf8(c) == [0xE0 + c / 0x1000, 0x80 + c / 0x40 % 0x40, 0x80 + c % 0x40]
    ensures 0x1_0000 <= c < 0x20_0000 ==>
      Utf8(c) == [0xF0 + c / 0x4_0000, 0x80 + c / 0x1000 % 0x40, 0x80 + c / 0x40 % 0x40, 0x80 + c % 0x40]
    ensures 0x20_0000 <= c < 0x400_0000 ==>
      Utf8(c) == [0xF8 + c / 0x100_0000, 0x80 + c / 0x4_0000 % 0x40, 0x80 + c / 0x1000 % 0x40, 0x80 + c / 0x40 % 0x40,
                  0x80 + c % 0x40]
    ensures 0x400_0000 <= c ==>
      Utf8(c) == [0xFC + c / 0x4000_0000, 0x80 + c / 0x100_0000 % 0x40, 0x80 + c / 0x4_0000 % 0x40,
                  0x80 + c / 0x1000 % 0x40, 0x80 + c / 0x40 % 0x40, 0x80 + c % 0x40]
  {
    if 0x80 <= c < 0x1_0000 {
      UpToThree(c);
    } else if 0x1_0000 <= c < 0x20_0000 {
      FourBytes(c);
    } else if 0x20_0000 <= c < 0x400_0000 {
      FiveBytes(c);
    } else if 0x400_0000 <= c {
      SixBytes(c);
    }
  }

  // ---------- decoding ----------

  /** How many bytes a first byte says follow. */
  function Follow(b: Byte): (k: nat)
    requires b >= 0x80
    ensures 1 <= k <= 5
  {
    if b < 0xE0 then 1 else if b < 0xF0 then 2 else if b < 0xF8 then 3 else if b < 0xFC then 4 else 5
  }

  /** Six more bits from each byte. */
  function Join(v: nat, cs: seq<Byte>): (c: nat)
    decreases |cs|
  {
    if cs == [] then v else Join(v * 64 + cs[0] % 64, cs[1..])
  }

  lemma {:induction false} JoinLow(c: nat, k: nat)
    ensures Join(Drop(c, k), Low(c, k)) == c
  {
    if k > 0 {
      var d := Drop(c, k - 1);
      assert Drop(c, k) * 64 + More(d) % 64 == d;
      assert Low(c, k)[1..] == Low(c, k - 1);
      JoinLow(c, k - 1);
    }
  }

  lemma MarkSplits(k: nat, d: nat)
    requires 1 <= k <= 5 && d < Room(k)
    ensures var b := Mark(k) + d; 0x80 <= b < 0x100 && Follow(b) == k && b % Room(k) == d
  {
  }

  /** The value of a first byte and those that follow it. */
  function Value(b: Byte, cs: seq<Byte>): (c: nat)
    requires b >= 0x80
  {
    Join(b % Room(Follow(b)), cs)
  }

  /** The first byte tells how many follow, and together they give the value back. */
  lemma Decodes(c: int)
    requires Encodable(c)
    ensures var s := Utf8(c);
      if c < 0x80 then s == [c]
      else s[0] >= 0x80 && Follow(s[0]) == |s| - 1 && Value(s[0], s[1..]) == c
  {
    if c >= 0x80 {
      var k := Tail(c);
      LeadFits(c);
      MarkSplits(k, Drop(c, k));
      JoinLow(c, k);
      assert Utf8(c)[1..] == Low(c, k);
    }
  }

  // ---------- the branches of the code ----------

  lemma Lows(c: nat)
    ensures Low(c, 1) == [More(c)]
    ensures Low(c, 2) == [More(c / 64)] + Low(c, 1)
    ensures Low(c, 3) == [More(c / 0x1000)] + Low(c, 2)
    ensures Low(c, 4) == [More(c / 0x4_0000)] + Low(c, 3)
    ensures Low(c, 5) == [More(c / 0x100_0000)] + Low(c, 4)
  {
    Drops(c);
    assert Low(c, 0) == [] && Drop(c, 0) == c;
  }

  lemma Onto(t: seq<Byte>, b: Byte, low: seq<Byte>)
    ensures t + ([b] + low) == (t + [b]) + low
  {
  }

  lemma Leads(c: nat)
    requires 0x80 <= c < 0x8000_0000
    ensures c < 0x800 ==> c / 64 % 32 == Drop(c, Tail(c))
    ensures 0x800 <= c < 0x1_0000 ==> c / 0x1000 % 16 == Drop(c, Tail(c))
    ensures 0x1_0000 <= c < 0x20_0000 ==> c / 0x4_0000 % 8 == Drop(c, Tail(c))
    ensures 0x20_0000 <= c < 0x400_0000 ==> c / 0x100_0000 % 4 == Drop(c, Tail(c))
    ensures 0x400_0000 <= c ==> c / 0x4000_0000 % 2 == Drop(c, Tail(c))
  {
    Drops(c);
  }

  /** The bytes of a long character up to the last two. */
  method PutLong(c: int) returns (t: seq<Byte>)
    requires 0x1_0000 <= c < 0x8000_0000
    ensures t + Low(c, 2) == Utf8(c)
  {
    Lows(c);
    Leads(c);
    ghost var all := Utf8(c);
    if c < 0x20_0000 {
      t := [0xF0 + c / 0x4_0000 % 8];
    } else {
      if c < 0x0400_0000 {
        t := [0xF8 + c / 0x100_0000 % 4];
      } else {
        t := [0xFC + c / 0x4000_0000 % 2];
        Onto(t, More(c / 0x100_0000), Low(c, 4));
        t := t + [More(c / 0x100_0000)];
      }
      assert t + Low(c, 4) == all;
      Onto(t, More(c / 0x4_0000), Low(c, 3));
      t := t + [More(c / 0x4_0000)];
    }
    assert t + Low(c, 3) == all;
    Onto(t, More(c / 0x1000), Low(c, 2));
    t := t + [More(c / 0x1000)];
  }

  /** The bytes gSOAP stores for a value from 0x80 on. */
  method PutMultibyte(c: int) returns (t: seq<Byte>)
    requires 0x80 <= c < 0x8000_0000
    ensures t == Utf8(c)
  {
    Lows(c);
    Leads(c);
    ghost var all := Utf8(c);
    if c < 0x0800 {
      t := [0xC0 + c / 64 % 32];
    } else {
      if c < 0x01_0000 {
        t := [0xE0 + c / 0x1000 % 16];
      } else {
        t := PutLong(c);
      }
      assert t + Low(c, 2) == all;
      Onto(t, More(c / 64), Low(c, 1));
      t := t + [More(c / 64)];
    }
    assert t + Low(c, 1) == all;
    t := t + [More(c)];
  }
}
