/** soap_string_out and soap_string_in, proved to compute SoapText's functions. */
module SoapTextCode {
  import opened Basics
  import opened Memory
  import opened Unicode
  import opened SoapText

  // ---------- writing ----------

  /** soap_pututf8 of a byte: what it sends. */
  method PutUtf8(c: Byte) returns (tmp: seq<Byte>)
    requires c != 0
    ensures tmp == Utf8(c)
  {
    if c < 0x80 {
      tmp := [c];
    } else {
      tmp := PutMultibyte(c);
    }
  }

  /** What is sent instead of a character; nothing when it stays in the run of plain characters. */
  method Replacement(c: Byte, flag: bool, canonical: bool) returns (send: bool, e: seq<Byte>)
    requires c != 0
    ensures if send then e == Escape(c, flag, canonical) else Escape(c, flag, canonical) == [c]
  {
    send, e := true, [];
    if c == 0x09 {
      send, e := flag, [38, 35, 120, 57, 59];
    } else if c == 0x0A {
      send, e := flag || !canonical, [38, 35, 120, 65, 59];
    } else if c == 0x0D {
      e := [38, 35, 120, 68, 59];
    } else if c == 38 {
      e := [38, 97, 109, 112, 59];
    } else if c == 60 {
      e := [38, 108, 116, 59];
    } else if c == 62 {
      send, e := !flag, [38, 103, 116, 59];
    } else if c == 34 {
      send, e := flag, [38, 113, 117, 111, 116, 59];
    } else if c >= 0x80 || c < 0x20 {
      e := PutUtf8(c);
    } else {
      send := false;
    }
  }

  lemma EscapedAt(str: seq<Byte>, i: nat, flag: bool, canonical: bool)
    requires NoNul(str) && i < |str|
    ensures Escaped(str[i..], flag, canonical) == Escape(str[i], flag, canonical) + Escaped(str[i + 1..], flag, canonical)
  {
    assert str[i..][1..] == str[i + 1..];
  }

  lemma Sent(out: seq<Byte>, run: seq<Byte>, e: seq<Byte>, rest: seq<Byte>)
    ensures (out + run) + (e + rest) == (out + run + e) + [] + rest
  {
  }

  lemma Kept(out: seq<Byte>, str: seq<Byte>, s: nat, t: nat, rest: seq<Byte>)
    requires s <= t < |str|
    ensures (out + str[s..t]) + ([str[t]] + rest) == (out + str[s..t + 1]) + rest
  {
    assert str[s..t + 1] == str[s..t] + [str[t]];
  }

  /** soap_string_out: runs of plain characters are sent as they are; out is what has been sent. */
  method StringOut(str: seq<Byte>, flag: bool, canonical: bool) returns (out: seq<Byte>)
    requires NoNul(str)
    ensures out == Escaped(str, flag, canonical)
  {
    out := [];
    var s, t := 0, 0;
    assert str[0..] == str && [] + str[0..0] == [];
    while t < |str|
      invariant 0 <= s <= t <= |str|
      invariant (out + str[s..t]) + Escaped(str[t..], flag, canonical) == Escaped(str, flag, canonical)
    {
      ghost var rest := Escaped(str[t + 1..], flag, canonical);
      EscapedAt(str, t, flag, canonical);
      var send, e := Replacement(str[t], flag, canonical);
      if send {
        Sent(out, str[s..t], e, rest);
        out := out + str[s..t];
        out := out + e;
        s := t + 1;
        assert str[s..t + 1] == [];
      } else {
        Kept(out, str, s, t, rest);
      }
      t := t + 1;
    }
    out := out + str[s..t];
    assert out + Escaped(str[t..], flag, canonical) == out;
  }

  // ---------- reading ----------

  /** The reader's side of the context: the input that has arrived and the character put back. */
  class Reader {
    const buf: seq<Byte>
    const html: Html
    var bufidx: nat
    var ahead: int
    /** Set at input this model leaves out. */
    var other: bool

    constructor (buf0: seq<Byte>, html0: Html)
      ensures buf == buf0 && html == html0 && bufidx == 0 && ahead == 0 && !other
    {
      buf, html, bufidx, ahead, other := buf0, html0, 0, 0, false;
    }

    ghost predicate Valid()
      reads this
    {
      bufidx <= |buf|
    }

    ghost function Rest(): seq<Byte>
      reads this
      requires Valid()
    {
      buf[bufidx..]
    }

    /** What a call returns and leaves is what g says. */
    ghost predicate Gives(c: int, g: Got)
      reads this
    {
      Valid() && match g
        case Other => other
        case Got(d, rest) => !other && c == d && Rest() == rest
    }

    /** soap_get1 */
    method Get1() returns (c: int)
      requires Valid()
      modifies `bufidx
      ensures Valid() && if old(Rest()) == [] then c == EOF && Rest() == [] else c == old(Rest())[0] && Rest() == old(Rest())[1..]
      ensures old(Rest()) == [] ==> bufidx == old(bufidx)
      ensures old(Rest()) != [] ==> bufidx == old(bufidx) + 1
    {
      if bufidx >= |buf| {
        c := EOF;
      } else {
        c := buf[bufidx];
        bufidx := bufidx + 1;
      }
    }

    /** soap_unget */
    method Unget(c: int)
      modifies `ahead
      ensures ahead == c
    {
      ahead := c;
    }

    lemma ReferenceEndNext(t: seq<Byte>, i: nat)
      requires i <= 7 && i <= |t|
      ensures ReferenceEnd(t, i) == if i == 7 || i == |t| || t[i] == 59 then i else ReferenceEnd(t, i + 1)
    {
    }

    /** soap_char */
    method Char() returns (v: nat)
      requires Valid() && !other
      modifies `bufidx
      ensures Valid() && GetReference(old(Rest()), html) == Got(v + REF, Rest())
    {
      ghost var t := Rest();
      var tmp: seq<Byte> := [];
      var i := 0;
      var at := bufidx;
      while i < 7
        invariant 0 <= i <= 7 && i <= |t| && Valid() && Rest() == t[i..] && tmp == t[..i]
        invariant ReferenceEnd(t, i) == ReferenceEnd(t, 0)
      {
        ReferenceEndNext(t, i);
        var c := Get1();
        if c == 59 || c == EOF {
          break;
        }
        tmp := tmp + [c];
        i := i + 1;
      }
      ReferenceEndNext(t, i);
      v := Reference(tmp, html);
    }

    /** The white space after a '<', and the character after it. */
    method GetAfterBlanks() returns (c: int)
      requires Valid()
      modifies `bufidx
      ensures Valid() && var r := SkipBlanks(old(Rest()));
        if r == [] then c == EOF && Rest() == [] else c == r[0] && Rest() == r[1..] && bufidx > 0 && buf[bufidx - 1..] == r
    {
      ghost var t := Rest();
      c := Get1();
      while c != EOF && c <= 32
        invariant Valid() && (c == EOF || 0 <= c < 256)
        invariant c == EOF ==> SkipBlanks(t) == [] && Rest() == []
        invariant c != EOF ==> bufidx > 0 && buf[bufidx - 1] == c && SkipBlanks(t) == SkipBlanks(buf[bufidx - 1..])
        decreases |Rest()| + if c == EOF then 0 else 1
      {
        assert buf[bufidx - 1..][1..] == Rest();
        c := Get1();
      }
      if c != EOF {
        assert buf[bufidx - 1..][1..] == Rest();
      }
    }

    /** The switch of soap_get on the character c0. */
    method Switch(c0: int) returns (c: int)
      requires Valid() && !other
      modifies `bufidx, `other
      ensures Gives(c, Switched(c0, old(Rest()), html))
    {
      c := c0;
      if c == 60 {
        c := GetAfterBlanks();
        if c == EOF || c == 33 || c == 63 || c == 37 {
          other := true;
        } else if c == 47 {
          c := SOAP_TT;
        } else {
          bufidx := bufidx - 1;
          c := SOAP_LT;
        }
      } else if c == 62 {
        c := SOAP_GT;
      } else if c == 34 {
        c := SOAP_QT;
      } else if c == 39 {
        c := SOAP_AP;
      } else if c == 38 {
        var v := Char();
        c := v + REF;
        if c == EOF {
          other := true;
        }
      }
    }

    /** soap_get, with nothing ahead. */
    method GetToken() returns (c: int)
      requires Valid() && !other && ahead == 0
      modifies `bufidx, `other
      ensures Gives(c, Get(old(Rest()), html))
    {
      c := Get1();
      if c != EOF {
        c := Switch(c);
      }
    }

    /** The six bits of a following byte. */
    method GetMore() returns (c: int)
      requires Valid() && Rest() != []
      modifies `bufidx
      ensures Valid() && c == old(Rest())[0] % 64 && Rest() == old(Rest())[1..]
    {
      c := Get1();
      c := c % 64;
    }

    /** soap_getutf8 outside Latin mode. */
    method GetUtf8Char() returns (c: int)
      requires Valid() && !other
      modifies `bufidx, `ahead, `other
      ensures Gives(c, GetUtf8(old(ahead), old(Rest()), html)) && ahead == 0
    {
      c := ahead;
      if c != 0 {
        ahead := 0;
      } else {
        c := GetToken();
        if other {
          return;
        }
      }
      if 0x80 <= c <= 0xFF {
        c := GetRest(c);
      }
    }

    /** The bytes that follow the first one of a character. */
    method GetRest(b: Byte) returns (c: int)
      requires Valid() && !other && b >= 0x80
      modifies `bufidx, `other
      ensures Gives(c, Multibyte(b, old(Rest())))
    {
      ghost var t := Rest();
      c := b;
      var c1 := Get1();
      if c1 == EOF {
        other := true;
        return;
      }
      if c1 < 0x80 {
        bufidx := bufidx - 1;
        return;
      }
      if |buf| - bufidx < Follow(b) - 1 {
        other := true;
        return;
      }
      c1 := c1 % 64;
      if b < 0xE0 {
        Joins(b % 32, t, 1);
        return b % 32 * 64 + c1;
      }
      var c2 := GetMore();
      if b < 0xF0 {
        Joins(b % 16, t, 2);
        return (b % 16 * 64 + c1) * 64 + c2;
      }
      var c3 := GetMore();
      if b < 0xF8 {
        Joins(b % 8, t, 3);
        return ((b % 8 * 64 + c1) * 64 + c2) * 64 + c3;
      }
      var c4 := GetMore();
      if b < 0xFC {
        Joins(b % 4, t, 4);
        return (((b % 4 * 64 + c1) * 64 + c2) * 64 + c3) * 64 + c4;
      }
      var c5 := GetMore();
      Joins(b % 2, t, 5);
      c := ((((b % 2 * 64 + c1) * 64 + c2) * 64 + c3) * 64 + c4) * 64 + c5;
    }

    lemma Joins(v: nat, t: seq<Byte>, k: nat)
      requires 1 <= k <= 5 && k <= |t|
      ensures k == 1 ==> Join(v, t[..k]) == v * 64 + t[0] % 64
      ensures k == 2 ==> Join(v, t[..k]) == (v * 64 + t[0] % 64) * 64 + t[1] % 64
      ensures k == 3 ==> Join(v, t[..k]) == ((v * 64 + t[0] % 64) * 64 + t[1] % 64) * 64 + t[2] % 64
      ensures k == 4 ==> Join(v, t[..k]) == (((v * 64 + t[0] % 64) * 64 + t[1] % 64) * 64 + t[2] % 64) * 64 + t[3] % 64
      ensures k == 5 ==>
        Join(v, t[..k]) == ((((v * 64 + t[0] % 64) * 64 + t[1] % 64) * 64 + t[2] % 64) * 64 + t[3] % 64) * 64 + t[4] % 64
      decreases k
    {
      if k == 1 {
        assert t[..1][1..] == [];
      } else {
        assert t[..k][1..] == t[1..][..k - 1];
        Joins(v * 64 + t[0] % 64, t[1..], k - 1);
      }
    }

    /** After a '/' inside an element: the next character is looked at and put back. */
    method Peek(n0: nat) returns (n: nat)
      requires Valid() && !other && ahead == 0 && n0 > 0
      modifies `bufidx, `ahead, `other
      ensures Valid() && Gives(ahead, Get(old(Rest()), html))
      ensures !other ==> n == if ahead == SOAP_GT then n0 - 1 else n0
    {
      n := n0;
      var c := GetToken();
      if c == SOAP_GT {
        n := n - 1;
      }
      Unget(c);
    }

    /** One turn of the loop, once its character has been read. */
    method StoreChar(c: int, n0: nat, ghost total: Reading, ghost weight: nat) returns (done: bool, bytes: seq<Byte>, n: nat)
      requires Valid() && !other && ahead == 0 && Turn(c, n0, Rest(), html, total, weight)
      modifies `bufidx, `ahead, `other
      ensures Valid()
      ensures if other then total == Unread
        else if done then total == Reading([], 0, c, Rest()) && ahead == 0
        else total == Add(bytes, ReadString(ahead, Rest(), n, html)) && Weight(ahead, Rest()) < weight
    {
      n, done, bytes := n0, false, [];
      if c == 47 && n > 0 {
        bytes := [47];
        n := Peek(n);
      } else if c == SOAP_TT {
        if n == 0 {
          done := true;
        } else {
          n := n - 1;
          bytes := [60, 47];
        }
      } else if c == SOAP_LT {
        n := n + 1;
        bytes := [60];
      } else if c == EOF {
        done := true;
      } else {
        bytes := [Single(c)];
      }
    }

    /** One turn of the loop: the bytes it stores and the depth after it; done at the end of the string. */
    method NextChar(n0: nat) returns (c: int, done: bool, bytes: seq<Byte>, n: nat)
      requires Valid() && !other
      modifies `bufidx, `ahead, `other
      ensures Valid()
      ensures var r := ReadString(old(ahead), old(Rest()), n0, html);
        if other then r == Unread
        else if done then r == Reading([], 0, c, Rest()) && ahead == 0
        else r == Add(bytes, ReadString(ahead, Rest(), n, html)) && Weight(ahead, Rest()) < Weight(old(ahead), old(Rest()))
    {
      ghost var a0, t0 := ahead, Rest();
      n, done, bytes := n0, false, [];
      c := GetUtf8Char();
      if other {
        return;
      }
      StringStep(a0, t0, n0, c, Rest(), html);
      done, bytes, n := StoreChar(c, n0, ReadString(a0, t0, n0, html), Weight(a0, t0));
    }

    /** soap_string_in with flag 1, for any length limits; None is the length error. */
    method StringIn(minlen: int, maxlen: int) returns (r: Option<seq<Byte>>)
      requires Valid() && !other
      modifies `bufidx, `ahead, `other
      ensures Valid()
      ensures match ReadString(old(ahead), old(Rest()), 0, html)
        case Unread => r == None || other
        case Reading(s, l, last, rest) =>
          if minlen <= l && (maxlen < 0 || l <= maxlen)
          then !other && r == Some(s) && ahead == last && Rest() == rest
          else r == None
    {
      var s: seq<Byte> := [];
      var l, n: nat := 0, 0;
      ghost var total := ReadString(ahead, Rest(), 0, html);
      ExtendedNone(total);
      while true
        invariant Valid() && !other && (maxlen < 0 || l <= maxlen || l == 0)
        invariant total == Extended(s, l, ReadString(ahead, Rest(), n, html))
        decreases Weight(ahead, Rest())
      {
        var c, done, bytes;
        ghost var before := ReadString(ahead, Rest(), n, html);
        c, done, bytes, n := NextChar(n);
        if other {
          return None;
        }
        if done {
          assert total == Reading(s, l, c, Rest());
          Unget(c);
          r := if (maxlen >= 0 && l > maxlen) || l < minlen then None else Some(s);
          return;
        }
        ExtendedOn(s, l, bytes, ReadString(ahead, Rest(), n, html));
        s := s + bytes;
        l := l + 1;
        if maxlen >= 0 && l > maxlen {
          return None;
        }
      }
    }
  }

  /** The byte most characters store. */
  function Single(c: int): Byte {
    if c == SOAP_GT then 62 else if c == SOAP_QT then 34 else if c == SOAP_AP then 39 else c % 256
  }

  /** What total is, a reading at depth n whose first character is c. */
  ghost predicate Turn(c: int, n: nat, rest: seq<Byte>, html: Html, total: Reading, weight: nat) {
    if c == EOF || (c == SOAP_TT && n == 0) then total == Reading([], 0, c, rest)
    else
      && Weight(0, rest) < weight
      && if c == SOAP_TT then total == Add([60, 47], ReadString(0, rest, n - 1, html))
         else if c == SOAP_LT then total == Add([60], ReadString(0, rest, n + 1, html))
         else if c == 47 && n > 0 then
           match Get(rest, html)
           case Other => total == Unread
           case Got(d, more) =>
             total == Add([47], ReadString(d, more, if d == SOAP_GT then n - 1 else n, html)) && Weight(d, more) < weight
         else total == Add([Single(c)], ReadString(0, rest, n, html))
  }

  /** ReadString by the first character. */
  lemma StringStep(ahead: int, t: seq<Byte>, n: nat, c: int, rest: seq<Byte>, html: Html)
    requires GetUtf8(ahead, t, html) == Got(c, rest)
    ensures Turn(c, n, rest, html, ReadString(ahead, t, n, html), Weight(ahead, t))
  {
  }

  lemma ExtendedNone(r: Reading)
    ensures Extended([], 0, r) == r
  {
    if r.Reading? {
      assert [] + r.s == r.s;
    }
  }

  /** A reading after s has been stored in l turns. */
  ghost function Extended(s: seq<Byte>, l: nat, r: Reading): Reading {
    match r
    case Unread => Unread
    case Reading(more, k, ahead, rest) => Reading(s + more, l + k, ahead, rest)
  }

  lemma ExtendedOn(s: seq<Byte>, l: nat, bytes: seq<Byte>, r: Reading)
    ensures Extended(s, l, Add(bytes, r)) == Extended(s + bytes, l + 1, r)
  {
    if r.Reading? {
      assert s + (bytes + r.s) == (s + bytes) + r.s;
    }
  }

  /** What soap_string_out has sent, with a closing tag after it, is what soap_string_in returns. */
  method OutThenIn(s: seq<Byte>, flag: bool, canonical: bool, z: seq<Byte>, html: Html) returns (again: seq<Byte>)
    requires NoNul(s)
    ensures again == s
  {
    var out := StringOut(s, flag, canonical);
    var input: seq<Byte> := out + ([60, 47] + z);
    var reader := new Reader(input, html);
    assert reader.Rest() == input;
    ReadsBack(s, flag, canonical, z, html);
    var r := reader.StringIn(0, -1);
    again := r.value;
  }
}
