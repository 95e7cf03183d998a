/** Wide strings to UTF-8 and back. */
module Wide {
  import opened Basics
  import opened Memory
  import opened Unicode

  /** How many values a wchar_t has: two bytes on Windows, four elsewhere. */
  predicate WcharSize(wide: nat) {
    wide == 0x1_0000 || wide == WORD
  }

  /** A wchar_t other than NUL, read into a signed 32-bit soap_wchar. */
  predicate IsWchar(c: int, wide: nat) {
    if wide == WORD then -0x8000_0000 <= c < 0x8000_0000 && c != 0 else 0 < c < wide
  }

  ghost predicate WideString(w: seq<int>, wide: nat) {
    forall i :: 0 <= i < |w| ==> IsWchar(w[i], wide)
  }

  // ---------- encoding ----------

  /** What one character becomes; a negative one, from 0x80000000 on, becomes two bytes that mean something else. */
  function Bytes8(c: int): (s: seq<Byte>)
    requires c < 0x8000_0000 && c != 0
    ensures 1 <= |s| <= 6 && forall i :: 0 <= i < |s| ==> s[i] != 0
  {
    if c > 0 then Utf8(c) else [0xC0 + c / 64 % 32, 0x80 + c % 64]
  }

  function Encoded(w: seq<int>): (s: seq<Byte>)
    requires WideString(w, WORD)
    ensures |w| <= |s| <= 6 * |w| && forall i :: 0 <= i < |s| ==> s[i] != 0
  {
    if w == [] then [] else Bytes8(w[0]) + Encoded(w[1..])
  }

  // ---------- decoding ----------

  /** How many bytes the first character takes. */
  function Span(s: seq<Byte>): (n: nat)
    requires s != []
    ensures n >= 1
  {
    if s[0] < 0x80 then 1 else 1 + Follow(s[0])
  }

  /** The first character. */
  function First(s: seq<Byte>, wide: nat): int
    requires s != [] && Span(s) <= |s| && WcharSize(wide)
  {
    if s[0] < 0x80 then s[0] else Value(s[0], s[1..Span(s)]) % wide
  }

  /** soap_s2wchar's loop; None when the last character is cut off and it would read past the terminator. */
  function Decoded(s: seq<Byte>, wide: nat): (r: Option<seq<int>>)
    requires WcharSize(wide)
    ensures r.Some? ==> |r.value| <= |s|
  {
    if s == [] then Some([])
    else if |s| < Span(s) then None
    else
      match Decoded(s[Span(s)..], wide)
      case None => None
      case Some(w) => Some([First(s, wide)] + w)
  }

  // ---------- round trip ----------

  /** The first character's bytes are taken off, whatever follows. */
  lemma OneTaken(b: seq<Byte>, rest: seq<Byte>, wide: nat)
    requires WcharSize(wide) && b != [] && |b| == Span(b) && Decoded(rest, wide).Some?
    ensures Decoded(b + rest, wide) == Some([First(b, wide)] + Decoded(rest, wide).value)
  {
    var t := b + rest;
    assert t[0] == b[0] && t[|b|..] == rest && t[1..|b|] == b[1..];
    assert b[1..] == b[1..Span(b)];
  }

  /** What one character reads back as. */
  lemma OneValue(c: int, wide: nat)
    requires WcharSize(wide) && IsWchar(c, wide)
    ensures |Bytes8(c)| == Span(Bytes8(c)) && (First(Bytes8(c), wide) == c <==> c > 0)
  {
    var b := Bytes8(c);
    if c > 0 {
      Decodes(c);
      assert b[1..] == b[1..|b|];
    } else {
      assert b[1..2] == [0x80 + c % 64];
    }
  }

  lemma OneDecodes(c: int, rest: seq<Byte>, wide: nat)
    requires WcharSize(wide) && IsWchar(c, wide) && Decoded(rest, wide).Some?
    ensures var r := Decoded(Bytes8(c) + rest, wide);
      r.Some? && |r.value| == 1 + |Decoded(rest, wide).value| && r.value[1..] == Decoded(rest, wide).value
      && (r.value[0] == c <==> c > 0)
  {
    OneValue(c, wide);
    OneTaken(Bytes8(c), rest, wide);
  }

  /** Every wide string survives unless it holds a value from 0x80000000 on, and then it does not. */
  lemma {:induction false} SurvivesIff(w: seq<int>, wide: nat)
    requires WcharSize(wide) && WideString(w, wide)
    ensures WideString(w, WORD) && Decoded(Encoded(w), wide).Some? && |Decoded(Encoded(w), wide).value| == |w|
    ensures Decoded(Encoded(w), wide).value == w <==> forall i :: 0 <= i < |w| ==> w[i] > 0
  {
    assert forall i :: 0 <= i < |w| ==> IsWchar(w[i], wide) ==> IsWchar(w[i], WORD);
    if w != [] {
      SurvivesIff(w[1..], wide);
      OneDecodes(w[0], Encoded(w[1..]), wide);
      var v, tail := Decoded(Encoded(w), wide).value, Decoded(Encoded(w[1..]), wide).value;
      assert v == [v[0]] + tail && w == [w[0]] + w[1..];
      assert v == w <==> v[0] == w[0] && tail == w[1..];
      if forall i :: 0 <= i < |w[1..]| ==> w[1..][i] > 0 {
        assert forall i :: 1 <= i < |w| ==> w[i] == w[1..][i - 1];
      }
    }
  }

  /** The value 0xFFFFFFFF, -1 as a wchar_t, goes out as two bytes and comes back as 0x7FF. */
  lemma NegativeLost()
    ensures WideString([-1], WORD) && Decoded(Encoded([-1]), WORD) == Some([0x7FF])
  {
    var b := Bytes8(-1);
    assert [-1][1..] == [] && Encoded([-1]) == b + [];
    assert b == [0xDF, 0xBF] && b[1..2] == [0xBF];
    assert Join(31, [0xBF]) == Join(0x7FF, [0xBF][1..]) == 0x7FF;
    assert First(b, WORD) == 0x7FF && Decoded([], WORD) == Some([]);
    OneTaken(b, [], WORD);
    assert [First(b, WORD)] + Decoded([], WORD).value == [0x7FF] && Encoded([-1]) == b + Encoded([]) == b + [];
  }

  // ---------- how far the decoder reads ----------

  /** Every character of s is complete: no first byte asks for more bytes than are left. */
  predicate Whole(s: seq<Byte>) {
    s == [] || (Span(s) <= |s| && Whole(s[Span(s)..]))
  }

  lemma {:induction false} WholeDecodes(s: seq<Byte>, wide: nat)
    requires WcharSize(wide)
    ensures Decoded(s, wide).Some? <==> Whole(s)
  {
    if s != [] && Span(s) <= |s| {
      WholeDecodes(s[Span(s)..], wide);
    }
  }

  /** Where the loop over memory that starts with mem finds its terminator; None when it runs off mem. It looks
      for a terminator at first bytes only and takes the bytes behind them whatever they are. */
  function StopsAt(mem: seq<Byte>): (r: Option<nat>)
    ensures r.Some? ==> r.value < |mem|
  {
    if mem == [] then None
    else if mem[0] == 0 then Some(0)
    else if |mem| < Span(mem) then None
    else
      match StopsAt(mem[Span(mem)..])
      case None => None
      case Some(k) => Some(Span(mem) + k)
  }

  /** Reading stops at the terminator of s, whatever lies behind it, if and only if every character is complete. */
  lemma {:induction false} StopsInsideIff(s: seq<Byte>, behind: seq<Byte>)
    requires forall i :: 0 <= i < |s| ==> s[i] != 0
    ensures StopsAt(s + [0] + behind) == Some(|s|) <==> Whole(s)
  {
    var mem := s + [0] + behind;
    if s != [] {
      assert mem[0] == s[0] && Span(mem) == Span(s);
      if Span(s) <= |s| {
        var t := s[Span(s)..];
        assert mem[Span(s)..] == t + [0] + behind;
        StopsInsideIff(t, behind);
      }
    }
  }

  /** A lone first byte makes the loop step over the terminator and go on in what lies behind. */
  lemma CutCharacterRunsOn()
    ensures !Whole([0xC3]) && StopsAt([0xC3] + [0] + [65, 0]) == Some(3)
  {
    var mem := [0xC3] + [0] + [65, 0];
    assert mem[2..] == [65, 0] && [65, 0][1..] == [0];
    assert StopsAt([0]) == Some(0) && StopsAt([65, 0]) == Some(1);
  }

  // ---------- the code ----------

  /** The bytes of one character, whatever its sign. */
  method PutWide(c: int) returns (t: seq<Byte>)
    requires c < 0x8000_0000 && c != 0
    ensures t == Bytes8(c)
  {
    if 0 < c < 0x80 {
      t := [c];
    } else if c < 0 {
      t := [0xC0 + c / 64 % 32];
      t := t + [0x80 + c % 64];
    } else {
      t := PutMultibyte(c);
    }
  }

  /** The loop that sizes the allocation. */
  function Room8(w: seq<int>): (n: nat) {
    if w == [] then 0 else (if 0 < w[0] < 0x80 then 1 else 6) + Room8(w[1..])
  }

  lemma {:induction false} RoomSuffices(w: seq<int>)
    requires WideString(w, WORD)
    ensures |Encoded(w)| <= Room8(w)
  {
    if w != [] {
      RoomSuffices(w[1..]);
    }
  }

  method Size(w: seq<int>) returns (n: nat)
    ensures n == Room8(w)
  {
    n := 0;
    var i := 0;
    assert w[0..] == w;
    while i < |w|
      invariant 0 <= i <= |w| && n + Room8(w[i..]) == Room8(w)
    {
      assert w[i..][1..] == w[i + 1..];
      if 0 < w[i] < 0x80 {
        n := n + 1;
      } else {
        n := n + 6;
      }
      i := i + 1;
    }
  }

  /** Stores bytes at t + at. */
  method Store(t: array<Byte>, at: nat, bytes: seq<Byte>)
    requires at + |bytes| <= t.Length
    modifies t
    ensures t[..] == old(t[..])[..at] + bytes + old(t[..])[at + |bytes|..]
  {
    forall i | 0 <= i < |bytes| {
      t[at + i] := bytes[i];
    }
  }

  lemma StoredOn(done: seq<Byte>, more: seq<Byte>, was: seq<Byte>, at: nat)
    requires at + |more| <= |was| && was[..at] == done
    ensures (was[..at] + more + was[at + |more|..])[..at + |more|] == done + more
  {
  }

  /** soap_wchar2s: everything, and the terminator, goes inside the allocation. */
  method Wchar2s(w: seq<int>) returns (r: array<Byte>)
    requires WideString(w, WORD)
    ensures |Encoded(w)| < r.Length && r[..][..|Encoded(w)|] == Encoded(w) && r[|Encoded(w)|] == 0
  {
    var size := Size(w);
    RoomSuffices(w);
    r := new Byte[size + 1];
    var at, i := 0, 0;
    ghost var done: seq<Byte> := [];
    assert w[0..] == w;
    while i < |w|
      invariant 0 <= i <= |w| && at == |done| <= size && r[..][..at] == done
      invariant done + Encoded(w[i..]) == Encoded(w)
    {
      assert w[i..][1..] == w[i + 1..];
      var bytes := PutWide(w[i]);
      EncodedNext(w, i, done);
      StoredOn(done, bytes, r[..], at);
      Store(r, at, bytes);
      at := at + |bytes|;
      done := done + bytes;
      i := i + 1;
    }
    assert done + Encoded(w[i..]) == done;
    r[at] := 0;
  }

  lemma EncodedAt(w: seq<int>, i: nat)
    requires WideString(w, WORD) && i < |w|
    ensures Encoded(w[i..]) == Bytes8(w[i]) + Encoded(w[i + 1..])
  {
    assert w[i..][1..] == w[i + 1..];
  }

  lemma EncodedNext(w: seq<int>, i: nat, done: seq<Byte>)
    requires WideString(w, WORD) && i < |w| && done + Encoded(w[i..]) == Encoded(w)
    ensures (done + Bytes8(w[i])) + Encoded(w[i + 1..]) == Encoded(w)
    ensures |done| + |Bytes8(w[i])| <= |Encoded(w)|
  {
    EncodedAt(w, i);
    Associate(done, Bytes8(w[i]), Encoded(w[i + 1..]));
  }

  lemma AppendedAt(t: seq<int>, l: nat, v: int)
    requires l < |t|
    ensures t[l := v][..l + 1] == t[..l] + [v]
  {
  }

  /** The body of the loop: one character and where the next one starts. */
  method ReadWchar(s: seq<Byte>, i: nat, wide: nat) returns (v: int, next: nat)
    requires WcharSize(wide) && i < |s| && Decoded(s[i..], wide).Some?
    ensures i < next <= |s| && Decoded(s[next..], wide).Some?
    ensures Decoded(s[i..], wide).value == [v] + Decoded(s[next..], wide).value
  {
    var c := s[i];
    if c < 0x80 {
      v, next := c, i + 1;
      DecodedNext(s, i, 0, wide);
    } else {
      var n := Follow(c);
      DecodedNext(s, i, n, wide);
      next := i + 1 + n;
      v := Value(c, s[i + 1..next]) % wide;
    }
  }

  /** soap_s2wchar outside Latin mode, for a string whose last character is not cut off. */
  method S2wchar(s: seq<Byte>, wide: nat, minlen: int, maxlen: int) returns (t: array<int>, l: nat, ok: bool)
    requires WcharSize(wide) && (forall i :: 0 <= i < |s| ==> s[i] != 0) && Whole(s)
    ensures Decoded(s, wide).Some?
    ensures l == |Decoded(s, wide).value| < t.Length && t[..][..l] == Decoded(s, wide).value && t[l] == 0
    ensures ok <==> minlen <= l && (maxlen < 0 || l <= maxlen)
  {
    WholeDecodes(s, wide);
    t := new int[|s| + 1];
    var i := 0;
    l := 0;
    ghost var total, done, rest := Decoded(s, wide).value, [], Decoded(s, wide).value;
    assert s[0..] == s;
    while i < |s|
      invariant 0 <= i <= |s| && l == |done| <= i && t[..][..l] == done
      invariant Decoded(s[i..], wide) == Some(rest) && done + rest == total
    {
      var v, next := ReadWchar(s, i, wide);
      ghost var tail := Decoded(s[next..], wide).value;
      Associate(done, [v], tail);
      AppendedAt(t[..], l, v);
      t[l] := v;
      done, rest := done + [v], tail;
      l := l + 1;
      i := next;
    }
    assert done + [] == done;
    t[l] := 0;
    ok := !((maxlen >= 0 && l > maxlen) || l < minlen);
  }

  lemma DecodedNext(s: seq<Byte>, i: nat, n: nat, wide: nat)
    requires WcharSize(wide) && i < |s| && Decoded(s[i..], wide).Some? && n == (if s[i] < 0x80 then 0 else Follow(s[i]))
    ensures i + n < |s| && Decoded(s[i + 1 + n..], wide).Some?
    ensures Decoded(s[i..], wide).value
      == [if n == 0 then s[i] else Value(s[i], s[i + 1..i + 1 + n]) % wide] + Decoded(s[i + 1 + n..], wide).value
  {
    var t := s[i..];
    assert Span(t) == n + 1;
    assert t[n + 1..] == s[i + 1 + n..] && t[1..n + 1] == s[i + 1..i + 1 + n];
  }

  // ---------- TinyXML's converter ----------

  /** One case of the switch: a byte is stored in front of those that are there. */
  method StoreMore(output: array<Byte>, at0: nat, length: nat, input0: nat, ghost c: nat, ghost k: nat)
    returns (at: nat, input: nat)
    requires 0 < at0 <= length <= output.Length && at0 + k == length
    requires input0 == Drop(c, k) && output[..][at0..length] == Low(c, k)
    modifies output
    ensures at == at0 - 1 && input == Drop(c, k + 1) && output[..][at..length] == Low(c, k + 1)
  {
    ghost var was := output[..];
    at := at0 - 1;
    output[at] := More(input0);
    input := input0 / 64;
    assert was[at := More(input0)][at..length] == [More(input0)] + was[at0..length];
  }

  /** ConvertUTF32ToUTF8: the bytes are stored from the last one back, falling through from case to case. */
  method ConvertUTF32ToUTF8(input0: nat, output: array<Byte>) returns (length: nat)
    requires input0 < WORD && output.Length == 4
    modifies output
    ensures length <= 4 && (length == 0 <==> input0 >= 0x20_0000)
    ensures 0 < input0 < 0x20_0000 ==> output[..][..length] == Utf8(input0)
    ensures input0 == 0 ==> length == 1 && output[0] == 0
  {
    var input := input0;
    if input < 0x80 {
      length := 1;
    } else if input < 0x800 {
      length := 2;
    } else if input < 0x1_0000 {
      length := 3;
    } else if input < 0x20_0000 {
      length := 4;
    } else {
      length := 0;
      return;
    }
    var at := length;
    assert output[..][at..length] == Low(input0, 0);
    if length == 4 {
      at, input := StoreMore(output, at, length, input, input0, 0);
    }
    if length >= 3 {
      at, input := StoreMore(output, at, length, input, input0, length - 3);
    }
    if length >= 2 {
      at, input := StoreMore(output, at, length, input, input0, length - 2);
    }
    Drops(input0);
    at := at - 1;
    // the marker and what is left of the value have no bit in common
    output[at] := (if length == 1 then 0 else Mark(length - 1)) + input;
    assert output[..][..length] == [output[0]] + output[..][1..length];
  }
}
