/** soap_getattrval and the look-aside buffer it fills, proved to read whole attribute values. */
module SoapAttributeCode {
  import opened Basics
  import opened Memory
  import opened Unicode
  import opened SoapText
  import opened SoapTextCode
  import opened SoapAttribute

  // ---------- buffers ----------

  /** A buffer with v written over it from at on. */
  function Put(was: seq<Byte>, at: nat, v: seq<Byte>): (now: seq<Byte>)
    requires at + |v| <= |was|
    ensures |now| == |was|
  {
    was[..at] + v + was[at + |v|..]
  }

  lemma PutNext(was: seq<Byte>, at: nat, v: seq<Byte>, b: Byte)
    requires at + |v| < |was|
    ensures Put(was, at, v)[at + |v| := b] == Put(was, at, v + [b])
  {
  }

  lemma PutNone(was: seq<Byte>, at: nat)
    requires at <= |was|
    ensures Put(was, at, []) == was
  {
  }

  // ---------- one window ----------

  /** A window behind the bytes of done. */
  function Behind(done: seq<Byte>, w: Window): Window {
    if w.Window? then w.(value := done + w.value) else w
  }

  lemma BehindPush(done: seq<Byte>, b: Byte, w: Window)
    ensures Behind(done, Push(b, w)) == Behind(done + [b], w)
  {
    if w.Window? {
      Associate(done, [b], w.value);
    }
  }

  lemma BehindNone(w: Window)
    ensures Behind([], w) == w
  {
    if w.Window? {
      assert [] + w.value == w.value;
    }
  }

  /** One character of a window. */
  lemma WindowStep(ahead: int, t: seq<Byte>, d: int, n: nat, html: Html, c: int, rest: seq<Byte>)
    requires n > 0 && GetAhead(ahead, t, html) == Got(c, rest)
    ensures ReadWindow(ahead, t, d, n, html) ==
      if Delimits(c, d) then Window([], true, if d == BLANK then c else 0, rest)
      else if c == EOF then Ended
      else Push(Stored(c), ReadWindow(if c == SOAP_TT then 47 else 0, rest, d, n - 1, html))
  {
  }

  /** SOAP_OK, SOAP_EOM, SOAP_CHK_EOF */
  datatype Code = Ok | Eom | ChkEof

  /** soap_get */
  method GetChar(r: Reader) returns (c: int)
    requires r.Valid() && !r.other
    modifies r`bufidx, r`ahead, r`other
    ensures r.Gives(c, GetAhead(old(r.ahead), old(r.Rest()), r.html))
    ensures c != EOF ==> r.ahead == 0
  {
    c := r.ahead;
    if c != 0 {
      if c != EOF {
        r.ahead := 0;
        c := r.Switch(c);
      }
    } else {
      c := r.GetToken();
    }
  }

  /** What soap_getattrval returns, leaves and has written when the window is w. */
  ghost predicate Leaves(code: Code, r: Reader, s: seq<Byte>, was: seq<Byte>, at: nat, w: Window)
    reads r
  {
    match w
    case Unseen => r.other
    case Ended => !r.other && code == ChkEof
    case Window(value, closed, ahead, rest) =>
      && !r.other && r.Valid() && r.ahead == ahead && r.Rest() == rest
      && code == (if closed then Ok else Eom)
      && Holds(s, was, at, value, closed)
  }

  /** A value is written at at, with a terminator if it is complete. */
  ghost predicate Holds(s: seq<Byte>, was: seq<Byte>, at: nat, value: seq<Byte>, closed: bool) {
    if closed then at + |value| < |was| && s == Put(was, at, value + [0])
    else at + |value| <= |was| && s == Put(was, at, value)
  }

  /** done has been stored, and what is left of the window is read from here. */
  ghost predicate Reading(r: Reader, s: seq<Byte>, was: seq<Byte>, at: nat, done: seq<Byte>, d: int, n: nat, total: Window)
    reads r
  {
    && r.Valid() && !r.other && at + |done| + n <= |was| && s == Put(was, at, done)
    && total == Behind(done, ReadWindow(r.ahead, r.Rest(), d, n, r.html))
  }

  /** Stores one character; stop says that the value is complete or the input is at its end. */
  method StoreNext(r: Reader, s: array<Byte>, p: nat, d: int, ghost was: seq<Byte>, ghost at: nat, ghost done: seq<Byte>,
                   ghost n: nat, ghost total: Window)
    returns (stop: bool, code: Code, ghost now: seq<Byte>)
    requires n > 0 && p == at + |done| && |was| == s.Length && Reading(r, s[..], was, at, done, d, n, total)
    modifies r`bufidx, r`ahead, r`other, s
    ensures r.Valid()
    ensures stop ==> Leaves(code, r, s[..], was, at, total)
    ensures !stop ==> |now| == |done| + 1 && Reading(r, s[..], was, at, now, d, n - 1, total)
  {
    ghost var a0, t0 := r.ahead, r.Rest();
    now, stop, code := done, true, Eom;
    var c := GetChar(r);
    if r.other {
      return;
    }
    WindowStep(a0, t0, d, n, r.html, c, r.Rest());
    if Delimits(c, d) {
      if d == BLANK {
        r.Unget(c);
      }
      PutNext(was, at, done, 0);
      s[p] := 0;
      assert done + [] == done;
      code := Ok;
    } else if c == EOF {
      code := ChkEof;
    } else {
      if c == SOAP_TT {
        r.Unget(47);
      }
      BehindPush(done, Stored(c), ReadWindow(r.ahead, r.Rest(), d, n - 1, r.html));
      PutNext(was, at, done, Stored(c));
      s[p] := Stored(c);
      now, stop := done + [Stored(c)], false;
    }
  }

  lemma FullLeaves(r: Reader, s: seq<Byte>, was: seq<Byte>, at: nat, done: seq<Byte>, d: int, total: Window)
    requires Reading(r, s, was, at, done, d, 0, total)
    ensures Leaves(Eom, r, s, was, at, total)
  {
    assert done + [] == done;
  }

  /** soap_getattrval on the n bytes of s from at on. */
  method GetAttrVal(r: Reader, s: array<Byte>, at: nat, n: nat, d: int) returns (code: Code)
    requires r.Valid() && !r.other && at + n <= s.Length
    modifies r`bufidx, r`ahead, r`other, s
    ensures r.Valid() && Leaves(code, r, s[..], old(s[..]), at, ReadWindow(old(r.ahead), old(r.Rest()), d, n, r.html))
  {
    ghost var was, done: seq<Byte> := s[..], [];
    ghost var total := ReadWindow(r.ahead, r.Rest(), d, n, r.html);
    ghost var left := n;
    BehindNone(total);
    PutNone(was, at);
    for i := 0 to n
      invariant |done| == i && left == n - i && Reading(r, s[..], was, at, done, d, left, total)
    {
      var stop;
      stop, code, done := StoreNext(r, s, at + i, d, was, at, done, left, total);
      if stop {
        return;
      }
      left := left - 1;
    }
    FullLeaves(r, s[..], was, at, done, d, total);
    code := Eom;
  }

  // ---------- windows one after the other ----------

  /** The first character of a window that is full, and of the window that is k bytes longer. */
  lemma FirstOfWindow(ahead: int, t: seq<Byte>, d: int, n: nat, k: nat, html: Html) returns (b: Byte, next: int, rest: seq<Byte>)
    requires n > 0 && ReadWindow(ahead, t, d, n, html).Window? && !ReadWindow(ahead, t, d, n, html).closed
    ensures ReadWindow(ahead, t, d, n, html) == Push(b, ReadWindow(next, rest, d, n - 1, html))
    ensures ReadWindow(ahead, t, d, n + k, html) == Push(b, ReadWindow(next, rest, d, n - 1 + k, html))
  {
    var g := GetAhead(ahead, t, html);
    WindowStep(ahead, t, d, n, html, g.c, g.rest);
    WindowStep(ahead, t, d, n + k, html, g.c, g.rest);
    b, next, rest := Stored(g.c), if g.c == SOAP_TT then 47 else 0, g.rest;
  }

  /** A full window, and the next one from where it stopped, make one window. */
  lemma {:induction false} WindowsJoin(ahead: int, t: seq<Byte>, d: int, n: nat, k: nat, html: Html, w: Window)
    requires w == ReadWindow(ahead, t, d, n, html) && w.Window? && !w.closed
    ensures ReadWindow(ahead, t, d, n + k, html) == Behind(w.value, ReadWindow(w.ahead, w.rest, d, k, html))
    decreases n
  {
    if n == 0 {
      BehindNone(ReadWindow(ahead, t, d, k, html));
    } else {
      var b, next, rest := FirstOfWindow(ahead, t, d, n, k, html);
      var v := ReadWindow(next, rest, d, n - 1, html);
      WindowsJoin(next, rest, d, n - 1, k, html, v);
      JoinStep(b, v.value, ReadWindow(v.ahead, v.rest, d, k, html));
    }
  }

  lemma JoinStep(b: Byte, v: seq<Byte>, w: Window)
    ensures Push(b, Behind(v, w)) == Behind([b] + v, w)
  {
    if w.Window? {
      Associate([b], v, w.value);
    }
  }

  /** How much is left to read; whatever else was put back may still become a '/' that is put back. */
  function Left(ahead: int, t: seq<Byte>): nat {
    4 * |t| + if ahead == 0 then 0 else if ahead == EOF then 1 else if ahead == 47 then 2 else 3
  }

  lemma GetShrinks(ahead: int, t: seq<Byte>, html: Html)
    requires GetAhead(ahead, t, html).Got? && GetAhead(ahead, t, html).c != EOF
    ensures Left(if GetAhead(ahead, t, html).c == SOAP_TT then 47 else 0, GetAhead(ahead, t, html).rest) < Left(ahead, t)
  {
  }

  /** Filling a buffer takes something off the input. */
  lemma {:induction false} WindowShrinks(ahead: int, t: seq<Byte>, d: int, n: nat, html: Html)
    requires var w := ReadWindow(ahead, t, d, n, html); w.Window? && !w.closed
    ensures var w := ReadWindow(ahead, t, d, n, html);
      Left(w.ahead, w.rest) <= Left(ahead, t) && (n > 0 ==> Left(w.ahead, w.rest) < Left(ahead, t))
    decreases n
  {
    if n > 0 {
      var g := GetAhead(ahead, t, html);
      GetShrinks(ahead, t, html);
      WindowShrinks(if g.c == SOAP_TT then 47 else 0, g.rest, d, n - 1, html);
    }
  }

  // ---------- the look-aside buffer ----------

  const SOAP_LABLEN := 256

  /** labbuf and labidx; lablen is the length of the array. */
  class LookAside {
    var buf: array<Byte>
    var idx: nat

    constructor ()
      ensures idx == 0 && buf.Length == 0 && fresh(buf)
    {
      buf, idx := new Byte[0], 0;
    }

    /** soap_append_lab without a string: makes room for more than n bytes. */
    method Enlarge(n: nat)
      requires idx <= buf.Length
      modifies this`buf
      ensures idx + n < buf.Length && (buf == old(buf) || fresh(buf))
      ensures buf[..idx] == old(buf[..])[..idx]
    {
      if idx + n >= buf.Length {
        var lablen := if buf.Length == 0 then SOAP_LABLEN else buf.Length;
        while idx + n >= lablen
          invariant lablen > 0
          decreases idx + n - lablen
        {
          lablen := 2 * lablen;
        }
        var t := new Byte[lablen];
        Memcpy(t, 0, buf, 0, idx);
        buf := t;
      }
    }

    /** soap_store_lab */
    method Store(s: array<Byte>)
      requires s != buf
      modifies this, buf
      ensures idx == s.Length < buf.Length && (buf == old(buf) || fresh(buf)) && buf != s
      ensures buf[..idx] == s[..]
    {
      idx := 0;
      Enlarge(s.Length);
      Memcpy(buf, 0, s, 0, s.Length);
      idx := s.Length;
    }
  }

  /** A value that is held from the beginning of a buffer on is what the buffer holds as a string. */
  lemma HeldString(s: seq<Byte>, was: seq<Byte>, before: seq<Byte>, value: seq<Byte>)
    requires before <= was && Holds(s, was, |before|, value, true)
    ensures CString(s) == CString(before + value) && |before + value| < |s| && s[|before + value|] == 0
  {
    var v, tail := before + value, was[|before| + |value + [0]|..];
    assert was[..|before|] == before;
    Associate(before, value, [0]);
    assert s == v + [0] + tail;
    CStringEnds(v, tail);
  }

  /** A window that is full holds the beginning of the value in a buffer. */
  lemma HeldPart(s: seq<Byte>, was: seq<Byte>, before: seq<Byte>, value: seq<Byte>)
    requires before <= was && |before| + |value| == |was| && Holds(s, was, |before|, value, false)
    ensures s == before + value
  {
  }

  // ---------- a whole value ----------

  /** The look-aside buffer holds what a window of idx bytes from the beginning would, and the reader is where it ends. */
  ghost predicate Gathered(r: Reader, buf: seq<Byte>, idx: nat, a0: int, t0: seq<Byte>, d: int)
    reads r
  {
    && r.Valid() && !r.other && idx < |buf|
    && ReadWindow(a0, t0, d, idx, r.html) == Window(buf[..idx], false, r.ahead, r.Rest())
  }

  /** What has been read when the window w ends with code. */
  ghost predicate Outcome(code: Code, r: Reader, buf: seq<Byte>, w: Window)
    reads r
  {
    if r.other then w == Unseen
    else
      match code
      case Ok =>
        r.Valid() && w.Window? && w.closed && w.ahead == r.ahead && w.rest == r.Rest() && Terminated(buf, w.value)
      case Eom => r.Valid() && w == Window(buf, false, r.ahead, r.Rest())
      case ChkEof => w == Ended
  }

  /** A buffer that holds value and its terminator. */
  ghost predicate Terminated(buf: seq<Byte>, value: seq<Byte>) {
    |value| < |buf| && buf[|value|] == 0 && CString(buf) == CString(value) && |CString(value)| <= |value|
  }

  lemma OutcomeOf(code: Code, r: Reader, s: seq<Byte>, was: seq<Byte>, before: seq<Byte>, next: Window, total: Window)
    requires before <= was && Leaves(code, r, s, was, |before|, next) && total == Behind(before, next)
    requires next.Window? && !next.closed ==> |before| + |next.value| == |was|
    ensures Outcome(code, r, s, total)
  {
    if next.Window? {
      if next.closed {
        HeldString(s, was, before, next.value);
        CStringEnds(before + next.value, []);
      } else {
        HeldPart(s, was, before, next.value);
      }
    }
  }

  /** One more call of soap_getattrval, into what is free of the look-aside buffer. */
  method FillMore(r: Reader, lab: LookAside, d: int, ghost a0: int, ghost t0: seq<Byte>, ghost total: Window) returns (code: Code)
    requires Gathered(r, lab.buf[..], lab.idx, a0, t0, d)
    requires total == ReadWindow(a0, t0, d, lab.buf.Length, r.html)
    modifies r`bufidx, r`ahead, r`other, lab.buf
    ensures r.Valid() && Outcome(code, r, lab.buf[..], total)
    ensures !r.other && code == Eom ==> Left(r.ahead, r.Rest()) < Left(old(r.ahead), old(r.Rest()))
  {
    ghost var was, ahead, rest, k := lab.buf[..], r.ahead, r.Rest(), lab.buf.Length - lab.idx;
    ghost var next := ReadWindow(ahead, rest, d, k, r.html);
    WindowsJoin(a0, t0, d, lab.idx, k, r.html, ReadWindow(a0, t0, d, lab.idx, r.html));
    code := GetAttrVal(r, lab.buf, lab.idx, lab.buf.Length - lab.idx, d);
    OutcomeOf(code, r, lab.buf[..], was, was[..lab.idx], next, total);
    Shrunk(code, r, lab.buf[..], was, lab.idx, ahead, rest, d, k);
  }

  lemma Shrunk(code: Code, r: Reader, s: seq<Byte>, was: seq<Byte>, at: nat, ahead: int, rest: seq<Byte>, d: int, n: nat)
    requires n > 0 && Leaves(code, r, s, was, at, ReadWindow(ahead, rest, d, n, r.html))
    ensures !r.other && code == Eom ==> r.Valid() && Left(r.ahead, r.Rest()) < Left(ahead, rest)
  {
    if !r.other && code == Eom {
      WindowShrinks(ahead, rest, d, n, r.html);
    }
  }

  lemma GatheredOn(r: Reader, buf: seq<Byte>, now: seq<Byte>, a0: int, t0: seq<Byte>, d: int)
    requires !r.other && Outcome(Eom, r, buf, ReadWindow(a0, t0, d, |buf|, r.html)) && |buf| < |now| && now[..|buf|] == buf
    ensures Gathered(r, now, |buf|, a0, t0, d)
  {
  }

  /** The loop of soap_peek_element: windows into the look-aside buffer, which doubles, until the value is complete. */
  method FillAll(r: Reader, lab: LookAside, d: int, ghost a0: int, ghost t0: seq<Byte>) returns (code: Code)
    requires Gathered(r, lab.buf[..], lab.idx, a0, t0, d)
    modifies r`bufidx, r`ahead, r`other, lab, lab.buf
    ensures r.Valid() && (r.other || code != Eom)
    ensures Outcome(code, r, lab.buf[..], ReadWindow(a0, t0, d, lab.buf.Length, r.html))
    ensures lab.buf == old(lab.buf) || fresh(lab.buf)
  {
    while true
      invariant Gathered(r, lab.buf[..], lab.idx, a0, t0, d)
      invariant lab.buf == old(lab.buf) || fresh(lab.buf)
      decreases Left(r.ahead, r.Rest())
    {
      code := FillMore(r, lab, d, a0, t0, ReadWindow(a0, t0, d, lab.buf.Length, r.html));
      if r.other || code != Eom {
        return;
      }
      ghost var buf := lab.buf[..];
      lab.idx := lab.buf.Length;
      lab.Enlarge(0);
      GatheredOn(r, buf, lab.buf[..], a0, t0, d);
    }
  }

  /** strcpy into a new string of n bytes. */
  method StrCpy(src: array<Byte>, n: nat) returns (dst: array<Byte>)
    requires |CString(src[..])| < src.Length && |CString(src[..])| < n
    ensures fresh(dst) && dst.Length == n && CString(dst[..]) == CString(src[..])
  {
    dst := new Byte[n];
    ghost var s := src[..];
    var i := 0;
    assert s[0..] == s;
    while src[i] != 0
      invariant i < src.Length && i < n && dst[..i] == s[..i] && src[..] == s
      invariant CString(s) == s[..i] + CString(s[i..]) && |CString(s)| < n && |CString(s)| < |s|
      decreases src.Length - i
    {
      assert s[i..][1..] == s[i + 1..];
      assert s[..i + 1] == s[..i] + [s[i]];
      dst[i] := src[i];
      i := i + 1;
    }
    dst[i] := 0;
    assert CString(s) == s[..i];
    assert dst[..] == s[..i] + [0] + dst[i + 1..];
    CStringOwn(s, i);
    CStringEnds(s[..i], dst[i + 1..]);
  }

  /** strlen */
  method StrLen(s: array<Byte>) returns (n: nat)
    requires |CString(s[..])| < s.Length
    ensures n == |CString(s[..])|
  {
    n := 0;
    assert s[..][0..] == s[..];
    while s[n] != 0
      invariant n < s.Length && |CString(s[..])| == n + |CString(s[..][n..])|
      decreases s.Length - n
    {
      assert s[..][n..][1..] == s[..][n + 1..];
      n := n + 1;
    }
  }

  /** A whole attribute value, as soap_peek_element reads it: into the buffer the attribute has from before, or else by
      way of the look-aside buffer into a new one. n is how many bytes one window would need. */
  method ReadAttribute(r: Reader, lab: LookAside, value0: array<Byte>, d: int)
    returns (code: Code, value: array<Byte>, ghost n: nat)
    requires r.Valid() && !r.other && lab.buf != value0
    modifies r`bufidx, r`ahead, r`other, lab, lab.buf, value0
    ensures r.Valid() && (r.other || code != Eom)
    ensures r.other ==> ReadWindow(old(r.ahead), old(r.Rest()), d, n, r.html) == Unseen
    ensures !r.other && code == ChkEof ==> ReadWindow(old(r.ahead), old(r.Rest()), d, n, r.html) == Ended
    ensures !r.other && code == Ok ==>
      var w := ReadWindow(old(r.ahead), old(r.Rest()), d, n, r.html);
      w.Window? && w.closed && w.ahead == r.ahead && w.rest == r.Rest()
      && CString(value[..]) == CString(w.value) && |CString(value[..])| < value.Length
  {
    ghost var a0, t0, was := r.ahead, r.Rest(), value0[..];
    value, n := value0, value0.Length;
    ghost var w := ReadWindow(a0, t0, d, n, r.html);
    BehindNone(w);
    code := GetAttrVal(r, value0, 0, value0.Length, d);
    OutcomeOf(code, r, value0[..], was, [], w, w);
    if r.other || code != Eom {
      return;
    }
    lab.Store(value0);
    GatheredOn(r, value0[..], lab.buf[..], a0, t0, d);
    code := FillAll(r, lab, d, a0, t0);
    n := lab.buf.Length;
    if r.other || code != Ok {
      return;
    }
    var size := lab.buf.Length;
    if lab.idx == 0 {
      var l := StrLen(lab.buf);
      size := if l + 1 < SOAP_LABLEN then SOAP_LABLEN else l + 1;
    }
    value := StrCpy(lab.buf, size);
  }

  /** What soap_string_out has sent between quotes is read back, whatever buffers the reader has: the bytes of its
      encoding, which are the string itself if it is ASCII. */
  method AttributeOutThenIn(s: seq<Byte>, canonical: bool, z: seq<Byte>, html: Html, lab: LookAside, value0: array<Byte>)
    returns (again: seq<Byte>)
    requires NoNul(s) && lab.buf != value0
    modifies lab, lab.buf, value0
    ensures again == Expanded(s) && (Ascii(s) ==> again == s)
  {
    var out := StringOut(s, true, canonical);
    var input: seq<Byte> := out + ([34] + z);
    var reader := new Reader(input, html);
    assert reader.Rest() == input;
    var code, value;
    ghost var n;
    code, value, n := ReadAttribute(reader, lab, value0, SOAP_QT);
    WrittenWindow(s, canonical, z, n, html);
    again := CString(value[..]);
    ExpandedNoNul(s);
    CStringWhole(Expanded(s));
    ExpandedIff(s);
  }
}
