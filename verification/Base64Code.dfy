/** soap_s2base64 and soap_base642s with their own allocations. */
module Base64Code {
  import opened Basics
  import opened Memory
  import opened Base64

  /** The letters of the four digits of m. */
  function QuadOf(m: nat): (q: seq<Byte>)
    ensures |q| == 4
  {
    [Letter(m / 0x4_0000 % 64), Letter(m / 0x1000 % 64), Letter(m / 64 % 64), Letter(m % 64)]
  }

  /** Three bytes as one number. */
  function Group(b0: Byte, b1: Byte, b2: Byte): (m: nat) {
    (b0 as int * 0x100 + b1) * 0x100 + b2
  }

  lemma SplitAt(x: nat, q: nat, r: nat)
    requires x == 64 * q + r && r < 64
    ensures x / 64 == q && x % 64 == r
  {
  }

  lemma QuadSplits(b0: Byte, b1: Byte, b2: Byte)
    ensures QuadOf(Group(b0, b1, b2)) == Quad(b0, b1, b2)
  {
    var x2 := b0 as int * 16 + b1 / 16;
    var x1 := b0 as int * 0x400 + b1 as int * 4 + b2 / 64;
    SplitAt(Group(b0, b1, b2), x1, b2 % 64);
    SplitAt(x1, x2, b1 as int % 16 * 4 + b2 / 64);
    SplitAt(x2, b0 / 4, b0 as int % 4 * 16 + b1 / 16);
    Quarters(Group(b0, b1, b2));
  }

  /** t with q's last letters, from the i-th on, stored at at. */
  function Stored(t: seq<Byte>, at: nat, q: seq<Byte>, i: nat): (r: seq<Byte>)
    requires |q| == 4 && i <= 4 && at + 4 <= |t|
    ensures |r| == |t|
  {
    t[..at + i] + q[i..] + t[at + 4..]
  }

  lemma StoredNext(t: seq<Byte>, at: nat, q: seq<Byte>, i: nat)
    requires |q| == 4 && i < 4 && at + 4 <= |t|
    ensures Stored(t, at, q, i + 1)[at + i := q[i]] == Stored(t, at, q, i) && Stored(t, at, q, 4) == t
  {
  }

  /** The inner loop: the digits of m, the last one first. */
  method PutQuad(t: array<Byte>, at: nat, m0: nat)
    requires at + 4 <= t.Length
    modifies t
    ensures t[..] == Stored(old(t[..]), at, QuadOf(m0), 0)
  {
    ghost var was, q := t[..], QuadOf(m0);
    StoredNext(was, at, q, 0);
    Quarters(m0);
    var m, i := m0, 4;
    while i > 0
      invariant 0 <= i <= 4 && t[..] == Stored(was, at, q, i)
      invariant m == if i == 4 then m0 else if i == 3 then m0 / 64 else if i == 2 then m0 / 0x1000 else if i == 1 then m0 / 0x4_0000 else m
    {
      i := i - 1;
      StoredNext(was, at, q, i);
      t[at + i] := Letter(m % 64);
      m := m / 64;
    }
  }

  lemma Quarters(m: nat)
    ensures m / 64 / 64 == m / 0x1000 && m / 0x1000 / 64 == m / 0x4_0000
  {
  }

  lemma EncodeNext(s: seq<Byte>, at: nat, done: seq<Byte>, total: seq<Byte>)
    requires at + 2 < |s| && done + Encode(s[at..]) == total
    ensures (done + Quad(s[at], s[at + 1], s[at + 2])) + Encode(s[at + 3..]) == total
  {
    var r := s[at..];
    assert r[3..] == s[at + 3..];
    assert done + (Quad(r[0], r[1], r[2]) + Encode(r[3..])) == (done + Quad(r[0], r[1], r[2])) + Encode(r[3..]);
  }

  lemma Grown(t: seq<Byte>, at: nat, q: seq<Byte>)
    requires at + 4 <= |t| && |q| == 4
    ensures Stored(t, at, q, 0)[..at + 4] == t[..at] + q
  {
  }

  /** One group of three bytes. */
  method PutGroup(b0: Byte, b1: Byte, b2: Byte, p: array<Byte>, t: nat, ghost done: seq<Byte>)
    requires t + 4 <= p.Length && p[..][..t] == done
    modifies p
    ensures p[..][..t + 4] == done + Quad(b0, b1, b2)
  {
    QuadSplits(b0, b1, b2);
    Grown(p[..], t, Quad(b0, b1, b2));
    PutQuad(p, t, Group(b0, b1, b2));
  }

  lemma Padded(was: seq<Byte>, done: seq<Byte>, q: seq<Byte>, t: nat)
    requires |q| == 4 && t + 4 <= |was| && was[..t + 4] == done + q && t == |done|
    ensures was[t + 3 := 61][..t + 4] == done + (q[..3] + [61])
    ensures was[t + 2 := 61][t + 3 := 61][..t + 4] == done + (q[..2] + [61, 61])
  {
  }

  /** The one or two bytes that are left over. */
  method PutLast(s: seq<Byte>, at: nat, p: array<Byte>, t: nat, ghost done: seq<Byte>)
    requires 1 <= |s| - at <= 2 && t + 4 <= p.Length && t == |done| && p[..][..t] == done
    modifies p
    ensures p[..][..t + 4] == done + Encode(s[at..])
  {
    var n := |s| - at;
    EncodeLast(s, at, n);
    var b1 := if n == 2 then s[at + 1] else 0;
    PutGroup(s[at], b1, 0, p, t, done);
    Padded(p[..], done, Quad(s[at], b1, 0), t);
    if n == 1 {
      p[t + 2] := 61;
    }
    p[t + 3] := 61;
  }

  /** soap_s2base64: the text and its terminator fill the allocation. */
  method S2base64(s: seq<Byte>) returns (p: array<Byte>)
    ensures p[..] == Encode(s) + [0]
  {
    p := new Byte[(|s| + 2) / 3 * 4 + 1];
    var n, at, t := |s|, 0, 0;
    ghost var total, done := Encode(s), [];
    assert s[0..] == s;
    while n > 2
      invariant 0 <= at <= |s| && n == |s| - at && t == |done| && t + |Encode(s[at..])| + 1 == p.Length
      invariant p[..][..t] == done && done + Encode(s[at..]) == total
    {
      EncodeNext(s, at, done, total);
      PutGroup(s[at], s[at + 1], s[at + 2], p, t, done);
      done := done + Quad(s[at], s[at + 1], s[at + 2]);
      n, at, t := n - 3, at + 3, t + 4;
    }
    if n > 0 {
      PutLast(s, at, p, t, done);
      t := t + 4;
    } else {
      assert s[at..] == [] && done + [] == done;
    }
    assert p[..][..t] == total;
    p[t] := 0;
    assert p[..] == p[..][..t] + [0];
  }

  lemma EncodeLast(s: seq<Byte>, at: nat, n: nat)
    requires at + n == |s| && 1 <= n <= 2
    ensures n == 1 ==> Encode(s[at..]) == Quad(s[at], 0, 0)[..2] + [61, 61]
    ensures n == 2 ==> Encode(s[at..]) == Quad(s[at], s[at + 1], 0)[..3] + [61]
  {
  }

  // ---------- decoding ----------

  lemma SplitAt256(x: nat, q: nat, r: nat)
    requires x == 0x100 * q + r && r < 0x100
    ensures x / 0x100 == q && x % 0x100 == r
  {
  }

  /** The number some digits make. */
  function Value(g: seq<Sextet>): (m: nat) {
    if g == [] then 0 else Value(g[..|g| - 1]) * 64 + g[|g| - 1]
  }

  lemma ValueNext(g: seq<Sextet>, v: Sextet)
    ensures Value(g + [v]) == Value(g) * 64 + v
  {
    assert (g + [v])[..|g|] == g;
  }

  lemma Values(g: seq<Sextet>)
    ensures |g| == 2 ==> Value(g) == g[0] as int * 64 + g[1]
    ensures |g| == 3 ==> Value(g) == (g[0] as int * 64 + g[1]) * 64 + g[2]
    ensures |g| == 4 ==> Value(g) == ((g[0] as int * 64 + g[1]) * 64 + g[2]) * 64 + g[3]
  {
    if 2 <= |g| <= 4 {
      assert Value(g[..1]) == g[0] && Value(g[..2]) == Value(g[..1]) * 64 + g[1] by {
        assert g[..1][..0] == [] && g[..2][..1] == g[..1];
      }
      if |g| == 2 {
        assert g[..2] == g;
      } else {
        assert Value(g[..3]) == Value(g[..2]) * 64 + g[2] by { assert g[..3][..2] == g[..2]; }
        assert |g| == 3 ==> g[..3] == g;
      }
    }
  }

  function High(m: nat): Byte { m / 0x1_0000 % 0x100 }

  function Middle(m: nat): Byte { m / 0x100 % 0x100 }

  function Bottom(m: nat): Byte { m % 0x100 }

  function OnlyOfTwo(m: nat): Byte { m / 16 % 0x100 }

  function FirstOfThree(m: nat): Byte { m / 0x400 % 0x100 }

  function SecondOfThree(m: nat): Byte { m / 4 % 0x100 }

  lemma FourShifts(v0: Sextet, v1: Sextet, v2: Sextet, v3: Sextet, m: nat)
    requires m == ((v0 as int * 64 + v1) * 64 + v2) * 64 + v3
    ensures High(m) == v0 * 4 + v1 / 16 && Middle(m) == v1 % 16 * 16 + v2 / 4 && Bottom(m) == v2 % 4 * 64 + v3
  {
    var x1 := v0 as int * 0x400 + v1 as int * 16 + v2 / 4;
    var x2 := v0 as int * 4 + v1 / 16;
    SplitAt256(m, x1, v2 as int % 4 * 64 + v3);
    SplitAt256(x1, x2, v1 as int % 16 * 16 + v2 / 4);
    assert m / 0x1_0000 == m / 0x100 / 0x100;
    assert x2 < 0x100;
  }

  lemma ThreeShifts(v0: Sextet, v1: Sextet, v2: Sextet, m: nat)
    requires m == (v0 as int * 64 + v1) * 64 + v2
    ensures FirstOfThree(m) == v0 * 4 + v1 / 16 && SecondOfThree(m) == v1 % 16 * 16 + v2 / 4
  {
    var x1 := v0 as int * 0x400 + v1 as int * 16 + v2 / 4;
    var x2 := v0 as int * 4 + v1 / 16;
    assert m == 4 * x1 + v2 % 4;
    SplitAt256(x1, x2, v1 as int % 16 * 16 + v2 / 4);
    assert m / 4 == x1 && m / 0x400 == m / 4 / 0x100;
    assert x2 < 0x100;
  }

  lemma TwoShifts(v0: Sextet, v1: Sextet, m: nat)
    requires m == v0 as int * 64 + v1
    ensures OnlyOfTwo(m) == v0 * 4 + v1 / 16
  {
    assert m == 16 * (v0 as int * 4 + v1 / 16) + v1 % 16;
  }

  /** The bytes of four, three or two digits, as they are shifted out of their number. */
  lemma TripleSplits(g: seq<Sextet>)
    requires |g| == 4
    ensures [High(Value(g)), Middle(Value(g)), Bottom(Value(g))] == Triple(g[0], g[1], g[2], g[3])
  {
    Values(g);
    FourShifts(g[0], g[1], g[2], g[3], Value(g));
  }

  lemma OneOfTriple(v0: Sextet, v1: Sextet)
    ensures Triple(v0, v1, 0, 0)[..1] == [v0 * 4 + v1 / 16]
  {
  }

  lemma TwoOfTriple(v0: Sextet, v1: Sextet, v2: Sextet)
    ensures Triple(v0, v1, v2, 0)[..2] == [v0 * 4 + v1 / 16, v1 % 16 * 16 + v2 / 4]
  {
  }

  lemma PairSplits(g: seq<Sextet>)
    requires |g| == 2
    ensures Bytes8(g) == [OnlyOfTwo(Value(g))]
  {
    Values(g);
    TwoShifts(g[0], g[1], Value(g));
    OneOfTriple(g[0], g[1]);
  }

  lemma ThreeSplit(g: seq<Sextet>)
    requires |g| == 3
    ensures Bytes8(g) == [FirstOfThree(Value(g)), SecondOfThree(Value(g))]
  {
    Values(g);
    ThreeShifts(g[0], g[1], g[2], Value(g));
    TwoOfTriple(g[0], g[1], g[2]);
  }

  lemma PartSplits(g: seq<Sextet>)
    requires 2 <= |g| <= 3
    ensures var m := Value(g);
      Bytes8(g) == if |g| == 2 then [OnlyOfTwo(m)] else [FirstOfThree(m), SecondOfThree(m)]
  {
    if |g| == 2 {
      PairSplits(g);
    } else {
      ThreeSplit(g);
    }
  }

  lemma {:induction false} BytesOn(a: seq<Sextet>, b: seq<Sextet>)
    requires |a| % 4 == 0
    ensures Bytes8(a + b) == Bytes8(a) + Bytes8(b)
  {
    if a == [] {
      assert a + b == b && Bytes8(a) + Bytes8(b) == Bytes8(b);
    } else {
      assert (a + b)[4..] == a[4..] + b;
      BytesOn(a[4..], b);
      var t := Triple(a[0], a[1], a[2], a[3]);
      assert t + (Bytes8(a[4..]) + Bytes8(b)) == (t + Bytes8(a[4..])) + Bytes8(b);
    }
  }

  /** What the reader of one group has found. */
  datatype Status = Full | Stop | Wrong

  lemma DigitsStep(s: seq<Byte>, pos: nat)
    requires NoNul(s) && pos < |s| && s[pos] != 61
    ensures ClassOf(s[pos]).Bad? ==> Digits(s[pos..]) == None
    ensures ClassOf(s[pos]).Blank? ==> Digits(s[pos..]) == Digits(s[pos + 1..])
    ensures ClassOf(s[pos]).Digit? ==> Digits(s[pos..]) == Ahead([ClassOf(s[pos]).v], Digits(s[pos + 1..]))
  {
    assert s[pos..][1..] == s[pos + 1..];
  }

  function Ahead(g: seq<Sextet>, r: Option<seq<Sextet>>): Option<seq<Sextet>> {
    match r
    case None => None
    case Some(vs) => Some(g + vs)
  }

  lemma AheadOn(g: seq<Sextet>, v: Sextet, r: Option<seq<Sextet>>)
    ensures Ahead(g, Ahead([v], r)) == Ahead(g + [v], r)
  {
    if r.Some? {
      assert g + ([v] + r.value) == (g + [v]) + r.value;
    }
  }

  /** The inner loop: up to four digits. */
  method ReadGroup(s: seq<Byte>, from: nat) returns (status: Status, m: nat, j: nat, pos: nat, ghost g: seq<Sextet>)
    requires NoNul(s) && from <= |s|
    ensures j == |g| && m == Value(g) && from + j <= pos <= |s|
    ensures status == Wrong ==> Digits(s[from..]) == None
    ensures status == Stop ==> j < 4 && Digits(s[from..]) == Some(g)
    ensures status == Full ==> j == 4 && Digits(s[from..]) == Ahead(g, Digits(s[pos..]))
  {
    m, j, pos, g := 0, 0, from, [];
    ghost var total := Digits(s[from..]);
    assert total == Ahead([], total) by {
      if total.Some? {
        assert [] + total.value == total.value;
      }
    }
    while j < 4
      invariant j == |g| <= 4 && m == Value(g) && from + j <= pos <= |s| && total == Ahead(g, Digits(s[pos..]))
      decreases |s| - pos
    {
      if pos == |s| || s[pos] == 61 {
        assert g + [] == g;
        return Stop, m, j, pos, g;
      }
      DigitsStep(s, pos);
      var c := ClassOf(s[pos]);
      if c.Digit? {
        AheadOn(g, c.v, Digits(s[pos + 1..]));
        ValueNext(g, c.v);
        m := m * 64 + c.v;
        j := j + 1;
        g := g + [c.v];
      } else if c.Bad? {
        return Wrong, m, j, pos, g;
      }
      pos := pos + 1;
    }
    status := Full;
  }

  /** How many groups are counted before *n is brought up to date. */
  const SOAP_BLKLEN := 256

  lemma Appended(t: seq<Byte>, at: nat, done: seq<Byte>, a: Byte, b: Byte, c: Byte)
    requires at == |done| && at <= |t| && t[..at] == done
    ensures at < |t| ==> t[at := a][..at + 1] == done + [a]
    ensures at + 1 < |t| ==> t[at := a][at + 1 := b][..at + 2] == done + [a, b]
    ensures at + 2 < |t| ==> t[at := a][at + 1 := b][at + 2 := c][..at + 3] == done + [a, b, c]
  {
  }

  /** The bytes of the last group, and the terminator. */
  method PutPart(p: array<Byte>, at0: nat, m: nat, j: nat, ghost g: seq<Sextet>, ghost done: seq<Byte>)
    returns (at: nat)
    requires j == |g| < 4 && m == Value(g) && at0 + (if j < 2 then 0 else j - 1) < p.Length
    requires at0 == |done| && p[..][..at0] == done
    modifies p
    ensures at == at0 + |Bytes8(g)| && p[..][..at] == done + Bytes8(g) && p[at] == 0
  {
    at := at0;
    if j >= 2 {
      PartSplits(g);
    }
    Appended(p[..], at0, done, if j == 2 then OnlyOfTwo(m) else FirstOfThree(m), SecondOfThree(m), 0);
    if j == 2 {
      p[at] := OnlyOfTwo(m);
      at := at + 1;
    } else if j == 3 {
      p[at] := FirstOfThree(m);
      p[at + 1] := SecondOfThree(m);
      at := at + 2;
    } else {
      assert done + [] == done;
    }
    ghost var now := p[..];
    p[at] := 0;
    assert now[at := 0][..at] == now[..at];
  }

  /** The allocation has room for what so many digits make. */
  lemma Fits(at: nat, v: nat, j: nat, len: nat)
    requires 4 * at == 3 * v && v % 4 == 0 && v + j <= len && len > 0
    ensures at + (if j < 2 then 0 else if j < 4 then j - 1 else 3) < (len + 3) / 4 * 3 + 1
  {
    var q := v / 4;
    assert v == 4 * q && at == 3 * q;
    assert (len + 3) / 4 >= q;
    if j >= 2 {
      assert (len + 3) / 4 >= q + 1;
    }
  }

  lemma GroupOn(vs: seq<Sextet>, g: seq<Sextet>, done: seq<Byte>)
    requires |vs| % 4 == 0 && |g| == 4 && done == Bytes8(vs)
    ensures done + Bytes8(g) == Bytes8(vs + g) && |Bytes8(g)| == 3
    ensures |vs + g| == |vs| + 4 && |vs + g| % 4 == 0
  {
    BytesOn(vs, g);
    assert Bytes8(g) == Triple(g[0], g[1], g[2], g[3]) + Bytes8(g[4..]) && Bytes8(g[4..]) == [];
  }

  lemma Finished(s: seq<Byte>, vs: seq<Sextet>, g: seq<Sextet>, done: seq<Byte>)
    requires NoNul(s) && Digits(s) == Ahead(vs, Some(g)) && |vs| % 4 == 0 && done == Bytes8(vs) && |g| < 4
    ensures Decode(s) == Some(done + Bytes8(g)) && |Bytes8(g)| == if |g| < 2 then 0 else |g| - 1
  {
    BytesOn(vs, g);
  }

  /** One more group; *n is brought up to date every SOAP_BLKLEN groups. */
  method CountGroup(n0: nat, i0: nat) returns (n: nat, i: nat)
    requires i0 < SOAP_BLKLEN
    ensures i < SOAP_BLKLEN && n + 3 * i == n0 + 3 * i0 + 3
  {
    n, i := n0, i0 + 1;
    if i == SOAP_BLKLEN {
      n := n + 3 * SOAP_BLKLEN;
      i := 0;
    }
  }

  /** The outer loop: groups of four digits, and what is left at the end; not ok for a foreign byte. */
  method DecodeInto(s: seq<Byte>, p: array<Byte>) returns (n: nat, ok: bool)
    requires NoNul(s) && s != [] && p.Length == (|s| + 3) / 4 * 3 + 1
    modifies p
    ensures ok <==> Decode(s).Some?
    ensures ok ==> n < p.Length && p[..][..n] == Decode(s).value && p[n] == 0
  {
    n := 0;
    var i, at, pos := 0, 0, 0;
    ghost var vs: seq<Sextet>, done: seq<Byte> := [], [];
    assert s[0..] == s;
    AheadNone(Digits(s));
    while true
      invariant 0 <= i < SOAP_BLKLEN && at == n + 3 * i && |vs| % 4 == 0 && |vs| <= pos <= |s|
      invariant at == |done| && 4 * at == 3 * |vs| && done == Bytes8(vs) && p[..][..at] == done
      invariant Digits(s) == Ahead(vs, Digits(s[pos..]))
      decreases |s| - pos
    {
      var status, m, j, next;
      ghost var g;
      status, m, j, next, g := ReadGroup(s, pos);
      if status == Wrong {
        return n, false;
      }
      Fits(at, |vs|, j, |s|);
      if status == Stop {
        Finished(s, vs, g, done);
        at := PutPart(p, at, m, j, g, done);
        n := n + (i * 3 + if j == 2 then 1 else if j == 3 then 2 else 0);
        return n, true;
      }
      AheadTwice(vs, g, Digits(s[next..]));
      GroupOn(vs, g, done);
      PutTriple(p, at, m, g, done);
      at := at + 3;
      vs, done := vs + g, done + Bytes8(g);
      pos := next;
      n, i := CountGroup(n, i);
    }
  }

  /** soap_base642s: the bytes, their number and a terminator, inside the allocation; not ok for a foreign byte. */
  method Base642s(s: seq<Byte>) returns (p: array<Byte>, n: nat, ok: bool)
    requires NoNul(s)
    ensures ok <==> Decode(s).Some?
    ensures ok && s != [] ==> n < p.Length && p[..][..n] == Decode(s).value && p[n] == 0
    ensures s == [] ==> n == 0
  {
    if s == [] {
      p := new Byte[0];
      return p, 0, true;
    }
    p := new Byte[(|s| + 3) / 4 * 3 + 1];
    n, ok := DecodeInto(s, p);
  }

  /** The bytes of a whole group. */
  method PutTriple(p: array<Byte>, at: nat, m: nat, ghost g: seq<Sextet>, ghost done: seq<Byte>)
    requires |g| == 4 && m == Value(g) && at == |done| && at + 3 <= p.Length && p[..][..at] == done
    modifies p
    ensures p[..][..at + 3] == done + Bytes8(g)
  {
    TripleSplits(g);
    assert g[4..] == [] && Bytes8(g) == Triple(g[0], g[1], g[2], g[3]) + [];
    Appended(p[..], at, done, High(m), Middle(m), Bottom(m));
    p[at] := High(m);
    p[at + 1] := Middle(m);
    p[at + 2] := Bottom(m);
  }

  lemma AheadNone(r: Option<seq<Sextet>>)
    ensures Ahead([], r) == r
  {
    if r.Some? {
      assert [] + r.value == r.value;
    }
  }

  lemma AheadTwice(a: seq<Sextet>, b: seq<Sextet>, r: Option<seq<Sextet>>)
    ensures Ahead(a, Ahead(b, r)) == Ahead(a + b, r)
  {
    if r.Some? {
      assert a + (b + r.value) == (a + b) + r.value;
    }
  }

  /** What has been encoded decodes to the same bytes, and their exact number. */
  method EncodeThenDecode(s: seq<Byte>) returns (p: array<Byte>, n: nat, ok: bool)
    ensures ok && n == |s| && (s != [] ==> n < p.Length && p[..][..n] == s)
  {
    var t := S2base64(s);
    DecodesEncoded(s);
    var text := t[..t.Length - 1];
    assert text == Encode(s);
    p, n, ok := Base642s(text);
  }
}
