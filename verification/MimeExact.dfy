/** Exactly which MIME parts are read back: those whose header has at least one line. */
module MimeExact {
  import opened Basics
  import opened Memory
  import opened Attachments
  import opened MimeReading
  import opened MimeRoundTrip

  // ---------- where lines end ----------

  ghost predicate SuffixOf(r: seq<Byte>, t: seq<Byte>) {
    |r| <= |t| && r == t[|t| - |r|..]
  }

  /** A line that ends in front of r ends with a line feed. */
  ghost predicate EndsAt(t: seq<Byte>, r: seq<Byte>) {
    |r| < |t| && SuffixOf(r, t) && t[|t| - |r| - 1] == 10
  }

  lemma SuffixOfTail(r: seq<Byte>, t: seq<Byte>, k: nat)
    requires k <= |t| && SuffixOf(r, t[k..])
    ensures SuffixOf(r, t) && (EndsAt(t[k..], r) ==> EndsAt(t, r))
  {
    var u := t[k..];
    assert u[|u| - |r|..] == t[|t| - |r|..];
    assert |r| < |u| ==> u[|u| - |r| - 1] == t[|t| - |r| - 1];
  }

  lemma {:induction false} FillEnds(s: seq<Byte>, i: int, c: int, t: seq<Byte>)
    requires c != 10
    ensures var f := FillLine(s, i, c, t); f.Fill? ==> SuffixOf(f.rest, t) && (f.c == 10 ==> EndsAt(t, f.rest))
    decreases |t|
  {
    if i - 1 > 0 && t != [] && !EndsLine(t[0]) {
      FillEnds(s + [t[0]], i - 1, t[0], t[1..]);
      var f := FillLine(s + [t[0]], i - 1, t[0], t[1..]);
      if f.Fill? {
        SuffixOfTail(f.rest, t, 1);
      }
    }
  }

  lemma {:induction false} GetLineEnds(s: seq<Byte>, i: int, c: int, t: seq<Byte>)
    requires c != 10
    ensures var r := GetLine(s, i, c, t); r.LineOf? ==> EndsAt(t, r.rest)
    decreases |t|
  {
    FillEnds(s, i, c, t);
    var f := FillLine(s, i, c, t);
    if f.Fill? && (f.c == 10 || f.rest != []) {
      var c2 := if f.c == 10 then 10 else f.rest[0];
      var t2 := if f.c == 10 then f.rest else f.rest[1..];
      var k := |t| - |t2|;
      assert t2 == t[k..] && (c2 == 10 ==> EndsAt(t, t2));
      if c2 == 10 && f.i + 1 != LEN && Continues(t2) {
        GetLineEnds(f.s, f.i, t2[0], t2);
        SuffixOfLine(GetLine(f.s, f.i, t2[0], t2), t, k);
      } else if c2 != 10 && f.i >= 0 {
        GetLineEnds(f.s, f.i, c2, t2);
        SuffixOfLine(GetLine(f.s, f.i, c2, t2), t, k);
      }
    }
  }

  lemma SuffixOfLine(r: LineRead, t: seq<Byte>, k: nat)
    requires k <= |t| && (r.LineOf? ==> EndsAt(t[k..], r.rest))
    ensures r.LineOf? ==> EndsAt(t, r.rest)
  {
    if r.LineOf? {
      SuffixOfTail(r.rest, t, k);
    }
  }

  lemma LineEnds(t: seq<Byte>)
    ensures ReadLine(t).LineOf? ==> EndsAt(t, ReadLine(t).rest)
  {
    GetLineEnds([], LEN, 0, t);
  }

  lemma {:induction false} FillStops(s: seq<Byte>, i: int, c: int, u: seq<Byte>, w: seq<Byte>)
    requires c != 10
    ensures var f := FillLine(s, i, c, u + ([10] + w)); f.Fill? ==> |f.rest| >= |w| && (|f.rest| == |w| ==> f.c == 10)
    decreases |u|
  {
    var t := u + ([10] + w);
    if u != [] {
      assert t[0] == u[0] && t[1..] == u[1..] + ([10] + w);
      if i - 1 > 0 && !EndsLine(u[0]) {
        FillStops(s + [u[0]], i - 1, u[0], u[1..], w);
      }
    } else {
      assert t[0] == 10 && t[1..] == w;
    }
  }

  lemma SplitsAt(r: seq<Byte>, u: seq<Byte>, w: seq<Byte>)
    requires SuffixOf(r, u + ([10] + w)) && |r| > |w|
    ensures |r| - |w| - 1 <= |u| && r == u[|u| - (|r| - |w| - 1)..] + ([10] + w)
  {
  }

  /** A line feed that nothing continues is not passed. */
  lemma {:induction false} GetLineStops(s: seq<Byte>, i: int, c: int, u: seq<Byte>, w: seq<Byte>)
    requires c != 10 && !Continues(w)
    ensures var r := GetLine(s, i, c, u + ([10] + w)); r.LineOf? ==> |r.rest| >= |w|
    decreases |u|
  {
    var t := u + ([10] + w);
    FillEnds(s, i, c, t);
    FillStops(s, i, c, u, w);
    var f := FillLine(s, i, c, t);
    if f.Fill? && (f.c == 10 || f.rest != []) {
      var c2 := if f.c == 10 then 10 else f.rest[0];
      var t2 := if f.c == 10 then f.rest else f.rest[1..];
      assert t2 == t[|t| - |t2|..] && |t2| < |t|;
      if |f.rest| > |w| {
        SplitsAt(f.rest, u, w);
      }
      assert |t2| >= |w| && (|t2| == |w| ==> c2 == 10 && t2 == w);
      if |t2| > |w| {
        SplitsAt(t2, u, w);
        var v := u[|u| - (|t2| - |w| - 1)..];
        if c2 == 10 && f.i + 1 != LEN && Continues(t2) {
          GetLineStops(f.s, f.i, t2[0], v, w);
        } else if c2 != 10 && f.i >= 0 {
          GetLineStops(f.s, f.i, c2, v, w);
        }
      }
    }
  }

  // ---------- where headers end ----------

  /** r starts inside y. */
  ghost predicate Inside(r: seq<Byte>, y: seq<Byte>, w: seq<Byte>) {
    exists k :: 0 < k <= |y| && r == y[k..] + ([13, 10] + w)
  }

  /** One line ends inside y, or at the line end behind it. */
  lemma LineInside(y: seq<Byte>, w: seq<Byte>)
    requires !Continues(w)
    ensures var r := ReadLine(y + ([13, 10] + w)); r.LineOf? ==> r.rest == w || Inside(r.rest, y, w)
  {
    var t := y + ([13, 10] + w);
    assert t == (y + [13]) + ([10] + w);
    GetLineStops([], LEN, 0, y + [13], w);
    LineEnds(t);
    var r := ReadLine(t);
    if r.LineOf? && |r.rest| > |w| {
      assert t[|y|] == 13;
      var k := |t| - |r.rest|;
      assert t[k - 1] == 10 && k - 1 != |y|;
      assert k <= |y|;
      assert t[k..] == y[k..] + ([13, 10] + w);
    }
  }

  lemma InsideOn(r: seq<Byte>, y: seq<Byte>, k: nat, w: seq<Byte>)
    requires 0 < k <= |y| && Inside(r, y[k..], w)
    ensures Inside(r, y, w)
  {
    var j :| 0 < j <= |y[k..]| && r == y[k..][j..] + ([13, 10] + w);
    assert y[k..][j..] == y[k + j..];
  }

  /** Header lines end inside y, at the line end behind it, or go on behind it. */
  lemma {:induction false} LinesStop(p: Part, y: seq<Byte>, w: seq<Byte>) returns (q: Part)
    requires !Continues(w)
    ensures var h := NextLines(p, y + ([13, 10] + w));
      h.Header? ==> h.rest == w || Inside(h.rest, y, w) || h == NextLines(q, w)
    decreases |y|
  {
    q := p;
    var t := y + ([13, 10] + w);
    LineInside(y, w);
    var r := ReadLine(t);
    if r.LineOf? && r.text != [] && SetField(p, r.text).Some? {
      q := SetField(p, r.text).value;
      if r.rest != w {
        var k :| 0 < k <= |y| && r.rest == y[k..] + ([13, 10] + w);
        var h := NextLines(q, r.rest);
        q := LinesStop(q, y[k..], w);
        if h.Header? && Inside(h.rest, y[k..], w) {
          InsideOn(h.rest, y, k, w);
        }
      }
    }
  }

  lemma {:induction false} HeaderStops(y: seq<Byte>, w: seq<Byte>, boundary: seq<Byte>) returns (q: Part)
    requires !Continues(w)
    ensures var h := GetHeader(y + ([13, 10] + w), boundary);
      h.Header? ==> h.rest == w || Inside(h.rest, y, w) || h == NextLines(q, w) || h == GetHeader(w, boundary)
    decreases |y|
  {
    q := BLANK_PART;
    var t := y + ([13, 10] + w);
    LineInside(y, w);
    var r := ReadLine(t);
    if r.LineOf? && r.rest != w {
      var k :| 0 < k <= |y| && r.rest == y[k..] + ([13, 10] + w);
      var h := GetHeader(t, boundary);
      if r.text == [] {
        q := HeaderStops(y[k..], w, boundary);
      } else {
        var first := if |r.text| > 1 && r.text[0] == 45 && r.text[1] == 45 then BLANK_PART
                     else if SetField(BLANK_PART, r.text).Some? then SetField(BLANK_PART, r.text).value else BLANK_PART;
        q := LinesStop(first, y[k..], w);
      }
      if h.Header? && Inside(h.rest, y[k..], w) {
        InsideOn(h.rest, y, k, w);
      }
    } else if r.LineOf? && r.text != [] && SetField(BLANK_PART, r.text).Some?
              && !(|r.text| > 1 && r.text[0] == 45 && r.text[1] == 45) {
      q := SetField(BLANK_PART, r.text).value;
    }
  }

  // ---------- behind the line end of a delimiter ----------

  lemma HyphenIgnored(p: Part, line: seq<Byte>)
    requires line != [] && line[0] == 45
    ensures SetField(p, line) == Some(p)
  {
    var k := Colon(line, 0);
    if k < |line| {
      var key := line[..k];
      assert key[0] == 45;
    }
  }

  lemma Assigns(p: Part, n: nat, v: seq<Byte>)
    requires n < 5
    ensures Assign(p, NameOf(n), v).Some?
  {
    var key := NameOf(n);
    if n == 0 {
      TypeRead(p, key, v);
    } else if n == 1 {
      EncodingRead(p, key, v);
    } else if n == 2 {
      IdRead(p, key, v);
    } else if n == 3 {
      LocationRead(p, key, v);
    } else {
      DescriptionRead(p, key, v);
    }
  }

  /** Whatever has been read before, the lines of a header end where they were written to end. */
  lemma {:induction false} LinesPass(p: Part, q: Part, n: nat, z: seq<Byte>)
    requires n <= 5 && CleanPart(q)
    ensures var h := NextLines(p, LinesFrom(q, n, z)); h.Header? && h.rest == z
    decreases 5 - n
  {
    if n == 5 {
      LineReads([], z);
      assert [] + ([13, 10] + z) == [13, 10] + z;
    } else {
      LinesStep(q, n, z);
      LinesPlain(q, n + 1, z);
      NameIs(n);
      ValueClean(q, n);
      var next := p;
      if ValueOf(q, n).Text? {
        Assigns(p, n, ValueOf(q, n).bytes);
        next := Assign(p, NameOf(n), ValueOf(q, n).bytes).value;
      }
      HeaderReads(p, next, Label(n), NameOf(n), ValueOf(q, n), LinesFrom(q, n + 1, z));
      LinesPass(next, q, n + 1, z);
    }
  }

  ghost predicate PlainBoundary(boundary: seq<Byte>) {
    0 !in boundary && 10 !in boundary && 13 !in boundary && |boundary| <= LEN - 4
  }

  /** The delimiter's line, as a header line: it changes nothing. */
  lemma BoundaryPasses(p: Part, boundary: seq<Byte>, q: Part, z: seq<Byte>)
    requires PlainBoundary(boundary) && CleanPart(q)
    ensures var h := NextLines(p, [45, 45] + boundary + ([13, 10] + LinesFrom(q, 0, z))); h.Header? && h.rest == z
  {
    var line := [45, 45] + boundary;
    LinesPlain(q, 0, z);
    LineReads(line, LinesFrom(q, 0, z));
    HyphenIgnored(p, line);
    LinesPass(p, q, 0, z);
  }

  lemma BoundaryFirst(boundary: seq<Byte>, q: Part, z: seq<Byte>)
    requires PlainBoundary(boundary) && CleanPart(q)
    ensures var h := GetHeader([45, 45] + boundary + ([13, 10] + LinesFrom(q, 0, z)), boundary); h.Header? ==> h.rest == z
  {
    var line := [45, 45] + boundary;
    LinesPlain(q, 0, z);
    LineReads(line, LinesFrom(q, 0, z));
    LinesPass(BLANK_PART, q, 0, z);
  }

  /** The first line of text that starts with no line feed ends behind that start. */
  lemma EndsBehind(a: seq<Byte>, z: seq<Byte>)
    requires 10 !in a
    ensures var r := ReadLine(a + z); r.LineOf? ==> |r.rest| < |z|
  {
    LineEnds(a + z);
    forall k | 0 <= k < |a| ensures (a + z)[k] != 10 {
      assert a[k] in a;
    }
  }

  lemma PassesEnd(p: Part, a: seq<Byte>, z: seq<Byte>, boundary: seq<Byte>)
    requires 10 !in a
    ensures NextLines(p, a + z).Header? ==> |NextLines(p, a + z).rest| < |z|
    ensures GetHeader(a + z, boundary).Header? ==> |GetHeader(a + z, boundary).rest| < |z|
  {
    EndsBehind(a, z);
  }

  lemma {:induction false} PartsShrink(cur: Part, t: seq<Byte>, boundary: seq<Byte>)
    ensures var r := ReadParts(cur, t, boundary); r.Received? ==> |r.rest| < |t|
    decreases |t|
  {
    var p := PieceOf(t, boundary);
    if p.Piece? && p.after.More? {
      var h := GetHeader(p.after.rest, boundary);
      if h.Header? {
        PartsShrink(h.part, h.rest, boundary);
      }
    }
  }

  lemma FindsCr(t: seq<Byte>, boundary: seq<Byte>)
    ensures var k := Find(Delimiter(boundary), t, 0); k < |t| ==> t[k] == 13 && k + |Delimiter(boundary)| <= |t|
  {
    var d := Delimiter(boundary);
    var k := Find(d, t, 0);
    if k < |t| {
      assert t[k..][0] == d[0];
    }
  }

  /** A content that begins with no return ends behind that beginning. */
  lemma EndsLater(cur: Part, a: seq<Byte>, z: seq<Byte>, boundary: seq<Byte>)
    requires 13 !in a
    ensures var r := ReadParts(cur, a + z, boundary); r.Received? ==> |r.rest| < |z|
  {
    var t := a + z;
    var d := Delimiter(boundary);
    var k := Find(d, t, 0);
    FindsCr(t, boundary);
    forall i | 0 <= i < |a| ensures t[i] != 13 {
      assert a[i] in a;
    }
    if k < |t| {
      var p := PieceOf(t, boundary);
      assert |t[k + |d|..]| < |z|;
      if p.after.More? {
        var h := GetHeader(p.after.rest, boundary);
        if h.Header? {
          PartsShrink(h.part, h.rest, boundary);
        }
      }
    }
  }

  // ---------- a part that swallows the next one ----------

  lemma {:induction false} LinesAppend(p: Part, n: nat, c: seq<Byte>, z: seq<Byte>)
    requires n <= 5
    ensures LinesFrom(p, n, c + z) == LinesFrom(p, n, c) + z
    decreases 5 - n
  {
    if n == 5 {
      Associate([13, 10], c, z);
    } else {
      LinesAppend(p, n + 1, c, z);
      LinesStep(p, n, c);
      LinesStep(p, n, c + z);
      Associate(Line(Label(n), ValueOf(p, n)), LinesFrom(p, n + 1, c), z);
    }
  }

  /** A line without a return in it, in front of text that starts with no hyphen, holds no delimiter. */
  lemma UnbrokenLine(boundary: seq<Byte>, line: seq<Byte>, t: seq<Byte>)
    requires 13 !in line && t != [] && t[0] != 45 && Unbroken(boundary, t)
    ensures Unbroken(boundary, line + ([13, 10] + t))
  {
    var d, y := Delimiter(boundary), line + ([13, 10] + t);
    forall j | 0 <= j <= |y| ensures !(d <= y[j..]) {
      if j < |line| {
        assert y[j..][0] == line[j] && line[j] in line;
      } else if j == |line| {
        assert y[j..][2] == t[0];
      } else if j == |line| + 1 {
        assert y[j..][0] == 10;
      } else {
        assert y[j..] == t[j - |line| - 2..];
      }
    }
  }

  lemma StartsPlain(p: Part, n: nat, z: seq<Byte>)
    requires n <= 5
    ensures LinesFrom(p, n, z) != [] && (LinesFrom(p, n, z)[0] == 67 || LinesFrom(p, n, z)[0] == 13)
    decreases 5 - n
  {
    if n < 5 {
      StartsPlain(p, n + 1, z);
      LinesStep(p, n, z);
      LinesPlain(p, n + 1, z);
      NameIs(n);
      LineStarts(Label(n), NameOf(n), ValueOf(p, n), LinesFrom(p, n + 1, z));
    }
  }

  lemma {:induction false} HeaderUnbroken(boundary: seq<Byte>, p: Part, n: nat, c: seq<Byte>)
    requires n <= 5 && CleanPart(p) && FreeOf(boundary, c)
    ensures Unbroken(boundary, LinesFrom(p, n, c))
    decreases 5 - n
  {
    if n < 5 {
      HeaderUnbroken(boundary, p, n + 1, c);
      if ValueOf(p, n).Null? {
        Absent(p, n, c);
      } else {
        var v := ValueOf(p, n).bytes;
        LinesStep(p, n, c);
        NameIs(n);
        ValueClean(p, n);
        LineBytes(Label(n), NameOf(n), v, LinesFrom(p, n + 1, c));
        StartsPlain(p, n + 1, c);
        UnbrokenLine(boundary, NameOf(n) + ([58, 32] + v), LinesFrom(p, n + 1, c));
      }
    }
  }

  /** What is read as one content when a delimiter has lost its line end. */
  function Swallowed(boundary: seq<Byte>, q: Part): seq<Byte> {
    [45, 45] + boundary + ([13, 10] + LinesFrom(q, 0, q.content))
  }

  lemma SwallowedUnbroken(boundary: seq<Byte>, q: Part)
    requires 13 !in boundary && CleanPart(q) && FreeOf(boundary, q.content)
    ensures Unbroken(boundary, Swallowed(boundary, q))
  {
    HeaderUnbroken(boundary, q, 0, q.content);
    StartsPlain(q, 0, q.content);
    UnbrokenLine(boundary, [45, 45] + boundary, LinesFrom(q, 0, q.content));
  }

  // ---------- the law ----------

  predicate AllHeaders(ps: seq<Part>) {
    forall i :: 0 <= i < |ps| ==> HasHeader(ps[i])
  }

  /** How many bytes of content there are. */
  function Contents(ps: seq<Part>): nat {
    if ps == [] then 0 else |ps[0].content| + Contents(ps[1..])
  }

  /** At most n parts with at most c bytes of content, fewer bytes if strict, unless more than z has been left behind. */
  ghost predicate Bound(r: Received, n: nat, c: nat, z: seq<Byte>, strict: bool) {
    r.Received? ==>
      |r.rest| < |z| || |r.parts| < n || (|r.parts| == n && Contents(r.parts) <= c && (strict ==> Contents(r.parts) < c))
  }

  lemma BoundOn(p: Part, r: Received, n: nat, c: nat, z: seq<Byte>, strict: bool)
    requires Bound(r, n, c, z, strict)
    ensures Bound(Before(p, r), n + 1, |p.content| + c, z, strict)
  {
    if r.Received? {
      assert ([p] + r.parts)[1..] == r.parts;
    }
  }

  lemma BoundMore(r: Received, n: nat, c: nat, z: seq<Byte>, strict: bool, m: nat, d: nat, also: bool)
    requires Bound(r, n, c, z, strict) && (n < m || (n == m && c < d))
    ensures Bound(r, m, d, z, also)
  {
  }

  lemma NoHeader(p: Part, z: seq<Byte>, boundary: seq<Byte>)
    requires !HasHeader(p)
    ensures GetHeader(LinesFrom(p, 0, z), boundary) == GetHeader(z, boundary)
  {
    Absent(p, 0, z);
    Absent(p, 1, z);
    Absent(p, 2, z);
    Absent(p, 3, z);
    Absent(p, 4, z);
    LineReads([], z);
    assert [] + ([13, 10] + z) == [13, 10] + z;
  }

  lemma TailOf(boundary: seq<Byte>, y: seq<Byte>, k: nat)
    requires k <= |y| && Unbroken(boundary, y)
    ensures Unbroken(boundary, y[k..])
  {
    forall j | 0 <= j <= |y[k..]| ensures !(Delimiter(boundary) <= y[k..][j..]) {
      assert y[k..][j..] == y[k + j..];
    }
  }

  /** A content that lost its beginning is shorter than it was. */
  lemma LastShorter(p: Part, y: seq<Byte>, r: seq<Byte>, boundary: seq<Byte>, w: seq<Byte>, z: seq<Byte>)
    requires 13 !in boundary && Unbroken(boundary, y) && Inside(r, y, w)
    requires [13, 10] + w == MimeBytes(boundary, []) + z
    ensures Bound(ReadParts(p, r, boundary), 1, |y|, z, true)
  {
    var k :| 0 < k <= |y| && r == y[k..] + ([13, 10] + w);
    TailOf(boundary, y, k);
    NoMoreParts(y[k..], boundary, z);
    LastStep(p, r, boundary, y[k..], z);
    assert Contents([p.(content := y[k..])]) == |y[k..]| + Contents([]);
  }

  lemma LeftLess(r: Received, z: seq<Byte>, n: nat, c: nat)
    requires r.Received? ==> |r.rest| < |z|
    ensures Bound(r, n, c, z, true)
  {
  }

  lemma ShrinkFrom(p: Part, t: seq<Byte>, boundary: seq<Byte>, z: seq<Byte>, n: nat, c: nat)
    requires |t| < |z|
    ensures Bound(ReadParts(p, t, boundary), n, c, z, true)
  {
    PartsShrink(p, t, boundary);
  }

  /** The end of the message, past its line end: hyphens, the boundary, hyphens. */
  function EndLine(boundary: seq<Byte>): seq<Byte> {
    [45, 45] + boundary + [45, 45]
  }

  lemma EndLineIs(boundary: seq<Byte>, z: seq<Byte>)
    requires 10 !in boundary && 13 !in boundary
    ensures MimeBytes(boundary, []) + z == [13, 10] + (EndLine(boundary) + z)
    ensures 10 !in EndLine(boundary) && 13 !in EndLine(boundary) && !Continues(EndLine(boundary) + z)
  {
    EndSplits(boundary, z);
  }

  lemma PassedEnd(p: Part, boundary: seq<Byte>, z: seq<Byte>, h: HeaderRead, n: nat, c: nat)
    requires 10 !in boundary && 13 !in boundary && h.Header?
    requires h == NextLines(p, EndLine(boundary) + z) || h == GetHeader(EndLine(boundary) + z, boundary)
    ensures Bound(ReadParts(h.part, h.rest, boundary), n, c, z, true)
  {
    EndLineIs(boundary, z);
    PassesEnd(p, EndLine(boundary), z, boundary);
    ShrinkFrom(h.part, h.rest, boundary, z, n, c);
  }

  lemma AtEnd(p: Part, boundary: seq<Byte>, z: seq<Byte>, n: nat, c: nat)
    requires 10 !in boundary && 13 !in boundary
    ensures Bound(ReadParts(p, EndLine(boundary) + z, boundary), n, c, z, true)
  {
    EndLineIs(boundary, z);
    EndsLater(p, EndLine(boundary), z, boundary);
    LeftLess(ReadParts(p, EndLine(boundary) + z, boundary), z, n, c);
  }

  /** When the header of the last part is missing, its content is cut or the end of the message is missed. */
  lemma LastMisread(y: seq<Byte>, boundary: seq<Byte>, z: seq<Byte>, h: HeaderRead, w: seq<Byte>)
    requires PlainBoundary(boundary) && Unbroken(boundary, y) && h.Header? && w == EndLine(boundary) + z
    requires h == GetHeader(y + ([13, 10] + w), boundary)
    ensures Bound(ReadParts(h.part, h.rest, boundary), 1, |y|, z, true)
  {
    EndLineIs(boundary, z);
    var q := HeaderStops(y, w, boundary);
    if Inside(h.rest, y, w) {
      LastShorter(h.part, y, h.rest, boundary, w, z);
    } else if h.rest == w {
      AtEnd(h.part, boundary, z, 1, |y|);
    } else {
      PassedEnd(q, boundary, z, h, 1, |y|);
    }
  }

  /** What stands past the line end of the first delimiter of ps. */
  function PastLineEnd(boundary: seq<Byte>, ps: seq<Part>, z: seq<Byte>): seq<Byte>
    requires ps != []
  {
    [45, 45] + boundary + ([13, 10] + LinesFrom(ps[0], 0, ps[0].content + (MimeBytes(boundary, ps[1..]) + z)))
  }

  lemma SwallowedOn(boundary: seq<Byte>, q: Part, more: seq<Byte>)
    ensures Swallowed(boundary, q) + more == [45, 45] + boundary + ([13, 10] + LinesFrom(q, 0, q.content + more))
  {
    var h := [45, 45] + boundary;
    LinesAppend(q, 0, q.content, more);
    Associate(h, [13, 10] + LinesFrom(q, 0, q.content), more);
    Associate([13, 10], LinesFrom(q, 0, q.content), more);
  }

  lemma DelimiterOn(boundary: seq<Byte>, l: seq<Byte>)
    ensures Delimiter(boundary) + l == [13, 10] + ([45, 45] + boundary + l)
    ensures !Continues([45, 45] + boundary + l)
  {
    assert Delimiter(boundary) == [13, 10] + ([45, 45] + boundary);
    Associate([13, 10], [45, 45] + boundary, l);
  }

  lemma PastLineEndIs(boundary: seq<Byte>, ps: seq<Part>, z: seq<Byte>)
    requires ps != []
    ensures MimeBytes(boundary, ps) + z == [13, 10] + PastLineEnd(boundary, ps, z)
    ensures PastLineEnd(boundary, ps, z) == Swallowed(boundary, ps[0]) + (MimeBytes(boundary, ps[1..]) + z)
    ensures !Continues(PastLineEnd(boundary, ps, z))
  {
    var more := MimeBytes(boundary, ps[1..]) + z;
    MessageSplits(boundary, ps, z);
    SwallowedOn(boundary, ps[0], more);
    DelimiterOn(boundary, [13, 10] + LinesFrom(ps[0], 0, ps[0].content + more));
  }

  lemma SendableTail(boundary: seq<Byte>, ps: seq<Part>)
    requires Sendable(boundary, ps) && ps != []
    ensures Sendable(boundary, ps[1..]) && CleanPart(ps[0]) && FreeOf(boundary, ps[0].content)
  {
    forall i | 0 <= i < |ps[1..]| ensures CleanPart(ps[1..][i]) && FreeOf(boundary, ps[1..][i].content) {
      assert ps[1..][i] == ps[i + 1];
    }
  }

  lemma AllHeadersTail(ps: seq<Part>)
    requires ps != []
    ensures AllHeaders(ps) <==> HasHeader(ps[0]) && AllHeaders(ps[1..])
  {
    assert ps == [ps[0]] + ps[1..];
  }

  /** Reading from inside a content on, the parts behind it bring no more than they hold, and less if one has no header. */
  lemma {:induction false} PartsBound(cur: Part, x: seq<Byte>, boundary: seq<Byte>, ps: seq<Part>, z: seq<Byte>)
    requires PlainBoundary(boundary) && Sendable(boundary, ps) && Unbroken(boundary, x)
    ensures Bound(ReadParts(cur, x + (MimeBytes(boundary, ps) + z), boundary), 1 + |ps|, |x| + Contents(ps), z, !AllHeaders(ps))
    decreases |ps|, 0
  {
    var t := x + (MimeBytes(boundary, ps) + z);
    if ps == [] {
      NoMoreParts(x, boundary, z);
      LastStep(cur, t, boundary, x, z);
      assert Contents([cur.(content := x)]) == |x| + Contents([]);
    } else {
      var p := ps[0];
      var more := p.content + (MimeBytes(boundary, ps[1..]) + z);
      SendableTail(boundary, ps);
      AllHeadersTail(ps);
      FirstPart(x, boundary, ps, z, more);
      FreeUnbroken(boundary, p.content);
      if HasHeader(p) {
        HeaderBack(p, more, boundary);
        PartsBound(HeaderOf(p), p.content, boundary, ps[1..], z);
        PartStep(cur, t, boundary, x, LinesFrom(p, 0, more), HeaderOf(p), more);
        BoundOn(cur.(content := x), ReadParts(HeaderOf(p), more, boundary), 1 + |ps[1..]|, Contents(ps), z, !AllHeaders(ps));
      } else {
        NoHeader(p, more, boundary);
        var h := GetHeader(more, boundary);
        MisreadPart(cur, x, t, boundary, LinesFrom(p, 0, more), h);
        if h.Header? {
          Misread(p.content, boundary, ps[1..], z, h);
          BoundOn(cur.(content := x), ReadParts(h.part, h.rest, boundary), |ps|, Contents(ps), z, true);
        }
      }
    }
  }

  lemma MisreadPart(cur: Part, x: seq<Byte>, t: seq<Byte>, boundary: seq<Byte>, w: seq<Byte>, h: HeaderRead)
    requires PieceOf(t, boundary) == Piece(x, More(w)) && GetHeader(w, boundary) == h
    ensures ReadParts(cur, t, boundary) ==
      if h.Header? then Before(cur.(content := x), ReadParts(h.part, h.rest, boundary))
      else if h.Failed? then Error else Received.Other
  {
  }

  lemma Fewer(r: Received, n: nat, c: nat, z: seq<Byte>, strict: bool, d: nat)
    requires Bound(r, n, c, z, strict)
    ensures Bound(r, n + 1, d, z, true)
  {
  }

  lemma Shorter(p: Part, y: seq<Byte>, r: seq<Byte>, boundary: seq<Byte>, ps: seq<Part>, z: seq<Byte>)
    requires PlainBoundary(boundary) && Sendable(boundary, ps) && ps != [] && Unbroken(boundary, y)
    requires Inside(r, y, PastLineEnd(boundary, ps, z))
    ensures Bound(ReadParts(p, r, boundary), 1 + |ps|, |y| + Contents(ps), z, true)
    decreases |ps|, 1
  {
    var k :| 0 < k <= |y| && r == y[k..] + ([13, 10] + PastLineEnd(boundary, ps, z));
    TailOf(boundary, y, k);
    PastLineEndIs(boundary, ps, z);
    PartsBound(p, y[k..], boundary, ps, z);
  }

  /** The content runs over the next part. */
  lemma SwallowsNext(p: Part, boundary: seq<Byte>, ps: seq<Part>, z: seq<Byte>, d: nat)
    requires PlainBoundary(boundary) && Sendable(boundary, ps) && ps != []
    ensures Bound(ReadParts(p, PastLineEnd(boundary, ps, z), boundary), 1 + |ps|, d, z, true)
    decreases |ps|, 1
  {
    PastLineEndIs(boundary, ps, z);
    SendableTail(boundary, ps);
    SwallowedUnbroken(boundary, ps[0]);
    PartsBound(p, Swallowed(boundary, ps[0]), boundary, ps[1..], z);
    Fewer(ReadParts(p, PastLineEnd(boundary, ps, z), boundary), |ps|, |Swallowed(boundary, ps[0])| + Contents(ps[1..]), z,
          !AllHeaders(ps[1..]), d);
  }

  /** The header runs over the delimiter and the next header. */
  lemma PassesNext(p: Part, boundary: seq<Byte>, ps: seq<Part>, z: seq<Byte>, h: HeaderRead, d: nat)
    requires PlainBoundary(boundary) && Sendable(boundary, ps) && ps != [] && h.Header?
    requires h == NextLines(p, PastLineEnd(boundary, ps, z)) || h == GetHeader(PastLineEnd(boundary, ps, z), boundary)
    ensures Bound(ReadParts(h.part, h.rest, boundary), 1 + |ps|, d, z, true)
    decreases |ps|, 1
  {
    var q, more := ps[0], ps[0].content + (MimeBytes(boundary, ps[1..]) + z);
    SendableTail(boundary, ps);
    BoundaryPasses(p, boundary, q, more);
    BoundaryFirst(boundary, q, more);
    FreeUnbroken(boundary, q.content);
    PartsBound(h.part, q.content, boundary, ps[1..], z);
    Fewer(ReadParts(h.part, more, boundary), |ps|, |q.content| + Contents(ps[1..]), z, !AllHeaders(ps[1..]), d);
  }

  /** A header that is read from inside the content y, which has none. */
  lemma Misread(y: seq<Byte>, boundary: seq<Byte>, ps: seq<Part>, z: seq<Byte>, h: HeaderRead)
    requires PlainBoundary(boundary) && Sendable(boundary, ps) && Unbroken(boundary, y) && h.Header?
    requires h == GetHeader(y + (MimeBytes(boundary, ps) + z), boundary)
    ensures Bound(ReadParts(h.part, h.rest, boundary), 1 + |ps|, |y| + Contents(ps), z, true)
    decreases |ps|, 2, 1
  {
    if ps == [] {
      OnlyLast(y, boundary, z, h);
    } else {
      PastLineEndIs(boundary, ps, z);
      MisreadOn(y, boundary, ps, z, h, PastLineEnd(boundary, ps, z));
    }
  }

  lemma OnlyLast(y: seq<Byte>, boundary: seq<Byte>, z: seq<Byte>, h: HeaderRead)
    requires PlainBoundary(boundary) && Unbroken(boundary, y) && h.Header?
    requires h == GetHeader(y + (MimeBytes(boundary, []) + z), boundary)
    ensures Bound(ReadParts(h.part, h.rest, boundary), 1, |y|, z, true)
  {
    EndLineIs(boundary, z);
    LastMisread(y, boundary, z, h, EndLine(boundary) + z);
  }

  lemma MisreadOn(y: seq<Byte>, boundary: seq<Byte>, ps: seq<Part>, z: seq<Byte>, h: HeaderRead, w: seq<Byte>)
    requires PlainBoundary(boundary) && Sendable(boundary, ps) && Unbroken(boundary, y) && h.Header? && ps != []
    requires w == PastLineEnd(boundary, ps, z) && !Continues(w) && h == GetHeader(y + ([13, 10] + w), boundary)
    ensures Bound(ReadParts(h.part, h.rest, boundary), 1 + |ps|, |y| + Contents(ps), z, true)
    decreases |ps|, 2, 0
  {
    var first := HeaderStops(y, w, boundary);
    if Inside(h.rest, y, w) {
      Shorter(h.part, y, h.rest, boundary, ps, z);
    } else if h.rest == w {
      SwallowsNext(h.part, boundary, ps, z, |y| + Contents(ps));
    } else {
      PassesNext(first, boundary, ps, z, h, |y| + Contents(ps));
    }
  }

  lemma {:induction false} ContentsArrived(ps: seq<Part>)
    ensures Contents(AllArrived(ps)) == Contents(ps)
  {
    if ps != [] {
      ContentsArrived(ps[1..]);
    }
  }

  /** Parts whose texts fit header lines and whose contents hold no delimiter line are read back as they were sent, behind
      whatever content and in front of whatever follows, if and only if each of them has a header line. */
  lemma MimeReadsIff(cur: Part, x: seq<Byte>, boundary: seq<Byte>, ps: seq<Part>, z: seq<Byte>)
    requires PlainBoundary(boundary) && Sendable(boundary, ps) && Unbroken(boundary, x)
    ensures ReadParts(cur, x + (MimeBytes(boundary, ps) + z), boundary) == Received([cur.(content := x)] + AllArrived(ps), z)
      <==> AllHeaders(ps)
  {
    PartsBound(cur, x, boundary, ps, z);
    if AllHeaders(ps) {
      MimeReads(cur, x, boundary, ps, z);
    } else {
      ContentsArrived(ps);
      assert ([cur.(content := x)] + AllArrived(ps))[1..] == AllArrived(ps);
    }
  }

  /** A part with no header line: its content is taken for a header, and the message does not end. */
  lemma HeaderlessLost(x: seq<Byte>)
    requires Unbroken([98], x)
    ensures var p := Part([120], Null, Null, Null, Unstated, Null, Null);
      ReadParts(BLANK_PART, x + (MimeBytes([98], [p]) + []), [98]) != Received([BLANK_PART.(content := x), p], [])
  {
    var p := Part([120], Null, Null, Null, Unstated, Null, Null);
    var y := [13, 10, 120];
    forall j | 0 <= j <= |p.content| + 2 ensures !(Delimiter([98]) <= ([13, 10] + p.content)[j..]) {
      assert [13, 10] + p.content == y;
    }
    assert Arrived(p) == p && AllArrived([p]) == [p] + AllArrived([]) == [p];
    assert [p][0] == p && !HasHeader(p);
    MimeReadsIff(BLANK_PART, x, [98], [p], []);
    assert [BLANK_PART.(content := x)] + [p] == [BLANK_PART.(content := x), p];
  }
}
