/** What soap_putmime sends is read back as the parts it was given. */
module MimeRoundTrip {
  import opened Basics
  import opened Memory
  import opened Attachments
  import opened MimeReading

  // ---------- which parts ----------

  /** A text that fits one header line behind n bytes of name: no line end, no terminator, and not started by what the
      reader skips. */
  ghost predicate CleanText(t: Text, n: nat) {
    t.Text? ==>
      && n + |t.bytes| <= LEN - 2
      && 0 !in t.bytes && 10 !in t.bytes && 13 !in t.bytes
      && (t.bytes != [] ==> 32 < t.bytes[0] < 128)
  }

  ghost predicate CleanPart(p: Part) {
    && CleanText(p.kind, 14) && CleanText(p.id, 12) && CleanText(p.location, 18) && CleanText(p.description, 21)
  }

  /** The part has at least one header line. */
  predicate HasHeader(p: Part) {
    p.kind.Text? || p.encoding != Unstated || p.id.Text? || p.location.Text? || p.description.Text?
  }

  /** No line of x is a delimiter line, section 5.1.1 of RFC 2046. */
  ghost predicate FreeOf(boundary: seq<Byte>, x: seq<Byte>) {
    forall j :: 0 <= j <= |x| + 2 ==> !(Delimiter(boundary) <= ([13, 10] + x)[j..])
  }

  /** No delimiter stands in x. */
  ghost predicate Unbroken(boundary: seq<Byte>, x: seq<Byte>) {
    forall j :: 0 <= j <= |x| ==> !(Delimiter(boundary) <= x[j..])
  }

  lemma FreeUnbroken(boundary: seq<Byte>, x: seq<Byte>)
    requires FreeOf(boundary, x)
    ensures Unbroken(boundary, x)
  {
    var y := [13, 10] + x;
    forall j | 0 <= j <= |x| ensures !(Delimiter(boundary) <= x[j..]) {
      assert y[j + 2..] == x[j..];
    }
  }

  /** What arrives of a part: MIME has no options. */
  function Arrived(p: Part): Part {
    p.(options := Null)
  }

  function AllArrived(ps: seq<Part>): (rs: seq<Part>)
    ensures |rs| == |ps|
  {
    if ps == [] then [] else [Arrived(ps[0])] + AllArrived(ps[1..])
  }

  // ---------- lines ----------

  lemma {:induction false} FillPlain(s: seq<Byte>, i: int, c: int, v: seq<Byte>, z: seq<Byte>)
    requires 10 !in v && 13 !in v && |v| + 1 < i
    ensures FillLine(s, i, c, v + ([13] + z)) == Fill(s + v, i - |v| - 1, 13, z)
    decreases |v|
  {
    var t := v + ([13] + z);
    if v == [] {
      assert t == [13] + z && t[1..] == z && s + v == s;
    } else {
      assert t[0] == v[0] && t[1..] == v[1..] + ([13] + z);
      assert s + [v[0]] + v[1..] == s + v;
      FillPlain(s + [v[0]], i - 1, v[0], v[1..], z);
    }
  }

  /** A line without a line end in it is read whole. */
  lemma LineReads(v: seq<Byte>, z: seq<Byte>)
    requires 0 !in v && 10 !in v && 13 !in v && |v| <= LEN - 2 && (v == [] || !Continues(z))
    ensures ReadLine(v + ([13, 10] + z)) == LineOf(v, z)
  {
    FillPlain([], LEN, 0, v, [10] + z);
    assert [13] + ([10] + z) == [13, 10] + z && [] + v == v;
    assert ([10] + z)[1..] == z;
    CStringWhole(v);
  }

  lemma {:induction false} ColonIs(line: seq<Byte>, i: nat, k: nat)
    requires i <= k < |line| && line[k] == 58 && forall j :: i <= j < k ==> line[j] != 58
    ensures Colon(line, i) == k
    decreases k - i
  {
    if i < k {
      ColonIs(line, i + 1, k);
    }
  }

  lemma ValueTaken(v: seq<Byte>)
    requires v != [] ==> 32 < v[0] < 128
    ensures SkipLow([32] + v) == v
  {
    assert ([32] + v)[1..] == v;
  }

  lemma FieldReads(p: Part, name: seq<Byte>, v: seq<Byte>)
    requires 58 !in name && (v != [] ==> 32 < v[0] < 128)
    ensures SetField(p, name + ([58, 32] + v)) == Assign(p, name, v)
  {
    var line := name + ([58, 32] + v);
    assert line[|name|] == 58;
    ColonIs(line, 0, |name|);
    assert line[..|name|] == name && line[|name| + 1..] == [32] + v;
    ValueTaken(v);
  }

  // ---------- headers ----------

  /** A name that headers have. */
  predicate IsName(name: seq<Byte>) {
    name != [] && name[0] == 67 && 58 !in name && 0 !in name && 10 !in name && 13 !in name
  }

  lemma LineBytes(nm: string, name: seq<Byte>, v: seq<Byte>, z: seq<Byte>)
    requires Ascii(nm) == name + [58, 32]
    ensures Line(nm, Text(v)) + z == (name + ([58, 32] + v)) + ([13, 10] + z)
  {
    assert Ascii("\r\n") == [13, 10];
  }

  /** One header line, or none. */
  lemma HeaderReads(p: Part, q: Part, nm: string, name: seq<Byte>, t: Text, z: seq<Byte>)
    requires Ascii(nm) == name + [58, 32] && IsName(name) && CleanText(t, |name| + 2) && z != [] && !Continues(z)
    requires if t.Null? then q == p else Assign(p, name, t.bytes) == Some(q)
    ensures NextLines(p, Line(nm, t) + z) == NextLines(q, z)
  {
    if t.Null? {
      assert Line(nm, t) + z == z;
    } else {
      var line := name + ([58, 32] + t.bytes);
      LineBytes(nm, name, t.bytes, z);
      LineReads(line, z);
      FieldReads(p, name, t.bytes);
    }
  }

  lemma LineStarts(nm: string, name: seq<Byte>, t: Text, z: seq<Byte>)
    requires Ascii(nm) == name + [58, 32] && IsName(name) && z != [] && !Continues(z)
    ensures Line(nm, t) + z != [] && !Continues(Line(nm, t) + z)
    ensures t.Text? ==> (Line(nm, t) + z)[0] == 67
    ensures t.Null? ==> Line(nm, t) + z == z
  {
    if t.Text? {
      LineBytes(nm, name, t.bytes, z);
    }
  }

  lemma TypeName()
    ensures Ascii("Content-Type: ") == CONTENT_TYPE + [58, 32] && IsName(CONTENT_TYPE)
  {
  }

  lemma EncodingName()
    ensures Ascii("Content-Transfer-Encoding: ") == CONTENT_ENCODING + [58, 32] && IsName(CONTENT_ENCODING)
  {
  }

  lemma IdName()
    ensures Ascii("Content-ID: ") == CONTENT_ID + [58, 32] && IsName(CONTENT_ID)
  {
  }

  lemma LocationName()
    ensures Ascii("Content-Location: ") == CONTENT_LOCATION + [58, 32] && IsName(CONTENT_LOCATION)
  {
  }

  lemma DescriptionName()
    ensures Ascii("Content-Description: ") == CONTENT_DESCRIPTION + [58, 32] && IsName(CONTENT_DESCRIPTION)
  {
  }

  // ---------- one header ----------

  /** What a header of p is read as, in front of its content. */
  function HeaderOf(p: Part): Part {
    Arrived(p).(content := [])
  }

  /** The lines of p's header from the n-th on, and the empty line. */
  function LinesFrom(p: Part, n: nat, z: seq<Byte>): (t: seq<Byte>)
    requires n <= 5
    decreases 5 - n
  {
    if n == 0 then Line("Content-Type: ", p.kind) + LinesFrom(p, 1, z)
    else if n == 1 then Line("Content-Transfer-Encoding: ", CodeOf(p.encoding)) + LinesFrom(p, 2, z)
    else if n == 2 then Line("Content-ID: ", p.id) + LinesFrom(p, 3, z)
    else if n == 3 then Line("Content-Location: ", p.location) + LinesFrom(p, 4, z)
    else if n == 4 then Line("Content-Description: ", p.description) + LinesFrom(p, 5, z)
    else [13, 10] + z
  }

  /** What the first n lines have set. */
  function SetSoFar(p: Part, n: nat): Part {
    Part([], if n > 2 then p.id else Null, if n > 0 then p.kind else Null, Null, if n > 1 then p.encoding else Unstated,
         if n > 3 then p.location else Null, if n > 4 then p.description else Null)
  }

  /** Nothing is continued by what follows a line. */
  predicate Plain(z: seq<Byte>) {
    z != [] && !Continues(z)
  }

  lemma AllNames()
    ensures Ascii("Content-Type: ") == CONTENT_TYPE + [58, 32] && IsName(CONTENT_TYPE)
    ensures Ascii("Content-Transfer-Encoding: ") == CONTENT_ENCODING + [58, 32] && IsName(CONTENT_ENCODING)
    ensures Ascii("Content-ID: ") == CONTENT_ID + [58, 32] && IsName(CONTENT_ID)
    ensures Ascii("Content-Location: ") == CONTENT_LOCATION + [58, 32] && IsName(CONTENT_LOCATION)
    ensures Ascii("Content-Description: ") == CONTENT_DESCRIPTION + [58, 32] && IsName(CONTENT_DESCRIPTION)
  {
    TypeName();
    EncodingName();
    IdName();
    LocationName();
    DescriptionName();
  }

  /** Line n of a header: its text as written, its name, its value. */
  function Label(n: nat): string
    requires n < 5
  {
    if n == 0 then "Content-Type: " else if n == 1 then "Content-Transfer-Encoding: " else if n == 2 then "Content-ID: "
    else if n == 3 then "Content-Location: " else "Content-Description: "
  }

  function NameOf(n: nat): seq<Byte>
    requires n < 5
  {
    if n == 0 then CONTENT_TYPE else if n == 1 then CONTENT_ENCODING else if n == 2 then CONTENT_ID
    else if n == 3 then CONTENT_LOCATION else CONTENT_DESCRIPTION
  }

  function ValueOf(p: Part, n: nat): Text
    requires n < 5
  {
    if n == 0 then p.kind else if n == 1 then CodeOf(p.encoding) else if n == 2 then p.id
    else if n == 3 then p.location else p.description
  }

  lemma NameIs(n: nat)
    requires n < 5
    ensures Ascii(Label(n)) == NameOf(n) + [58, 32] && IsName(NameOf(n))
  {
    AllNames();
  }

  /** A name for the encodings has no white space in it. */
  lemma CodeClean(e: Encoding)
    ensures CleanText(CodeOf(e), 27)
  {
    if e != Unstated {
      CodeIs(e);
    }
  }

  lemma ValueClean(p: Part, n: nat)
    requires n < 5 && CleanPart(p)
    ensures CleanText(ValueOf(p, n), |NameOf(n)| + 2)
  {
    CodeClean(p.encoding);
  }

  lemma LinesStep(p: Part, n: nat, z: seq<Byte>)
    requires n < 5
    ensures LinesFrom(p, n, z) == Line(Label(n), ValueOf(p, n)) + LinesFrom(p, n + 1, z)
  {
  }

  lemma {:induction false} LinesPlain(p: Part, n: nat, z: seq<Byte>)
    requires n <= 5
    ensures Plain(LinesFrom(p, n, z))
    decreases 5 - n
  {
    if n < 5 {
      LinesPlain(p, n + 1, z);
      LinesStep(p, n, z);
      NameIs(n);
      LineStarts(Label(n), NameOf(n), ValueOf(p, n), LinesFrom(p, n + 1, z));
    }
  }

  /** The field that line n sets. */
  lemma FieldSet(p: Part, n: nat)
    requires n < 5
    ensures if ValueOf(p, n).Null? then SetSoFar(p, n + 1) == SetSoFar(p, n)
            else Assign(SetSoFar(p, n), NameOf(n), ValueOf(p, n).bytes) == Some(SetSoFar(p, n + 1))
  {
    if ValueOf(p, n).Text? {
      NamesRead(SetSoFar(p, n), ValueOf(p, n).bytes);
      if n == 1 {
        CodesRead(p.encoding);
      }
    } else if n == 1 && p.encoding != Unstated {
      CodesRead(p.encoding);
    }
  }

  lemma {:induction false} LinesRead(p: Part, n: nat, z: seq<Byte>)
    requires n <= 5 && CleanPart(p)
    ensures NextLines(SetSoFar(p, n), LinesFrom(p, n, z)) == Header(HeaderOf(p), z)
    decreases 5 - n
  {
    if n == 5 {
      LineReads([], z);
      assert [] + ([13, 10] + z) == [13, 10] + z;
    } else {
      LinesRead(p, n + 1, z);
      LinesStep(p, n, z);
      LinesPlain(p, n + 1, z);
      NameIs(n);
      ValueClean(p, n);
      FieldSet(p, n);
      HeaderReads(SetSoFar(p, n), SetSoFar(p, n + 1), Label(n), NameOf(n), ValueOf(p, n), LinesFrom(p, n + 1, z));
    }
  }

  // ---------- the first line ----------

  lemma FirstLineOf(p: Part, n: nat, z: seq<Byte>)
    requires n < 5 && CleanPart(p) && ValueOf(p, n).Text?
    ensures var r := ReadLine(LinesFrom(p, n, z)); r.LineOf? && r.text != [] && r.text[0] == 67
  {
    LinesStep(p, n, z);
    LinesPlain(p, n + 1, z);
    NameIs(n);
    ValueClean(p, n);
    var line := NameOf(n) + ([58, 32] + ValueOf(p, n).bytes);
    LineBytes(Label(n), NameOf(n), ValueOf(p, n).bytes, LinesFrom(p, n + 1, z));
    LineReads(line, LinesFrom(p, n + 1, z));
  }

  lemma Absent(p: Part, n: nat, z: seq<Byte>)
    requires n < 5 && ValueOf(p, n).Null?
    ensures LinesFrom(p, n, z) == LinesFrom(p, n + 1, z)
  {
    LinesStep(p, n, z);
  }

  lemma {:induction false} SomeLine(p: Part, n: nat, z: seq<Byte>)
    requires n <= 5 && CleanPart(p) && exists i :: n <= i < 5 && ValueOf(p, i).Text?
    ensures var r := ReadLine(LinesFrom(p, n, z)); r.LineOf? && r.text != [] && r.text[0] == 67
    decreases 5 - n
  {
    if ValueOf(p, n).Text? {
      FirstLineOf(p, n, z);
    } else {
      Absent(p, n, z);
      SomeLine(p, n + 1, z);
    }
  }

  lemma HasLine(p: Part)
    requires HasHeader(p)
    ensures exists i :: 0 <= i < 5 && ValueOf(p, i).Text?
  {
    if p.encoding != Unstated {
      CodesRead(p.encoding);
    }
    var i := if p.kind.Text? then 0 else if p.encoding != Unstated then 1 else if p.id.Text? then 2
             else if p.location.Text? then 3 else 4;
    assert ValueOf(p, i).Text?;
  }

  lemma PlainFirst(t: seq<Byte>, boundary: seq<Byte>)
    requires var r := ReadLine(t); r.LineOf? && r.text != [] && r.text[0] == 67
    ensures GetHeader(t, boundary) == NextLines(BLANK_PART, t)
  {
  }

  /** A header with at least one line is read as it was. */
  lemma HeaderBack(p: Part, z: seq<Byte>, boundary: seq<Byte>)
    requires CleanPart(p) && HasHeader(p)
    ensures GetHeader(LinesFrom(p, 0, z), boundary) == Header(HeaderOf(p), z)
  {
    HasLine(p);
    SomeLine(p, 0, z);
    PlainFirst(LinesFrom(p, 0, z), boundary);
    LinesRead(p, 0, z);
    assert SetSoFar(p, 0) == BLANK_PART;
  }

  // ---------- contents ----------

  lemma {:induction false} FindIs(d: seq<Byte>, t: seq<Byte>, i: nat, k: nat)
    requires i <= k < |t| && d <= t[k..] && forall j :: i <= j < k ==> !(d <= t[j..])
    ensures Find(d, t, i) == k
    decreases k - i
  {
    if i < k {
      FindIs(d, t, i + 1, k);
    }
  }

  lemma OneReturn(boundary: seq<Byte>, i: nat)
    requires 13 !in boundary && 0 < i < |boundary| + 4
    ensures Delimiter(boundary)[i] != 13
  {
    assert i >= 4 ==> Delimiter(boundary)[i] == boundary[i - 4];
  }

  /** No delimiter starts inside a content that is free of it. */
  lemma NotInside(boundary: seq<Byte>, x: seq<Byte>, w: seq<Byte>, j: nat)
    requires 13 !in boundary && Unbroken(boundary, x) && j < |x|
    ensures !(Delimiter(boundary) <= (x + (Delimiter(boundary) + w))[j..])
  {
    var d := Delimiter(boundary);
    var t := x + (d + w);
    if j + |d| <= |x| {
      assert t[j..][..|d|] == x[j..][..|d|];
      assert !(d <= x[j..]);
    } else {
      OneReturn(boundary, |x| - j);
      assert t[j..][|x| - j] == t[|x|] == 13;
    }
  }

  lemma ContentFound(boundary: seq<Byte>, x: seq<Byte>, w: seq<Byte>)
    requires 13 !in boundary && Unbroken(boundary, x)
    ensures PieceOf(x + (Delimiter(boundary) + w), boundary) == Piece(x, Behind(w))
  {
    var d, t := Delimiter(boundary), x + (Delimiter(boundary) + w);
    forall j | 0 <= j < |x| ensures !(d <= t[j..]) {
      NotInside(boundary, x, w, j);
    }
    assert t[|x|..] == d + w;
    FindIs(d, t, 0, |x|);
    assert t[..|x|] == x && t[|x| + |d|..] == w;
  }

  // ---------- the message ----------

  lemma HeaderSplits(boundary: seq<Byte>, p: Part, z: seq<Byte>)
    ensures MimeHeader(boundary, p) + z == Delimiter(boundary) + ([13, 10] + LinesFrom(p, 0, z))
  {
    assert Ascii("\r\n--") == [13, 10, 45, 45] && Ascii("\r\n") == [13, 10];
    var a, b, c, d, e := Line("Content-Type: ", p.kind), Line("Content-Transfer-Encoding: ", CodeOf(p.encoding)),
                         Line("Content-ID: ", p.id), Line("Content-Location: ", p.location),
                         Line("Content-Description: ", p.description);
    assert LinesFrom(p, 0, z) == a + (b + (c + (d + (e + ([13, 10] + z)))));
    EightParts([13, 10, 45, 45] + boundary, [13, 10], a, b, c, d, e, [13, 10], z);
  }

  lemma EightParts(h: seq<Byte>, i: seq<Byte>, a: seq<Byte>, b: seq<Byte>, c: seq<Byte>, d: seq<Byte>,
                  e: seq<Byte>, f: seq<Byte>, z: seq<Byte>)
    ensures h + i + a + b + c + d + e + f + z == h + (i + (a + (b + (c + (d + (e + (f + z)))))))
  {
  }

  lemma MessageSplits(boundary: seq<Byte>, ps: seq<Part>, z: seq<Byte>)
    requires ps != []
    ensures MimeBytes(boundary, ps) + z
      == Delimiter(boundary) + ([13, 10] + LinesFrom(ps[0], 0, ps[0].content + (MimeBytes(boundary, ps[1..]) + z)))
  {
    var h, x, m, e := MimeHeader(boundary, ps[0]), ps[0].content, MimeParts(boundary, ps[1..]),
                      Ascii("\r\n--") + boundary + Ascii("--");
    assert MimeBytes(boundary, ps) == h + x + m + Ascii("\r\n--") + boundary + Ascii("--");
    Regroup(h, x, m, Ascii("\r\n--"), boundary, Ascii("--"), z);
    HeaderSplits(boundary, ps[0], x + (MimeBytes(boundary, ps[1..]) + z));
  }

  lemma Regroup(h: seq<Byte>, x: seq<Byte>, m: seq<Byte>, a: seq<Byte>, b: seq<Byte>, c: seq<Byte>, z: seq<Byte>)
    ensures h + x + m + a + b + c + z == h + (x + ((m + a + b + c) + z))
  {
  }

  lemma EndSplits(boundary: seq<Byte>, z: seq<Byte>)
    ensures MimeBytes(boundary, []) + z == Delimiter(boundary) + ([45, 45] + z)
  {
    assert Ascii("\r\n--") == [13, 10, 45, 45] && Ascii("--") == [45, 45];
    assert MimeBytes(boundary, []) == [] + [13, 10, 45, 45] + boundary + [45, 45];
  }

  lemma BehindLine(w: seq<Byte>)
    ensures Behind([13, 10] + w) == More(w)
    ensures Behind([45, 45] + w) == Last(w)
  {
    assert ([13, 10] + w)[2..] == w && ([45, 45] + w)[2..] == w;
  }

  lemma PartStep(cur: Part, t: seq<Byte>, boundary: seq<Byte>, x: seq<Byte>, w: seq<Byte>, next: Part, more: seq<Byte>)
    requires PieceOf(t, boundary) == Piece(x, More(w)) && GetHeader(w, boundary) == Header(next, more)
    ensures ReadParts(cur, t, boundary) == Before(cur.(content := x), ReadParts(next, more, boundary))
  {
  }

  lemma LastStep(cur: Part, t: seq<Byte>, boundary: seq<Byte>, x: seq<Byte>, w: seq<Byte>)
    requires PieceOf(t, boundary) == Piece(x, Last(w))
    ensures ReadParts(cur, t, boundary) == Received([cur.(content := x)], w)
  {
  }

  /** The first part behind a content. */
  lemma FirstPart(x: seq<Byte>, boundary: seq<Byte>, ps: seq<Part>, z: seq<Byte>, more: seq<Byte>)
    requires ps != [] && 13 !in boundary && Unbroken(boundary, x)
    requires more == ps[0].content + (MimeBytes(boundary, ps[1..]) + z)
    ensures PieceOf(x + (MimeBytes(boundary, ps) + z), boundary) == Piece(x, More(LinesFrom(ps[0], 0, more)))
  {
    MessageSplits(boundary, ps, z);
    ContentFound(boundary, x, [13, 10] + LinesFrom(ps[0], 0, more));
    BehindLine(LinesFrom(ps[0], 0, more));
  }

  lemma NoMoreParts(x: seq<Byte>, boundary: seq<Byte>, z: seq<Byte>)
    requires 13 !in boundary && Unbroken(boundary, x)
    ensures PieceOf(x + (MimeBytes(boundary, []) + z), boundary) == Piece(x, Last(z))
  {
    EndSplits(boundary, z);
    ContentFound(boundary, x, [45, 45] + z);
    BehindLine(z);
  }

  ghost predicate Sendable(boundary: seq<Byte>, ps: seq<Part>) {
    13 !in boundary && forall i :: 0 <= i < |ps| ==> CleanPart(ps[i]) && FreeOf(boundary, ps[i].content)
  }

  /** Whatever content x is being read, the parts that were sent behind it arrive as they were, each with its content. */
  lemma {:induction false} MimeReads(cur: Part, x: seq<Byte>, boundary: seq<Byte>, ps: seq<Part>, z: seq<Byte>)
    requires Sendable(boundary, ps) && Unbroken(boundary, x) && forall i :: 0 <= i < |ps| ==> HasHeader(ps[i])
    ensures ReadParts(cur, x + (MimeBytes(boundary, ps) + z), boundary)
      == Received([cur.(content := x)] + AllArrived(ps), z)
    decreases |ps|
  {
    var t := x + (MimeBytes(boundary, ps) + z);
    if ps == [] {
      NoMoreParts(x, boundary, z);
      LastStep(cur, t, boundary, x, z);
    } else {
      var p := ps[0];
      var more := p.content + (MimeBytes(boundary, ps[1..]) + z);
      FirstPart(x, boundary, ps, z, more);
      HeaderBack(p, more, boundary);
      PartStep(cur, t, boundary, x, LinesFrom(p, 0, more), HeaderOf(p), more);
      FreeUnbroken(boundary, p.content);
      MimeReads(HeaderOf(p), p.content, boundary, ps[1..], z);
      Joined(cur, x, ps, z);
    }
  }

  lemma Joined(cur: Part, x: seq<Byte>, ps: seq<Part>, z: seq<Byte>)
    requires ps != []
    ensures Before(cur.(content := x), Received([HeaderOf(ps[0]).(content := ps[0].content)] + AllArrived(ps[1..]), z))
      == Received([cur.(content := x)] + AllArrived(ps), z)
  {
    assert HeaderOf(ps[0]).(content := ps[0].content) == Arrived(ps[0]);
  }
}
