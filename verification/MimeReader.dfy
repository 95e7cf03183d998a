/** soap_getline, soap_getmimehdr and soap_getmime over the bytes of a connection. */
module MimeReader {
  import opened Basics
  import opened Memory
  import opened Attachments
  import opened MimeReading
  import opened MimeRoundTrip
  import opened MimeExact
  import Out = ChunkSender
  import AttachmentsCode

  const EOF := -1

  /** SOAP_OK; one of the reader's errors; Left is input that this model leaves out. */
  datatype Status = Fine | Bad | Left

  class Reader {
    const input: seq<Byte>
    /** mime.boundary */
    const boundary: seq<Byte>
    var pos: nat

    constructor (input: seq<Byte>, boundary: seq<Byte>)
      ensures Valid() && Rest() == input && this.boundary == boundary
    {
      this.input, this.boundary, pos := input, boundary, 0;
    }

    ghost predicate Valid()
      reads this
    {
      pos <= |input|
    }

    ghost function Rest(): seq<Byte>
      requires Valid()
      reads this
    {
      input[pos..]
    }

    /** soap_getchar with nothing put back */
    method GetChar() returns (c: int)
      requires Valid()
      modifies this
      ensures Valid()
      ensures if old(Rest()) == [] then c == EOF && Rest() == [] else c == old(Rest())[0] && Rest() == old(Rest())[1..]
    {
      if pos == |input| {
        c := EOF;
      } else {
        c := input[pos];
        pos := pos + 1;
      }
    }

    /** soap_get0 */
    method Peek() returns (c: int)
      requires Valid()
      ensures c == if Rest() == [] then EOF else Rest()[0]
    {
      c := if pos == |input| then EOF else input[pos];
    }

    /** The inner loop of soap_getline. */
    method Fill(s0: seq<Byte>, i0: int, c0: int) returns (st: Status, s: seq<Byte>, i: int, c: int)
      requires Valid()
      modifies this
      ensures Valid()
      ensures match FillLine(s0, i0, c0, old(Rest()))
        case NoMore => st == Bad
        case Fill(s1, i1, c1, rest) => st == Fine && s == s1 && i == i1 && c == c1 && Rest() == rest
    {
      ghost var total := FillLine(s0, i0, c0, Rest());
      st, s, c := Fine, s0, c0;
      i := i0 - 1;
      while i > 0
        invariant Valid() && total == FillLine(s, i + 1, c, Rest())
        decreases |Rest()|
      {
        c := GetChar();
        if c == 13 || c == 10 {
          return;
        }
        if c == EOF {
          st := Bad;
          return;
        }
        s := s + [c];
        i := i - 1;
      }
    }

    /** soap_getline into the message buffer. */
    method ReadLineOf() returns (st: Status, s: seq<Byte>)
      requires Valid()
      modifies this
      ensures Valid()
      ensures match ReadLine(old(Rest()))
        case LineOf(text, rest) => st == Fine && s == text && Rest() == rest
        case _ => st == Bad
    {
      ghost var total := GetLine([], LEN, 0, Rest());
      s := [];
      var i, c := LEN, 0;
      while true
        invariant Valid() && c != 10 && total == GetLine(s, i, c, Rest())
        decreases |Rest()|
      {
        st, s, i, c := Fill(s, i, c);
        if st == Bad {
          return;
        }
        if c != 10 {
          c := GetChar();
        }
        if c == 10 {
          if i + 1 == LEN {
            break;
          }
          c := Peek();
          if c != 32 && c != 9 {
            break;
          }
        } else if c == EOF {
          return Bad, s;
        } else if i < 0 {
          return Bad, s;
        }
      }
      assert total == LineOf(s, Rest());
      s := CString(s);
    }

    /** The loop of soap_getmimehdr, from the line that has been read on. */
    method ReadFields(p0: Part, line0: seq<Byte>) returns (st: Status, p: Part)
      requires Valid()
      modifies this
      ensures Valid()
      ensures match (if line0 == [] then Header(p0, old(Rest()))
                     else match SetField(p0, line0) case None => Unseen case Some(q) => NextLines(q, old(Rest())))
        case Header(q, rest) => st == Fine && p == q && Rest() == rest
        case Failed => st == Bad
        case Unseen => st == Left
    {
      ghost var total := Fields(p0, line0, Rest());
      p := p0;
      var line := line0;
      while line != []
        invariant Valid() && total == Fields(p, line, Rest())
        decreases |Rest()| + if line == [] then 0 else 1
      {
        var q := SetField(p, line);
        if q == None {
          return Left, p;
        }
        p := q.value;
        st, line := ReadLineOf();
        if st == Bad {
          return;
        }
      }
      st := Fine;
    }

    /** soap_getmimehdr */
    method GetMimeHdr() returns (st: Status, p: Part)
      requires Valid()
      modifies this
      ensures Valid()
      ensures match GetHeader(old(Rest()), boundary)
        case Header(q, rest) => st == Fine && p == q && Rest() == rest
        case Failed => st == Bad
        case Unseen => st == Left
    {
      ghost var total := GetHeader(Rest(), boundary);
      p := BLANK_PART;
      var line;
      st, line := ReadLineOf();
      while st == Fine && line == []
        invariant Valid()
        invariant st == Bad ==> total == Failed
        invariant st == Fine ==> total == AfterLine(line, Rest(), boundary)
        invariant st != Left
        decreases if st == Fine then 1 + |Rest()| else 0
      {
        st, line := ReadLineOf();
      }
      if st == Bad {
        return;
      }
      if |line| > 1 && line[0] == 45 && line[1] == 45 {
        if TrimBlanks(line) != [45, 45] + boundary {
          return Bad, p;
        }
        st, line := ReadLineOf();
        if st == Bad {
          return;
        }
      }
      st, p := ReadFields(BLANK_PART, line);
    }

    /** soap_get_mime_attachment's comparison, after a return: how much of the pattern follows, and the character after it. */
    method Compare(pattern: seq<Byte>) returns (j: nat, c: int)
      requires Valid()
      modifies this
      ensures Valid() && j <= |pattern| && j <= |old(Rest())| && pattern[..j] == old(Rest())[..j]
      ensures if j == |old(Rest())| then c == EOF && Rest() == [] else c == old(Rest())[j] && Rest() == old(Rest())[j + 1..]
      ensures j < |pattern| ==> c != pattern[j]
    {
      ghost var t := Rest();
      j := 0;
      c := GetChar();
      while j < |pattern| && c == pattern[j]
        invariant Valid() && 0 <= j <= |pattern| && j <= |t| && pattern[..j] == t[..j]
        invariant if j == |t| then c == EOF && Rest() == [] else c == t[j] && Rest() == t[j + 1..]
      {
        j := j + 1;
        c := GetChar();
      }
    }

    /** What GetContent returns says what the piece at t is. */
    ghost predicate Found(t: seq<Byte>, st: Status, content: seq<Byte>, last: int)
      reads this
    {
      Valid() && match PieceOf(t, boundary)
        case Endless => st == Bad
        case Piece(x, after) =>
          && (st == Fine ==> content == x && 0 < last < 256 && after == Behind([last] + Rest()))
          && (st == Bad ==> after == Wrong) && (st == Left ==> after == Unknown)
    }

    /** The reader is at i of t, or behind the return there. */
    ghost predicate At(t: seq<Byte>, i: nat, flag: bool)
      reads this
    {
      Valid() && if flag then i < |t| && t[i] == 13 && Rest() == t[i + 1..] else i <= |t| && Rest() == t[i..]
    }

    /** Behind a return: the delimiter, or more content up to the next return. */
    method AfterReturn(content0: seq<Byte>, ghost t: seq<Byte>, ghost i0: nat)
      returns (done: bool, st: Status, content: seq<Byte>, c: int, ghost i: nat)
      requires At(t, i0, true) && Scanning(t, boundary, i0, content0) && 13 !in boundary
      modifies this
      ensures done ==> Found(t, st, content, c)
      ensures !done ==> i0 < i && Scanning(t, boundary, i, content) && At(t, i, c == 13)
    {
      var pattern := [10, 45, 45] + boundary;
      done, st, content, i := true, Fine, content0, i0;
      var j;
      j, c := Compare(pattern);
      Compared(t, boundary, i0, content0, j);
      if c == EOF {
        st := Bad;
      } else if j == |pattern| {
        assert t[i0 + 1 + j..] == [c] + Rest();
        st := if c == 0 then Left else Fine;
      } else {
        done := false;
        content := content + [13] + pattern[..j];
        i := i0 + 1 + j;
        if c != 13 {
          content := content + [c];
          i := i + 1;
        }
      }
    }

    /** The content of a part: everything in front of the delimiter. After a return that starts no delimiter, what has been
        compared is content, up to the next return. last is the character behind the delimiter. */
    method GetContent() returns (st: Status, content: seq<Byte>, last: int)
      requires Valid() && 13 !in boundary
      modifies this
      ensures Found(old(Rest()), st, content, last)
    {
      ghost var t := Rest();
      ghost var i := 0;
      var flag := false;
      st, content, last := Fine, [], 0;
      while true
        invariant At(t, i, flag) && Scanning(t, boundary, i, content)
        decreases |t| - i
      {
        var c := 13;
        if !flag {
          c := GetChar();
          if c == EOF {
            NeverFound(t, boundary, i, content);
            return Bad, content, c;
          }
        }
        if c == 13 {
          var done;
          done, st, content, last, i := AfterReturn(content, t, i);
          if done {
            return;
          }
          flag := last == 13;
        } else {
          Passed(t, boundary, i, content);
          content := content + [c];
          i := i + 1;
        }
      }
    }

    /** What follows a delimiter whose next character is c: no part, or one more. */
    method GetAfter(c0: Byte) returns (st: Status, last: bool)
      requires Valid() && c0 != 0
      modifies this
      ensures Valid()
      ensures match Behind([c0] + old(Rest()))
        case Wrong => st == Bad
        case Unknown => st == Left
        case Last(rest) => st == Fine && last && Rest() == rest
        case More(rest) => st == Fine && !last && Rest() == rest
    {
      ghost var t := [c0] + Rest();
      st, last := Fine, false;
      assert t[1..] == Rest();
      var c: int := c0;
      if c == 45 {
        c := GetChar();
        last := c == 45;
        st := if last then Fine else Bad;
        return;
      }
      ghost var r := t;
      while c != 13 && c != EOF && c <= 32
        invariant Valid() && SkipBlanks(r) == SkipBlanks(t) && (c == EOF || 0 <= c < 256)
        invariant if c == EOF then r == [] && Rest() == [] else r == [c] + Rest()
        decreases |r|
      {
        assert r[1..] == Rest();
        r := Rest();
        c := GetChar();
      }
      assert SkipBlanks(r) == r;
      if c != 13 {
        return Bad, false;
      }
      assert r[1..] == Rest();
      c := GetChar();
      st := if c == 10 then Fine else Bad;
    }

    /** soap_getmime: the content of each part, then the header of the next one, up to the end of the message. */
    method GetMime(cur0: Part) returns (st: Status, parts: seq<Part>)
      requires Valid() && 13 !in boundary
      modifies this
      ensures Valid()
      ensures match ReadParts(cur0, old(Rest()), boundary)
        case Error => st == Bad
        case Other => st == Left
        case Received(ps, rest) => st == Fine && parts == ps && Rest() == rest
    {
      ghost var total := ReadParts(cur0, Rest(), boundary);
      var cur := cur0;
      st, parts := Fine, [];
      FollowingNone(total);
      while true
        invariant Valid() && total == Following(parts, ReadParts(cur, Rest(), boundary))
        decreases |Rest()|
      {
        ghost var t := Rest();
        var content, c, last;
        st, content, c := GetContent();
        if st != Fine {
          return;
        }
        st, last := GetAfter(c);
        if st != Fine {
          return;
        }
        var p := cur.(content := content);
        if last {
          LastStep(cur, t, boundary, content, Rest());
          parts := parts + [p];
          return;
        }
        ghost var next := GetHeader(Rest(), boundary);
        MisreadPart(cur, content, t, boundary, Rest(), next);
        st, cur := GetMimeHdr();
        if st != Fine {
          return;
        }
        FollowingOn(parts, p, ReadParts(cur, Rest(), boundary));
        parts := parts + [p];
      }
    }
  }

  /** What is read behind the parts that have been read. */
  ghost function Following(done: seq<Part>, r: Received): Received {
    if r.Received? then r.(parts := done + r.parts) else r
  }

  lemma FollowingNone(r: Received)
    ensures Following([], r) == r
  {
    if r.Received? {
      assert [] + r.parts == r.parts;
    }
  }

  lemma FollowingOn(done: seq<Part>, p: Part, r: Received)
    ensures Following(done, Before(p, r)) == Following(done + [p], r)
  {
    if r.Received? {
      Associate(done, [p], r.parts);
    }
  }

  /** content is t up to i, and no delimiter starts in it. */
  ghost predicate Scanning(t: seq<Byte>, boundary: seq<Byte>, i: nat, content: seq<Byte>) {
    i <= |t| && content == t[..i] && forall k :: 0 <= k < i ==> !(Delimiter(boundary) <= t[k..])
  }

  lemma NotHere(t: seq<Byte>, boundary: seq<Byte>, k: nat)
    requires k < |t| && t[k] != 13
    ensures !(Delimiter(boundary) <= t[k..])
  {
    assert Delimiter(boundary)[0] == 13 && t[k..][0] == t[k];
  }

  lemma NotAtEnd(t: seq<Byte>, boundary: seq<Byte>)
    ensures !(Delimiter(boundary) <= t[|t|..])
  {
  }

  lemma {:induction false} NowhereFound(d: seq<Byte>, t: seq<Byte>, i: nat)
    requires i <= |t| && forall k :: i <= k < |t| ==> !(d <= t[k..])
    ensures Find(d, t, i) == |t|
    decreases |t| - i
  {
    if i < |t| {
      NowhereFound(d, t, i + 1);
    }
  }

  lemma NeverFound(t: seq<Byte>, boundary: seq<Byte>, i: nat, content: seq<Byte>)
    requires Scanning(t, boundary, i, content) && i == |t|
    ensures PieceOf(t, boundary) == Endless
  {
    NowhereFound(Delimiter(boundary), t, 0);
  }

  lemma Passed(t: seq<Byte>, boundary: seq<Byte>, i: nat, content: seq<Byte>)
    requires Scanning(t, boundary, i, content) && i < |t| && t[i] != 13
    ensures Scanning(t, boundary, i + 1, content + [t[i]])
  {
    NotHere(t, boundary, i);
  }

  /** After a return at i, j bytes of the pattern follow, but not all of it unless j is its length. */
  lemma Compared(t: seq<Byte>, boundary: seq<Byte>, i: nat, content: seq<Byte>, j: nat)
    requires 13 !in boundary && Scanning(t, boundary, i, content) && i < |t| && t[i] == 13
    requires var pattern := [10, 45, 45] + boundary;
      j <= |pattern| && i + 1 + j <= |t| && pattern[..j] == t[i + 1..][..j]
      && (j < |pattern| && i + 1 + j < |t| ==> t[i + 1 + j] != pattern[j])
    ensures var pattern := [10, 45, 45] + boundary;
      if j == |pattern| then PieceOf(t, boundary) == Piece(content, Behind(t[i + 1 + j..]))
      else if i + 1 + j == |t| then PieceOf(t, boundary) == Endless
      else (Scanning(t, boundary, i + 1 + j, content + [13] + pattern[..j])
            && (t[i + 1 + j] != 13 ==> Scanning(t, boundary, i + 2 + j, content + [13] + pattern[..j] + [t[i + 1 + j]])))
  {
    var pattern, d := [10, 45, 45] + boundary, Delimiter(boundary);
    assert d == [13] + pattern;
    if j == |pattern| {
      Matched(t, boundary, i, content);
    } else {
      Unmatched(t, boundary, i, content, j);
      if i + 1 + j == |t| {
        NeverFound(t, boundary, i + 1 + j, t[..i + 1 + j]);
      } else if t[i + 1 + j] != 13 {
        Passed(t, boundary, i + 1 + j, content + [13] + pattern[..j]);
      }
    }
  }

  lemma Matched(t: seq<Byte>, boundary: seq<Byte>, i: nat, content: seq<Byte>)
    requires Scanning(t, boundary, i, content) && i + |boundary| + 4 <= |t| && t[i] == 13
    requires t[i + 1..][..|boundary| + 3] == [10, 45, 45] + boundary
    ensures PieceOf(t, boundary) == Piece(content, Behind(t[i + 4 + |boundary|..]))
  {
    var d := Delimiter(boundary);
    assert t[i..][..|d|] == [13] + t[i + 1..][..|boundary| + 3] == d;
    FindIs(d, t, 0, i);
  }

  lemma Unmatched(t: seq<Byte>, boundary: seq<Byte>, i: nat, content: seq<Byte>, j: nat)
    requires 13 !in boundary && Scanning(t, boundary, i, content) && i < |t| && t[i] == 13
    requires j < |boundary| + 3 && i + 1 + j <= |t| && ([10, 45, 45] + boundary)[..j] == t[i + 1..][..j]
    requires i + 1 + j < |t| ==> t[i + 1 + j] != ([10, 45, 45] + boundary)[j]
    ensures Scanning(t, boundary, i + 1 + j, content + [13] + ([10, 45, 45] + boundary)[..j])
  {
    var pattern, d := [10, 45, 45] + boundary, Delimiter(boundary);
    assert d == [13] + pattern;
    forall k | 0 <= k < i + 1 + j ensures !(d <= t[k..]) {
      if k == i {
        assert d[j + 1] == pattern[j];
        assert i + 1 + j < |t| ==> t[i..][j + 1] == t[i + 1 + j];
      } else if k > i {
        assert t[k] == t[i + 1..][..j][k - i - 1] == pattern[k - i - 1];
        OneReturn(boundary, k - i);
        assert d[k - i] == pattern[k - i - 1];
        NotHere(t, boundary, k);
      }
    }
    assert t[..i + 1 + j] == t[..i] + [13] + t[i + 1..][..j];
  }

  ghost function Fields(p: Part, line: seq<Byte>, t: seq<Byte>): HeaderRead {
    if line == [] then Header(p, t)
    else
      match SetField(p, line)
      case None => Unseen
      case Some(q) => NextLines(q, t)
  }

  /** GetHeader once its first line has been read. */
  ghost function AfterLine(line: seq<Byte>, t: seq<Byte>, boundary: seq<Byte>): HeaderRead {
    if line == [] then GetHeader(t, boundary)
    else if |line| > 1 && line[0] == 45 && line[1] == 45 then
      if TrimBlanks(line) != [45, 45] + boundary then Failed else NextLines(BLANK_PART, t)
    else Fields(BLANK_PART, line, t)
  }

  /** The content x of a part cur, then what soap_putmime sends, is what soap_getmime returns, if and only if every part
      that was sent has a header line. */
  method PutThenGet(cur: Part, x: seq<Byte>, boundary: seq<Byte>, ps: seq<Part>)
    returns (st: Status, got: seq<Part>, rest: seq<Byte>)
    requires PlainBoundary(boundary) && Sendable(boundary, ps) && Unbroken(boundary, x)
    ensures st == Fine && got == [cur.(content := x)] + AllArrived(ps) && rest == [] <==> AllHeaders(ps)
  {
    var out := new Out.Sender(0x1_0000, Out.Buffer, false);
    assert out.Sent() == [];
    out.SendRaw(x);
    AttachmentsCode.PutMime(out, Mode(false, false, true), Text(boundary), ps);
    assert [] + x == x && MimeBytes(boundary, ps) + [] == MimeBytes(boundary, ps);
    out.EndSend();
    MimeReadsIff(cur, x, boundary, ps, []);
    var reader := new Reader(out.wire, boundary);
    st, got := reader.GetMime(cur);
    rest := reader.input[reader.pos..];
  }
}
