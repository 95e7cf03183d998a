/** Reading MIME parts back: what soap_getmimehdr and soap_get_mime_attachment make of a message. */
module MimeReading {
  import opened Basics
  import opened Memory
  import opened Attachments

  // ---------- names and codes ----------

  /** Content-ID */
  const CONTENT_ID: seq<Byte> := [67, 111, 110, 116, 101, 110, 116, 45, 73, 68]
  /** Content-Location */
  const CONTENT_LOCATION: seq<Byte> := [67, 111, 110, 116, 101, 110, 116, 45, 76, 111, 99, 97, 116, 105, 111, 110]
  /** Content-Disposition */
  const CONTENT_DISPOSITION: seq<Byte> :=
    [67, 111, 110, 116, 101, 110, 116, 45, 68, 105, 115, 112, 111, 115, 105, 116, 105, 111, 110]
  /** Content-Type */
  const CONTENT_TYPE: seq<Byte> := [67, 111, 110, 116, 101, 110, 116, 45, 84, 121, 112, 101]
  /** Content-Description */
  const CONTENT_DESCRIPTION: seq<Byte> :=
    [67, 111, 110, 116, 101, 110, 116, 45, 68, 101, 115, 99, 114, 105, 112, 116, 105, 111, 110]
  /** Content-Transfer-Encoding */
  const CONTENT_ENCODING: seq<Byte> :=
    [67, 111, 110, 116, 101, 110, 116, 45, 84, 114, 97, 110, 115, 102, 101, 114, 45, 69, 110, 99, 111, 100, 105, 110, 103]

  function Lower(c: Byte): Byte {
    if 65 <= c <= 90 then c + 32 else c
  }

  /** soap_tag_cmp against a pattern without a star: letters in either case, a hyphen for any character. */
  predicate TagMatch(s: seq<Byte>, t: seq<Byte>) {
    if s == [] || s[0] == 34 then t == []
    else t != [] && (t[0] == 45 || Lower(s[0]) == Lower(t[0])) && TagMatch(s[1..], t[1..])
  }

  /** 7bit */
  const CODE_7BIT: seq<Byte> := [55, 98, 105, 116]
  /** 8bit */
  const CODE_8BIT: seq<Byte> := [56, 98, 105, 116]
  /** binary */
  const CODE_BINARY: seq<Byte> := [98, 105, 110, 97, 114, 121]
  /** quoted-printable */
  const CODE_QUOTED: seq<Byte> := [113, 117, 111, 116, 101, 100, 45, 112, 114, 105, 110, 116, 97, 98, 108, 101]
  /** base64 */
  const CODE_BASE64: seq<Byte> := [98, 97, 115, 101, 54, 52]
  /** ietf-token */
  const CODE_IETF: seq<Byte> := [105, 101, 116, 102, 45, 116, 111, 107, 101, 110]
  /** x-token */
  const CODE_X: seq<Byte> := [120, 45, 116, 111, 107, 101, 110]

  /** soap_code_int on mime_codes */
  function CodeFor(v: seq<Byte>): Encoding {
    if TagMatch(v, CODE_7BIT) then SevenBit
    else if TagMatch(v, CODE_8BIT) then EightBit
    else if TagMatch(v, CODE_BINARY) then Binary
    else if TagMatch(v, CODE_QUOTED) then QuotedPrintable
    else if TagMatch(v, CODE_BASE64) then Base64
    else if TagMatch(v, CODE_IETF) then IetfToken
    else if TagMatch(v, CODE_X) then XToken
    else Unstated
  }

  // ---------- lines ----------

  /** sizeof(soap->msgbuf) */
  const LEN := 1024

  /** The inner loop of soap_getline: what has been stored, the room that is left, the last character, the input. */
  datatype Fill = Fill(s: seq<Byte>, i: int, c: int, rest: seq<Byte>) | NoMore

  predicate EndsLine(c: int) {
    c == 13 || c == 10
  }

  function FillLine(s: seq<Byte>, i: int, c: int, t: seq<Byte>): (f: Fill)
    ensures f.Fill? ==> |f.rest| <= |t| && (|f.rest| < |t| || f.c == c)
    decreases |t|
  {
    if i - 1 <= 0 then Fill(s, i - 1, c, t)
    else if t == [] then NoMore
    else if EndsLine(t[0]) then Fill(s, i - 1, t[0], t[1..])
    else FillLine(s + [t[0]], i - 1, t[0], t[1..])
  }

  /** SOAP_CHK_EOF and SOAP_HDR are the errors of soap_getline. */
  datatype LineRead = LineOf(text: seq<Byte>, rest: seq<Byte>) | LineEof | TooLong

  predicate Continues(t: seq<Byte>) {
    t != [] && (t[0] == 32 || t[0] == 9)
  }

  /** soap_getline; a line that starts with white space continues the one before it. */
  function GetLine(s: seq<Byte>, i: int, c: int, t: seq<Byte>): (r: LineRead)
    requires c != 10
    ensures r.LineOf? ==> |r.rest| < |t|
    decreases |t|
  {
    match FillLine(s, i, c, t)
    case NoMore => LineEof
    case Fill(s1, i1, c1, t1) =>
      if c1 != 10 && t1 == [] then LineEof
      else
        var c2 := if c1 == 10 then 10 else t1[0];
        var t2 := if c1 == 10 then t1 else t1[1..];
        if c2 == 10 then
          if i1 + 1 == LEN || !Continues(t2) then LineOf(s1, t2) else GetLine(s1, i1, t2[0], t2)
        else if i1 < 0 then TooLong
        else GetLine(s1, i1, c2, t2)
  }

  /** A whole line, as the C string in the message buffer. */
  function ReadLine(t: seq<Byte>): (r: LineRead)
    ensures r.LineOf? ==> |r.rest| < |t|
  {
    match GetLine([], LEN, 0, t)
    case LineOf(text, rest) => LineOf(CString(text), rest)
    case LineEof => LineEof
    case TooLong => TooLong
  }

  // ---------- headers ----------

  /** What a header was read as; Failed is any error of the reader, Unseen what this model leaves out. */
  datatype HeaderRead = Header(part: Part, rest: seq<Byte>) | Failed | Unseen

  const BLANK_PART := Part([], Null, Null, Null, Unstated, Null, Null)

  /** strchr(line, ':') */
  function Colon(line: seq<Byte>, i: nat): (k: nat)
    requires i <= |line|
    ensures i <= k <= |line| && (k < |line| ==> line[k] == 58)
    decreases |line| - i
  {
    if i == |line| || line[i] == 58 then i else Colon(line, i + 1)
  }

  /** The blanks behind the colon; a signed char above ASCII counts as one. */
  function SkipLow(v: seq<Byte>): (w: seq<Byte>)
    ensures |w| <= |v|
  {
    if v != [] && (v[0] <= 32 || v[0] >= 128) then SkipLow(v[1..]) else v
  }

  /** The field a header names; None is Content-Disposition, which this model leaves out. */
  function Assign(p: Part, key: seq<Byte>, val: seq<Byte>): Option<Part> {
    if TagMatch(key, CONTENT_ID) then Some(p.(id := Text(val)))
    else if TagMatch(key, CONTENT_LOCATION) then Some(p.(location := Text(val)))
    else if TagMatch(key, CONTENT_DISPOSITION) then None
    else if TagMatch(key, CONTENT_TYPE) then Some(p.(kind := Text(val)))
    else if TagMatch(key, CONTENT_DESCRIPTION) then Some(p.(description := Text(val)))
    else if TagMatch(key, CONTENT_ENCODING) then Some(p.(encoding := CodeFor(val)))
    else Some(p)
  }

  /** One header line. */
  function SetField(p: Part, line: seq<Byte>): Option<Part> {
    var k := Colon(line, 0);
    if k == |line| then Some(p) else Assign(p, line[..k], SkipLow(line[k + 1..]))
  }

  /** The header lines from t on, up to an empty one. */
  function NextLines(p: Part, t: seq<Byte>): (h: HeaderRead)
    ensures h.Header? ==> |h.rest| < |t|
    decreases |t|
  {
    match ReadLine(t)
    case LineEof => Failed
    case TooLong => Failed
    case LineOf(line, rest) =>
      if line == [] then Header(p, rest)
      else
        match SetField(p, line)
        case None => Unseen
        case Some(q) => NextLines(q, rest)
  }

  function TrimBlanks(s: seq<Byte>): (r: seq<Byte>)
    ensures |r| <= |s|
  {
    if s != [] && s[|s| - 1] <= 32 then TrimBlanks(s[..|s| - 1]) else s
  }

  /** soap_getmimehdr once the boundary is known: empty lines and a line with the boundary may come first. */
  function GetHeader(t: seq<Byte>, boundary: seq<Byte>): (h: HeaderRead)
    ensures h.Header? ==> |h.rest| < |t|
    decreases |t|
  {
    match ReadLine(t)
    case LineEof => Failed
    case TooLong => Failed
    case LineOf(line, rest) =>
      if line == [] then GetHeader(rest, boundary)
      else if |line| > 1 && line[0] == 45 && line[1] == 45 then
        if TrimBlanks(line) != [45, 45] + boundary then Failed else NextLines(BLANK_PART, rest)
      else
        match SetField(BLANK_PART, line)
        case None => Unseen
        case Some(q) => NextLines(q, rest)
  }

  // ---------- contents ----------

  /** What ends a content: a line end, two hyphens and the boundary. */
  function Delimiter(boundary: seq<Byte>): (d: seq<Byte>)
    ensures |d| == |boundary| + 4
  {
    [13, 10, 45, 45] + boundary
  }

  /** Where d first stands in t at or behind i; |t| if nowhere. */
  function Find(d: seq<Byte>, t: seq<Byte>, i: nat): (k: nat)
    requires i <= |t|
    ensures i <= k <= |t| && (k < |t| ==> d <= t[k..])
    ensures forall j :: i <= j < k ==> !(d <= t[j..])
    decreases |t| - i
  {
    if i == |t| || d <= t[i..] then i else Find(d, t, i + 1)
  }

  /** What follows a delimiter: two hyphens end the message, a line end starts another part. */
  datatype After = Last(rest: seq<Byte>) | More(rest: seq<Byte>) | Wrong | Unknown

  function SkipBlanks(t: seq<Byte>): (r: seq<Byte>)
    ensures |r| <= |t|
  {
    if t == [] || t[0] == 13 || t[0] > 32 then t else SkipBlanks(t[1..])
  }

  function Behind(t: seq<Byte>): (a: After)
    ensures a.Last? || a.More? ==> |a.rest| < |t|
  {
    if t == [] then Wrong
    else if t[0] == 0 then Unknown
    else if t[0] == 45 then if |t| > 1 && t[1] == 45 then Last(t[2..]) else Wrong
    else
      var r := SkipBlanks(t);
      if |r| > 1 && r[0] == 13 && r[1] == 10 then More(r[2..]) else Wrong
  }

  /** A content and what follows its delimiter. */
  datatype Piece = Piece(content: seq<Byte>, after: After) | Endless

  function PieceOf(t: seq<Byte>, boundary: seq<Byte>): (p: Piece)
    ensures p.Piece? ==> |p.content| <= |t| && (p.after.Last? || p.after.More? ==> |p.after.rest| < |t|)
  {
    var d := Delimiter(boundary);
    var k := Find(d, t, 0);
    if k == |t| then Endless else Piece(t[..k], Behind(t[k + |d|..]))
  }

  // ---------- all parts ----------

  datatype Received = Received(parts: seq<Part>, rest: seq<Byte>) | Error | Other

  function Before(p: Part, r: Received): Received {
    if r.Received? then r.(parts := [p] + r.parts) else r
  }

  /** soap_getmime: the content of the part whose header has been read, then the others. */
  function ReadParts(cur: Part, t: seq<Byte>, boundary: seq<Byte>): (r: Received)
    decreases |t|
  {
    match PieceOf(t, boundary)
    case Endless => Error
    case Piece(content, after) =>
      match after
      case Wrong => Error
      case Unknown => Other
      case Last(rest) => Received([cur.(content := content)], rest)
      case More(rest) =>
        match GetHeader(rest, boundary)
        case Failed => Error
        case Unseen => Other
        case Header(next, more) => Before(cur.(content := content), ReadParts(next, more, boundary))
  }

  // ---------- patterns ----------

  lemma {:induction false} MatchLength(s: seq<Byte>, t: seq<Byte>)
    requires TagMatch(s, t) && 34 !in s
    ensures |s| == |t| && forall i :: 0 <= i < |s| ==> t[i] == 45 || Lower(s[i]) == Lower(t[i])
  {
    if s != [] {
      MatchLength(s[1..], t[1..]);
      forall i | 0 <= i < |s| ensures t[i] == 45 || Lower(s[i]) == Lower(t[i]) {
        if i > 0 {
          assert s[1..][i - 1] == s[i] && t[1..][i - 1] == t[i];
        }
      }
    }
  }

  lemma {:induction false} MatchSelf(s: seq<Byte>)
    requires 34 !in s
    ensures TagMatch(s, s)
  {
    if s != [] {
      MatchSelf(s[1..]);
    }
  }

  lemma Differs(s: seq<Byte>, t: seq<Byte>, i: nat)
    requires 34 !in s && i < |s| && i < |t| && t[i] != 45 && Lower(s[i]) != Lower(t[i])
    ensures !TagMatch(s, t)
  {
    if TagMatch(s, t) {
      MatchLength(s, t);
    }
  }

  lemma OtherLength(s: seq<Byte>, t: seq<Byte>)
    requires 34 !in s && |s| != |t|
    ensures !TagMatch(s, t)
  {
    if TagMatch(s, t) {
      MatchLength(s, t);
    }
  }

  lemma IdRead(p: Part, key: seq<Byte>, v: seq<Byte>)
    requires key == CONTENT_ID
    ensures Assign(p, key, v) == Some(p.(id := Text(v)))
  {
    MatchSelf(key);
  }

  lemma LocationRead(p: Part, key: seq<Byte>, v: seq<Byte>)
    requires key == CONTENT_LOCATION
    ensures Assign(p, key, v) == Some(p.(location := Text(v)))
  {
    OtherLength(key, CONTENT_ID);
    MatchSelf(key);
  }

  lemma TypeRead(p: Part, key: seq<Byte>, v: seq<Byte>)
    requires key == CONTENT_TYPE
    ensures Assign(p, key, v) == Some(p.(kind := Text(v)))
  {
    OtherLength(key, CONTENT_ID);
    OtherLength(key, CONTENT_LOCATION);
    OtherLength(key, CONTENT_DISPOSITION);
    MatchSelf(key);
  }

  lemma NotDisposition(key: seq<Byte>)
    requires key == CONTENT_DESCRIPTION
    ensures !TagMatch(key, CONTENT_DISPOSITION)
  {
    assert key[9] == 101 && CONTENT_DISPOSITION[9] == 105;
    Differs(key, CONTENT_DISPOSITION, 9);
  }

  lemma DescriptionRead(p: Part, key: seq<Byte>, v: seq<Byte>)
    requires key == CONTENT_DESCRIPTION
    ensures Assign(p, key, v) == Some(p.(description := Text(v)))
  {
    OtherLength(key, CONTENT_ID);
    OtherLength(key, CONTENT_LOCATION);
    NotDisposition(key);
    OtherLength(key, CONTENT_TYPE);
    MatchSelf(key);
  }

  lemma EncodingRead(p: Part, key: seq<Byte>, v: seq<Byte>)
    requires key == CONTENT_ENCODING
    ensures Assign(p, key, v) == Some(p.(encoding := CodeFor(v)))
  {
    OtherLength(key, CONTENT_ID);
    OtherLength(key, CONTENT_LOCATION);
    OtherLength(key, CONTENT_DISPOSITION);
    OtherLength(key, CONTENT_TYPE);
    OtherLength(key, CONTENT_DESCRIPTION);
    MatchSelf(key);
  }

  /** Every name is told from the others. */
  lemma NamesRead(p: Part, v: seq<Byte>)
    ensures Assign(p, CONTENT_ID, v) == Some(p.(id := Text(v)))
    ensures Assign(p, CONTENT_LOCATION, v) == Some(p.(location := Text(v)))
    ensures Assign(p, CONTENT_TYPE, v) == Some(p.(kind := Text(v)))
    ensures Assign(p, CONTENT_DESCRIPTION, v) == Some(p.(description := Text(v)))
    ensures Assign(p, CONTENT_ENCODING, v) == Some(p.(encoding := CodeFor(v)))
  {
    IdRead(p, CONTENT_ID, v);
    LocationRead(p, CONTENT_LOCATION, v);
    TypeRead(p, CONTENT_TYPE, v);
    DescriptionRead(p, CONTENT_DESCRIPTION, v);
    EncodingRead(p, CONTENT_ENCODING, v);
  }

  lemma SevenBitReads()
    ensures CodeFor(CODE_7BIT) == SevenBit
  {
    MatchSelf(CODE_7BIT);
  }

  lemma EightBitReads()
    ensures CodeFor(CODE_8BIT) == EightBit
  {
    MatchSelf(CODE_8BIT);
    Differs(CODE_8BIT, CODE_7BIT, 0);
  }

  lemma BinaryReads()
    ensures CodeFor(CODE_BINARY) == Binary
  {
    MatchSelf(CODE_BINARY);
    OtherLength(CODE_BINARY, CODE_7BIT);
    OtherLength(CODE_BINARY, CODE_8BIT);
  }

  lemma QuotedPrintableReads()
    ensures CodeFor(CODE_QUOTED) == QuotedPrintable
  {
    MatchSelf(CODE_QUOTED);
    OtherLength(CODE_QUOTED, CODE_7BIT);
    OtherLength(CODE_QUOTED, CODE_8BIT);
    OtherLength(CODE_QUOTED, CODE_BINARY);
  }

  lemma Base64Reads()
    ensures CodeFor(CODE_BASE64) == Base64
  {
    MatchSelf(CODE_BASE64);
    OtherLength(CODE_BASE64, CODE_7BIT);
    OtherLength(CODE_BASE64, CODE_8BIT);
    Differs(CODE_BASE64, CODE_BINARY, 1);
    OtherLength(CODE_BASE64, CODE_QUOTED);
  }

  lemma IetfTokenReads()
    ensures CodeFor(CODE_IETF) == IetfToken
  {
    MatchSelf(CODE_IETF);
    OtherLength(CODE_IETF, CODE_7BIT);
    OtherLength(CODE_IETF, CODE_8BIT);
    OtherLength(CODE_IETF, CODE_BINARY);
    OtherLength(CODE_IETF, CODE_QUOTED);
    OtherLength(CODE_IETF, CODE_BASE64);
  }

  lemma XTokenReads()
    ensures CodeFor(CODE_X) == XToken
  {
    MatchSelf(CODE_X);
    OtherLength(CODE_X, CODE_7BIT);
    OtherLength(CODE_X, CODE_8BIT);
    OtherLength(CODE_X, CODE_BINARY);
    OtherLength(CODE_X, CODE_QUOTED);
    OtherLength(CODE_X, CODE_BASE64);
    OtherLength(CODE_X, CODE_IETF);
  }

  lemma SevenBitIs()
    ensures CodeOf(SevenBit) == Text(CODE_7BIT)
  {
    assert Ascii("7bit") == CODE_7BIT;
  }

  lemma EightBitIs()
    ensures CodeOf(EightBit) == Text(CODE_8BIT)
  {
    assert Ascii("8bit") == CODE_8BIT;
  }

  lemma BinaryIs()
    ensures CodeOf(Binary) == Text(CODE_BINARY)
  {
    assert Ascii("binary") == CODE_BINARY;
  }

  lemma QuotedPrintableIs()
    ensures CodeOf(QuotedPrintable) == Text(CODE_QUOTED)
  {
    assert Ascii("quoted-printable") == CODE_QUOTED;
  }

  lemma Base64Is()
    ensures CodeOf(Base64) == Text(CODE_BASE64)
  {
    assert Ascii("base64") == CODE_BASE64;
  }

  lemma IetfTokenIs()
    ensures CodeOf(IetfToken) == Text(CODE_IETF)
  {
    assert Ascii("ietf-token") == CODE_IETF;
  }

  lemma XTokenIs()
    ensures CodeOf(XToken) == Text(CODE_X)
  {
    assert Ascii("x-token") == CODE_X;
  }

  /** Every encoding is read back from its name. */
  lemma CodesRead(e: Encoding)
    requires e != Unstated
    ensures CodeOf(e).Text? && CodeFor(CodeOf(e).bytes) == e
  {
    match e
    case SevenBit =>
      SevenBitIs();
      SevenBitReads();
    case EightBit =>
      EightBitIs();
      EightBitReads();
    case Binary =>
      BinaryIs();
      BinaryReads();
    case QuotedPrintable =>
      QuotedPrintableIs();
      QuotedPrintableReads();
    case Base64 =>
      Base64Is();
      Base64Reads();
    case IetfToken =>
      IetfTokenIs();
      IetfTokenReads();
    case XToken =>
      XTokenIs();
      XTokenReads();
  }

  /** The names of the encodings hold no terminator, no line end and no blank. */
  lemma CodeIs(e: Encoding)
    requires e != Unstated
    ensures CodeOf(e).Text? && 0 < |CodeOf(e).bytes| <= 16
    ensures forall i :: 0 <= i < |CodeOf(e).bytes| ==> 32 < CodeOf(e).bytes[i] < 128
  {
    match e
    case SevenBit => SevenBitIs();
    case EightBit => EightBitIs();
    case Binary => BinaryIs();
    case QuotedPrintable => QuotedPrintableIs();
    case Base64 => Base64Is();
    case IetfToken => IetfTokenIs();
    case XToken => XTokenIs();
  }
}
