/** Sending attachments through the output buffer, and counting them beforehand. */
module AttachmentsCode {
  import opened Basics
  import opened Memory
  import opened Attachments
  import Out = ChunkSender

  /** An addition of two size_t. */
  function Add(a: nat, b: nat): (c: nat)
    ensures c < WORD
  {
    (a + b) % WORD
  }

  lemma AddTwice(a: nat, b: nat, c: nat)
    ensures Add(Add(a, b), c) == Add(a, b + c)
  {
  }

  /** count += ...: the length of a name rounded up, if there is a name. */
  method AddName(count: nat, t: Text) returns (c: nat)
    requires count < WORD
    ensures c == Add(count, if t.Text? then RoundedCount(|t.bytes|) else 0)
  {
    c := count;
    if t.Text? {
      c := Add(c, RoundedCount(|t.bytes|));
    }
  }

  method AddDime(count: nat, p: Part) returns (c: nat)
    requires count < WORD && OptionsOk(p.options)
    ensures c == Add(count, DimeCount(p))
  {
    ghost var a := 12 + RoundedCount(|p.content|);
    ghost var i := if p.id.Text? then RoundedCount(|p.id.bytes|) else 0;
    ghost var k := if p.kind.Text? then RoundedCount(|p.kind.bytes|) else 0;
    AddTwice(count, a, i);
    AddTwice(count, a + i, k);
    c := Add(count, 12 + RoundedCount(|p.content|));
    c := AddName(c, p.id);
    c := AddName(c, p.kind);
    if p.options.Text? {
      var n := p.options.bytes[2] as int * 0x100 + p.options.bytes[3] as int;
      AddTwice(count, a + i + k, (n + 7) / 4 * 4);
      c := Add(c, (n + 7) / 4 * 4);
    }
  }

  /** count += known + strlen(t), if there is a t. */
  method AddLine(count: nat, known: nat, t: Text) returns (c: nat)
    requires count < WORD
    ensures c == Add(count, if t.Text? then known + |t.bytes| else 0)
  {
    c := count;
    if t.Text? {
      c := Add(c, known + |t.bytes|);
    }
  }

  /** The first three lines, with what is known of their sizes. */
  function LineCounts(p: Part): nat {
    (if p.kind.Text? then 16 + |p.kind.bytes| else 0)
    + (if CodeOf(p.encoding).Text? then 29 + |CodeOf(p.encoding).bytes| else 0)
    + (if p.id.Text? then 14 + |p.id.bytes| else 0)
  }

  method AddLines(count: nat, p: Part) returns (c: nat)
    requires count < WORD
    ensures c == Add(count, LineCounts(p))
  {
    ghost var k := if p.kind.Text? then 16 + |p.kind.bytes| else 0;
    ghost var e := if CodeOf(p.encoding).Text? then 29 + |CodeOf(p.encoding).bytes| else 0;
    ghost var i := if p.id.Text? then 14 + |p.id.bytes| else 0;
    AddTwice(count, k, e);
    AddTwice(count, k + e, i);
    c := AddLine(count, 16, p.kind);
    c := AddLine(c, 29, CodeOf(p.encoding));
    c := AddLine(c, 14, p.id);
  }

  method AddMime(count: nat, n: nat, p: Part) returns (c: nat)
    requires count < WORD
    ensures c == Add(count, MimeCount(n, p))
  {
    ghost var first := LineCounts(p);
    ghost var l := if p.location.Text? then 20 + |p.location.bytes| else 0;
    ghost var d := if p.description.Text? then 23 + |p.description.bytes| else 0;
    AddTwice(count, 6 + n, first);
    AddTwice(count, 6 + n + first, l);
    AddTwice(count, 6 + n + first + l, d);
    AddTwice(count, 6 + n + first + l + d, 2 + |p.content|);
    c := Add(count, 6 + n);
    c := AddLines(c, p);
    c := AddLine(c, 20, p.location);
    c := AddLine(c, 23, p.description);
    c := Add(c, 2 + |p.content|);
  }

  method AddDimes(count: nat, ps: seq<Part>) returns (c: nat)
    requires count < WORD && AllAddressable(ps)
    ensures c == Add(count, DimeCounts(ps))
  {
    c := count;
    var i := 0;
    while i < |ps|
      invariant 0 <= i <= |ps| && c < WORD && Add(c, DimeCounts(ps[i..])) == Add(count, DimeCounts(ps))
    {
      AddTwice(c, DimeCount(ps[i]), DimeCounts(ps[i + 1..]));
      c := AddDime(c, ps[i]);
      i := i + 1;
    }
  }

  method AddMimes(count: nat, n: nat, ps: seq<Part>) returns (c: nat)
    requires count < WORD
    ensures c == Add(count, MimeCounts(n, ps))
  {
    c := count;
    var i := 0;
    while i < |ps|
      invariant 0 <= i <= |ps| && c < WORD && Add(c, MimeCounts(n, ps[i..])) == Add(count, MimeCounts(n, ps))
    {
      AddTwice(c, MimeCount(n, ps[i]), MimeCounts(n, ps[i + 1..]));
      c := AddMime(c, n, ps[i]);
      i := i + 1;
    }
  }

  /** soap_count_attachments */
  method CountAttachments(m: Mode, count: nat, dime: seq<Part>, boundary: Text, mime: seq<Part>) returns (c: nat)
    requires count < WORD && AllAddressable(dime)
    ensures c == Announced(m, count, dime, boundary, mime)
  {
    c := count;
    if m.dime && !m.mtom {
      c := AddDimes(c, dime);
    }
    AddTwice(count, DimeSize(m, dime), MimeSize(m, boundary, mime));
    if m.mime && boundary.Text? {
      var n := |boundary.bytes|;
      AddTwice(c, MimeCounts(n, mime), 6 + n);
      c := AddMimes(c, n, mime);
      c := Add(c, 6 + n);
    }
  }

  ghost predicate Sending(s: Out.Sender)
    reads s
  {
    s.Valid() && !s.counting
  }

  /** soap_putdimefield */
  method PutDimeField(s: Out.Sender, b: seq<Byte>)
    requires Sending(s)
    modifies s, s.buf
    ensures Sending(s) && s.Sent() == old(s.Sent()) + Field(b)
  {
    ghost var was := s.Sent();
    s.SendRaw(b);
    s.SendRaw(Padding(|b|));
    assert was + Field(b) == was + b + Padding(|b|);
  }

  /** The bytes of tmp: flags, then the lengths, the high byte of each one first. */
  method MakeHeader(flags: nat, options: nat, id: nat, kind: nat, size: nat) returns (tmp: array<Byte>)
    requires flags < 0x20
    ensures fresh(tmp)
    ensures tmp[..] == [VERSION + flags % 8, flags / 16 * 16] + Be16(options) + Be16(id) + Be16(kind) + Be32(size)
  {
    tmp := new Byte[12];
    tmp[0] := VERSION + flags % 8;
    tmp[1] := flags / 16 * 16;
    tmp[2] := options / 0x100 % 0x100;
    tmp[3] := options % 0x100;
    tmp[4] := id / 0x100 % 0x100;
    tmp[5] := id % 0x100;
    tmp[6] := kind / 0x100 % 0x100;
    tmp[7] := kind % 0x100;
    tmp[8] := size / 0x100_0000 % 0x100;
    tmp[9] := size / 0x1_0000 % 0x100;
    tmp[10] := size / 0x100 % 0x100;
    tmp[11] := size % 0x100;
    assert size / 0x1_0000 / 0x100 == size / 0x100_0000;
  }

  /** The length of a name as far as 16 bits can tell it. */
  method NameLength(t: Text) returns (n: nat)
    ensures n == |Cut(t)| && (t.Text? ==> n <= |t.bytes| && Cut(t) == t.bytes[..n]) && (t.Null? ==> n == 0)
  {
    n := 0;
    if t.Text? {
      n := |t.bytes|;
      if n > MAX_FIELD {
        n := MAX_FIELD;
      }
    }
  }

  function Start(t: Text, n: nat): (s: seq<Byte>)
    requires n <= t.Length()
  {
    if t.Null? then [] else t.bytes[..n]
  }

  /** soap_putdimehdr */
  method PutDimeHdr(s: Out.Sender, p: Part, flags: nat, ghost last: bool)
    requires Sending(s) && Addressable(p)
    requires flags == VERSION as int + MEDIA as int + if last then LAST as int else 0
    modifies s, s.buf
    ensures Sending(s)
    ensures s.Sent() == old(s.Sent()) + Header(p, last) + Field(OptionsSent(p.options)) + Field(Cut(p.id)) + Field(Cut(p.kind))
  {
    var optlen := 0;
    if p.options.Text? {
      optlen := p.options.bytes[2] as int * 0x100 + p.options.bytes[3] as int + 4;
    }
    var idlen := NameLength(p.id);
    var typelen := NameLength(p.kind);
    var tmp := MakeHeader(flags, optlen, idlen, typelen, |p.content|);
    assert tmp[..] == Header(p, last);
    s.SendRaw(tmp[..]);
    PutDimeField(s, Start(p.options, optlen));
    PutDimeField(s, Start(p.id, idlen));
    PutDimeField(s, Start(p.kind, typelen));
  }

  lemma RecordParts(was: seq<Byte>, p: Part, last: bool)
    requires Addressable(p)
    ensures was + Header(p, last) + Field(OptionsSent(p.options)) + Field(Cut(p.id)) + Field(Cut(p.kind)) + Field(p.content)
            == was + Record(p, last)
  {
  }

  lemma PutNext(was: seq<Byte>, done: seq<Byte>, ps: seq<Part>, i: nat)
    requires AllAddressable(ps) && i < |ps| && done + DimeBytes(ps[i..]) == was
    ensures done + Record(ps[i], i + 1 == |ps|) + DimeBytes(ps[i + 1..]) == was
  {
    assert ps[i..][1..] == ps[i + 1..];
  }

  /** soap_putdime without streaming callbacks */
  method PutDime(s: Out.Sender, m: Mode, ps: seq<Part>)
    requires Sending(s) && AllAddressable(ps)
    modifies s, s.buf
    ensures Sending(s) && s.Sent() == old(s.Sent()) + DimeSent(m, ps)
  {
    ghost var all := s.Sent() + DimeSent(m, ps);
    if !m.dime {
      return;
    }
    assert ps[0..] == ps;
    var i := 0;
    while i < |ps|
      invariant 0 <= i <= |ps| && Sending(s) && s.Sent() + DimeBytes(ps[i..]) == all
    {
      ghost var was := s.Sent();
      PutNext(all, was, ps, i);
      RecordParts(was, ps[i], i + 1 == |ps|);
      var flags := VERSION as int + MEDIA as int;
      if i + 1 == |ps| {
        flags := flags + LAST as int;
      }
      PutDimeHdr(s, ps[i], flags, i + 1 == |ps|);
      PutDimeField(s, ps[i].content);
      i := i + 1;
    }
    assert s.Sent() + [] == s.Sent();
  }

  /** soap_send3 */
  method Send3(s: Out.Sender, a: seq<Byte>, b: seq<Byte>, c: seq<Byte>)
    requires Sending(s)
    modifies s, s.buf
    ensures Sending(s) && s.Sent() == old(s.Sent()) + (a + b + c)
  {
    ghost var was := s.Sent();
    s.SendRaw(a);
    s.SendRaw(b);
    s.SendRaw(c);
    assert was + (a + b + c) == was + a + b + c;
  }

  method SendLine(s: Out.Sender, name: string, t: Text)
    requires Sending(s)
    modifies s, s.buf
    ensures Sending(s) && s.Sent() == old(s.Sent()) + Line(name, t)
  {
    assert s.Sent() + [] == s.Sent();
    if t.Text? {
      Send3(s, Ascii(name), t.bytes, Ascii("\r\n"));
    }
  }

  lemma HeaderParts(was: seq<Byte>, boundary: seq<Byte>, p: Part)
    ensures was + (Ascii("\r\n--") + boundary + Ascii("\r\n")) + Line("Content-Type: ", p.kind)
            + Line("Content-Transfer-Encoding: ", CodeOf(p.encoding)) + Line("Content-ID: ", p.id)
            + Line("Content-Location: ", p.location) + Line("Content-Description: ", p.description) + Ascii("\r\n")
            == was + MimeHeader(boundary, p)
  {
    Seven(was, Ascii("\r\n--") + boundary + Ascii("\r\n"), Line("Content-Type: ", p.kind),
          Line("Content-Transfer-Encoding: ", CodeOf(p.encoding)), Line("Content-ID: ", p.id),
          Line("Content-Location: ", p.location), Line("Content-Description: ", p.description), Ascii("\r\n"));
  }

  lemma Seven(was: seq<Byte>, a: seq<Byte>, b: seq<Byte>, c: seq<Byte>, d: seq<Byte>, e: seq<Byte>, f: seq<Byte>, g: seq<Byte>)
    ensures was + a + b + c + d + e + f + g == was + (a + b + c + d + e + f + g)
  {
  }

  /** soap_putmimehdr */
  method PutMimeHdr(s: Out.Sender, boundary: seq<Byte>, p: Part)
    requires Sending(s)
    modifies s, s.buf
    ensures Sending(s) && s.Sent() == old(s.Sent()) + MimeHeader(boundary, p)
  {
    HeaderParts(s.Sent(), boundary, p);
    Send3(s, Ascii("\r\n--"), boundary, Ascii("\r\n"));
    SendLine(s, "Content-Type: ", p.kind);
    SendLine(s, "Content-Transfer-Encoding: ", CodeOf(p.encoding));
    SendLine(s, "Content-ID: ", p.id);
    SendLine(s, "Content-Location: ", p.location);
    SendLine(s, "Content-Description: ", p.description);
    s.SendRaw(Ascii("\r\n"));
  }

  lemma MimeNext(was: seq<Byte>, done: seq<Byte>, boundary: seq<Byte>, ps: seq<Part>, i: nat)
    requires i < |ps| && done + MimeParts(boundary, ps[i..]) == was
    ensures done + MimeHeader(boundary, ps[i]) + ps[i].content + MimeParts(boundary, ps[i + 1..]) == was
  {
    var rest := MimeParts(boundary, ps[i + 1..]);
    assert ps[i..][1..] == ps[i + 1..] && ps[i..][0] == ps[i];
    Associate(done, MimeHeader(boundary, ps[i]), ps[i].content);
    Associate(done, MimeHeader(boundary, ps[i]) + ps[i].content, rest);
  }

  lemma Closing(start: seq<Byte>, boundary: seq<Byte>, ps: seq<Part>)
    ensures start + MimeParts(boundary, ps) + (Ascii("\r\n--") + boundary + Ascii("--")) == start + MimeBytes(boundary, ps)
  {
    var p, a, c := MimeParts(boundary, ps), Ascii("\r\n--"), Ascii("--");
    Associate(start, p, a + boundary + c);
    Associate(p, a, boundary);
    Associate(p, a + boundary, c);
  }

  /** The loop of soap_putmime */
  method PutMimeParts(s: Out.Sender, b: seq<Byte>, ps: seq<Part>)
    requires Sending(s)
    modifies s, s.buf
    ensures Sending(s) && s.Sent() == old(s.Sent()) + MimeParts(b, ps)
  {
    ghost var all := s.Sent() + MimeParts(b, ps);
    assert ps[0..] == ps;
    var i := 0;
    while i < |ps|
      invariant 0 <= i <= |ps| && Sending(s) && s.Sent() + MimeParts(b, ps[i..]) == all
    {
      MimeNext(all, s.Sent(), b, ps, i);
      PutMimeHdr(s, b, ps[i]);
      s.SendRaw(ps[i].content);
      i := i + 1;
    }
    assert s.Sent() + [] == s.Sent();
  }

  /** soap_putmime without streaming callbacks */
  method PutMime(s: Out.Sender, m: Mode, boundary: Text, ps: seq<Part>)
    requires Sending(s)
    modifies s, s.buf
    ensures Sending(s) && s.Sent() == old(s.Sent()) + MimeSent(m, boundary, ps)
  {
    if m.mime && boundary.Text? {
      Closing(s.Sent(), boundary.bytes, ps);
      PutMimeParts(s, boundary.bytes, ps);
      Send3(s, Ascii("\r\n--"), boundary.bytes, Ascii("--"));
    } else {
      assert s.Sent() + [] == s.Sent();
    }
  }

  /** The attachments' share of soap_end_send; the first kept DIME attachments were there before the body was counted. */
  method PutAttachments(s: Out.Sender, m: Mode, dime: seq<Part>, kept: nat, boundary: Text, mime: seq<Part>)
    requires Sending(s) && AllAddressable(dime) && kept <= |dime|
    modifies s, s.buf
    ensures Sending(s) && s.Sent() == old(s.Sent()) + Attached(m, Reordered(dime, kept), boundary, mime)
  {
    ghost var was := s.Sent();
    var r := Reordered(dime, kept);
    PutDime(s, m, r);
    PutMime(s, m, boundary, mime);
    Associate(was, DimeSent(m, r), MimeSent(m, boundary, mime));
  }

  /** A whole message: the size announced from the body's size is the number of bytes that then leave, if and
      only if what is cut off the names amounts to a multiple of 2^32. */
  method CountThenSend(s: Out.Sender, omode: Mode, earlier: Mode, body: seq<Byte>, dime: seq<Part>, kept: nat, boundary: Text,
                       mime: seq<Part>) returns (announced: nat)
    requires Sending(s) && s.Sent() == [] && AllAddressable(dime) && kept <= |dime| && |body| < WORD
    modifies s, s.buf
    ensures Sending(s)
    ensures s.Sent() == body + Attached(SendingMode(omode, CountingMode(omode, earlier)), Reordered(dime, kept), boundary, mime)
    ensures announced == |s.Sent()| % WORD
            <==> Cuts(SendingMode(omode, CountingMode(omode, earlier)), dime) % WORD == 0
  {
    var counting := CountingMode(omode, earlier);
    announced := CountAttachments(counting, |body|, dime, boundary, mime);
    s.SendRaw(body);
    assert [] + body == body;
    PutAttachments(s, SendingMode(omode, counting), dime, kept, boundary, mime);
    MessageSize(omode, earlier, body, dime, kept, boundary, mime, s.Sent());
  }

  lemma MessageSize(omode: Mode, earlier: Mode, body: seq<Byte>, dime: seq<Part>, kept: nat, boundary: Text, mime: seq<Part>,
                    message: seq<Byte>)
    requires AllAddressable(dime) && kept <= |dime|
    requires message == body + Attached(SendingMode(omode, CountingMode(omode, earlier)), Reordered(dime, kept), boundary, mime)
    ensures Announced(CountingMode(omode, earlier), |body|, dime, boundary, mime) == |message| % WORD
            <==> Cuts(SendingMode(omode, CountingMode(omode, earlier)), dime) % WORD == 0
  {
    AnnouncedIffNothingCut(omode, earlier, |body|, dime, kept, boundary, mime);
  }
}
