/** Attachments of a message: DIME records, MIME parts, and the size that is announced for them. */
module Attachments {
  import opened Memory

  /** A char pointer: NULL, or the bytes in front of the terminator. */
  datatype Text = Null | Text(bytes: seq<Byte>) {
    function Length(): nat {
      if Null? then 0 else |bytes|
    }
  }

  /** enum soap_mime_encoding */
  datatype Encoding = Unstated | SevenBit | EightBit | Binary | QuotedPrintable | Base64 | IetfToken | XToken

  /** struct soap_multipart; options is the whole block that it points to. */
  datatype Part = Part(content: seq<Byte>, id: Text, kind: Text, options: Text, encoding: Encoding, location: Text,
                       description: Text)

  /** An options block: two bytes of type, two of length, and at least as many bytes as that length says. */
  predicate OptionsOk(o: Text) {
    o.Text? ==> |o.bytes| >= 4 && OptionsLength(o) <= |o.bytes|
  }

  function OptionsLength(o: Text): (n: nat)
    requires o.Text? ==> |o.bytes| >= 4
    ensures n == 0 || 4 <= n < 0x1_0004
  {
    if o.Null? then 0 else o.bytes[2] as int * 0x100 + o.bytes[3] as int + 4
  }

  /** Everything in the address space is shorter than that. */
  predicate Addressable(p: Part) {
    |p.content| < WORD && p.id.Length() < WORD && p.kind.Length() < WORD && OptionsOk(p.options)
  }

  predicate AllAddressable(ps: seq<Part>) {
    forall i :: 0 <= i < |ps| ==> Addressable(ps[i])
  }

  // DIME

  const MAX_FIELD := 0xFFFF

  function Padding(n: nat): (s: seq<Byte>)
    ensures |s| == (4 - n % 4) % 4
  {
    seq((4 - n % 4) % 4, i => 0)
  }

  /** A field, filled up to a multiple of four bytes. */
  function Field(s: seq<Byte>): (f: seq<Byte>)
    ensures |f| == RoundUp(|s|) && s <= f
  {
    s + Padding(|s|)
  }

  function RoundUp(n: nat): (m: nat)
    ensures n <= m < n + 4 && m % 4 == 0
  {
    n + (4 - n % 4) % 4
  }

  /** The part of a name that the 16 bits of its length can tell. */
  function Cut(t: Text): (s: seq<Byte>)
    ensures |s| == if t.Length() > MAX_FIELD then MAX_FIELD else t.Length()
  {
    if t.Null? then [] else if |t.bytes| > MAX_FIELD then t.bytes[..MAX_FIELD] else t.bytes
  }

  function OptionsSent(o: Text): (s: seq<Byte>)
    requires OptionsOk(o)
    ensures |s| == OptionsLength(o)
  {
    if o.Null? then [] else o.bytes[..OptionsLength(o)]
  }

  /** The low 16 bits of n, the high byte first. */
  function Be16(n: nat): (s: seq<Byte>)
    ensures |s| == 2
  {
    [n / 0x100 % 0x100, n % 0x100]
  }

  function Be32(n: nat): (s: seq<Byte>)
    ensures |s| == 4
  {
    Be16(n / 0x1_0000) + Be16(n)
  }

  const VERSION: Byte := 0x08
  const MEDIA: Byte := 0x10
  const LAST: Byte := 0x02

  function First(last: bool): Byte {
    if last then VERSION + LAST else VERSION
  }

  function Header(p: Part, last: bool): (s: seq<Byte>)
    requires OptionsOk(p.options)
    ensures |s| == 12
  {
    [First(last), MEDIA] + Be16(OptionsLength(p.options)) + Be16(|Cut(p.id)|) + Be16(|Cut(p.kind)|) + Be32(|p.content|)
  }

  /** The first two bytes of a record: version 1, no flag but message-end, and a media type, not a URI, as type. */
  lemma FirstBytes(p: Part, last: bool)
    requires OptionsOk(p.options)
    ensures Header(p, last)[0] == (if last then 0x0A else 0x08) && Header(p, last)[1] == 0x10
  {
  }

  function Record(p: Part, last: bool): (s: seq<Byte>)
    requires OptionsOk(p.options)
  {
    Header(p, last) + Field(OptionsSent(p.options)) + Field(Cut(p.id)) + Field(Cut(p.kind)) + Field(p.content)
  }

  /** The records of ps; only the last one carries the message-end flag. */
  function DimeBytes(ps: seq<Part>): (s: seq<Byte>)
    requires AllAddressable(ps)
  {
    if ps == [] then [] else Record(ps[0], |ps| == 1) + DimeBytes(ps[1..])
  }

  // MIME

  function Ascii(s: string): (b: seq<Byte>)
    ensures |b| == |s|
  {
    seq(|s|, i requires 0 <= i < |s| => if s[i] as int < 256 then s[i] as int else 0)
  }

  /** A header line, left out when there is nothing to say. */
  function Line(name: string, t: Text): (s: seq<Byte>)
    ensures |s| == if t.Null? then 0 else |name| + |t.bytes| + 2
  {
    if t.Null? then [] else Ascii(name) + t.bytes + Ascii("\r\n")
  }

  /** mime_codes */
  function CodeOf(e: Encoding): (t: Text) {
    match e
    case Unstated => Null
    case SevenBit => Text(Ascii("7bit"))
    case EightBit => Text(Ascii("8bit"))
    case Binary => Text(Ascii("binary"))
    case QuotedPrintable => Text(Ascii("quoted-printable"))
    case Base64 => Text(Ascii("base64"))
    case IetfToken => Text(Ascii("ietf-token"))
    case XToken => Text(Ascii("x-token"))
  }

  function MimeHeader(boundary: seq<Byte>, p: Part): (s: seq<Byte>) {
    Ascii("\r\n--") + boundary + Ascii("\r\n")
    + Line("Content-Type: ", p.kind)
    + Line("Content-Transfer-Encoding: ", CodeOf(p.encoding))
    + Line("Content-ID: ", p.id)
    + Line("Content-Location: ", p.location)
    + Line("Content-Description: ", p.description)
    + Ascii("\r\n")
  }

  function MimeParts(boundary: seq<Byte>, ps: seq<Part>): (s: seq<Byte>) {
    if ps == [] then [] else MimeHeader(boundary, ps[0]) + ps[0].content + MimeParts(boundary, ps[1..])
  }

  function MimeBytes(boundary: seq<Byte>, ps: seq<Part>): (s: seq<Byte>) {
    MimeParts(boundary, ps) + Ascii("\r\n--") + boundary + Ascii("--")
  }

  // The announced size

  /** (n + 3) & ~3 in 32 bits */
  function RoundedCount(n: nat): nat {
    (n + 3) % WORD / 4 * 4
  }

  /** What soap_count_attachments adds for one DIME record. */
  function DimeCount(p: Part): nat
    requires OptionsOk(p.options)
  {
    12 + RoundedCount(|p.content|)
    + (if p.id.Text? then RoundedCount(|p.id.bytes|) else 0)
    + (if p.kind.Text? then RoundedCount(|p.kind.bytes|) else 0)
    + (if p.options.Text? then (OptionsLength(p.options) + 3) / 4 * 4 else 0)
  }

  function DimeCounts(ps: seq<Part>): nat
    requires AllAddressable(ps)
  {
    if ps == [] then 0 else DimeCount(ps[0]) + DimeCounts(ps[1..])
  }

  /** What it adds for one MIME part. */
  function MimeCount(n: nat, p: Part): nat {
    6 + n
    + (if p.kind.Text? then 16 + |p.kind.bytes| else 0)
    + (if CodeOf(p.encoding).Text? then 29 + |CodeOf(p.encoding).bytes| else 0)
    + (if p.id.Text? then 14 + |p.id.bytes| else 0)
    + (if p.location.Text? then 20 + |p.location.bytes| else 0)
    + (if p.description.Text? then 23 + |p.description.bytes| else 0)
    + 2 + |p.content|
  }

  function MimeCounts(n: nat, ps: seq<Part>): nat {
    if ps == [] then 0 else MimeCount(n, ps[0]) + MimeCounts(n, ps[1..])
  }

  /** The bytes of a name that are counted but not sent. */
  function Over(t: Text): (n: nat)
    ensures n == 0 <==> t.Length() <= 0x1_0000
  {
    RoundUp(t.Length()) - RoundUp(|Cut(t)|)
  }

  function Excess(ps: seq<Part>): nat {
    if ps == [] then 0 else Over(ps[0].id) + Over(ps[0].kind) + Excess(ps[1..])
  }

  predicate NamesFit(ps: seq<Part>) {
    forall i :: 0 <= i < |ps| ==> ps[i].id.Length() <= 0x1_0000 && ps[i].kind.Length() <= 0x1_0000
  }

  lemma {:induction false} NoExcess(ps: seq<Part>)
    ensures Excess(ps) == 0 <==> NamesFit(ps)
  {
    if ps != [] {
      NoExcess(ps[1..]);
      assert ps == [ps[0]] + ps[1..];
    }
  }

  /** How often a count of n rounded up passes 2^32. */
  function Wraps(n: nat): nat {
    (n + 3) / WORD
  }

  lemma RoundedCountIs(n: nat)
    requires n < WORD
    ensures RoundedCount(n) + WORD * Wraps(n) == RoundUp(n)
  {
  }

  function PartWraps(p: Part): nat {
    Wraps(|p.content|) + Wraps(p.id.Length()) + Wraps(p.kind.Length())
  }

  function AllWraps(ps: seq<Part>): nat {
    if ps == [] then 0 else PartWraps(ps[0]) + AllWraps(ps[1..])
  }

  lemma RecordLength(p: Part, last: bool)
    requires OptionsOk(p.options)
    ensures |Record(p, last)| == 
      12 + RoundUp(OptionsLength(p.options)) + RoundUp(|Cut(p.id)|) + RoundUp(|Cut(p.kind)|) + RoundUp(|p.content|)
  {
  }

  lemma RoundUpIs(n: nat)
    ensures RoundUp(n) == (n + 3) / 4 * 4
  {
  }

  lemma RecordCounted(p: Part, last: bool)
    requires Addressable(p)
    ensures DimeCount(p) + WORD * PartWraps(p) == |Record(p, last)| + Over(p.id) + Over(p.kind)
  {
    RecordLength(p, last);
    RoundedCountIs(|p.content|);
    RoundedCountIs(p.id.Length());
    RoundedCountIs(p.kind.Length());
    RoundUpIs(OptionsLength(p.options));
  }

  /** The DIME count exceeds what is sent by what the 16-bit name lengths cut off. */
  lemma {:induction false} DimeCounted(ps: seq<Part>)
    requires AllAddressable(ps)
    ensures DimeCounts(ps) + WORD * AllWraps(ps) == |DimeBytes(ps)| + Excess(ps)
  {
    if ps != [] {
      RecordCounted(ps[0], |ps| == 1);
      DimeCounted(ps[1..]);
    }
  }

  lemma {:induction false} MimeCounted(boundary: seq<Byte>, ps: seq<Part>)
    ensures MimeCounts(|boundary|, ps) == |MimeParts(boundary, ps)|
  {
    if ps != [] {
      MimeCounted(boundary, ps[1..]);
    }
  }

  // The modes of the two passes

  /** SOAP_ENC_DIME, SOAP_ENC_MTOM, SOAP_ENC_MIME */
  datatype Mode = Mode(dime: bool, mtom: bool, mime: bool)

  /** What soap_begin_count makes of the output mode; earlier is the mode before. */
  function CountingMode(omode: Mode, earlier: Mode): Mode {
    var m := omode.(dime := omode.dime || earlier.dime);
    if m.mtom && m.dime then m.(mime := true) else if !m.mime then m.(mtom := false) else m
  }

  /** What soap_begin_send makes of it. */
  function SendingMode(omode: Mode, earlier: Mode): Mode {
    var m := omode.(dime := omode.dime || earlier.dime);
    if m.mtom && m.dime then m.(mime := true, dime := false) else if !m.mime then m.(mtom := false) else m
  }

  /** Whichever forms are counted are the forms that are sent. */
  lemma SameForms(omode: Mode, earlier: Mode)
    ensures var c := CountingMode(omode, earlier);
            var s := SendingMode(omode, c);
            (c.dime && !c.mtom <==> s.dime) && (c.mime <==> s.mime)
  {
  }

  function DimeSize(m: Mode, ps: seq<Part>): nat
    requires AllAddressable(ps)
  {
    if m.dime && !m.mtom then DimeCounts(ps) else 0
  }

  function MimeSize(m: Mode, boundary: Text, ps: seq<Part>): nat {
    if m.mime && boundary.Text? then MimeCounts(|boundary.bytes|, ps) + 6 + |boundary.bytes| else 0
  }

  function Total(m: Mode, count: nat, dime: seq<Part>, boundary: Text, mime: seq<Part>): nat
    requires AllAddressable(dime)
  {
    count + DimeSize(m, dime) + MimeSize(m, boundary, mime)
  }

  /** The size announced: the body and the attachments as counted. */
  function Announced(m: Mode, count: nat, dime: seq<Part>, boundary: Text, mime: seq<Part>): nat
    requires AllAddressable(dime)
  {
    Total(m, count, dime, boundary, mime) % WORD
  }

  function DimeSent(m: Mode, ps: seq<Part>): seq<Byte>
    requires AllAddressable(ps)
  {
    if m.dime then DimeBytes(ps) else []
  }

  function MimeSent(m: Mode, boundary: Text, ps: seq<Part>): seq<Byte> {
    if m.mime && boundary.Text? then MimeBytes(boundary.bytes, ps) else []
  }

  /** What soap_putdime and soap_putmime send. */
  function Attached(m: Mode, dime: seq<Part>, boundary: Text, mime: seq<Part>): seq<Byte>
    requires AllAddressable(dime)
  {
    DimeSent(m, dime) + MimeSent(m, boundary, mime)
  }

  /** soap_end_send puts the attachments that the body refers to first: those that came after the first kept ones. */
  function Reordered(ps: seq<Part>, kept: nat): (r: seq<Part>)
    requires kept <= |ps|
    ensures AllAddressable(ps) ==> AllAddressable(r)
    ensures NamesFit(ps) <==> NamesFit(r)
  {
    assert forall i :: 0 <= i < |ps| ==> ps[i] == (ps[kept..] + ps[..kept])[if i < kept then i + |ps| - kept else i - kept];
    ps[kept..] + ps[..kept]
  }

  lemma {:induction false} CountsJoin(a: seq<Part>, b: seq<Part>)
    requires AllAddressable(a) && AllAddressable(b) && AllAddressable(a + b)
    ensures DimeCounts(a + b) == DimeCounts(a) + DimeCounts(b)
  {
    if a == [] {
      assert a + b == b;
    } else {
      var t := a[1..];
      assert (a + b)[1..] == t + b && (a + b)[0] == a[0];
      CountsJoin(t, b);
    }
  }

  lemma {:induction false} ExcessJoin(a: seq<Part>, b: seq<Part>)
    ensures Excess(a + b) == Excess(a) + Excess(b)
  {
    if a == [] {
      assert a + b == b;
    } else {
      var t := a[1..];
      assert (a + b)[1..] == t + b && (a + b)[0] == a[0];
      ExcessJoin(t, b);
    }
  }

  lemma MimeAgrees(m: Mode, boundary: Text, ps: seq<Part>)
    ensures MimeSize(m, boundary, ps) == |MimeSent(m, boundary, ps)|
  {
    if boundary.Text? {
      MimeCounted(boundary.bytes, ps);
    }
  }

  lemma ReorderedCounted(ps: seq<Part>, kept: nat)
    requires AllAddressable(ps) && kept <= |ps|
    ensures DimeCounts(Reordered(ps, kept)) == DimeCounts(ps) && Excess(Reordered(ps, kept)) == Excess(ps)
  {
    var a, b := ps[..kept], ps[kept..];
    assert ps == a + b;
    CountsJoin(a, b);
    CountsJoin(b, a);
    ExcessJoin(a, b);
    ExcessJoin(b, a);
  }

  function Cuts(m: Mode, ps: seq<Part>): nat {
    if m.dime then Excess(ps) else 0
  }

  /** Counted and sent differ by what is cut, and by multiples of 2^32. */
  lemma TotalsAgree(c: Mode, s: Mode, count: nat, dime: seq<Part>, kept: nat, boundary: Text, mime: seq<Part>) returns (k: nat)
    requires AllAddressable(dime) && kept <= |dime|
    requires (c.dime && !c.mtom <==> s.dime) && (c.mime <==> s.mime)
    ensures Total(c, count, dime, boundary, mime) + WORD * k
            == count + |Attached(s, Reordered(dime, kept), boundary, mime)| + Cuts(s, dime)
  {
    var r := Reordered(dime, kept);
    ReorderedCounted(dime, kept);
    DimeCounted(r);
    MimeAgrees(c, boundary, mime);
    k := if s.dime then AllWraps(r) else 0;
  }

  /** The message is as long as announced if and only if the names cut off amount to a multiple of 2^32 bytes:
      whatever the modes, the attachments, and the order that they are sent in. */
  lemma AnnouncedIffNothingCut(omode: Mode, earlier: Mode, count: nat, dime: seq<Part>, kept: nat, boundary: Text, mime: seq<Part>)
    requires AllAddressable(dime) && kept <= |dime|
    ensures var c := CountingMode(omode, earlier);
            var s := SendingMode(omode, c);
            var sent := Attached(s, Reordered(dime, kept), boundary, mime);
            Announced(c, count, dime, boundary, mime) == (count + |sent|) % WORD <==> Cuts(s, dime) % WORD == 0
  {
    var c := CountingMode(omode, earlier);
    var s := SendingMode(omode, c);
    SameForms(omode, earlier);
    var k := TotalsAgree(c, s, count, dime, kept, boundary, mime);
    var t, e := Total(c, count, dime, boundary, mime), Cuts(s, dime);
    var a := count + |Attached(s, Reordered(dime, kept), boundary, mime)|;
    assert t + WORD * k == a + e;
    Shifted(t, a, e, k);
  }

  lemma Shifted(t: nat, a: nat, e: nat, k: nat)
    requires t + WORD * k == a + e
    ensures t % WORD == a % WORD <==> e % WORD == 0
  {
    Multiples(t, k);
    Multiples(a % WORD + e, a / WORD);
    Multiples(a % WORD + e % WORD, e / WORD);
  }

  lemma Multiples(a: int, k: int)
    ensures (a + WORD * k) % WORD == a % WORD
  {
  }

  /** In particular, names of up to 65536 bytes always agree. */
  lemma AnnouncedWhenNamesFit(omode: Mode, earlier: Mode, count: nat, dime: seq<Part>, kept: nat, boundary: Text, mime: seq<Part>)
    requires AllAddressable(dime) && kept <= |dime| && NamesFit(dime)
    ensures var c := CountingMode(omode, earlier);
            var sent := Attached(SendingMode(omode, c), Reordered(dime, kept), boundary, mime);
            Announced(c, count, dime, boundary, mime) == (count + |sent|) % WORD
  {
    NoExcess(dime);
    NothingCut(SendingMode(omode, CountingMode(omode, earlier)), dime);
    AnnouncedIffNothingCut(omode, earlier, count, dime, kept, boundary, mime);
  }

  lemma NothingCut(m: Mode, dime: seq<Part>)
    requires Excess(dime) == 0
    ensures Cuts(m, dime) % WORD == 0
  {
  }

  /** A longer name makes the announced size too large: here by the four bytes that are cut off. */
  lemma LongNameMiscounted(count: nat, p: Part)
    requires Addressable(p) && p.id.Length() == 0x1_0001 && p.kind.Length() <= 0x1_0000
    ensures Announced(Mode(true, false, false), count, [p], Null, [])
            == (count + |Attached(Mode(true, false, false), [p], Null, [])| + 4) % WORD
  {
    var m := Mode(true, false, false);
    OneRecord(m, count, p);
    FourOver(p.id);
    Wrapped(Total(m, count, [p], Null, []), AllWraps([p]), count + |Attached(m, [p], Null, [])| + 4);
  }

  lemma FourOver(t: Text)
    requires t.Length() == 0x1_0001
    ensures Over(t) == 4
  {
    assert RoundUp(0x1_0001) == 0x1_0004 && RoundUp(MAX_FIELD) == 0x1_0000;
  }

  lemma Wrapped(t: int, k: int, a: int)
    requires t + WORD * k == a
    ensures t % WORD == a % WORD
  {
  }

  lemma OneRecord(m: Mode, count: nat, p: Part)
    requires Addressable(p) && m.dime && !m.mtom && !m.mime
    ensures Total(m, count, [p], Null, []) + WORD * AllWraps([p])
            == count + |Attached(m, [p], Null, [])| + Over(p.id) + Over(p.kind)
  {
    DimeCounted([p]);
    assert [p][1..] == [];
  }
}
