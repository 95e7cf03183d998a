/** Reading DIME records back: what soap_getdime finds is what soap_putdime was given. */
module DimeReading {
  import opened Basics
  import opened Memory
  import opened Attachments

  /** What was read and what is left; Chunked is a record that continues in another one. */
  datatype Got<T> = Got(value: T, rest: seq<Byte>) | Bad | Chunked

  datatype Received = Received(last: bool, options: Text, id: Text, kind: Text, content: Text)

  function AsText(s: seq<Byte>): (t: Text)
    ensures t.Length() == |s|
  {
    if s == [] then Null else Text(s)
  }

  /** soap_getdimefield: nothing at all when the length is 0. */
  function TakeField(n: nat, s: seq<Byte>): (g: Got<Text>)
    ensures g.Got? ==> g.value.Length() == n && |g.rest| <= |s|
    ensures !g.Chunked?
  {
    if n == 0 then Got(Null, s)
    else if |s| < RoundUp(n) then Bad
    else Got(Text(s[..n]), s[RoundUp(n)..])
  }

  function De16(s: seq<Byte>, at: nat): (n: nat)
    requires at + 2 <= |s|
    ensures n <= 0xFFFF
  {
    s[at] as int * 0x100 + s[at + 1] as int
  }

  function De32(s: seq<Byte>, at: nat): (n: nat)
    requires at + 4 <= |s|
    ensures n < WORD
  {
    De16(s, at) * 0x1_0000 + De16(s, at + 2)
  }

  /** The four fields behind a header that starts with first and tells the lengths on, in, kn and cn. */
  function TakeFields(first: Byte, on: nat, idn: nat, kn: nat, cn: nat, s: seq<Byte>): (g: Got<Received>)
    ensures g.Got? ==> |g.rest| <= |s| && g.value.options.Length() == on
  {
    var o := TakeField(on, s);
    if !o.Got? then Bad else
    var i := TakeField(idn, o.rest);
    if !i.Got? then Bad else
    var k := TakeField(kn, i.rest);
    if !k.Got? then Bad else
    if first % 2 == 1 then Chunked else
    var c := TakeField(cn, k.rest);
    if !c.Got? then Bad else Got(Received(first / 2 % 2 == 1, o.value, i.value, k.value, c.value), c.rest)
  }

  /** soap_getdimehdr and the content behind it. */
  function TakeRecord(s: seq<Byte>): (g: Got<Received>)
    ensures g.Got? ==> 12 <= |s| && |g.rest| < |s| && g.value.options.Length() == De16(s, 2)
  {
    if |s| < 12 || s[0] / 8 != 1 then Bad
    else TakeFields(s[0], De16(s, 2), De16(s, 4), De16(s, 6), De32(s, 8), s[12..])
  }

  /** soap_getdime: records up to the one with the message-end flag. */
  function TakeAll(s: seq<Byte>): (g: Got<seq<Received>>)
    decreases |s|
  {
    var r := TakeRecord(s);
    if r.Bad? then Bad
    else if r.Chunked? then Chunked
    else if r.value.last then Got([r.value], r.rest)
    else
      var g := TakeAll(r.rest);
      if g.Got? then Got([r.value] + g.value, g.rest) else g
  }

  /** An attachment as it was given. */
  function Given(p: Part, last: bool): Received
    requires OptionsOk(p.options)
  {
    Received(last, AsText(OptionsSent(p.options)), p.id, p.kind, AsText(p.content))
  }

  function AllGiven(ps: seq<Part>): seq<Received>
    requires AllAddressable(ps)
  {
    if ps == [] then [] else [Given(ps[0], |ps| == 1)] + AllGiven(ps[1..])
  }

  /** A name of length 0 says the same as no name, and a longer one must be told by 16 bits. */
  predicate NameTold(t: Text) {
    t != Text([]) && t.Length() <= MAX_FIELD
  }

  /** Every length of the header tells what it stands for. */
  predicate Tellable(p: Part)
    requires OptionsOk(p.options)
  {
    OptionsLength(p.options) <= MAX_FIELD && NameTold(p.id) && NameTold(p.kind)
  }

  lemma FieldReads(b: seq<Byte>, rest: seq<Byte>)
    ensures TakeField(|b|, Field(b) + rest) == Got(AsText(b), rest)
  {
    var s := Field(b) + rest;
    assert b == [] ==> s == rest;
    assert s[..|b|] == b && s[RoundUp(|b|)..] == rest;
  }

  lemma Be16Reads(a: seq<Byte>, n: nat, b: seq<Byte>)
    ensures De16(a + Be16(n) + b, |a|) == n % 0x1_0000
  {
  }

  lemma HeaderReads(p: Part, last: bool, rest: seq<Byte>)
    requires Addressable(p)
    ensures var s := Header(p, last) + rest;
            && s[0] == First(last) && s[12..] == rest
            && De16(s, 2) == OptionsLength(p.options) % 0x1_0000
            && De16(s, 4) == |Cut(p.id)| && De16(s, 6) == |Cut(p.kind)| && De32(s, 8) == |p.content|
  {
    var h := Header(p, last);
    var o, i, k, c := OptionsLength(p.options), |Cut(p.id)|, |Cut(p.kind)|, |p.content|;
    assert h[2..4] == Be16(o) && h[4..6] == Be16(i) && h[6..8] == Be16(k);
    assert h[8..10] == Be16(c / 0x1_0000) && h[10..12] == Be16(c);
    Be16Reads([], o, []);
    Be16Reads([], i, []);
    Be16Reads([], k, []);
    Be16Reads([], c / 0x1_0000, []);
    Be16Reads([], c, []);
  }

  function Joined(o: seq<Byte>, i: seq<Byte>, k: seq<Byte>, c: seq<Byte>, rest: seq<Byte>): seq<Byte> {
    Field(o) + (Field(i) + (Field(k) + (Field(c) + rest)))
  }

  lemma FieldsRead(last: bool, o: seq<Byte>, i: seq<Byte>, k: seq<Byte>, c: seq<Byte>, rest: seq<Byte>)
    ensures TakeFields(First(last), |o|, |i|, |k|, |c|, Joined(o, i, k, c, rest))
            == Got(Received(last, AsText(o), AsText(i), AsText(k), AsText(c)), rest)
  {
    FieldReads(c, rest);
    FieldReads(k, Field(c) + rest);
    FieldReads(i, Field(k) + (Field(c) + rest));
    FieldReads(o, Field(i) + (Field(k) + (Field(c) + rest)));
  }

  lemma RecordIs(p: Part, last: bool, rest: seq<Byte>)
    requires OptionsOk(p.options)
    ensures Record(p, last) + rest == Header(p, last) + Joined(OptionsSent(p.options), Cut(p.id), Cut(p.kind), p.content, rest)
  {
  }

  lemma HeaderTaken(p: Part, last: bool, on: nat, idn: nat, kn: nat, cn: nat, rest: seq<Byte>)
    requires Addressable(p) && on == OptionsLength(p.options) % 0x1_0000
    requires idn == |Cut(p.id)| && kn == |Cut(p.kind)| && cn == |p.content|
    ensures TakeRecord(Header(p, last) + rest) == TakeFields(First(last), on, idn, kn, cn, rest)
  {
    HeaderReads(p, last, rest);
  }

  /** With options that the header can tell, the reader gets everything but the ends of names that were cut. */
  lemma RecordReads(p: Part, last: bool, rest: seq<Byte>)
    requires Addressable(p) && OptionsLength(p.options) <= MAX_FIELD
    ensures TakeRecord(Record(p, last) + rest)
            == Got(Received(last, AsText(OptionsSent(p.options)), AsText(Cut(p.id)), AsText(Cut(p.kind)), AsText(p.content)), rest)
  {
    var o, i, k, c := OptionsSent(p.options), Cut(p.id), Cut(p.kind), p.content;
    RecordIs(p, last, rest);
    HeaderTaken(p, last, |o|, |i|, |k|, |c|, Joined(o, i, k, c, rest));
    FieldsRead(last, o, i, k, c, rest);
  }

  /** One record comes back as given if and only if the header can tell its lengths. */
  lemma RecordReadsIff(p: Part, last: bool, rest: seq<Byte>)
    requires Addressable(p)
    ensures Tellable(p) ==> TakeRecord(Record(p, last) + rest) == Got(Given(p, last), rest)
    ensures !Tellable(p) ==> !ReadAs(TakeRecord(Record(p, last) + rest), Given(p, last))
  {
    if OptionsLength(p.options) <= MAX_FIELD {
      RecordReads(p, last, rest);
    } else {
      RecordIs(p, last, rest);
      HeaderTaken(p, last, OptionsLength(p.options) % 0x1_0000, |Cut(p.id)|, |Cut(p.kind)|, |p.content|,
                  Joined(OptionsSent(p.options), Cut(p.id), Cut(p.kind), p.content, rest));
    }
  }

  predicate ReadAs(g: Got<Received>, r: Received) {
    g.Got? && g.value == r
  }

  predicate AllTellable(ps: seq<Part>)
    requires AllAddressable(ps)
  {
    forall i :: 0 <= i < |ps| ==> Tellable(ps[i])
  }

  predicate AllReadAs(g: Got<seq<Received>>, rs: seq<Received>) {
    g.Got? && g.value == rs
  }

  lemma ReadOne(s: seq<Byte>, r: Received, gs: seq<Received>, rest: seq<Byte>, tail: seq<Byte>)
    requires r.last ==> gs == [] && rest == tail
    ensures TakeRecord(s) == Got(r, tail) && (r.last || TakeAll(tail) == Got(gs, rest)) ==> TakeAll(s) == Got([r] + gs, rest)
    ensures TakeRecord(s) == Got(r, tail) && !r.last && !AllReadAs(TakeAll(tail), gs) ==> !AllReadAs(TakeAll(s), [r] + gs)
    ensures !ReadAs(TakeRecord(s), r) ==> !AllReadAs(TakeAll(s), [r] + gs)
  {
    assert gs == [] ==> [r] + gs == [r];
    if TakeAll(s).Got? {
      assert TakeAll(s).value[1..] == if TakeRecord(s).value.last then [] else TakeAll(TakeRecord(s).rest).value;
      assert ([r] + gs)[1..] == gs;
      assert TakeAll(s).value[0] == TakeRecord(s).value;
    }
  }

  lemma TellableSplit(ps: seq<Part>)
    requires ps != [] && AllAddressable(ps)
    ensures AllTellable(ps) <==> Tellable(ps[0]) && AllTellable(ps[1..])
  {
    assert ps == [ps[0]] + ps[1..];
  }

  lemma DimeSplit(ps: seq<Part>, rest: seq<Byte>)
    requires ps != [] && AllAddressable(ps)
    ensures DimeBytes(ps) + rest == Record(ps[0], |ps| == 1) + (DimeBytes(ps[1..]) + rest)
  {
    Associate(Record(ps[0], |ps| == 1), DimeBytes(ps[1..]), rest);
  }

  /** A message's attachments come back as given, and reading stops behind them, if and only if the headers
      can tell every length. */
  lemma {:induction false} DimeReadsIff(ps: seq<Part>, rest: seq<Byte>)
    requires ps != [] && AllAddressable(ps)
    ensures AllTellable(ps) ==> TakeAll(DimeBytes(ps) + rest) == Got(AllGiven(ps), rest)
    ensures !AllTellable(ps) ==> !AllReadAs(TakeAll(DimeBytes(ps) + rest), AllGiven(ps))
  {
    var last, tail := |ps| == 1, DimeBytes(ps[1..]) + rest;
    DimeSplit(ps, rest);
    RecordReadsIff(ps[0], last, tail);
    ReadOne(DimeBytes(ps) + rest, Given(ps[0], last), AllGiven(ps[1..]), rest, tail);
    TellableSplit(ps);
    if !last {
      DimeReadsIff(ps[1..], rest);
    }
  }

  /** An id of 65536 bytes comes back one byte short. */
  lemma LongIdCut(rest: seq<Byte>)
    ensures var p := Part([], Text(seq(0x1_0000, _ => 97)), Null, Null, Unstated, Null, Null);
            var g := TakeRecord(Record(p, true) + rest);
            Addressable(p) && g.Got? && g.value.id.Length() == 0xFFFF && g.value != Given(p, true)
  {
    var p := Part([], Text(seq(0x1_0000, _ => 97)), Null, Null, Unstated, Null, Null);
    RecordReads(p, true, rest);
  }

  /** An empty id comes back as none. */
  lemma EmptyIdLost(rest: seq<Byte>)
    ensures var p := Part([], Text([]), Null, Null, Unstated, Null, Null);
            var g := TakeRecord(Record(p, true) + rest);
            Addressable(p) && g.Got? && g.value.id == Null && g.value != Given(p, true)
  {
    var p := Part([], Text([]), Null, Null, Unstated, Null, Null);
    RecordReads(p, true, rest);
  }
}
