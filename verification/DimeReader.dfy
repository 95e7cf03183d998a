/** soap_getdime over the bytes of a connection. */
module DimeReader {
  import opened Memory
  import opened Attachments
  import opened DimeReading
  import Out = ChunkSender
  import AttachmentsCode

  /** SOAP_OK, SOAP_EOF, SOAP_DIME_MISMATCH, SOAP_DIME_END; Continued: the record goes on in another one. */
  datatype Status = Fine | Eof | Mismatch | End | Continued

  class Reader {
    const input: seq<Byte>
    var pos: nat
    /** SOAP_ENC_DIME */
    var dime: bool
    var flags: nat
    var size: nat
    var options: Text
    var id: Text
    var kind: Text

    constructor (input: seq<Byte>)
      ensures Valid() && dime && Rest() == input
    {
      this.input, pos, dime := input, 0, true;
      flags, size, options, id, kind := 0, 0, Null, Null, Null;
    }

    ghost predicate Valid()
      reads this
    {
      pos <= |input|
    }

    ghost function Rest(): seq<Byte>
      requires Valid()
      reads this
    {
      input[pos..]
    }

    /** n bytes; p is cut short at the end of the input. */
    method GetBytes(n: nat) returns (ok: bool, p: array<Byte>)
      requires Valid()
      modifies this`pos
      ensures Valid() && ok == (n <= |old(Rest())|)
      ensures ok ==> p[..] == old(Rest())[..n] && Rest() == old(Rest())[n..]
    {
      ghost var s := Rest();
      p := new Byte[n];
      ok := true;
      var i := 0;
      while i < n
        invariant 0 <= i <= n && i <= |s| && Valid() && Rest() == s[i..] && p[..i] == s[..i]
      {
        assert |Rest()| == |s| - i;
        if pos == |input| {
          return false, p;
        }
        p[i] := input[pos];
        pos := pos + 1;
        i := i + 1;
      }
      assert p[..] == p[..n];
    }

    /** soap_move */
    method Move(n: nat) returns (ok: bool)
      requires Valid()
      modifies this`pos
      ensures Valid() && ok == (n <= |old(Rest())|)
      ensures ok ==> Rest() == old(Rest())[n..]
    {
      ghost var s := Rest();
      var k := n;
      while k > 0
        invariant Valid() && 0 <= k <= n && n - k <= |s| && Rest() == s[n - k..]
      {
        assert |Rest()| == |s| - (n - k);
        if pos == |input| {
          return false;
        }
        pos := pos + 1;
        k := k - 1;
      }
      ok := true;
    }

    /** soap_getdimefield */
    method GetField(n: nat) returns (ok: bool, t: Text)
      requires Valid()
      modifies this`pos
      ensures Valid() && ok == TakeField(n, old(Rest())).Got?
      ensures ok ==> Got(t, Rest()) == TakeField(n, old(Rest()))
    {
      ok, t := true, Null;
      if n == 0 {
        return;
      }
      ghost var s := Rest();
      var p;
      ok, p := GetBytes(n);
      if !ok {
        return;
      }
      t := Text(p[..]);
      var k := (4 - n % 4) % 4;
      ok := Move(k);
      assert n + k == RoundUp(n);
      assert ok ==> s[n..][k..] == s[n + k..];
    }

    /** soap_getdimehdr: the flags, the size and the three fields of the next record. */
    method GetHeader() returns (st: Status)
      requires Valid()
      modifies this
      ensures Valid() && st != Continued
      ensures !old(dime) <==> st == End
      ensures !old(dime) ==> Rest() == old(Rest()) && !dime
      ensures st == Fine <==> old(dime) && TakeHeader(old(Rest())).Got?
      ensures st == Fine ==> TakeHeader(old(Rest())) == Got(Head(flags, size, options, id, kind), Rest())
      ensures st == Fine ==> dime == (flags / 2 % 2 == 0)
    {
      if !dime {
        return End;
      }
      st := GetLengths();
      if st == Fine && flags / 2 % 2 == 1 {
        dime := false;
      }
    }

    /** The twelve bytes and the fields that they tell of. */
    method GetLengths() returns (st: Status)
      requires Valid()
      modifies this`pos, this`flags, this`size, this`options, this`id, this`kind
      ensures Valid() && st != Continued && st != End
      ensures st == Fine <==> TakeHeader(old(Rest())).Got?
      ensures st == Fine ==> TakeHeader(old(Rest())) == Got(Head(flags, size, options, id, kind), Rest())
    {
      ghost var s := Rest();
      if |input| - pos < 12 {
        return Eof;
      }
      var tmp := input[pos..pos + 12];
      pos := pos + 12;
      assert tmp == s[..12] && Rest() == s[12..];
      if tmp[0] / 8 != 1 {
        return Mismatch;
      }
      flags := tmp[0] as int % 8 + tmp[1] as int / 16 * 16;
      size := De32(tmp, 8);
      var ok := GetNames(De16(tmp, 2), De16(tmp, 4), De16(tmp, 6));
      st := if ok then Fine else Eof;
    }

    /** The three fields behind the lengths. */
    method GetNames(on: nat, idn: nat, kn: nat) returns (ok: bool)
      requires Valid()
      modifies this`pos, this`options, this`id, this`kind
      ensures Valid() && ok == TakeNames(on, idn, kn, old(Rest())).Got?
      ensures ok ==> TakeNames(on, idn, kn, old(Rest())) == Got((options, id, kind), Rest())
    {
      ok, options := GetField(on);
      if ok {
        ok, id := GetField(idn);
        if ok {
          ok, kind := GetField(kn);
        }
      }
    }

    /** The loop of soap_getdime behind the record of the envelope. */
    method GetDime() returns (st: Status, rs: seq<Received>)
      requires Valid() && dime
      modifies this
      ensures Valid()
      ensures st == Fine <==> TakeAll(old(Rest())).Got?
      ensures st == Fine ==> TakeAll(old(Rest())) == Got(rs, Rest())
    {
      ghost var start := Rest();
      rs := [];
      ContinuesStart(TakeAll(start));
      while true
        invariant Valid()
        invariant if dime then Continues(TakeAll(start), rs, TakeAll(Rest())) else TakeAll(start) == Got(rs, Rest())
        decreases dime, |input| - pos
      {
        ghost var s := Rest();
        st := GetHeader();
        if st == End {
          return Fine, rs;
        }
        HeaderThenRecord(s);
        if st != Fine {
          return;
        }
        if flags % 2 == 1 {
          return Continued, rs;
        }
        var ok, content := GetField(size);
        if !ok {
          return Eof, rs;
        }
        ContinuesNext(TakeAll(start), rs, s);
        rs := rs + [Received(!dime, options, id, kind, content)];
      }
    }
  }

  datatype Head = Head(flags: nat, size: nat, options: Text, id: Text, kind: Text)

  function TakeNames(on: nat, idn: nat, kn: nat, s: seq<Byte>): (g: Got<(Text, Text, Text)>)
    ensures g.Got? ==> |g.rest| <= |s|
    ensures !g.Chunked?
  {
    var o := TakeField(on, s);
    if !o.Got? then Bad else
    var i := TakeField(idn, o.rest);
    if !i.Got? then Bad else
    var k := TakeField(kn, i.rest);
    if !k.Got? then Bad else Got((o.value, i.value, k.value), k.rest)
  }

  /** What soap_getdimehdr takes. */
  function TakeHeader(s: seq<Byte>): (g: Got<Head>)
    ensures g.Got? ==> |g.rest| < |s|
    ensures !g.Chunked?
  {
    if |s| < 12 || s[0] / 8 != 1 then Bad else HeadOf(s[..12], s[12..])
  }

  /** The rest of the header whose first twelve bytes are tmp. */
  function HeadOf(tmp: seq<Byte>, r: seq<Byte>): (g: Got<Head>)
    requires |tmp| == 12
    ensures g.Got? ==> |g.rest| <= |r|
    ensures !g.Chunked?
  {
    var n := TakeNames(De16(tmp, 2), De16(tmp, 4), De16(tmp, 6), r);
    if !n.Got? then Bad else Got(Head(FlagsOf(tmp), De32(tmp, 8), n.value.0, n.value.1, n.value.2), n.rest)
  }

  function FlagsOf(tmp: seq<Byte>): nat
    requires |tmp| >= 2
  {
    tmp[0] as int % 8 + tmp[1] as int / 16 * 16
  }

  /** A record is a header and, if it stands alone, a field of the size that the header tells. */
  function WithContent(h: Head, r: seq<Byte>): Got<Received> {
    if h.flags % 2 == 1 then Chunked else
    var c := TakeField(h.size, r);
    if c.Got? then Got(Received(h.flags / 2 % 2 == 1, h.options, h.id, h.kind, c.value), c.rest) else Bad
  }

  lemma HeaderThenRecord(s: seq<Byte>)
    ensures TakeRecord(s) == if TakeHeader(s).Got? then WithContent(TakeHeader(s).value, TakeHeader(s).rest) else Bad
  {
    if |s| >= 12 {
      Flags(s[0], s[1]);
      var tmp := s[..12];
      assert De16(tmp, 2) == De16(s, 2) && De16(tmp, 4) == De16(s, 4) && De16(tmp, 6) == De16(s, 6) && De32(tmp, 8) == De32(s, 8);
    }
  }

  lemma Flags(a: Byte, b: Byte)
    ensures (a as int % 8 + b as int / 16 * 16) % 2 == a % 2
    ensures (a as int % 8 + b as int / 16 * 16) / 2 % 2 == a / 2 % 2
  {
  }

  /** The records read so far, followed by those that the rest yields. */
  predicate Continues(all: Got<seq<Received>>, rs: seq<Received>, g: Got<seq<Received>>) {
    if g.Got? then all == Got(rs + g.value, g.rest) else !all.Got?
  }

  lemma ContinuesStart(all: Got<seq<Received>>)
    ensures Continues(all, [], all)
  {
    assert all.Got? ==> [] + all.value == all.value;
  }

  lemma ContinuesNext(all: Got<seq<Received>>, rs: seq<Received>, s: seq<Byte>)
    requires Continues(all, rs, TakeAll(s)) && TakeRecord(s).Got?
    ensures var r := TakeRecord(s);
            if r.value.last then all == Got(rs + [r.value], r.rest) else Continues(all, rs + [r.value], TakeAll(r.rest))
  {
    var r := TakeRecord(s);
    if !r.value.last && TakeAll(r.rest).Got? {
      var v := TakeAll(r.rest).value;
      assert rs + ([r.value] + v) == rs + [r.value] + v;
    }
  }

  /** The attachments go out in one message and come back as they were given, if and only if the 16-bit
      lengths of the headers can tell how long their names and options are. */
  method PutThenGet(ps: seq<Part>) returns (st: Status, rs: seq<Received>)
    requires ps != [] && AllAddressable(ps)
    ensures st == Fine && rs == AllGiven(ps) <==> AllTellable(ps)
  {
    var out := new Out.Sender(0x1_0000, Out.Buffer, false);
    assert out.Sent() == [];
    AttachmentsCode.PutDime(out, Mode(true, false, false), ps);
    assert [] + DimeBytes(ps) == DimeBytes(ps) + [];
    out.EndSend();
    DimeReadsIff(ps, []);
    var reader := new Reader(out.wire);
    st, rs := reader.GetDime();
  }
}
