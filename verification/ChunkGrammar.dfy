/** The chunked transfer coding by the grammar of section 4.1 of RFC 7230, and when the sender keeps to it. */
module ChunkGrammar {
  import opened Basics
  import opened Memory
  import opened ChunkFormat
  import opened ChunkSender

  // ---------- the grammar ----------

  /** chunk-size, chunk-ext and chunk-data. */
  datatype RfcChunk = RfcChunk(size: seq<Byte>, ext: seq<Byte>, data: seq<Byte>)

  const SEMICOLON: Byte := 59

  predicate OneLine(s: seq<Byte>) {
    forall i :: 0 <= i < |s| ==> s[i] != CR && s[i] != LF
  }

  /** chunk-size = 1*HEXDIG, the length of the data; chunk-ext is empty or a ';' and what else is on the line. */
  predicate ChunkOk(c: RfcChunk) {
    && c.size != [] && AllHex(c.size) && HexValue(c.size) == |c.data|
    && (c.ext != [] ==> c.ext[0] == SEMICOLON && OneLine(c.ext))
  }

  predicate ChunksOk(cs: seq<RfcChunk>) {
    forall i :: 0 <= i < |cs| ==> ChunkOk(cs[i]) && cs[i].data != []
  }

  /** header-field: one line, not an empty one. */
  predicate TrailerOk(fields: seq<seq<Byte>>) {
    forall i :: 0 <= i < |fields| ==> fields[i] != [] && OneLine(fields[i])
  }

  function SizePart(c: RfcChunk): seq<Byte> {
    c.size + (c.ext + CRLF)
  }

  /** trailer-part = *( header-field CRLF ) */
  function Trailer(fields: seq<seq<Byte>>): seq<Byte> {
    if fields == [] then [] else fields[0] + CRLF + Trailer(fields[1..])
  }

  /** chunked-body = *chunk last-chunk trailer-part CRLF */
  function Coded(cs: seq<RfcChunk>, last: RfcChunk, fields: seq<seq<Byte>>): (s: seq<Byte>) {
    if cs == [] then SizePart(last) + (Trailer(fields) + CRLF)
    else SizePart(cs[0]) + (cs[0].data + (CRLF + Coded(cs[1..], last, fields)))
  }

  function DataOf(cs: seq<RfcChunk>): seq<Byte> {
    if cs == [] then [] else cs[0].data + DataOf(cs[1..])
  }

  ghost predicate CodedAs(s: seq<Byte>, body: seq<Byte>, cs: seq<RfcChunk>, last: RfcChunk, fields: seq<seq<Byte>>) {
    ChunksOk(cs) && ChunkOk(last) && last.data == [] && TrailerOk(fields) && s == Coded(cs, last, fields) && body == DataOf(cs)
  }

  /** s is a chunked-body that carries body. */
  ghost predicate Carries(s: seq<Byte>, body: seq<Byte>) {
    exists cs, last, fields :: CodedAs(s, body, cs, last, fields)
  }

  ghost predicate IsChunkedBody(s: seq<Byte>) {
    exists body :: Carries(s, body)
  }

  // ---------- reading it is deterministic ----------

  lemma HexPrefix(a: seq<Byte>, x: seq<Byte>, b: seq<Byte>, y: seq<Byte>)
    requires AllHex(a) && AllHex(b) && x != [] && y != [] && !IsHex(x[0]) && !IsHex(y[0])
    requires a + x == b + y
    ensures a == b && x == y
  {
    var s := a + x;
    assert s[|a|] == x[0] && s[|b|] == y[0];
    assert forall i :: 0 <= i < |a| ==> s[i] == a[i];
    assert forall i :: 0 <= i < |b| ==> s[i] == (b + y)[i] == b[i];
    assert s[..|a|] == a && s[|a|..] == x;
    assert s[..|b|] == b && s[|b|..] == y;
  }

  /** What stands behind the digits of a size line. */
  lemma BehindSize(c: RfcChunk, rest: seq<Byte>)
    requires ChunkOk(c)
    ensures SizePart(c) + rest == c.size + (c.ext + CRLF + rest)
    ensures !IsHex((c.ext + CRLF + rest)[0])
    ensures (c.ext + CRLF + rest)[0] == CR <==> c.ext == []
  {
    assert c.ext != [] ==> (c.ext + CRLF + rest)[0] == c.ext[0];
  }

  /** A size line without an extension is read in one way only. */
  lemma OnlySize(n: nat, w: seq<Byte>, c: RfcChunk, rest: seq<Byte>)
    requires ChunkOk(c) && Hex(n) + (CRLF + w) == SizePart(c) + rest
    ensures c.size == Hex(n) && c.ext == [] && |c.data| == n && w == rest
  {
    BehindSize(c, rest);
    HexPrefix(Hex(n), CRLF + w, c.size, c.ext + CRLF + rest);
    HexInverse(n);
    assert (CRLF + w)[0] == CR;
    assert c.ext + CRLF + rest == CRLF + rest;
    assert (CRLF + w)[2..] == w && (CRLF + rest)[2..] == rest;
  }

  /** The first size line decides whether there is a chunk at all. */
  lemma FirstSize(n: nat, w: seq<Byte>, body: seq<Byte>, cs: seq<RfcChunk>, last: RfcChunk, fields: seq<seq<Byte>>)
    requires CodedAs(Hex(n) + (CRLF + w), body, cs, last, fields)
    ensures cs == [] <==> n == 0
    ensures cs != [] ==> |cs[0].data| == n && w == cs[0].data + (CRLF + Coded(cs[1..], last, fields))
  {
    var c := if cs == [] then last else cs[0];
    var rest := if cs == [] then Trailer(fields) + CRLF else cs[0].data + (CRLF + Coded(cs[1..], last, fields));
    OnlySize(n, w, c, rest);
  }

  lemma SameLengths(p: seq<Byte>, w: seq<Byte>, d: seq<Byte>, x: seq<Byte>)
    requires p + w == d + x && |p| == |d|
    ensures p == d && w == x
  {
    assert (p + w)[..|p|] == p && (d + x)[..|d|] == d;
    assert (p + w)[|p|..] == w && (d + x)[|d|..] == x;
  }

  /** The first chunk taken off: what follows its data must be CRLF and a chunked-body again. */
  lemma ChunkPeels(p: seq<Byte>, w: seq<Byte>, body: seq<Byte>)
    requires p != [] && Carries(Hex(|p|) + (CRLF + (p + w)), body)
    ensures |w| >= 2 && w[..2] == CRLF && p <= body && Carries(w[2..], body[|p|..])
  {
    var cs: seq<RfcChunk>, last: RfcChunk, fields: seq<seq<Byte>> :| CodedAs(Hex(|p|) + (CRLF + (p + w)), body, cs, last, fields);
    FirstSize(|p|, p + w, body, cs, last, fields);
    SameLengths(p, w, cs[0].data, CRLF + Coded(cs[1..], last, fields));
    TailCarries(cs, last, fields);
    Dropped(CRLF, Coded(cs[1..], last, fields));
    Dropped(p, DataOf(cs[1..]));
  }

  lemma Dropped(a: seq<Byte>, b: seq<Byte>)
    ensures (a + b)[..|a|] == a && (a + b)[|a|..] == b && a <= a + b
  {
  }

  lemma TailCarries(cs: seq<RfcChunk>, last: RfcChunk, fields: seq<seq<Byte>>)
    requires cs != [] && ChunksOk(cs) && ChunkOk(last) && last.data == [] && TrailerOk(fields)
    ensures Carries(Coded(cs[1..], last, fields), DataOf(cs[1..]))
    ensures DataOf(cs) == cs[0].data + DataOf(cs[1..])
  {
    assert CodedAs(Coded(cs[1..], last, fields), DataOf(cs[1..]), cs[1..], last, fields);
  }

  lemma CodedPush(p: seq<Byte>, cs: seq<RfcChunk>, last: RfcChunk, fields: seq<seq<Byte>>)
    requires p != [] && ChunksOk(cs)
    ensures var ds := [RfcChunk(Hex(|p|), [], p)] + cs;
            ChunksOk(ds) && DataOf(ds) == p + DataOf(cs)
            && Coded(ds, last, fields) == Hex(|p|) + (CRLF + (p + (CRLF + Coded(cs, last, fields))))
  {
    var c := RfcChunk(Hex(|p|), [], p);
    var ds := [c] + cs;
    HexInverse(|p|);
    assert ds[0] == c && ds[1..] == cs;
    assert c.ext + CRLF == CRLF;
    var rest := p + (CRLF + Coded(cs, last, fields));
    assert Coded(ds, last, fields) == Hex(|p|) + CRLF + rest;
    Associate(Hex(|p|), CRLF, rest);
  }

  /** And a chunk in front of a chunked-body makes one. */
  lemma ChunkJoins(p: seq<Byte>, tail: seq<Byte>, body: seq<Byte>)
    requires p != [] && Carries(tail, body)
    ensures Carries(Hex(|p|) + (CRLF + (p + (CRLF + tail))), p + body)
  {
    var cs: seq<RfcChunk>, last: RfcChunk, fields: seq<seq<Byte>> :| CodedAs(tail, body, cs, last, fields);
    CodedPush(p, cs, last, fields);
    assert CodedAs(Hex(|p|) + (CRLF + (p + (CRLF + tail))), p + body, [RfcChunk(Hex(|p|), [], p)] + cs, last, fields);
  }

  /** A chunked-body starts with a digit. */
  lemma StartsWithDigit(s: seq<Byte>, body: seq<Byte>)
    requires Carries(s, body)
    ensures s != [] && IsHex(s[0])
  {
    var cs: seq<RfcChunk>, last: RfcChunk, fields: seq<seq<Byte>> :| CodedAs(s, body, cs, last, fields);
    var c := if cs == [] then last else cs[0];
    assert c.size <= s;
    assert s[0] == c.size[0];
  }

  const ZERO: seq<Byte> := [48] + CRLF + CRLF

  /** The end marker behind its first CRLF is a chunked-body without chunks. */
  lemma EndCarriesNothing(body: seq<Byte>)
    ensures Carries(ZERO, body) <==> body == []
    ensures END == CRLF + ZERO
  {
    var last := RfcChunk([48], [], []);
    assert HexValue([48]) == 0 by {
      assert Hex(0) == [48];
      HexInverse(0);
    }
    assert CodedAs(ZERO, [], [], last, []) by {
      assert [] + CRLF == CRLF;
      assert SizePart(last) + (Trailer([]) + CRLF) == ZERO;
    }
    if Carries(ZERO, body) {
      var cs: seq<RfcChunk>, l: RfcChunk, fields: seq<seq<Byte>> :| CodedAs(ZERO, body, cs, l, fields);
      assert Hex(0) + (CRLF + CRLF) == ZERO;
      FirstSize(0, CRLF, body, cs, l, fields);
    }
  }

  // ---------- what the sender writes ----------

  /** The bytes from the piece ps[0] on, after total bytes; without the CRLF in front of its size line. */
  function Onward(ps: seq<seq<Byte>>, total: nat): seq<Byte>
    requires ps != []
    decreases |ps|, 0
  {
    Hex(|ps[0]|) + (CRLF + (ps[0] + Rest(ps[1..], total + |ps[0]|)))
  }

  /** The bytes behind total bytes of body: the CRLF of the chunk before is there unless the total is zero in 32 bits. */
  function Rest(ps: seq<seq<Byte>>, total: nat): seq<Byte>
    decreases |ps|, 1
  {
    if ps == [] then END else (if total % WORD == 0 then [] else CRLF) + Onward(ps, total)
  }

  /** No total in front of a later piece is zero in 32 bits. */
  predicate StaysOn(ps: seq<seq<Byte>>, total: nat)
    requires ps != []
  {
    |ps| > 1 ==> (total + |ps[0]|) % WORD != 0 && StaysOn(ps[1..], total + |ps[0]|)
  }

  predicate NoneEmpty(ps: seq<seq<Byte>>) {
    forall i :: 0 <= i < |ps| ==> ps[i] != []
  }

  function Concat(ps: seq<seq<Byte>>): seq<Byte> {
    if ps == [] then [] else ps[0] + Concat(ps[1..])
  }

  lemma {:induction false} OnwardCarries(ps: seq<seq<Byte>>, total: nat, body: seq<Byte>)
    requires ps != [] && NoneEmpty(ps)
    ensures Carries(Onward(ps, total), body) <==> StaysOn(ps, total) && body == Concat(ps)
  {
    var p, qs, n := ps[0], ps[1..], total + |ps[0]|;
    var w := Rest(qs, n);
    if qs == [] {
      LastCarries(p, body);
    } else {
      if Carries(Onward(ps, total), body) {
        ChunkPeels(p, w, body);
        AfterChunk(qs, n);
        OnwardCarries(qs, n, body[|p|..]);
        assert body == p + body[|p|..];
      }
      if StaysOn(ps, total) {
        OnwardCarries(qs, n, Concat(qs));
        ChunkJoins(p, Onward(qs, n), Concat(qs));
      }
    }
  }

  lemma LastCarries(p: seq<Byte>, body: seq<Byte>)
    requires p != []
    ensures Carries(Hex(|p|) + (CRLF + (p + END)), body) <==> body == p
  {
    LastMakes(p);
    if Carries(Hex(|p|) + (CRLF + (p + END)), body) {
      ChunkPeels(p, END, body);
      LastReads(p, body);
    }
  }

  lemma LastMakes(p: seq<Byte>)
    requires p != []
    ensures Carries(Hex(|p|) + (CRLF + (p + END)), p)
  {
    EndCarriesNothing([]);
    ChunkJoins(p, ZERO, []);
    assert p + [] == p;
  }

  lemma LastReads(p: seq<Byte>, body: seq<Byte>)
    requires p <= body && Carries(END[2..], body[|p|..])
    ensures body == p
  {
    EndCarriesNothing(body[|p|..]);
    Dropped(CRLF, ZERO);
  }

  /** Where the CRLF is left out, a digit stands in its place. */
  lemma AfterChunk(ps: seq<seq<Byte>>, total: nat)
    requires ps != []
    ensures var w := Rest(ps, total);
            |w| >= 2 && w[..2] == CRLF ==> total % WORD != 0 && w[2..] == Onward(ps, total)
  {
    var o, w := Onward(ps, total), Rest(ps, total);
    assert o[0] == Hex(|ps[0]|)[0];
    assert total % WORD == 0 ==> w == [] + o == o;
    assert |w| >= 2 && w[..2] == CRLF ==> w[0] == CR;
    Dropped(CRLF, o);
  }

  /** The pieces done and the rest, from the front. */
  lemma {:induction false} ChunksOnward(ps: seq<seq<Byte>>, k: nat)
    requires k <= |ps|
    ensures Chunks(ps[..k]) + Rest(ps[k..], |Join(ps[..k])|) == Chunks(ps) + END
    decreases |ps| - k
  {
    if k == |ps| {
      assert ps[..k] == ps;
    } else {
      var q, p, n := ps[..k], ps[k], |Join(ps[..k])|;
      assert ps[..k + 1] == q + [p] && ps[k..][1..] == ps[k + 1..];
      ChunksPush(q, p);
      JoinPush(q, p);
      ChunksOnward(ps, k + 1);
      PieceMoves(Chunks(q), if n % WORD == 0 then [] else CRLF, Hex(|p|), p, Rest(ps[k + 1..], n + |p|));
    }
  }

  lemma PieceMoves(done: seq<Byte>, lead: seq<Byte>, h: seq<Byte>, p: seq<Byte>, w: seq<Byte>)
    ensures done + (lead + h + CRLF) + p + w == done + (lead + (h + (CRLF + (p + w))))
  {
  }

  lemma {:induction false} ConcatJoin(ps: seq<seq<Byte>>)
    ensures Concat(ps) == Join(ps)
  {
    if ps != [] {
      var q, p := ps[..|ps| - 1], ps[|ps| - 1];
      ConcatJoin(q);
      ConcatPush(q, p);
      assert ps == q + [p];
    }
  }

  lemma {:induction false} ConcatPush(ps: seq<seq<Byte>>, p: seq<Byte>)
    ensures Concat(ps + [p]) == Concat(ps) + p
  {
    if ps == [] {
      assert [p][1..] == [] && p + [] == p;
    } else {
      ConcatPush(ps[1..], p);
      assert (ps + [p])[1..] == ps[1..] + [p];
      Associate(ps[0], Concat(ps[1..]), p);
    }
  }

  /** No proper part of the pieces adds up to a multiple of 2 to the power 32. */
  ghost predicate NeverWraps(ps: seq<seq<Byte>>) {
    forall k :: 0 < k < |ps| ==> |Join(ps[..k])| % WORD != 0
  }

  lemma {:induction false} StaysOnIs(ps: seq<seq<Byte>>, k: nat)
    requires k < |ps|
    ensures StaysOn(ps[k..], |Join(ps[..k])|) <==> forall i :: k < i < |ps| ==> |Join(ps[..i])| % WORD != 0
    decreases |ps| - k
  {
    assert ps[..k + 1] == ps[..k] + [ps[k]] && ps[k..][1..] == ps[k + 1..];
    JoinPush(ps[..k], ps[k]);
    if k + 1 < |ps| {
      StaysOnIs(ps, k + 1);
    }
  }

  /** What goes out is a chunked-body, and then one that carries what was sent, if and only if something was sent
      and the 32-bit chunk total does not come back to zero between two chunks. */
  lemma ConformsIffNeverWraps(ps: seq<seq<Byte>>, body: seq<Byte>)
    requires NoneEmpty(ps)
    ensures Carries(Chunks(ps) + END, body) <==> ps != [] && NeverWraps(ps) && body == Join(ps)
    ensures ps == [] || !NeverWraps(ps) ==> !IsChunkedBody(Chunks(ps) + END)
  {
    forall b: seq<Byte>
      ensures Carries(Chunks(ps) + END, b) <==> ps != [] && NeverWraps(ps) && b == Join(ps)
    {
      WireCarries(ps, b);
    }
  }

  lemma WireCarries(ps: seq<seq<Byte>>, body: seq<Byte>)
    requires NoneEmpty(ps)
    ensures Carries(Chunks(ps) + END, body) <==> ps != [] && NeverWraps(ps) && body == Join(ps)
  {
    if ps == [] {
      assert Chunks(ps) + END == END;
      if Carries(END, body) {
        StartsWithDigit(END, body);
      }
    } else {
      assert ps[..0] == [] && ps[0..] == ps;
      ChunksOnward(ps, 0);
      assert Chunks(ps) + END == Onward(ps, 0);
      OnwardCarries(ps, 0, body);
      ConcatJoin(ps);
      StaysOnIs(ps, 0);
    }
  }

  lemma {:induction false} JoinRepeat(p: seq<Byte>, n: nat)
    ensures |Join(seq(n, _ => p))| == n * |p|
  {
    if n > 0 {
      var ps := seq(n, _ => p);
      assert ps[..n - 1] == seq(n - 1, _ => p);
      JoinRepeat(p, n - 1);
    }
  }

  /** After 65536 full buffers of 65536 bytes the next size line lacks its CRLF, and what goes out is no chunked-body. */
  lemma FourGigabytesBreakFraming(p: seq<Byte>)
    requires |p| == 0x1_0000
    ensures !IsChunkedBody(Chunks(seq(0x1_0001, _ => p)) + END)
  {
    var ps := seq(0x1_0001, _ => p);
    assert ps[..0x1_0000] == seq(0x1_0000, _ => p);
    JoinRepeat(p, 0x1_0000);
    ConformsIffNeverWraps(ps, []);
  }

  lemma {:induction false} PrefixShorter(ps: seq<seq<Byte>>, k: nat)
    requires NoneEmpty(ps) && 0 < k < |ps|
    ensures 0 < |Join(ps[..k])| < |Join(ps)|
    decreases |ps|
  {
    var q := ps[..|ps| - 1];
    if k < |q| {
      PrefixShorter(q, k);
      assert q[..k] == ps[..k];
    } else {
      assert ps[..k] == q && |Join(q)| == |Join(q[..|q| - 1])| + |q[|q| - 1]|;
    }
  }

  lemma ShortNeverWraps(ps: seq<seq<Byte>>)
    requires NoneEmpty(ps) && |Join(ps)| <= WORD
    ensures NeverWraps(ps)
  {
    forall k | 0 < k < |ps|
      ensures |Join(ps[..k])| % WORD != 0
    {
      PrefixShorter(ps, k);
      Small(|Join(ps[..k])|);
    }
  }

  lemma Small(n: nat)
    requires 0 < n < WORD
    ensures n % WORD != 0
  {
  }

  lemma PiecesConform(ps: seq<seq<Byte>>, size: nat)
    requires PiecesOk(ps, size)
    ensures 0 < |Join(ps)| <= WORD ==> Carries(Chunks(ps) + END, Join(ps))
  {
    var body := Join(ps);
    if 0 < |body| <= WORD {
      ShortNeverWraps(ps);
      WireCarries(ps, body);
    }
  }

  /** A body that is not empty and not longer than 4 GiB, in any parts and through a buffer of any size, goes out
      as a chunked-body that carries it. */
  method Transfer(parts: seq<seq<Byte>>, size: nat) returns (wire: seq<Byte>)
    requires 0 < size < WORD
    ensures 0 < |Join(parts)| <= WORD ==> Carries(wire, Join(parts))
  {
    var s := new Sender(size, Mode.Chunk, false);
    assert s.Sent() == [];
    var i := 0;
    while i < |parts|
      invariant 0 <= i <= |parts| && s.Valid() && s.Sent() == Join(parts[..i]) && fresh(s) && fresh(s.buf)
    {
      JoinPush(parts[..i], parts[i]);
      assert parts[..i + 1] == parts[..i] + [parts[i]];
      s.SendRaw(parts[i]);
      i := i + 1;
    }
    assert parts[..i] == parts;
    s.EndSend();
    wire := s.wire;
    PiecesConform(s.pieces, s.buf.Length);
  }
}
