/** soap_send_raw, soap_flush, soap_flush_raw and the end of a message: buffered output in each I/O mode. */
module ChunkSender {
  import opened Memory
  import opened ChunkFormat

  /** SOAP_IO: unbuffered, buffered, stored until the length is known, chunked. */
  datatype Mode = Flush | Buffer | Keep | Chunk

  function Join(ps: seq<seq<Byte>>): (s: seq<Byte>) {
    if ps == [] then [] else Join(ps[..|ps| - 1]) + ps[|ps| - 1]
  }

  lemma JoinPush(ps: seq<seq<Byte>>, p: seq<Byte>)
    ensures Join(ps + [p]) == Join(ps) + p
  {
    assert (ps + [p])[..|ps|] == ps;
  }

  /** The size line of a piece of n bytes after total bytes: the leading CRLF, which ends the chunk before,
      is left out when the 32-bit chunk total is zero. */
  function SizeLine(total: nat, n: nat): seq<Byte> {
    (if total % WORD == 0 then [] else CRLF) + Hex(n) + CRLF
  }

  /** The chunks of the pieces ps as soap_flush_raw writes them. */
  function Chunks(ps: seq<seq<Byte>>): (s: seq<Byte>) {
    if ps == [] then [] else
      var q := ps[..|ps| - 1];
      Chunks(q) + SizeLine(|Join(q)|, |ps[|ps| - 1]|) + ps[|ps| - 1]
  }

  lemma ChunksPush(ps: seq<seq<Byte>>, p: seq<Byte>)
    ensures Chunks(ps + [p]) == Chunks(ps) + SizeLine(|Join(ps)|, |p|) + p
  {
    assert (ps + [p])[..|ps|] == ps;
  }

  lemma TotalStep(total: nat, n: nat)
    ensures SizeLine(total % WORD, n) == SizeLine(total, n)
    ensures (total % WORD + n) % WORD == (total + n) % WORD
  {
  }

  /** What ends a chunked message: the CRLF of the last chunk, the last-chunk, an empty trailer. */
  const END: seq<Byte> := [CR, LF, 48, CR, LF, CR, LF]

  predicate PiecesOk(ps: seq<seq<Byte>>, size: nat) {
    forall i :: 0 <= i < |ps| ==> 0 < |ps[i]| <= size
  }

  lemma PiecesPush(ps: seq<seq<Byte>>, p: seq<Byte>, size: nat)
    requires p != []
    ensures Join(ps + [p]) == Join(ps) + p
    ensures PiecesOk(ps, size) && |p| <= size ==> PiecesOk(ps + [p], size)
  {
    JoinPush(ps, p);
  }

  class Sender {
    const buf: array<Byte>
    const mode: Mode
    /** SOAP_IO_LENGTH: only count. */
    const counting: bool
    var bufidx: nat
    var chunksize: nat
    var count: nat
    /** What went to the transport, and the blocks kept back in Keep mode. */
    var wire: seq<Byte>
    var kept: seq<seq<Byte>>
    /** The pieces flushed so far. */
    ghost var pieces: seq<seq<Byte>>

    constructor (size: nat, mode: Mode, counting: bool)
      requires 0 < size < WORD
      ensures Valid() && fresh(buf) && buf.Length == size && this.mode == mode && this.counting == counting
      ensures pieces == [] && bufidx == 0 && count == 0
    {
      buf := new Byte[size];
      this.mode, this.counting := mode, counting;
      bufidx, chunksize, count := 0, 0, 0;
      wire, kept, pieces := [], [], [];
    }

    /** The buffer is never left full, and what was flushed is on the wire in the form of the mode. */
    ghost predicate Valid()
      reads this
    {
      Flushed() && bufidx < buf.Length
    }

    ghost predicate Flushed()
      reads this
    {
      && 0 < buf.Length < WORD && bufidx <= buf.Length
      && (counting || mode == Flush ==> bufidx == 0)
      && (mode != Flush ==> PiecesOk(pieces, buf.Length))
      && match mode
         case Chunk => wire == Chunks(pieces) && chunksize == |Join(pieces)| % WORD && kept == []
         case Keep => wire == [] && kept == pieces
         case _ => wire == Join(pieces) && kept == []
    }

    /** Everything the application has sent. */
    ghost function Sent(): seq<Byte>
      requires bufidx <= buf.Length
      reads this, buf
    {
      Join(pieces) + buf[..bufidx]
    }

    /** soap_flush_raw */
    method FlushRaw(s: seq<Byte>)
      requires Flushed() && bufidx == 0 && !counting && s != []
      requires mode != Flush ==> |s| <= buf.Length
      modifies this`wire, this`kept, this`chunksize, this`pieces
      ensures Flushed() && Join(pieces) == Join(old(pieces)) + s
    {
      PiecesPush(pieces, s, buf.Length);
      if mode == Keep {
        kept := kept + [s];
      } else {
        if mode == Chunk {
          ChunkHeader(s);
        }
        wire := wire + s;
      }
      pieces := pieces + [s];
    }

    /** The size line in front of s. */
    method ChunkHeader(s: seq<Byte>)
      requires mode == Chunk && wire == Chunks(pieces) && chunksize == |Join(pieces)| % WORD
      modifies this`wire, this`chunksize
      ensures wire + s == Chunks(pieces + [s]) && chunksize == |Join(pieces + [s])| % WORD
    {
      ChunksPush(pieces, s);
      JoinPush(pieces, s);
      TotalStep(|Join(pieces)|, |s|);
      wire := wire + SizeLine(chunksize, |s|);
      chunksize := (chunksize + |s|) % WORD;
    }

    /** soap_flush */
    method FlushBuffer()
      requires Flushed() && (bufidx > 0 ==> !counting && mode != Flush)
      modifies this`wire, this`kept, this`chunksize, this`pieces, this`bufidx
      ensures Valid() && bufidx == 0 && Join(pieces) == old(Sent())
    {
      var n := bufidx;
      assert n == 0 ==> Sent() == Join(pieces);
      if n > 0 {
        bufidx := 0;
        FlushRaw(buf[..n]);
      }
    }

    /** soap_send_raw */
    method SendRaw(s: seq<Byte>)
      requires Valid()
      modifies this, buf
      ensures Valid()
      ensures counting ==> count == old(count) + |s| && Sent() == old(Sent())
      ensures !counting ==> count == old(count) && Sent() == old(Sent()) + s
    {
      if s == [] {
        assert Sent() + s == Sent();
        return;
      }
      if counting {
        count := count + |s|;
      } else if mode != Flush {
        ghost var sent := Sent();
        var t, i := s, buf.Length - bufidx;
        while |t| >= i
          invariant Valid() && i == buf.Length - bufidx && count == old(count)
          invariant sent + s == Sent() + t
          decreases |t|
        {
          ghost var before := Sent();
          Append(t[..i]);
          FlushBuffer();
          assert before + t == before + t[..i] + t[i..];
          assert Sent() == Join(pieces);
          t := t[i..];
          i := buf.Length;
        }
        Append(t);
      } else {
        ghost var sent := Join(pieces);
        assert Sent() == sent;
        FlushRaw(s);
        assert Sent() == Join(pieces);
      }
    }

    /** memcpy(buf + bufidx, s, n); bufidx += n */
    method Append(s: seq<Byte>)
      requires Flushed() && bufidx + |s| <= buf.Length && !counting && mode != Flush
      modifies buf, this`bufidx
      ensures Flushed() && bufidx == old(bufidx) + |s| && Sent() == old(Sent()) + s
    {
      ghost var was := buf[..bufidx];
      forall i | 0 <= i < |s| {
        buf[bufidx + i] := s[i];
      }
      bufidx := bufidx + |s|;
      assert buf[..bufidx] == was + s;
    }

    /** The end of soap_end_send: flush, then the kept blocks or the end of the chunks. */
    method EndSend()
      requires Valid() && !counting
      modifies this, buf
      ensures Join(pieces) == old(Sent()) && bufidx == 0
      ensures mode != Flush ==> PiecesOk(pieces, buf.Length)
      ensures wire == if mode == Chunk then Chunks(pieces) + END else Join(pieces)
    {
      FlushBuffer();
      ghost var p := pieces;
      if mode == Keep {
        var i := 0;
        while i < |kept|
          invariant 0 <= i <= |kept| && kept == pieces == p && wire == Join(kept[..i]) && bufidx == 0
        {
          assert kept[..i + 1][..i] == kept[..i];
          wire := wire + kept[i];
          i := i + 1;
        }
        assert kept[..|kept|] == kept;
        kept := [];
      } else if mode == Chunk {
        wire := wire + END;
      }
    }
  }
}
