/** Sender and receiver together. */
module Chunked {
  import opened Basics
  import opened Memory
  import opened ChunkFormat
  import opened ChunkSender
  import opened ChunkReceiver

  /** The pieces a sender flushed, seen as frames. */
  ghost function FramesOf(ps: seq<seq<Byte>>): (fs: seq<Frame>)
    ensures |fs| == |ps|
  {
    if ps == [] then [] else
      var q, p := ps[..|ps| - 1], ps[|ps| - 1];
      FramesOf(q) + [Frame(if |Join(q)| % WORD == 0 then [] else CRLF, Hex(|p|), [CR], p)]
  }

  const LAST := Frame(CRLF, [48], [CR], [])

  /** Frames without an end. */
  function Flat(fs: seq<Frame>): seq<Byte> {
    if fs == [] then [] else Head(fs[0]) + fs[0].data + Flat(fs[1..])
  }

  lemma {:induction false} FlatPush(fs: seq<Frame>, f: Frame)
    ensures Flat(fs + [f]) == Flat(fs) + (Head(f) + f.data)
    ensures Body(fs + [f]) == Body(fs) + f.data
  {
    if fs == [] {
      assert [f][1..] == [];
    } else {
      FlatPush(fs[1..], f);
      assert (fs + [f])[1..] == fs[1..] + [f];
      Associate(Head(fs[0]) + fs[0].data, Flat(fs[1..]), Head(f) + f.data);
      Associate(fs[0].data, Body(fs[1..]), f.data);
    }
  }

  lemma {:induction false} StreamFlat(fs: seq<Frame>, last: Frame, trailer: seq<Byte>)
    ensures Stream(fs, last, trailer) == Flat(fs) + Head(last) + trailer
  {
    if fs != [] {
      StreamFlat(fs[1..], last, trailer);
    }
  }

  lemma {:induction false} ChunksAreFrames(ps: seq<seq<Byte>>)
    ensures Chunks(ps) == Flat(FramesOf(ps))
    ensures Join(ps) == Body(FramesOf(ps))
  {
    if ps != [] {
      var q, p := ps[..|ps| - 1], ps[|ps| - 1];
      ChunksAreFrames(q);
      var f := FramesOf(ps)[|ps| - 1];
      assert FramesOf(ps) == FramesOf(q) + [f];
      FlatPush(FramesOf(q), f);
      assert Head(f) == SizeLine(|Join(q)|, |p|);
    }
  }

  lemma PieceHeadOk(junk: seq<Byte>, p: seq<Byte>)
    requires (junk == [] || junk == CRLF) && |p| < WORD
    ensures HeadOk(Frame(junk, Hex(|p|), [CR], p))
  {
    HexInverse(|p|);
    Hex32(|p|);
  }

  lemma LastHeadOk()
    ensures HeadOk(LAST)
  {
    assert LAST.digits[..0] == [];
  }

  lemma {:induction false} FramesAcceptable(ps: seq<seq<Byte>>, size: nat, room: nat)
    requires PiecesOk(ps, size) && size + room < WORD
    ensures Acceptable(FramesOf(ps), LAST, room)
  {
    LastHeadOk();
    if ps != [] {
      var q, p := ps[..|ps| - 1], ps[|ps| - 1];
      FramesAcceptable(q, size, room);
      PieceHeadOk(if |Join(q)| % WORD == 0 then [] else CRLF, p);
    }
  }

  /** What the sender writes for its pieces is a stream the receiver reads as exactly their bytes. */
  lemma WireIsStream(ps: seq<seq<Byte>>)
    ensures Chunks(ps) + END == Stream(FramesOf(ps), LAST, CRLF)
    ensures Body(FramesOf(ps)) == Join(ps)
  {
    ChunksAreFrames(ps);
    StreamFlat(FramesOf(ps), LAST, CRLF);
    assert Head(LAST) + CRLF == END;
    assert Flat(FramesOf(ps)) + (Head(LAST) + CRLF) == Flat(FramesOf(ps)) + Head(LAST) + CRLF;
  }

  /** A body cut into any parts, sent through a buffer of any size, carried by a transport that cuts the
      stream anywhere, arrives complete and in order, and then the receiver sees the end. */
  method Exchange(parts: seq<seq<Byte>>, sendSize: nat, recvSize: nat) returns (body: seq<Byte>, ended: bool)
    requires 0 < sendSize && 0 < recvSize && sendSize + recvSize < WORD
    ensures body == Join(parts) && ended
  {
    var s := new Sender(sendSize, Chunk, false);
    var i := 0;
    assert s.Sent() == [];
    while i < |parts|
      invariant s.Valid() && s.mode == Chunk && !s.counting && s.buf.Length == sendSize && fresh(s) && fresh(s.buf)
      invariant 0 <= i <= |parts| && s.Sent() == Join(parts[..i])
    {
      assert parts[..i + 1][..i] == parts[..i];
      s.SendRaw(parts[i]);
      i := i + 1;
    }
    assert parts[..i] == parts;
    s.EndSend();
    WireIsStream(s.pieces);
    FramesAcceptable(s.pieces, sendSize, recvSize);
    var r := new Receiver(recvSize, s.wire, FramesOf(s.pieces), LAST, CRLF);
    body, ended := ReadAll(r);
  }

  /** Read windows until the end. */
  method ReadAll(r: Receiver) returns (body: seq<Byte>, ended: bool)
    requires r.InSync()
    modifies r, r.buf
    ensures body == old(r.Pending()) && ended
  {
    body := [];
    ghost var all, left := r.Pending(), r.Pending();
    assert [] + all == all;
    var done := false;
    while !done
      invariant r.Valid() && (!done ==> r.InSync() && left == r.Pending())
      invariant all == body + left
      invariant done ==> r.ahead == EOF && left == []
      decreases !done, |left|
    {
      done := r.RecvRaw();
      if !done {
        Associate(body, r.Window(), r.Pending());
        body := body + r.buf[r.bufidx..r.buflen];
        left := r.Pending();
      }
    }
    ended := r.ahead == EOF;
    assert body + [] == body;
  }
}
