/** soap_recv_raw for a chunked transfer, over a transport that may cut the stream anywhere. */
module ChunkReceiver {
  import opened Memory
  import opened ChunkFormat

  const EOF := -1

  /** A byte read through a signed char. */
  function Signed(b: Byte): int {
    if b < 0x80 then b else b - 0x100
  }

  /** strtoul saturates at the largest unsigned long. */
  function Strtoul16(ds: seq<Byte>): (v: nat)
    requires AllHex(ds)
    ensures v < WORD
  {
    if HexValue(ds) < WORD then HexValue(ds) else WORD - 1
  }

  /** Chunks that the receiver reads without its size arithmetic leaving 32 bits. */
  ghost predicate Acceptable(fs: seq<Frame>, last: Frame, size: nat) {
    && FramesOk(fs) && HeadOk(last) && last.data == []
    && forall i :: 0 <= i < |fs| ==> |fs[i].data| + size < WORD
  }

  /** f is the next frame of the stream and s is what follows its data. */
  ghost predicate Next(fs: seq<Frame>, last: Frame, trailer: seq<Byte>, f: Frame, s: seq<Byte>) {
    && Begins(f, s, Stream(fs, last, trailer))
    && (f.data == [] <==> fs == [])
    && (fs != [] ==> s == Stream(fs[1..], last, trailer) && Body(fs) == f.data + Body(fs[1..]))
  }

  ghost predicate Begins(f: Frame, s: seq<Byte>, u: seq<Byte>) {
    HeadOk(f) && |f.data| < WORD && u == Head(f) + (f.data + s)
  }

  lemma Unfold(fs: seq<Frame>, last: Frame, trailer: seq<Byte>, size: nat) returns (f: Frame, s: seq<Byte>)
    requires Acceptable(fs, last, size)
    ensures Next(fs, last, trailer, f, s)
    ensures fs != [] ==> Acceptable(fs[1..], last, size)
  {
    if fs == [] {
      f, s := last, trailer;
      assert [] + trailer == trailer;
    } else {
      f, s := fs[0], Stream(fs[1..], last, trailer);
    }
  }

  class Receiver {
    const buf: array<Byte>
    var bufidx: nat
    var buflen: nat
    var chunkbuflen: nat
    var chunksize: nat
    var ahead: int
    var count: nat
    /** What the transport has still to deliver. */
    var input: seq<Byte>
    /** The framing of what is unread: rem is the rest of the chunk that has been begun. */
    ghost var rem: seq<Byte>
    ghost var fs: seq<Frame>
    ghost var last: Frame
    ghost var trailer: seq<Byte>

    constructor (size: nat, input: seq<Byte>, ghost fs: seq<Frame>, ghost last: Frame, ghost trailer: seq<Byte>)
      requires size > 0
      ensures Valid() && fresh(buf) && buf.Length == size
      ensures chunksize == chunkbuflen == buflen == bufidx == count == ahead == 0
      ensures this.input == input && this.fs == fs && this.last == last && this.trailer == trailer && rem == []
    {
      buf := new Byte[size];
      bufidx, buflen, chunkbuflen, chunksize, ahead, count := 0, 0, 0, 0, 0, 0;
      this.input, this.rem, this.fs, this.last, this.trailer := input, [], fs, last, trailer;
    }

    ghost predicate Valid()
      reads this
    {
      0 < buf.Length && bufidx <= buflen <= buf.Length && chunkbuflen <= buf.Length
      && (chunkbuflen > 0 ==> buflen <= chunkbuflen)
      && (chunksize > 0 ==> chunkbuflen == 0)
    }

    /** Between two calls the unread bytes are framed: in the middle of a chunk, or before a size line. */
    ghost predicate InSync()
      reads this, buf
    {
      && Valid() && ahead == 0
      && Acceptable(fs, last, buf.Length)
      && |rem| == chunksize
      && (if chunksize > 0 then chunkbuflen == 0 && input == rem + Stream(fs, last, trailer)
          else Between() == Stream(fs, last, trailer))
    }

    ghost function Between(): seq<Byte>
      requires Valid()
      reads this, buf
    {
      if chunkbuflen > 0 then buf[buflen..chunkbuflen] + input else input
    }

    ghost function Pending(): seq<Byte>
      reads this
    {
      rem + Body(fs)
    }

    /** soap->frecv: at least one byte, at most n, unless the peer has nothing more. */
    method Frecv(n: nat) returns (k: nat)
      requires n <= buf.Length
      modifies buf, this`input
      ensures if old(input) == [] || n == 0 then k == 0 else 0 < k <= n
      ensures k <= |old(input)| && buf[..k] == old(input)[..k] && input == old(input)[k..]
    {
      if input == [] || n == 0 {
        return 0;
      }
      k :| 0 < k <= n && k <= |input|;
      forall i | 0 <= i < k {
        buf[i] := input[i];
      }
      input := input[k..];
    }

    /** What soap_getchunkchar has in front of it. */
    ghost function Ahead(): seq<Byte>
      requires bufidx <= buflen <= buf.Length
      reads this, buf
    {
      buf[bufidx..buflen] + input
    }

    ghost predicate Scanning()
      reads this
    {
      0 < buf.Length && bufidx <= buflen <= buf.Length && buflen == chunkbuflen
    }

    /** soap_getchunkchar */
    method GetChunkChar() returns (c: int)
      requires Scanning()
      modifies buf, this`input, this`bufidx, this`buflen, this`chunkbuflen
      ensures Scanning()
      ensures if old(Ahead()) == [] then c == EOF && Ahead() == []
              else c == Signed(old(Ahead())[0]) && Ahead() == old(Ahead())[1..] && chunkbuflen > 0
    {
      if bufidx < buflen {
        assert buf[bufidx..buflen][1..] == buf[bufidx + 1..buflen];
        bufidx := bufidx + 1;
        return Signed(buf[bufidx - 1]);
      }
      bufidx := 0;
      ghost var u := input;
      buflen := Frecv(buf.Length);
      chunkbuflen := buflen;
      if buflen > 0 {
        assert buf[..buflen] + input == u;
        bufidx := 1;
        assert buf[1..buflen] == buf[..buflen][1..];
        return Signed(buf[0]);
      }
      c := EOF;
    }

    /** Read a size line. If the bytes ahead start with the head of f, exactly that is consumed. */
    method ReadSize(ghost f: Frame, ghost rest: seq<Byte>) returns (eof: bool, size: nat)
      requires Scanning()
      modifies buf, this`input, this`bufidx, this`buflen, this`chunkbuflen
      ensures Scanning()
      ensures HeadOk(f) && old(Ahead()) == Head(f) + rest ==>
                !eof && size == Strtoul16(f.digits) && Ahead() == rest && chunkbuflen > 0
    {
      ghost var good := HeadOk(f) && Ahead() == Head(f) + rest;
      ghost var after := f.digits + f.tail + [LF] + rest;
      size := 0;
      var c := SkipJunk(f.junk, after, good);
      if c == EOF {
        return true, 0;
      }
      var tmp: seq<Byte>;
      tmp, c := TakeDigits(c, f.digits, f.tail + [LF] + rest, good);
      c := SkipLine(c, f.tail, rest, good);
      if c == EOF {
        return true, 0;
      }
      eof := false;
      size := Strtoul16(tmp);
    }

    /** The bytes ahead once c has been put back: the loops read one byte too far. */
    ghost predicate Behind(c: int, s: seq<Byte>)
      requires Scanning()
      reads this, buf
    {
      s != [] && c == Signed(s[0]) && Ahead() == s[1..] && chunkbuflen > 0
    }

    method SkipJunk(ghost junk: seq<Byte>, ghost after: seq<Byte>, ghost good: bool) returns (c: int)
      requires Scanning()
      requires good ==> Ahead() == junk + after && (forall i :: 0 <= i < |junk| ==> !IsHex(junk[i]) && junk[i] != 0xFF)
      requires good ==> after != [] && IsHex(after[0])
      modifies buf, this`input, this`bufidx, this`buflen, this`chunkbuflen
      ensures Scanning() && (c == EOF || IsHex(c))
      ensures good ==> Behind(c, after)
    {
      c := GetChunkChar();
      ghost var k := 0;
      while !IsHex(c)
        invariant Scanning()
        invariant good ==> 0 <= k <= |junk| && Behind(c, junk[k..] + after)
        decreases |Ahead()| + (if c == EOF then 0 else 1)
      {
        if c == EOF {
          return;
        }
        assert good && k < |junk| ==> (junk[k..] + after)[1..] == junk[k + 1..] + after;
        c := GetChunkChar();
        k := k + 1;
      }
    }

    lemma FirstOf(digits: seq<Byte>, n: nat, after: seq<Byte>)
      requires n <= |digits| && after != []
      ensures (digits[n..] + after)[0] == if n < |digits| then digits[n] else after[0]
    {
    }

    lemma NextDigit(c: int, tmp: seq<Byte>, digits: seq<Byte>, after: seq<Byte>)
      requires Scanning() && 0 < |tmp| <= |digits| && tmp == digits[..|tmp|] && IsHex(c)
      requires Behind(c, digits[|tmp|..] + after) && after != [] && !IsHex(after[0])
      ensures |tmp| < |digits| && digits[|tmp|] == c && tmp + [c] == digits[..|tmp| + 1]
      ensures (digits[|tmp|..] + after)[1..] == digits[|tmp| + 1..] + after
    {
      var n := |tmp|;
      FirstOf(digits, n, after);
    }

    method TakeDigits(c0: int, ghost digits: seq<Byte>, ghost after: seq<Byte>, ghost good: bool) returns (tmp: seq<Byte>, c: int)
      requires Scanning() && IsHex(c0)
      requires good ==> Behind(c0, digits + after) && 0 < |digits| <= 16 && AllHex(digits)
      requires good ==> after != [] && !IsHex(after[0])
      modifies buf, this`input, this`bufidx, this`buflen, this`chunkbuflen
      ensures Scanning() && AllHex(tmp)
      ensures good ==> tmp == digits && Behind(c, after)
    {
      tmp := [c0];
      c := GetChunkChar();
      assert good ==> (digits + after)[1..] == digits[1..] + after;
      while IsHex(c) && |tmp| < 16
        invariant Scanning() && AllHex(tmp) && 0 < |tmp| <= 16
        invariant good ==> |tmp| <= |digits| && tmp == digits[..|tmp|] && Behind(c, digits[|tmp|..] + after)
      {
        if good {
          NextDigit(c, tmp, digits, after);
        }
        tmp := tmp + [c];
        c := GetChunkChar();
      }
    }

    method SkipLine(c0: int, ghost tail: seq<Byte>, ghost rest: seq<Byte>, ghost good: bool) returns (c: int)
      requires Scanning()
      requires good ==> Behind(c0, tail + [LF] + rest) && (forall i :: 0 <= i < |tail| ==> tail[i] != LF && tail[i] != 0xFF)
      modifies buf, this`input, this`bufidx, this`buflen, this`chunkbuflen
      ensures Scanning()
      ensures good ==> c == LF && Ahead() == rest && chunkbuflen > 0
    {
      c := c0;
      ghost var k := 0;
      while c != EOF && c != LF
        invariant Scanning()
        invariant good ==> 0 <= k <= |tail| && Behind(c, tail[k..] + [LF] + rest)
        decreases |Ahead()| + (if c == EOF then 0 else 1)
      {
        assert good && k < |tail| ==> (tail[k..] + [LF] + rest)[1..] == tail[k + 1..] + [LF] + rest;
        c := GetChunkChar();
        k := k + 1;
      }
      assert good ==> ([LF] + rest)[1..] == rest;
    }

    /** soap_recv_raw: make the next window buf[bufidx..buflen] of body bytes available; ret is true at the
        end of the body or of the stream. Over a framed stream the windows are the body, in order. */
    method RecvRaw() returns (ret: bool)
      requires Valid()
      modifies this, buf
      ensures Valid()
      ensures old(InSync()) ==>
        if ret then ahead == EOF && old(Pending()) == [] && count == old(count)
        else InSync() && bufidx < buflen && old(Pending()) == Window() + Pending() && count == old(count) + |Window()|
    {
      ghost var good, body := InSync(), Pending();
      var done, got := false, 0;
      while !done
        invariant Valid() && count == old(count)
        invariant good && !done ==> InSync() && Pending() == body
        invariant good && done ==> Delivered(body, got)
        decreases !done, if chunksize == 0 then 1 else 0
      {
        done, got := Round();
      }
      count := count + got;
      ret := got == 0;
    }

    ghost function Window(): seq<Byte>
      requires Valid()
      reads this, buf
    {
      buf[bufidx..buflen]
    }

    /** The call is over: there is a window on the front of body, or body is empty. */
    ghost predicate Delivered(body: seq<Byte>, got: nat)
      reads this, buf
    {
      if got == 0 then ahead == EOF && body == []
      else InSync() && got == buflen - bufidx && body == Window() + Pending()
    }

    /** One round of the loop in soap_recv_raw. */
    method Round() returns (done: bool, got: nat)
      requires Valid()
      modifies this, buf
      ensures Valid() && count == old(count)
      ensures !done ==> old(chunksize) == 0 && chunksize > 0
      ensures old(InSync()) && !done ==> InSync() && Pending() == old(Pending())
      ensures old(InSync()) && done ==> Delivered(old(Pending()), got)
    {
      if chunksize > 0 {
        got := TakeData();
        return true, got;
      }
      done, got := FromSizeLine();
    }

    method FromSizeLine() returns (done: bool, got: nat)
      requires Valid() && chunksize == 0
      modifies this, buf
      ensures Valid() && count == old(count)
      ensures !done ==> chunksize > 0
      ensures old(InSync()) && !done ==> InSync() && Pending() == old(Pending())
      ensures old(InSync()) && done ==> Delivered(old(Pending()), got)
    {
      ghost var good := InSync();
      ghost var f, s := last, trailer;
      if good {
        f, s := Unfold(fs, last, trailer, buf.Length);
      }
      var more := Refill();
      if !more {
        assert !good;
        ahead := EOF;
        return true, 0;
      }
      var stop;
      stop, got := NextChunk(good, f, s);
      if stop {
        assert good ==> Pending() == [];
        return true, 0;
      }
      if good {
        Advance(f, s);
      }
      done := got > 0;
    }

    lemma NothingYet()
      requires Valid()
      ensures bufidx == buflen ==> Window() + Pending() == Pending()
    {
    }

    /** Before a size line: fetch bytes if the buffer holds none. */
    method Refill() returns (more: bool)
      requires Valid() && chunksize == 0
      modifies buf, this`input, this`bufidx, this`buflen, this`chunkbuflen
      ensures Valid() && (more ==> chunkbuflen > 0 && bufidx <= chunkbuflen && buf[bufidx..chunkbuflen] + input == old(Between()))
      ensures !more ==> old(Between()) == []
    {
      if chunkbuflen == 0 {
        ghost var u := input;
        chunkbuflen := Frecv(buf.Length);
        bufidx, buflen := 0, 0;
        assert buf[0..chunkbuflen] == buf[..chunkbuflen];
        assert buf[0..chunkbuflen] + input == u;
        more := chunkbuflen > 0;
      } else {
        bufidx := buflen;
        more := true;
      }
    }

    /** Before a size line, with something in the buffer: parse it and open the window on the data that has
        already arrived. stop tells the end of the stream or of the body. */
    method NextChunk(ghost good: bool, ghost f: Frame, ghost s: seq<Byte>) returns (stop: bool, got: nat)
      requires Valid() && chunksize == 0 && chunkbuflen > 0 && bufidx <= chunkbuflen
      requires good ==> Begins(f, s, buf[bufidx..chunkbuflen] + input)
      modifies buf, this`input, this`bufidx, this`buflen, this`chunkbuflen, this`chunksize, this`ahead
      ensures Valid()
      ensures !stop ==> ahead == old(ahead) && buflen == bufidx + got && (got == 0 ==> chunksize > 0)
      ensures good && stop ==> ahead == EOF && f.data == []
      ensures good && !stop ==> f.data != [] && Opened(f.data, s)
    {
      got := 0;
      buflen := chunkbuflen;
      var eof, size := ReadSize(f, f.data + s);
      if eof {
        ahead := EOF;
        return true, 0;
      }
      chunksize := size;
      if chunksize == 0 {
        bufidx, buflen, chunkbuflen := 0, 0, 0;
        ahead := EOF;
        return true, 0;
      }
      OpenWindow(f.data, s, good);
      stop, got := false, buflen - bufidx;
    }

    /** The window holds the first bytes of data; the rest of it, and then s, are unread. */
    ghost predicate Opened(data: seq<Byte>, s: seq<Byte>)
      reads this, buf
    {
      && Valid()
      && buflen - bufidx <= |data|
      && buf[bufidx..buflen] == data[..buflen - bufidx]
      && |data[buflen - bufidx..]| == chunksize
      && (if chunksize > 0 then chunkbuflen == 0 && input == data[buflen - bufidx..] + s else Between() == s)
    }

    /** Bookkeeping: the chunk of f has been begun. */
    ghost method Advance(f: Frame, s: seq<Byte>)
      requires Opened(f.data, s) && ahead == 0 && rem == [] && f.data != []
      requires fs != [] && s == Stream(fs[1..], last, trailer) && Body(fs) == f.data + Body(fs[1..])
      requires Acceptable(fs[1..], last, buf.Length)
      modifies this`rem, this`fs
      ensures buflen == bufidx ==> InSync() && Pending() == old(Pending())
      ensures buflen > bufidx ==> Delivered(old(Pending()), buflen - bufidx)
    {
      var n := buflen - bufidx;
      Split(f.data, s, n);
      rem := f.data[n..];
      fs := fs[1..];
      NothingYet();
    }

    /** The window is the part of the chunk that is in the buffer already; the rest is still to be read. */
    method OpenWindow(ghost data: seq<Byte>, ghost s: seq<Byte>, ghost good: bool)
      requires Scanning() && chunksize > 0
      requires good ==> Ahead() == data + s && |data| == chunksize && chunkbuflen > 0
      modifies this`buflen, this`chunksize, this`chunkbuflen
      ensures Valid() && (buflen == bufidx ==> chunksize > 0)
      ensures good ==> Opened(data, s)
    {
      ghost var w := buf[bufidx..chunkbuflen];
      buflen := bufidx + chunksize;
      if buflen > chunkbuflen {
        buflen := chunkbuflen;
        chunksize := chunksize - (buflen - bufidx);
        chunkbuflen := 0;
        assert good ==> (w + input)[|w|..] == input && (data + s)[|w|..] == data[|w|..] + s;
        assert good ==> w == (w + input)[..|w|] == (data + s)[..|w|] == data[..|w|];
      } else {
        if chunkbuflen > 0 {
          chunksize := 0;
        }
        ghost var n := buflen - bufidx;
        assert w == buf[bufidx..buflen] + buf[buflen..chunkbuflen];
        assert good ==> data == (data + s)[..n] == (w + input)[..n] == buf[bufidx..buflen];
        assert good ==> s == (data + s)[n..] == (w + input)[n..] == buf[buflen..chunkbuflen] + input;
      }
    }

    /** In the middle of a chunk: read straight into the buffer. */
    method TakeData() returns (got: nat)
      requires Valid() && chunksize > 0
      modifies buf, this`input, this`bufidx, this`buflen, this`chunksize, this`rem
      ensures Valid() && bufidx == 0 && buflen == got
      ensures old(InSync()) ==> got > 0 && InSync() && old(Pending()) == Window() + Pending()
    {
      ghost var good, r, s := InSync(), rem, Stream(fs, last, trailer);
      got := Frecv(if chunksize > buf.Length then buf.Length else chunksize);
      buflen, bufidx := got, 0;
      chunksize := chunksize - got;
      if good {
        rem := r[got..];
        Split(r, s, got);
        assert buf[0..got] == buf[..got];
      }
    }
  }

  lemma Split(r: seq<Byte>, s: seq<Byte>, n: nat)
    requires n <= |r|
    ensures (r + s)[..n] == r[..n] && (r + s)[n..] == r[n..] + s
    ensures r == r[..n] + r[n..]
    ensures n == |r| ==> r[n..] + s == s
    ensures forall b: seq<Byte> :: r + b == r[..n] + (r[n..] + b)
  {
    forall b: seq<Byte>
      ensures r + b == r[..n] + (r[n..] + b)
    {
    }
  }
}
