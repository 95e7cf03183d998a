/** md5.cpp: the incremental hasher and the keyed hash made from it. */
module Md5 {
  import opened Basics
  import opened Md5Spec
  import opened Md5Process

  // ---------- one block ----------

  /** GET_UINT32_LE */
  function GetWord(b: array<Octet>, i: nat): (w: Word)
    requires i + 4 <= b.Length
    reads b
    ensures w == WordAt(b[..], i)
  {
    Join(b[i], b[i + 1], b[i + 2], b[i + 3])
  }

  lemma WordWithin(all: seq<Octet>, at: nat, i: nat)
    requires at + 64 <= |all| && i < 16
    ensures WordAt(all, at + 4 * i) == Decode(all[at..at + 64])[i]
  {
  }

  /** The sixteen words of a block. */
  method Load(data: array<Octet>, at: nat) returns (x: Block)
    requires at + 64 <= data.Length
    ensures x == Decode(data[..][at..at + 64])
  {
    x := seq(16, i requires 0 <= i < 16 reads data => GetWord(data, at + 4 * i));
    forall i | 0 <= i < 16 ensures x[i] == Decode(data[..][at..at + 64])[i] {
      WordWithin(data[..], at, i);
    }
  }

  ghost function Trace(x: Block, s: State): (trace: seq<State>)
    ensures |trace| == 65
  {
    seq(65, i requires 0 <= i < 65 => Operations(x, s, i))
  }

  lemma TraceIsTrace(x: Block, s: State)
    ensures IsTrace(x, Trace(x, s)) && Trace(x, s)[0] == s && Trace(x, s)[64] == Operations(x, s, 64)
  {
  }

  /** md5_process, without the context. */
  method Process(s: State, data: array<Octet>, at: nat) returns (r: State)
    requires at + 64 <= data.Length
    ensures r == Compress(s, data[..][at..at + 64])
  {
    var x := Load(data, at);
    ghost var trace := Trace(x, s);
    TraceIsTrace(x, s);
    var a, b, c, d := Round1a(x, s.a, s.b, s.c, s.d, trace);
    a, b, c, d := Round1b(x, a, b, c, d, trace);
    a, b, c, d := Round2a(x, a, b, c, d, trace);
    a, b, c, d := Round2b(x, a, b, c, d, trace);
    a, b, c, d := Round3a(x, a, b, c, d, trace);
    a, b, c, d := Round3b(x, a, b, c, d, trace);
    a, b, c, d := Round4a(x, a, b, c, d, trace);
    a, b, c, d := Round4b(x, a, b, c, d, trace);
    r := State(Plus(s.a, a), Plus(s.b, b), Plus(s.c, c), Plus(s.d, d));
  }

  // ---------- the context ----------

  const INT_MAX := 0x7FFF_FFFF
  const LONG := 0x1_0000_0000_0000_0000

  /** total counts the bytes of a message, as far as 64 bits go. */
  ghost predicate Counts(total0: nat, total1: nat, n: nat) {
    total0 < WORD && total1 < WORD && WORD * total1 + total0 == n % LONG
  }

  lemma CountsLow(total0: nat, total1: nat, n: nat)
    requires Counts(total0, total1, n)
    ensures total0 % 64 == n % 64
  {
  }

  /** Adding to the low word carries exactly when it wraps to something below what was added. */
  lemma CountsOn(total0: nat, total1: nat, n: nat, k: nat)
    requires Counts(total0, total1, n) && k < WORD
    ensures Counts((total0 + k) % WORD, if (total0 + k) % WORD < k then (total1 + 1) % WORD else total1, n + k)
  {
    var sum := total0 + k;
    var low := sum % WORD;
    assert low == if sum < WORD then sum else sum - WORD;
    assert (n + k) % LONG == (n % LONG + k) % LONG;
  }

  /** state is what the blocks of done leave. */
  ghost predicate Folded(f: Compressor, state: State, done: seq<Octet>) {
    |done| % 64 == 0 && state == Fold(f, INITIAL, done)
  }

  lemma FoldMore(f: Compressor, state: State, done: seq<Octet>, block: Chunk)
    requires Folded(f, state, done)
    ensures Folded(f, f(state, block), done + block)
  {
    FoldBlock(f, INITIAL, done, block);
  }

  /** md5_process on the block at at. */
  method ProcessAt(state: State, data: array<Octet>, at: nat, ghost block: Chunk, ghost f: Compressor, ghost done: seq<Octet>)
    returns (r: State)
    requires at + 64 <= data.Length && block == data[..][at..at + 64] && Compresses(f) && Folded(f, state, done)
    ensures Folded(f, r, done + block)
  {
    r := Process(state, data, at);
    assert r == Compress(state, block);
    FoldMore(f, state, done, block);
  }

  lemma MoreFolded(m: seq<Octet>, all: seq<Octet>, done: seq<Octet>, pending: seq<Octet>, from: nat, at: nat)
    requires from <= at <= |all| && done + pending == m + all[..from] && (pending == [] || at == from)
    ensures done + all[from..at] + pending == m + all[..at]
  {
    var x := all[from..at];
    assert all[..at] == all[..from] + x;
    if pending == [] {
      assert done == m + all[..from];
      assert (m + all[..from]) + x == m + (all[..from] + x);
    } else {
      assert x == [];
    }
  }

  lemma MorePending(m: seq<Octet>, all: seq<Octet>, done: seq<Octet>, pending: seq<Octet>, at: nat, n: nat)
    requires at <= n <= |all| && done + pending == m + all[..at]
    ensures done + (pending + all[at..n]) == m + all[..n]
  {
    var x := all[at..n];
    assert all[..n] == all[..at] + x;
    assert done + (pending + x) == (done + pending) + x;
    assert (m + all[..at]) + x == m + (all[..at] + x);
  }

  lemma WordsOf(x: nat, a: nat, b: nat)
    requires x == WORD * a + b && b < WORD
    ensures x / WORD == a && x % WORD == b
  {
  }

  lemma Eightfold(t: nat)
    requires t < WORD
    ensures 8 * t == WORD * (t / 0x2000_0000) + 8 * (t % 0x2000_0000)
    ensures 8 * t % WORD == 8 * (t % 0x2000_0000) <= WORD - 8
  {
    WordsOf(8 * t, t / 0x2000_0000, 8 * (t % 0x2000_0000));
  }

  /** The two words md5_finish takes from total are the length of the message in bits. */
  lemma LengthIs(total0: nat, total1: nat, n: nat)
    requires Counts(total0, total1, n)
    ensures total0 * 8 % WORD == 8 * n % WORD
    ensures total0 / 0x2000_0000 + total1 * 8 % WORD == 8 * n / WORD % WORD
  {
    Eightfold(total0);
    Eightfold(total1);
    var low, high := 8 * total0 % WORD, total0 / 0x2000_0000 + 8 * total1 % WORD;
    var above := 8 * (n / LONG) + total1 / 0x2000_0000;
    assert n == LONG * (n / LONG) + WORD * total1 + total0;
    assert 8 * n == WORD * (WORD * above + high) + low;
    WordsOf(8 * n, WORD * above + high, low);
    WordsOf(WORD * above + high, above, high);
  }

  /** What padding and length turn a message into, whatever has been taken in before. */
  lemma Finished(f: Compressor, m: seq<Octet>, done: seq<Octet>, pending: seq<Octet>, state: State)
    requires Compresses(f) && Folded(f, state, done) && |pending| < 64
    requires done + pending == m + Padding(PadLength(|m|)) + Length(|m|)
    ensures Output(state) == Md5(m)
  {
    assert |pending| == 0;
    assert done == Padded(m);
    FoldIs(f, INITIAL, done);
  }

  lemma Stored(was: seq<Octet>, i: nat, w: seq<Octet>)
    requires |w| == 4 && i + 4 <= |was|
    ensures was[i := w[0]][i + 1 := w[1]][i + 2 := w[2]][i + 3 := w[3]] == was[..i] + w + was[i + 4..]
  {
  }

  /** PUT_UINT32_LE of a register. */
  method PutWord(n: Word, b: array<Octet>, i: nat)
    requires i + 4 <= b.Length
    modifies b
    ensures b[..] == old(b[..])[..i] + Bytes(n) + old(b[..])[i + 4..]
  {
    Stored(b[..], i, Bytes(n));
    b[i] := Low(n);
    b[i + 1] := Low(n >> 8);
    b[i + 2] := Low(n >> 16);
    b[i + 3] := Low(n >> 24);
  }

  /** PUT_UINT32_LE of a counter. */
  method PutNumber(n: nat, b: array<Octet>, i: nat)
    requires n < WORD && i + 4 <= b.Length
    modifies b
    ensures b[..] == old(b[..])[..i] + Number(n) + old(b[..])[i + 4..]
  {
    Stored(b[..], i, Number(n));
    b[i] := (n % 256) as bv8;
    b[i + 1] := (n / 256 % 256) as bv8;
    b[i + 2] := (n / 65536 % 256) as bv8;
    b[i + 3] := (n / 16777216) as bv8;
  }

  lemma TwoPut(was: seq<Octet>, a: seq<Octet>, b: seq<Octet>, now: seq<Octet>)
    requires |a| == |b| == 4 && |was| >= 8
    requires now == (was[..0] + a + was[4..])[..4] + b + (was[..0] + a + was[4..])[8..]
    ensures now == a + b + was[8..]
  {
  }

  lemma FourPut(was: seq<Octet>, half: seq<Octet>, c: seq<Octet>, d: seq<Octet>, now: seq<Octet>)
    requires |c| == |d| == 4 && |half| == |was| >= 16 && half[8..] == was[8..]
    requires now == (half[..8] + c + half[12..])[..12] + d + (half[..8] + c + half[12..])[16..]
    ensures now == half[..8] + c + d + was[16..]
  {
    assert half[16..] == half[8..][8..];
  }

  /** The four registers, written out. */
  method PutState(s: State, output: array<Octet>)
    requires output.Length >= 16
    modifies output
    ensures output[..] == Output(s) + old(output[..])[16..]
  {
    ghost var was := output[..];
    PutWord(s.a, output, 0);
    PutWord(s.b, output, 4);
    ghost var half := output[..];
    TwoPut(was, Bytes(s.a), Bytes(s.b), half);
    PutWord(s.c, output, 8);
    PutWord(s.d, output, 12);
    FourPut(was, half, Bytes(s.c), Bytes(s.d), output[..]);
  }

  /** The length of the message in bits, written out. */
  method PutLength(total0: nat, total1: nat, msglen: array<Octet>, ghost n: nat)
    requires Counts(total0, total1, n) && msglen.Length == 8
    modifies msglen
    ensures msglen[..] == Length(n)
  {
    LengthIs(total0, total1, n);
    // total[0] >> 29 and total[1] << 3 have no bit in common
    var high := total0 / 0x2000_0000 + total1 * 8 % WORD;
    var low := total0 * 8 % WORD;
    PutNumber(low, msglen, 0);
    PutNumber(high, msglen, 4);
  }

  lemma IsPadding(s: seq<Octet>)
    requires |s| == 64 && s[0] == 0x80 && forall i | 1 <= i < 64 :: s[i] == 0
    ensures s == Padding(64)
  {
  }

  /** md5_padding */
  method NewPadding() returns (p: array<Octet>)
    ensures fresh(p) && p.Length == 64 && p[..] == Padding(64)
  {
    p := new Octet[64](i => if i == 0 then 0x80 else 0);
    IsPadding(p[..]);
  }

  class Context {
    var total0: nat
    var total1: nat
    var state: State
    const buffer: array<Octet>
    ghost const f: Compressor
    /** What has been folded into the state, and what waits in the buffer. */
    ghost var done: seq<Octet>
    ghost var pending: seq<Octet>

    ghost predicate Sound()
      reads this, buffer
    {
      buffer.Length == 64
      && Compresses(f) && Folded(f, state, done)
      && |pending| < 64 && pending <= buffer[..]
    }

    /** The context has taken in m. */
    ghost predicate Holds(m: seq<Octet>)
      reads this, buffer
    {
      Sound() && done + pending == m && Counts(total0, total1, |m|)
    }

    constructor ()
      ensures fresh(buffer) && buffer.Length == 64 && Compresses(f)
    {
      buffer := new Octet[64];
      f := Compression();
      total0, total1, state := 0, 0, INITIAL;
    }

    /** md5_starts */
    method Starts()
      requires buffer.Length == 64 && Compresses(f)
      modifies this
      ensures Holds([])
    {
      total0 := 0;
      total1 := 0;
      state := State(0x67452301, 0xEFCDAB89, 0x98BADCFE, 0x10325476);
      done, pending := [], [];
    }

    /** md5_update, its counting. */
    method Count(ilen: nat, ghost n: nat)
      requires Counts(total0, total1, n) && ilen < WORD
      modifies this`total0, this`total1
      ensures Counts(total0, total1, n + ilen)
    {
      CountsOn(total0, total1, n, ilen);
      total0 := (total0 + ilen) % WORD;
      if total0 < ilen {
        total1 := (total1 + 1) % WORD;
      }
    }

    /** md5_update, its first part: a block begun earlier is completed. */
    method Complete(input: array<Octet>, left: nat, fill: nat)
      requires Sound() && input != buffer && 0 < left == |pending| && fill == 64 - left && fill <= input.Length
      modifies this`state, this`done, this`pending, buffer
      ensures Sound() && pending == [] && done == old(done + pending) + input[..][..fill]
    {
      ghost var block := pending + input[..][..fill];
      Memcpy(buffer, left, input, 0, fill);
      assert buffer[..][0..0 + 64] == block;
      state := ProcessAt(state, buffer, 0, block, f, done);
      assert done + block == done + pending + input[..][..fill];
      done, pending := done + block, [];
    }

    /** md5_update, its loop: whole blocks are taken from the input. */
    method Blocks(input: array<Octet>, from: nat, ilen: nat) returns (at: nat)
      requires Sound() && from <= ilen <= input.Length
      requires pending == [] || ilen - from < 64
      modifies this`state, this`done
      ensures Sound() && from <= at <= ilen && ilen - at < 64 && (pending == [] || at == from)
      ensures done == old(done) + input[..][from..at]
    {
      at := from;
      while ilen - at >= 64
        invariant Sound() && from <= at <= ilen && (pending == [] || at == from)
        invariant done == old(done) + input[..][from..at]
      {
        ghost var block := input[..][at..at + 64];
        assert input[..][from..at] + block == input[..][from..at + 64];
        state := ProcessAt(state, input, at, block, f, done);
        done := done + block;
        at := at + 64;
      }
    }

    /** md5_update, its last part: what is left goes into the buffer. */
    method Keep(input: array<Octet>, at: nat, ilen: nat, left: nat)
      requires Sound() && input != buffer && left == |pending| && at <= ilen <= input.Length && left + (ilen - at) < 64
      modifies this`pending, buffer
      ensures Sound() && pending == old(pending) + input[..][at..ilen]
    {
      if ilen - at > 0 {
        Memcpy(buffer, left, input, at, ilen - at);
      }
      pending := pending + input[..][at..ilen];
    }

    /** md5_update, its data. */
    method Take(input: array<Octet>, ilen: nat, left0: nat)
      requires Sound() && ilen <= input.Length && input != buffer && left0 == |pending|
      modifies this`state, this`done, this`pending, buffer
      ensures Sound() && done + pending == old(done + pending) + input[..][..ilen]
    {
      ghost var m, all := done + pending, input[..];
      var left, at := left0, 0;
      var fill := 64 - left;
      assert m + all[..0] == m;
      if left != 0 && ilen >= fill {
        Complete(input, left, fill);
        at := fill;
        left := 0;
        assert done + pending == done;
      }
      ghost var from, d, p := at, done, pending;
      at := Blocks(input, at, ilen);
      MoreFolded(m, all, d, p, from, at);
      MorePending(m, all, done, p, at, ilen);
      Keep(input, at, ilen, left);
    }

    /** md5_update */
    method Update(input: array<Octet>, ilen: int, ghost m: seq<Octet>)
      requires Holds(m) && ilen <= input.Length && ilen <= INT_MAX && input != buffer
      modifies this, buffer
      ensures Holds(m + if ilen <= 0 then [] else input[..][..ilen])
    {
      if ilen <= 0 {
        assert m + [] == m;
        return;
      }
      ghost var all := m + input[..][..ilen];
      assert |all| == |m| + ilen;
      CountsLow(total0, total1, |m|);
      var left := total0 % 64;
      assert left == |pending|;
      Count(ilen, |m|);
      Take(input, ilen, left);
      assert done + pending == all;
    }

    /** md5_finish */
    method Finish(output: array<Octet>, ghost m: seq<Octet>)
      requires Holds(m) && output.Length >= 16 && output != buffer
      modifies this, buffer, output
      ensures output[..] == Md5(m) + old(output[..])[16..]
    {
      var msglen := new Octet[8];
      PutLength(total0, total1, msglen, |m|);
      CountsLow(total0, total1, |m|);
      var last := total0 % 64;
      var padn := if last < 56 then 56 - last else 120 - last;
      var padding := NewPadding();
      assert padding[..][..padn] == Padding(PadLength(|m|));
      Update(padding, padn, m);
      assert msglen[..][..8] == Length(|m|);
      Update(msglen, 8, m + Padding(PadLength(|m|)));
      Finished(f, m, done, pending, state);
      PutState(state, output);
    }
  }

  /** md5_csum */
  method Csum(input: array<Octet>, ilen: int, output: array<Octet>)
    requires ilen <= input.Length && ilen <= INT_MAX && output.Length >= 16
    modifies output
    ensures output[..] == Md5(if ilen <= 0 then [] else old(input[..])[..ilen]) + old(output[..])[16..]
  {
    var ctx := new Context();
    ctx.Starts();
    ghost var m := if ilen <= 0 then [] else input[..][..ilen];
    ctx.Update(input, ilen, []);
    assert [] + m == m;
    ctx.Finish(output, m);
  }

  /** The part of a key md5_hmac uses. */
  function UsedKey(key: seq<Octet>): (k: seq<Octet>)
    ensures |k| <= 64
  {
    if |key| <= 64 then key else key[..64]
  }

  lemma XorKeyNext(key: seq<Octet>, pad: Octet, i: nat)
    requires i < |key| <= 64
    ensures XorKey(key[..i], pad)[i := pad ^ key[i]] == XorKey(key[..i + 1], pad)
  {
  }

  lemma XorKeyNone(s: seq<Octet>, pad: Octet)
    requires |s| == 64 && forall i | 0 <= i < 64 :: s[i] == pad
    ensures s == XorKey([], pad)
  {
  }

  /** The inner and the outer key. */
  method Pads(key: array<Octet>, keylen: int) returns (ipad: array<Octet>, opad: array<Octet>)
    requires keylen <= key.Length
    ensures fresh(ipad) && fresh(opad) && ipad.Length == opad.Length == 64
    ensures ipad[..] == XorKey(UsedKey(if keylen <= 0 then [] else key[..][..keylen]), 0x36)
    ensures opad[..] == XorKey(UsedKey(if keylen <= 0 then [] else key[..][..keylen]), 0x5C)
  {
    ipad := new Octet[64](_ => 0x36);
    opad := new Octet[64](_ => 0x5C);
    ghost var k := UsedKey(if keylen <= 0 then [] else key[..][..keylen]);
    XorKeyNone(ipad[..], 0x36);
    XorKeyNone(opad[..], 0x5C);
    assert k[..0] == [];
    var i := 0;
    while i < keylen
      invariant 0 <= i <= |k| && ipad != opad
      invariant ipad[..] == XorKey(k[..i], 0x36) && opad[..] == XorKey(k[..i], 0x5C)
      modifies ipad, opad
      decreases keylen - i
    {
      if i >= 64 {
        break;
      }
      XorKeyNext(k, 0x36, i);
      XorKeyNext(k, 0x5C, i);
      assert key[i] == k[i];
      ipad[i] := ipad[i] ^ key[i];
      opad[i] := opad[i] ^ key[i];
      i := i + 1;
    }
    assert k[..i] == k;
  }

  /** md5_starts, md5_update with a block and with more, md5_finish. */
  method Hash2(ctx: Context, pad: array<Octet>, input: array<Octet>, ilen: int, output: array<Octet>)
    requires ctx.buffer.Length == 64 && Compresses(ctx.f)
    requires pad.Length == 64 && ilen <= input.Length && ilen <= INT_MAX && output.Length >= 16
    requires ctx.buffer != pad && ctx.buffer != input && ctx.buffer != output
    modifies ctx, ctx.buffer, output
    ensures output[..] == Md5(old(pad[..]) + if ilen <= 0 then [] else old(input[..])[..ilen]) + old(output[..])[16..]
  {
    ghost var p, text := pad[..], if ilen <= 0 then [] else input[..][..ilen];
    ctx.Starts();
    ctx.Update(pad, 64, []);
    assert [] + pad[..][..64] == p;
    ctx.Update(input, ilen, p);
    ctx.Finish(output, p + text);
  }

  /** md5_hmac */
  method ComputeHmac(key: array<Octet>, keylen: int, input: array<Octet>, ilen: int, output: array<Octet>)
    requires keylen <= key.Length && ilen <= input.Length && ilen <= INT_MAX && output.Length >= 16
    modifies output
    ensures output[..] == Hmac(UsedKey(if keylen <= 0 then [] else old(key[..])[..keylen]),
      if ilen <= 0 then [] else old(input[..])[..ilen]) + old(output[..])[16..]
  {
    var ipad, opad := Pads(key, keylen);
    var tmpbuf := new Octet[16];
    var ctx := new Context();
    Hash2(ctx, ipad, input, ilen, tmpbuf);
    assert tmpbuf[..][..16] == tmpbuf[..];
    Hash2(ctx, opad, tmpbuf, 16, output);
  }

  lemma SameKeySameBlock(k: seq<Octet>, d: seq<Octet>, pad: Octet)
    requires |d| == 16 && k == d + seq(48, _ => 0)
    ensures XorKey(k, pad) == XorKey(d, pad)
  {
    forall i | 0 <= i < 64
      ensures XorKey(k, pad)[i] == XorKey(d, pad)[i]
    {
      XorEqual(pad, 0, 0);
    }
  }

  lemma SameBlockSameKey(k: seq<Octet>, d: seq<Octet>, pad: Octet)
    requires |d| == 16 && |k| == 64 && XorKey(k, pad) == XorKey(d, pad)
    ensures k == d + seq(48, _ => 0)
  {
    var z: seq<Octet> := seq(48, _ => 0);
    forall i | 0 <= i < 64
      ensures k[i] == (d + z)[i]
    {
      assert XorKey(k, pad)[i] == XorKey(d, pad)[i];
      XorEqual(pad, (d + z)[i], k[i]);
    }
  }

  /** A long key enters the two keyed blocks of RFC 2104 as its digest; here it enters cut off, which makes the
      same blocks if and only if its first 64 bytes are that digest and zeros. */
  lemma CutKeyIff(key: seq<Octet>, pad: Octet)
    requires |key| > 64
    ensures XorKey(UsedKey(key), pad) == XorKey(Md5(key), pad) <==> key[..64] == Md5(key) + seq(48, _ => 0)
  {
    if key[..64] == Md5(key) + seq(48, _ => 0) {
      SameKeySameBlock(key[..64], Md5(key), pad);
    }
    if XorKey(key[..64], pad) == XorKey(Md5(key), pad) {
      SameBlockSameKey(key[..64], Md5(key), pad);
    }
  }

  lemma XorEqual(pad: Octet, a: Octet, b: Octet)
    ensures pad ^ a == pad ^ b <==> a == b
    ensures pad ^ 0 == pad
  {
  }

  /** md5_hmac is section 2 of RFC 2104 for every key of at most one block, and for a longer one whose first
      64 bytes happen to be its digest and zeros. */
  lemma HmacAgrees(key: seq<Octet>, text: seq<Octet>)
    requires |key| <= 64 || key[..64] == Md5(key) + seq(48, _ => 0)
    ensures Hmac(UsedKey(key), text) == Hmac(key, text)
  {
    if |key| > 64 {
      CutKeyIff(key, 0x5C);
      CutKeyIff(key, 0x36);
    }
  }

  /** For a key of 65 bytes 1 the keyed blocks are not those of RFC 2104. */
  lemma LongKeyDiffers()
    ensures var key := seq(65, _ => 1); XorKey(UsedKey(key), 0x36) != XorKey(Md5(key), 0x36)
  {
    var key: seq<Octet> := seq(65, _ => 1);
    CutKeyIff(key, 0x36);
    assert key[..64][63] == 1;
    assert (Md5(key) + seq(48, _ => 0))[63] == 0;
  }

  /** The parts of a message, one after the other. */
  function Message(parts: seq<seq<Octet>>): seq<Octet> {
    if parts == [] then [] else Message(parts[..|parts| - 1]) + parts[|parts| - 1]
  }

  /** However a message is cut into calls of md5_update, the digest is that of the whole message. */
  method HashParts(parts: seq<seq<Octet>>) returns (digest: seq<Octet>)
    requires forall i :: 0 <= i < |parts| ==> |parts[i]| <= INT_MAX
    ensures digest == Md5(Message(parts))
  {
    var ctx := new Context();
    ctx.Starts();
    var i := 0;
    while i < |parts|
      invariant 0 <= i <= |parts| && ctx.Holds(Message(parts[..i])) && fresh(ctx) && fresh(ctx.buffer)
    {
      var part := parts[i];
      var input := new Octet[|part|](j requires 0 <= j < |part| => part[j]);
      assert input[..] == part && input[..][..|part|] == part;
      assert parts[..i + 1][..i] == parts[..i];
      ctx.Update(input, |part|, Message(parts[..i]));
      assert |part| <= 0 ==> part == [];
      i := i + 1;
    }
    assert parts[..i] == parts;
    var output := new Octet[16];
    ctx.Finish(output, Message(parts));
    digest := output[..];
  }
}
