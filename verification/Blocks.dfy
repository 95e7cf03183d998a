/** The operations of the block store, except soap_save_block. */
module Blocks {
  import opened Memory
  import opened IdTable
  import opened IdState
  import opened IdSteps
  import opened Soap
  import opened BlockList

  /** struct soap_blist: ptr is the first block, size the number of data bytes pushed. */
  class Blist {
    var ptr: int
    var size: nat
    ghost var bs: seq<Block>

    constructor ()
      ensures ptr == 0 && size == 0 && bs == []
    {
      ptr, size, bs := 0, 0, [];
    }
  }

  /** The list is intact, its blocks do not overlap, and no registered region straddles one. */
  ghost predicate Stored(m: Mem, a: State, head: int, bs: seq<Block>) {
    && Listed(m, head, bs)
    && BlocksApart(bs)
    && forall i :: 0 <= i < |bs| ==> Houses(a.own, bs[i])
  }

  lemma HeadIsNull(m: Mem, a: State, head: int, bs: seq<Block>)
    requires Stored(m, a, head, bs)
    ensures head == 0 <==> bs == []
  {
    if bs != [] {
      assert HeaderAt(m, bs, 0);
    }
  }

  ghost predicate InHeader(bs: seq<Block>, x: int) {
    exists i :: 0 <= i < |bs| && bs[i].at <= x < bs[i].at + HEADER
  }

  /** Only bytes of headers may differ. */
  ghost predicate OnlyHeaders(m: Mem, r: Mem, bs: seq<Block>) {
    |r| == |m| && forall x :: 0 <= x < |m| && !InHeader(bs, x) ==> r[x] == m[x]
  }

  /** Releasing memory: whatever it held may change at once. */
  method Release(c: Context, p: int, n: nat)
    requires InMem(c.mem, p, n)
    modifies c`mem
    ensures OnlyChanges(old(c.mem), c.mem, p, n)
    ensures old(c.Valid()) && Free(old(c.mem), c.st.own, p, n) ==> c.Valid()
  {
    ghost var m := c.mem;
    assert |seq(n, _ => 0 as Byte)| == n;
    var junk: seq<Byte> :| |junk| == n;
    c.mem := Store(c.mem, p, junk);
    if Sound(m, c.iht, c.st) && Free(m, c.st.own, p, n) {
      WriteFree(m, c.mem, c.st, p, n);
    }
  }

  lemma StoredApart(m: Mem, r: Mem, a: State, head: int, bs: seq<Block>, p: int, n: int)
    requires Stored(m, a, head, bs) && OnlyChanges(m, r, p, n)
    requires forall i :: 0 <= i < |bs| ==> Apart(p, n, bs[i].at, HEADER + bs[i].n)
    ensures Stored(r, a, head, bs)
  {
    ListedApart(m, r, head, bs, p, n);
  }

  lemma StoredTail(m: Mem, a: State, head: int, bs: seq<Block>)
    requires Stored(m, a, head, bs) && bs != []
    ensures Stored(m, a, AtOf(bs, 1), bs[1..])
  {
    ListedTail(m, head, bs);
  }

  /** Release the first block and return the next one. */
  method FreeFirst(c: Context, head: int, ghost bs: seq<Block>) returns (next: int)
    requires Stored(c.mem, c.st, head, bs) && bs != []
    modifies c`mem
    ensures Stored(c.mem, c.st, next, bs[1..])
    ensures OnlyChanges(old(c.mem), c.mem, bs[0].at, HEADER + bs[0].n)
    ensures old(c.Valid()) && Free(old(c.mem), c.st.own, bs[0].at, HEADER + bs[0].n) ==> c.Valid()
  {
    ghost var m := c.mem;
    assert HeaderAt(m, bs, 0);
    next := ReadPtr(c.mem, head);
    var n := ReadPtr(c.mem, head + PTR);
    Release(c, head, HEADER + n);
    StoredTail(m, c.st, head, bs);
    StoredApart(m, c.mem, c.st, next, bs[1..], head, HEADER + n);
  }

  lemma StoredPush(m: Mem, a: State, head: int, bs: seq<Block>, b: Block)
    requires Stored(m, a, head, bs) && HeaderOk(m, b, head) && Houses(a.own, b)
    requires forall i :: 0 <= i < |bs| ==> Apart(b.at, HEADER + b.n, bs[i].at, HEADER + bs[i].n)
    ensures Stored(m, a, b.at, [b] + bs)
  {
    var cs := [b] + bs;
    forall i | 0 <= i < |cs|
      ensures HeaderAt(m, cs, i)
    {
      if i > 0 {
        assert HeaderAt(m, bs, i - 1);
      }
    }
  }

  /** soap_push_block: at is what the allocator returned, NULL if it failed. */
  method PushBlock(c: Context, b: Blist, n: nat, at: int) returns (r: int)
    requires c.Valid() && Stored(c.mem, c.st, b.ptr, b.bs) && b.size == Total(b.bs)
    requires at != 0 ==> n < WORD && Free(c.mem, c.st.own, at, HEADER + n)
    requires at != 0 ==> forall i :: 0 <= i < |b.bs| ==> Apart(at, HEADER + n, b.bs[i].at, HEADER + b.bs[i].n)
    modifies c`mem, c`error, b
    ensures c.Valid() && Stored(c.mem, c.st, b.ptr, b.bs) && b.size == Total(b.bs)
    ensures at == 0 ==> r == 0 && c.error == SoapEom && c.mem == old(c.mem) && b.bs == old(b.bs)
    ensures at != 0 ==> r == at + HEADER && b.bs == [Block(at, n)] + old(b.bs) && OnlyChanges(old(c.mem), c.mem, at, HEADER)
  {
    if at == 0 {
      c.error := SoapEom;
      return 0;
    }
    ghost var m, a := c.mem, c.st;
    assert 0 <= b.ptr < WORD by {
      assert |b.bs| > 0 ==> HeaderAt(m, b.bs, 0);
    }
    c.mem := WritePtr(c.mem, at, b.ptr);
    ghost var m1 := c.mem;
    c.mem := WritePtr(c.mem, at + PTR, n);
    SameBytes(m1, c.mem, at, PTR);
    WriteFree(m, c.mem, a, at, HEADER + n);
    StoredApart(m, c.mem, a, b.ptr, b.bs, at, HEADER + n);
    StoredPush(c.mem, a, b.ptr, b.bs, Block(at, n));
    b.ptr := at;
    b.size := b.size + n;
    b.bs := [Block(at, n)] + b.bs;
    r := at + HEADER;
  }

  /** soap_pop_block: give up the newest block. */
  method PopBlock(c: Context, b: Blist)
    requires c.Valid() && Stored(c.mem, c.st, b.ptr, b.bs) && b.size == Total(b.bs)
    requires b.bs != [] ==> Free(c.mem, c.st.own, b.bs[0].at, HEADER + b.bs[0].n)
    modifies c`mem, b
    ensures c.Valid() && Stored(c.mem, c.st, b.ptr, b.bs) && b.size == Total(b.bs)
    ensures b.bs == if old(b.bs) == [] then [] else old(b.bs)[1..]
    ensures if old(b.bs) == [] then c.mem == old(c.mem)
            else OnlyChanges(old(c.mem), c.mem, old(b.bs[0].at), HEADER + old(b.bs[0].n))
  {
    ghost var m, a, bs := c.mem, c.st, b.bs;
    HeadIsNull(m, a, b.ptr, bs);
    if b.ptr == 0 {
      return;
    }
    assert HeaderAt(m, bs, 0);
    var p := b.ptr;
    b.size := b.size - ReadPtr(c.mem, p + PTR);
    b.ptr := FreeFirst(c, p, bs);
    b.bs := bs[1..];
  }

  /** soap_size_block: the newest block is declared to hold only n bytes. */
  method SizeBlock(c: Context, b: Blist, n: nat) returns (r: nat)
    requires c.Valid() && Stored(c.mem, c.st, b.ptr, b.bs) && b.size == Total(b.bs)
    requires b.bs != [] ==> n <= b.bs[0].n && Houses(c.st.own, b.bs[0].(n := n))
    modifies c`mem, b
    ensures c.Valid() && Stored(c.mem, c.st, b.ptr, b.bs) && r == b.size == Total(b.bs)
    ensures b.bs == if old(b.bs) == [] then [] else old(b.bs)[0 := old(b.bs)[0].(n := n)]
    ensures if old(b.bs) == [] then c.mem == old(c.mem)
            else OnlyChanges(old(c.mem), c.mem, old(b.bs[0].at), HEADER)
  {
    ghost var m, a, bs := c.mem, c.st, b.bs;
    HeadIsNull(m, a, b.ptr, bs);
    if b.ptr != 0 {
      assert HeaderAt(m, bs, 0);
      var p := b.ptr;
      b.size := b.size - ReadPtr(c.mem, p + PTR) + n;
      c.mem := WritePtr(c.mem, p + PTR, n);
      ghost var d := bs[0].(n := n);
      b.bs := bs[0 := d];
      SameBytes(m, c.mem, p, PTR);
      WriteFree(m, c.mem, a, p, HEADER);
      StoredTail(m, a, p, bs);
      StoredApart(m, c.mem, a, AtOf(bs, 1), bs[1..], p, HEADER);
      StoredPush(c.mem, a, AtOf(bs, 1), bs[1..], d);
      assert b.bs == [d] + bs[1..];
    }
    r := b.size;
  }

  /** How far the reversal has come: the first k headers point backwards. */
  ghost predicate HalfReversed(m: Mem, bs: seq<Block>, k: nat) {
    && k <= |bs|
    && (forall i {:trigger HeaderOk(m, bs[i], AtBefore(bs, i))} :: 0 <= i < k ==> HeaderOk(m, bs[i], AtBefore(bs, i)))
    && (forall i {:trigger HeaderAt(m, bs, i)} :: k <= i < |bs| ==> HeaderAt(m, bs, i))
  }

  function AtBefore(bs: seq<Block>, i: nat): int {
    if 0 < i <= |bs| then bs[i - 1].at else 0
  }

  lemma HalfReversedStep(m: Mem, r: Mem, bs: seq<Block>, k: nat)
    requires HalfReversed(m, bs, k) && k < |bs| && BlocksApart(bs)
    requires OnlyChanges(m, r, bs[k].at, PTR)
    requires InMem(r, bs[k].at, PTR) && ReadPtr(r, bs[k].at) == AtBefore(bs, k)
    ensures HalfReversed(r, bs, k + 1)
  {
    forall i | 0 <= i < |bs| && i != k
      ensures Apart(bs[i].at, HEADER, bs[k].at, PTR)
    {
      if i < k {
        assert HeaderOk(m, bs[i], AtBefore(bs, i)) && HeaderAt(m, bs, k);
      } else {
        assert HeaderAt(m, bs, i);
      }
    }
    forall i | 0 <= i < k + 1
      ensures HeaderOk(r, bs[i], AtBefore(bs, i))
    {
      if i < k {
        HeaderKept(m, r, bs[i], AtBefore(bs, i));
      } else {
        assert HeaderAt(m, bs, k);
        SameBytes(m, r, bs[k].at + PTR, PTR);
      }
    }
    forall i | k + 1 <= i < |bs|
      ensures HeaderAt(r, bs, i)
    {
      assert HeaderAt(m, bs, i);
      HeaderKept(m, r, bs[i], AtOf(bs, i + 1));
    }
  }

  lemma FullyReversed(m: Mem, a: State, bs: seq<Block>)
    requires HalfReversed(m, bs, |bs|) && BlocksApart(bs)
    requires forall i :: 0 <= i < |bs| ==> Houses(a.own, bs[i])
    ensures Stored(m, a, AtBefore(bs, |bs|), Reversed(bs))
  {
    var cs := Reversed(bs);
    forall i | 0 <= i < |cs|
      ensures HeaderAt(m, cs, i)
    {
      var j := |bs| - 1 - i;
      assert HeaderOk(m, bs[j], AtBefore(bs, j));
      assert AtOf(cs, i + 1) == AtBefore(bs, j);
    }
  }

  /** soap_first_block: reverse the list in place and return the data of the oldest block. */
  method FirstBlock(c: Context, b: Blist) returns (r: int)
    requires c.Valid() && Stored(c.mem, c.st, b.ptr, b.bs)
    modifies c`mem, b`ptr, b`bs
    ensures c.Valid() && Stored(c.mem, c.st, b.ptr, b.bs)
    ensures b.bs == Reversed(old(b.bs))
    ensures r == if b.bs == [] then 0 else Data(b.bs[0])
    ensures OnlyHeaders(old(c.mem), c.mem, old(b.bs))
  {
    ghost var m, a, bs := c.mem, c.st, b.bs;
    HeadIsNull(m, a, b.ptr, bs);
    var p := b.ptr;
    if p == 0 {
      assert Reversed(bs) == [];
      return 0;
    }
    forall i | 0 <= i < |bs| ensures bs[i].at > 0 { assert HeaderAt(m, bs, i); }
    r := 0;
    ghost var k := 0;
    while p != 0
      invariant c.Valid() && c.st == a && |c.mem| == |m| && b.bs == bs
      invariant HalfReversed(c.mem, bs, k) && p == AtOf(bs, k) && r == AtBefore(bs, k)
      invariant OnlyHeaders(m, c.mem, bs)
      decreases |bs| - k
    {
      assert HeaderAt(c.mem, bs, k);
      ghost var before := c.mem;
      var q := ReadPtr(c.mem, p);
      assert 0 <= r < WORD by {
        assert k > 0 ==> HeaderOk(c.mem, bs[k - 1], AtBefore(bs, k - 1));
      }
      c.mem := WritePtr(c.mem, p, r);
      WriteFree(before, c.mem, a, p, PTR);
      HalfReversedStep(before, c.mem, bs, k);
      r := p;
      p := q;
      k := k + 1;
    }
    FullyReversed(c.mem, a, bs);
    b.ptr := r;
    b.bs := Reversed(bs);
    r := r + HEADER;
  }

  /** soap_next_block: release the first block and return the data of the one after it. */
  method NextBlock(c: Context, b: Blist) returns (r: int)
    requires c.Valid() && Stored(c.mem, c.st, b.ptr, b.bs)
    requires b.bs != [] ==> Free(c.mem, c.st.own, b.bs[0].at, HEADER + b.bs[0].n)
    modifies c`mem, b`ptr, b`bs
    ensures c.Valid() && Stored(c.mem, c.st, b.ptr, b.bs)
    ensures b.bs == if old(b.bs) == [] then [] else old(b.bs)[1..]
    ensures r == if b.bs == [] then 0 else Data(b.bs[0])
    ensures if old(b.bs) == [] then c.mem == old(c.mem)
            else OnlyChanges(old(c.mem), c.mem, old(b.bs[0].at), HEADER + old(b.bs[0].n))
  {
    ghost var m, a, bs := c.mem, c.st, b.bs;
    HeadIsNull(m, a, b.ptr, bs);
    var p := b.ptr;
    if p != 0 {
      b.ptr := FreeFirst(c, p, bs);
      b.bs := bs[1..];
      assert bs[1..] != [] ==> HeaderAt(c.mem, bs[1..], 0);
      if b.ptr != 0 {
        return b.ptr + HEADER;
      }
    }
    r := 0;
  }

  /** soap_block_size: the number of data bytes of the first block. */
  method BlockSize(c: Context, b: Blist) returns (n: nat)
    requires Stored(c.mem, c.st, b.ptr, b.bs) && b.bs != []
    ensures n == b.bs[0].n
  {
    assert HeaderAt(c.mem, b.bs, 0);
    n := ReadPtr(c.mem, b.ptr + PTR);
  }

  /** soap_end_block: release every block that is left. Registered regions survive when none of them
      lies in a block. */
  method EndBlock(c: Context, b: Blist)
    requires Stored(c.mem, c.st, b.ptr, b.bs)
    modifies c`mem, b
    ensures b.ptr == 0 && b.size == 0 && b.bs == []
    ensures |c.mem| == |old(c.mem)| && (old(b.bs) == [] ==> c.mem == old(c.mem))
    ensures forall x :: 0 <= x < |c.mem| && !InBlock(old(b.bs), x) ==> c.mem[x] == old(c.mem)[x]
    ensures old(c.Valid()) && AllFree(old(c.mem), c.st, old(b.bs)) ==> c.Valid()
  {
    ghost var m, bs, cs := c.mem, b.bs, b.bs;
    ghost var safe := c.Valid() && AllFree(m, c.st, bs);
    var p := b.ptr;
    HeadIsNull(m, c.st, p, bs);
    while p != 0
      invariant |c.mem| == |m| && (bs == [] ==> c.mem == m) && (safe ==> c.Valid() && AllFree(c.mem, c.st, cs))
      invariant Stored(c.mem, c.st, p, cs) && (p == 0 <==> cs == [])
      invariant forall d :: d in cs ==> d in bs
      invariant forall x :: 0 <= x < |m| && !InBlock(bs, x) ==> c.mem[x] == m[x]
      decreases |cs|
    {
      ghost var before := c.mem;
      assert cs[0] in bs;
      p := FreeFirst(c, p, cs);
      OutsideStays(m, before, c.mem, bs, cs[0]);
      cs := cs[1..];
      HeadIsNull(c.mem, c.st, p, cs);
    }
    b.ptr, b.size, b.bs := 0, 0, [];
  }

  ghost predicate AllFree(m: Mem, a: State, bs: seq<Block>) {
    forall i :: 0 <= i < |bs| ==> Free(m, a.own, bs[i].at, HEADER + bs[i].n)
  }

  lemma OutsideStays(m: Mem, r: Mem, s: Mem, bs: seq<Block>, d: Block)
    requires |r| == |m| && d in bs && OnlyChanges(r, s, d.at, HEADER + d.n)
    requires forall x :: 0 <= x < |m| && !InBlock(bs, x) ==> r[x] == m[x]
    ensures forall x :: 0 <= x < |m| && !InBlock(bs, x) ==> s[x] == m[x]
  {
    forall x | 0 <= x < |m| && !InBlock(bs, x)
      ensures s[x] == m[x]
    {
      var i :| 0 <= i < |bs| && bs[i] == d;
      assert !(bs[i].at <= x < bs[i].at + HEADER + bs[i].n);
    }
  }

  ghost predicate InBlock(bs: seq<Block>, x: int) {
    exists i :: 0 <= i < |bs| && bs[i].at <= x < bs[i].at + HEADER + bs[i].n
  }
}
