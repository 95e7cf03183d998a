/** The block store: a stack of memory blocks, linked through a header in front of each block.
    The header holds the next block (the one pushed before) and the number of data bytes. */
module BlockList {
  import opened Memory
  import opened IdState
  import opened IdSteps

  const HEADER := 8

  /** n data bytes behind the header at at. */
  datatype Block = Block(at: int, n: nat)

  function Data(b: Block): int {
    b.at + HEADER
  }

  function AtOf(bs: seq<Block>, i: nat): int {
    if i < |bs| then bs[i].at else 0
  }

  function Total(bs: seq<Block>): (n: nat)
  {
    if bs == [] then 0 else bs[0].n + Total(bs[1..])
  }

  ghost predicate HeaderOk(m: Mem, b: Block, next: int) {
    && InMem(m, b.at, HEADER + b.n)
    && ReadPtr(m, b.at) == next
    && ReadPtr(m, b.at + PTR) == b.n
  }

  /** bs, first block first, is the list that starts at head. */
  ghost predicate Listed(m: Mem, head: int, bs: seq<Block>) {
    && head == AtOf(bs, 0)
    && forall i {:trigger HeaderAt(m, bs, i)} :: 0 <= i < |bs| ==> HeaderAt(m, bs, i)
  }

  ghost predicate HeaderAt(m: Mem, bs: seq<Block>, i: nat)
    requires i < |bs|
  {
    HeaderOk(m, bs[i], AtOf(bs, i + 1))
  }

  ghost predicate BlocksApart(bs: seq<Block>) {
    forall i, j {:trigger bs[i], bs[j]} :: 0 <= i < j < |bs| ==> Apart(bs[i].at, HEADER + bs[i].n, bs[j].at, HEADER + bs[j].n)
  }

  /** Every registered region lies in the data of the block or does not touch it. */
  ghost predicate Houses(own: map<int, Own>, b: Block) {
    forall p :: p in own ==> Inside(p, own[p].len, Data(b), b.n) || Apart(p, own[p].len, b.at, HEADER + b.n)
  }

  /** Objects that start in the data of the block end there too. */
  ghost predicate Encloses(a: State, b: Block) {
    forall id :: id in a.tab && Data(b) <= a.tab[id].ptr < Data(b) + b.n ==>
      Inside(a.tab[id].ptr, a.tab[id].size, Data(b), b.n)
  }

  lemma HeaderKept(m: Mem, r: Mem, b: Block, next: int)
    requires HeaderOk(m, b, next) && |r| == |m|
    requires forall x :: b.at <= x < b.at + HEADER ==> r[x] == m[x]
    ensures HeaderOk(r, b, next)
  {
    SameBytes(m, r, b.at, PTR);
    SameBytes(m, r, b.at + PTR, PTR);
  }

  /** Headers survive any change that stays within registered regions. */
  lemma HeaderFramed(m: Mem, r: Mem, own: map<int, Own>, c: set<int>, b: Block, next: int)
    requires HeaderOk(m, b, next) && Framed(m, r, own, c) && Houses(own, b)
    ensures HeaderOk(r, b, next)
  {
    forall x | b.at <= x < b.at + HEADER
      ensures r[x] == m[x]
    {
      assert !Covered(own, c, x);
    }
    HeaderKept(m, r, b, next);
  }

  lemma ListedFramed(m: Mem, r: Mem, own: map<int, Own>, c: set<int>, head: int, bs: seq<Block>)
    requires Listed(m, head, bs) && Framed(m, r, own, c)
    requires forall i :: 0 <= i < |bs| ==> Houses(own, bs[i])
    ensures Listed(r, head, bs)
  {
    forall i | 0 <= i < |bs|
      ensures HeaderAt(r, bs, i)
    {
      assert HeaderAt(m, bs, i);
      HeaderFramed(m, r, own, c, bs[i], AtOf(bs, i + 1));
    }
  }

  /** Headers survive a store that touches no block. */
  lemma ListedApart(m: Mem, r: Mem, head: int, bs: seq<Block>, p: int, n: int)
    requires Listed(m, head, bs) && OnlyChanges(m, r, p, n)
    requires forall i :: 0 <= i < |bs| ==> Apart(p, n, bs[i].at, HEADER + bs[i].n)
    ensures Listed(r, head, bs)
  {
    forall i | 0 <= i < |bs|
      ensures HeaderAt(r, bs, i)
    {
      assert HeaderAt(m, bs, i);
      HeaderKept(m, r, bs[i], AtOf(bs, i + 1));
    }
  }

  lemma ListedTail(m: Mem, head: int, bs: seq<Block>)
    requires Listed(m, head, bs) && bs != []
    ensures Listed(m, AtOf(bs, 1), bs[1..])
  {
    forall i | 0 <= i < |bs[1..]|
      ensures HeaderAt(m, bs[1..], i)
    {
      assert HeaderAt(m, bs, i + 1);
    }
  }

  function Reversed(bs: seq<Block>): (r: seq<Block>)
    ensures |r| == |bs|
    ensures forall i :: 0 <= i < |bs| ==> r[i] == bs[|bs| - 1 - i]
  {
    seq(|bs|, i requires 0 <= i < |bs| => bs[|bs| - 1 - i])
  }

  lemma {:induction false} TotalSnoc(bs: seq<Block>, b: Block)
    ensures Total(bs + [b]) == Total(bs) + b.n
  {
    if bs == [] {
      assert [b][1..] == [];
    } else {
      TotalSnoc(bs[1..], b);
      assert (bs + [b])[1..] == bs[1..] + [b];
    }
  }

  lemma {:induction false} TotalReversed(bs: seq<Block>)
    ensures Total(Reversed(bs)) == Total(bs)
  {
    if bs != [] {
      TotalReversed(bs[1..]);
      TotalSnoc(Reversed(bs[1..]), bs[0]);
      assert Reversed(bs) == Reversed(bs[1..]) + [bs[0]];
    }
  }

  /** The blocks' data, one after the other. */
  function Joined(m: Mem, bs: seq<Block>): (s: seq<Byte>)
    requires forall i {:trigger bs[i]} :: 0 <= i < |bs| ==> InMem(m, bs[i].at, HEADER + bs[i].n)
    ensures |s| == Total(bs)
  {
    if bs == [] then []
    else
      assert InMem(m, bs[0].at, HEADER + bs[0].n);
      Bytes(m, Data(bs[0]), bs[0].n) + Joined(m, bs[1..])
  }

  /** The address that byte d of the joined data had. */
  function Origin(bs: seq<Block>, d: int): int
    requires 0 <= d < Total(bs)
  {
    if d < bs[0].n then Data(bs[0]) + d else Origin(bs[1..], d - bs[0].n)
  }

  lemma {:induction false} JoinedAt(m: Mem, bs: seq<Block>, d: int)
    requires forall i {:trigger bs[i]} :: 0 <= i < |bs| ==> InMem(m, bs[i].at, HEADER + bs[i].n)
    requires 0 <= d < Total(bs)
    ensures 0 <= Origin(bs, d) < |m|
    ensures Joined(m, bs)[d] == m[Origin(bs, d)]
  {
    if d >= bs[0].n {
      JoinedAt(m, bs[1..], d - bs[0].n);
    }
  }

  lemma {:induction false} TotalAppend(bs: seq<Block>, cs: seq<Block>)
    ensures Total(bs + cs) == Total(bs) + Total(cs)
  {
    if bs == [] {
      assert bs + cs == cs;
    } else {
      TotalAppend(bs[1..], cs);
      assert (bs + cs)[1..] == bs[1..] + cs;
    }
  }

  /** Byte d of the joined data, when it falls into block i. */
  lemma {:induction false} OriginAt(bs: seq<Block>, i: nat, k: nat)
    requires i < |bs| && k < bs[i].n
    ensures Total(bs[..i]) + k < Total(bs)
    ensures Origin(bs, Total(bs[..i]) + k) == Data(bs[i]) + k
  {
    if i > 0 {
      OriginAt(bs[1..], i - 1, k);
      assert bs[..i][1..] == bs[1..][..i - 1];
    } else {
      assert bs[..0] == [];
    }
  }
}
