/** The 32-bit little-endian address space that the gSOAP runtime works on.
    Address 0 is NULL; a pointer is four consecutive bytes. */
module Memory {

  type Byte = b: int | 0 <= b < 256

  type Mem = m: seq<Byte> | |m| <= WORD witness []

  const WORD := 0x1_0000_0000
  const PTR := 4

  predicate InMem(m: Mem, p: int, n: int) {
    0 < p && 0 <= n && p + n <= |m|
  }

  predicate Apart(p: int, n: int, q: int, k: int) {
    p + n <= q || q + k <= p
  }

  predicate Inside(p: int, n: int, q: int, k: int) {
    q <= p && p + n <= q + k
  }

  /** A 32-bit little-endian word. */
  function Le(s: seq<Byte>): (v: int)
    requires |s| == PTR
    ensures 0 <= v < WORD
  {
    (s[0] as int) + 0x100 * (s[1] as int) + 0x1_0000 * (s[2] as int) + 0x100_0000 * (s[3] as int)
  }

  function LeBytes(v: int): (s: seq<Byte>)
    requires 0 <= v < WORD
    ensures |s| == PTR
  {
    [v % 0x100, v / 0x100 % 0x100, v / 0x1_0000 % 0x100, v / 0x100_0000]
  }

  lemma LeInverse(v: int)
    requires 0 <= v < WORD
    ensures Le(LeBytes(v)) == v
  {
    var a, b := v / 0x100, v / 0x1_0000;
    assert b == a / 0x100 && v / 0x100_0000 == b / 0x100;
  }

  /** The bytes of [p, p + n). */
  function Bytes(m: Mem, p: int, n: int): (s: seq<Byte>)
    requires InMem(m, p, n)
    ensures |s| == n
  {
    m[p..p + n]
  }

  function ReadPtr(m: Mem, p: int): (v: int)
    requires InMem(m, p, PTR)
    ensures 0 <= v < WORD
  {
    Le(Bytes(m, p, PTR))
  }

  /** Storing bs at p: those bytes change and no other. */
  function Store(m: Mem, p: int, bs: seq<Byte>): (r: Mem)
    requires InMem(m, p, |bs|)
    ensures |r| == |m|
    ensures Bytes(r, p, |bs|) == bs
    ensures forall i :: 0 <= i < |m| && !(p <= i < p + |bs|) ==> r[i] == m[i]
  {
    m[..p] + bs + m[p + |bs|..]
  }

  function WritePtr(m: Mem, p: int, v: int): (r: Mem)
    requires InMem(m, p, PTR) && 0 <= v < WORD
    ensures |r| == |m|
    ensures ReadPtr(r, p) == v
    ensures forall i :: 0 <= i < |m| && !(p <= i < p + PTR) ==> r[i] == m[i]
  {
    LeInverse(v);
    Store(m, p, LeBytes(v))
  }

  /** memcpy(d, s, n) */
  function Copy(m: Mem, d: int, s: int, n: int): (r: Mem)
    requires InMem(m, d, n) && InMem(m, s, n)
    ensures |r| == |m|
    ensures Bytes(r, d, n) == Bytes(m, s, n)
    ensures forall i :: 0 <= i < |m| && !(d <= i < d + n) ==> r[i] == m[i]
  {
    Store(m, d, Bytes(m, s, n))
  }

  /** Two memories that agree on a region read the same bytes there. */
  lemma SameBytes(m: Mem, r: Mem, p: int, n: int)
    requires |r| == |m| && InMem(m, p, n)
    requires forall i :: p <= i < p + n ==> r[i] == m[i]
    ensures Bytes(r, p, n) == Bytes(m, p, n)
  {
  }

  /** Nothing outside [p, p + n) differs. */
  ghost predicate OnlyChanges(m: Mem, r: Mem, p: int, n: int) {
    |r| == |m| && forall i :: 0 <= i < |m| && !(p <= i < p + n) ==> r[i] == m[i]
  }

  lemma ReadApart(m: Mem, r: Mem, p: int, n: int)
    requires OnlyChanges(m, r, p, n)
    ensures forall q :: InMem(m, q, PTR) && Apart(q, PTR, p, n) ==> ReadPtr(r, q) == ReadPtr(m, q)
  {
    forall q | InMem(m, q, PTR) && Apart(q, PTR, p, n)
      ensures ReadPtr(r, q) == ReadPtr(m, q)
    {
      SameBytes(m, r, q, PTR);
    }
  }

  /** A NULL-terminated list threaded through memory: nodes[0] is the head, and each node's
      word holds the next node. */
  ghost predicate Chain(m: Mem, head: int, nodes: seq<int>) {
    && head == At(nodes, 0)
    && (forall i {:trigger nodes[i]} :: 0 <= i < |nodes| ==> InMem(m, nodes[i], PTR))
    && (forall i {:trigger ReadPtr(m, nodes[i])} ::
          0 <= i < |nodes| ==> ReadPtr(m, nodes[i]) == At(nodes, i + 1))
  }

  function At(nodes: seq<int>, i: nat): int {
    if i < |nodes| then nodes[i] else 0
  }

  lemma ChainApart(m: Mem, r: Mem, head: int, nodes: seq<int>, p: int, n: int)
    requires Chain(m, head, nodes) && OnlyChanges(m, r, p, n)
    requires forall i :: 0 <= i < |nodes| ==> Apart(nodes[i], PTR, p, n)
    ensures Chain(r, head, nodes)
  {
    ReadApart(m, r, p, n);
  }

  /** A C string: the bytes in front of the first NUL. */
  function CString(s: seq<Byte>): seq<Byte> {
    if s == [] || s[0] == 0 then [] else [s[0]] + CString(s[1..])
  }

  lemma {:induction false} CStringEnds(v: seq<Byte>, z: seq<Byte>)
    ensures CString(v + [0] + z) == CString(v) && |CString(v)| <= |v|
  {
    if v != [] {
      assert (v + [0] + z)[1..] == v[1..] + [0] + z;
      CStringEnds(v[1..], z);
    }
  }

  lemma {:induction false} CStringWhole(v: seq<Byte>)
    requires 0 !in v
    ensures CString(v) == v
  {
    if v != [] {
      CStringWhole(v[1..]);
    }
  }

  lemma {:induction false} CStringOwn(s: seq<Byte>, i: nat)
    requires i <= |s| && CString(s) == s[..i]
    ensures CString(s[..i]) == s[..i]
  {
    if i > 0 {
      assert s[..i][1..] == s[1..][..i - 1];
      CStringOwn(s[1..], i - 1);
    }
  }
}
