/** Moving a block of memory while hrefs are pending in it: what soap_update_pointers does to the
    table and to the chains, and why the chains survive. */
module Relocate {
  import opened Memory
  import opened IdTable
  import opened IdState
  import opened IdSteps

  /** The n bytes at from go to the n bytes at to. */
  datatype Move = Move(from: int, n: nat, to: int)

  function Shift(v: Move, p: int): int {
    if v.from <= p < v.from + v.n then p + (v.to - v.from) else p
  }

  function ShiftAll(v: Move, ps: seq<int>): (r: seq<int>)
    ensures |r| == |ps|
  {
    seq(|ps|, i requires 0 <= i < |ps| => Shift(v, ps[i]))
  }

  function ShiftFlist(v: Move, fs: seq<Fwd>): (r: seq<Fwd>)
    ensures |r| == |fs|
  {
    seq(|fs|, i requires 0 <= i < |fs| => fs[i].(ptr := Shift(v, fs[i].ptr)))
  }

  function ShiftEntry(v: Move, e: Entry): Entry {
    e.(ptr := Shift(v, e.ptr), link := Shift(v, e.link), copy := Shift(v, e.copy), flist := ShiftFlist(v, e.flist))
  }

  /** A slot that was filled with an address inside the moving block: nothing will correct it. */
  ghost predicate Stale(a: State, v: Move, p: int)
    requires Keyed(a) && p in a.own && a.own[p].id in a.tab
  {
    && a.own[p].kind == Slot
    && p !in a.links[a.own[p].id]
    && v.from <= a.tab[a.own[p].id].ptr < v.from + v.n
  }

  ghost predicate Owners(a: State) {
    Keyed(a) && forall p :: p in a.own ==> a.own[p].id in a.tab
  }

  lemma GoodOwners(m: Mem, a: State)
    requires Good(m, a)
    ensures Owners(a)
  {
    forall p | p in a.own
      ensures a.own[p].id in a.tab
    {
      if a.own[p].kind == Slot {
        assert SlotOk(m, a, p);
      } else {
        assert TargetOk(a, p);
      }
    }
  }

  /** The state after the move: every address in the block follows it, stale slots are given up. */
  ghost function Moved(a: State, v: Move): State
    requires Owners(a)
  {
    State(map id | id in a.tab :: ShiftEntry(v, a.tab[id]),
          map id | id in a.links :: ShiftAll(v, a.links[id]),
          map id | id in a.copies :: ShiftAll(v, a.copies[id]),
          map q | q in (set p | p in a.own && !Stale(a, v, p) :: Shift(v, p)) :: a.own[Source(a, v, q)])
  }

  ghost function Source(a: State, v: Move, q: int): (p: int)
    requires Owners(a)
    requires exists p :: p in a.own && !Stale(a, v, p) && Shift(v, p) == q
    ensures p in a.own && !Stale(a, v, p) && Shift(v, p) == q
  {
    var p :| p in a.own && !Stale(a, v, p) && Shift(v, p) == q;
    p
  }

  /** The destination is free, and nothing straddles an edge of the block. */
  ghost predicate Movable(m: Mem, a: State, v: Move) {
    && InMem(m, v.from, v.n) && InMem(m, v.to, v.n)
    && (forall p :: p in a.own ==> Apart(v.to, v.n, p, a.own[p].len))
    && Apart(v.from, v.n, v.to, v.n)
    && (forall p :: p in a.own ==> Inside(p, a.own[p].len, v.from, v.n) || Apart(p, a.own[p].len, v.from, v.n))
    && (forall id :: id in a.tab && v.from <= a.tab[id].ptr < v.from + v.n ==>
          Inside(a.tab[id].ptr, a.tab[id].size, v.from, v.n))
  }

  /** Two different owned regions do not meet after the move. */
  lemma ShiftApart(m: Mem, a: State, v: Move, p: int, q: int)
    requires Good(m, a) && Movable(m, a, v)
    requires p in a.own && q in a.own && p != q
    ensures Shift(v, p) != Shift(v, q)
    ensures Apart(Shift(v, p), a.own[p].len, Shift(v, q), a.own[q].len)
  {
    assert Apart(p, a.own[p].len, q, a.own[q].len);
  }

  lemma MovedOwn(m: Mem, a: State, v: Move)
    requires Good(m, a) && Owners(a) && Movable(m, a, v)
    ensures Keyed(Moved(a, v)) && Moved(a, v).tab.Keys == a.tab.Keys
    ensures forall p :: p in a.own && !Stale(a, v, p) ==>
              Shift(v, p) in Moved(a, v).own && Moved(a, v).own[Shift(v, p)] == a.own[p]
    ensures forall q :: q in Moved(a, v).own ==>
              exists p :: p in a.own && !Stale(a, v, p) && Shift(v, p) == q
  {
    var b := Moved(a, v);
    forall p | p in a.own && !Stale(a, v, p)
      ensures Shift(v, p) in b.own && b.own[Shift(v, p)] == a.own[p]
    {
      var s := Source(a, v, Shift(v, p));
      if s != p {
        ShiftApart(m, a, v, s, p);
      }
    }
  }

  /** The words of all pending chain nodes name the new addresses of their successors. */
  ghost predicate Repointed(m: Mem, v: Move, ns: seq<int>) {
    forall i {:trigger ReadPtr(m, ns[i])} :: 0 <= i < |ns| && InMem(m, ns[i], PTR) ==>
      ReadPtr(m, ns[i]) == Shift(v, At(ns, i + 1))
  }

  ghost predicate EntryRepointed(m: Mem, a: State, v: Move, id: string)
    requires Keyed(a) && id in a.tab
  {
    Repointed(m, v, a.links[id]) && Repointed(m, v, a.copies[id])
  }

  /** The nodes of all chains. */
  ghost function Nodes(a: State): set<int>
    requires Owners(a)
  {
    set p | p in a.own && (p in a.links[a.own[p].id] || p in a.copies[a.own[p].id])
  }

  /** An owned region keeps its bytes when the block is copied to its destination. */
  lemma MovedBytes(m: Mem, r: Mem, a: State, v: Move, p: int)
    requires Good(m, a) && Movable(m, a, v) && |r| == |m| && p in a.own
    ensures InMem(r, Shift(v, p), a.own[p].len)
    ensures Bytes(Copy(r, v.to, v.from, v.n), Shift(v, p), a.own[p].len) == Bytes(r, p, a.own[p].len)
  {
    var s, n, q := Copy(r, v.to, v.from, v.n), a.own[p].len, Shift(v, p);
    if Inside(p, n, v.from, v.n) {
      var d := p - v.from;
      assert Bytes(s, v.to, v.n) == Bytes(r, v.from, v.n);
      forall x | 0 <= x < n
        ensures Bytes(s, q, n)[x] == Bytes(r, p, n)[x]
      {
        assert Bytes(s, v.to, v.n)[d + x] == Bytes(r, v.from, v.n)[d + x];
      }
    } else {
      SameBytes(r, s, p, n);
    }
  }

  lemma MovedWord(m: Mem, r: Mem, a: State, v: Move, p: int)
    requires Good(m, a) && Movable(m, a, v) && |r| == |m| && p in a.own && a.own[p].len >= PTR
    ensures InMem(r, p, PTR) && InMem(r, Shift(v, p), PTR)
    ensures ReadPtr(Copy(r, v.to, v.from, v.n), Shift(v, p)) == ReadPtr(r, p)
  {
    var s, n, q := Copy(r, v.to, v.from, v.n), a.own[p].len, Shift(v, p);
    MovedBytes(m, r, a, v, p);
    assert Bytes(s, q, n)[..PTR] == Bytes(s, q, PTR);
    assert Bytes(r, p, n)[..PTR] == Bytes(r, p, PTR);
  }

  /** A repointed chain is a chain again once the block has arrived. */
  lemma MovedChain(m: Mem, r: Mem, a: State, v: Move, head: int, ns: seq<int>)
    requires Good(m, a) && Movable(m, a, v) && |r| == |m|
    requires head == At(ns, 0) && Repointed(r, v, ns)
    requires forall i :: 0 <= i < |ns| ==> ns[i] in a.own && a.own[ns[i]].len >= PTR
    ensures Chain(Copy(r, v.to, v.from, v.n), Shift(v, head), ShiftAll(v, ns))
  {
    var s, ms := Copy(r, v.to, v.from, v.n), ShiftAll(v, ns);
    forall i | 0 <= i < |ms|
      ensures InMem(s, ms[i], PTR) && ReadPtr(s, ms[i]) == At(ms, i + 1)
    {
      MovedWord(m, r, a, v, ns[i]);
    }
  }

  lemma ShiftDistinct(m: Mem, a: State, v: Move, ps: seq<int>)
    requires Good(m, a) && Movable(m, a, v) && Distinct(ps)
    requires forall i :: 0 <= i < |ps| ==> ps[i] in a.own
    ensures Distinct(ShiftAll(v, ps))
  {
    forall i, j | 0 <= i < j < |ps|
      ensures ShiftAll(v, ps)[i] != ShiftAll(v, ps)[j]
    {
      ShiftApart(m, a, v, ps[i], ps[j]);
    }
  }

  lemma MovedPending(a: State, v: Move, id: string)
    requires Owners(a) && id in a.tab
    ensures Keyed(Moved(a, v))
    ensures Pending(Moved(a, v), id) == ShiftAll(v, Pending(a, id))
  {
    var b := Moved(a, v);
    assert FwdPtrs(b.tab[id].flist) == ShiftAll(v, FwdPtrs(a.tab[id].flist));
    assert b.copies[id] == ShiftAll(v, a.copies[id]);
  }

  lemma MovedEntryChains(m: Mem, r: Mem, a: State, v: Move, id: string)
    requires Good(m, a) && Owners(a) && Movable(m, a, v) && |r| == |m| && id in a.tab
    requires EntryRepointed(r, a, v, id)
    ensures Keyed(Moved(a, v))
    ensures var s, b := Copy(r, v.to, v.from, v.n), Moved(a, v);
      && Chain(s, b.tab[id].link, b.links[id])
      && Chain(s, b.tab[id].copy, b.copies[id])
  {
    assert EntryOk(m, a, id);
    CopiesOwned(m, a, id);
    MovedChain(m, r, a, v, a.tab[id].link, a.links[id]);
    MovedChain(m, r, a, v, a.tab[id].copy, a.copies[id]);
  }

  lemma MovedEntryShape(m: Mem, a: State, v: Move, id: string)
    requires Good(m, a) && Owners(a) && Movable(m, a, v) && id in a.tab
    ensures Keyed(Moved(a, v))
    ensures var b := Moved(a, v); var f := b.tab[id];
      && (b.copies[id] != [] ==> Threaded(id, f.size))
      && (f.flist != [] ==> !Threaded(id, f.size))
      && (f.ptr != 0 ==> f.ptr < WORD && InMem(m, f.ptr, f.size))
      && Distinct(b.links[id])
      && Distinct(Pending(b, id))
  {
    assert EntryOk(m, a, id);
    MovedPending(a, v, id);
    ShiftDistinct(m, a, v, a.links[id]);
    ShiftDistinct(m, a, v, Pending(a, id));
  }

  lemma MovedEntry(m: Mem, r: Mem, a: State, v: Move, id: string)
    requires Good(m, a) && Owners(a) && Movable(m, a, v) && |r| == |m| && id in a.tab
    requires EntryRepointed(r, a, v, id)
    ensures Keyed(Moved(a, v)) && EntryOk(Copy(r, v.to, v.from, v.n), Moved(a, v), id)
  {
    MovedPending(a, v, id);
    MovedEntryChains(m, r, a, v, id);
    MovedEntryShape(m, a, v, id);
    MovedLinksOwned(m, a, v, id);
    MovedPendingOwned(m, a, v, id);
  }

  lemma MovedLinksOwned(m: Mem, a: State, v: Move, id: string)
    requires Good(m, a) && Owners(a) && Movable(m, a, v) && id in a.tab
    ensures Keyed(Moved(a, v))
    ensures forall k :: 0 <= k < |Moved(a, v).links[id]| ==>
              Moved(a, v).links[id][k] in Moved(a, v).own && Moved(a, v).own[Moved(a, v).links[id][k]] == Own(id, Slot, PTR)
  {
    var b := Moved(a, v);
    MovedOwn(m, a, v);
    assert EntryOk(m, a, id);
    forall k | 0 <= k < |b.links[id]|
      ensures b.links[id][k] in b.own && b.own[b.links[id][k]] == Own(id, Slot, PTR)
    {
      var p := a.links[id][k];
      assert !Stale(a, v, p) && b.links[id][k] == Shift(v, p);
    }
  }

  lemma MovedPendingOwned(m: Mem, a: State, v: Move, id: string)
    requires Good(m, a) && Owners(a) && Movable(m, a, v) && id in a.tab
    ensures Keyed(Moved(a, v))
    ensures forall k :: 0 <= k < |Pending(Moved(a, v), id)| ==>
              Pending(Moved(a, v), id)[k] in Moved(a, v).own
              && Moved(a, v).own[Pending(Moved(a, v), id)[k]] == Own(id, Target, Moved(a, v).tab[id].size)
  {
    var b := Moved(a, v);
    MovedOwn(m, a, v);
    MovedPending(a, v, id);
    assert EntryOk(m, a, id);
    forall k | 0 <= k < |Pending(b, id)|
      ensures Pending(b, id)[k] in b.own && b.own[Pending(b, id)[k]] == Own(id, Target, b.tab[id].size)
    {
      var p := Pending(a, id)[k];
      assert !Stale(a, v, p) && Pending(b, id)[k] == Shift(v, p);
    }
  }

  lemma MovedSlot(m: Mem, r: Mem, a: State, v: Move, p: int)
    requires Good(m, a) && Owners(a) && Movable(m, a, v) && Framed(m, r, a.own, Nodes(a))
    requires p in a.own && a.own[p].kind == Slot && !Stale(a, v, p)
    ensures Keyed(Moved(a, v)) && Shift(v, p) in Moved(a, v).own
    ensures SlotOk(Copy(r, v.to, v.from, v.n), Moved(a, v), Shift(v, p))
  {
    var b, id := Moved(a, v), a.own[p].id;
    MovedOwn(m, a, v);
    assert SlotOk(m, a, p);
    MovedWord(m, r, a, v, p);
    if p in a.links[id] {
      var k :| 0 <= k < |a.links[id]| && a.links[id][k] == p;
      assert b.links[id][k] == Shift(v, p);
    } else {
      if p in Nodes(a) {
        assert EntryOk(m, a, id);
        CopiesOwned(m, a, id);
      }
      FrameOwned(m, r, a.own, Nodes(a), p);
    }
  }

  lemma MovedTarget(m: Mem, a: State, v: Move, p: int)
    requires Good(m, a) && Owners(a) && Movable(m, a, v)
    requires p in a.own && a.own[p].kind == Target
    ensures Keyed(Moved(a, v)) && Shift(v, p) in Moved(a, v).own
    ensures TargetOk(Moved(a, v), Shift(v, p))
  {
    var id := a.own[p].id;
    MovedOwn(m, a, v);
    assert TargetOk(a, p);
    MovedPending(a, v, id);
    var k :| 0 <= k < |Pending(a, id)| && Pending(a, id)[k] == p;
    assert Pending(Moved(a, v), id)[k] == Shift(v, p);
  }

  /** After soap_update_pointers and the memcpy of the block, every chain, slot and target is intact
      at its new address, wherever its nodes lie. */
  lemma MovedGood(m: Mem, r: Mem, a: State, v: Move)
    requires Good(m, a) && Owners(a) && Movable(m, a, v) && Framed(m, r, a.own, Nodes(a))
    requires forall id {:trigger EntryRepointed(r, a, v, id)} :: id in a.tab ==> EntryRepointed(r, a, v, id)
    ensures Good(Copy(r, v.to, v.from, v.n), Moved(a, v))
  {
    var s, b := Copy(r, v.to, v.from, v.n), Moved(a, v);
    MovedOwn(m, a, v);
    forall p, q | p in b.own && q in b.own && p != q
      ensures Apart(p, b.own[p].len, q, b.own[q].len)
    {
      ShiftApart(m, a, v, Source(a, v, p), Source(a, v, q));
    }
    forall p | p in b.own
      ensures b.own[p].len > 0 && InMem(s, p, b.own[p].len)
    {
      MovedBytes(m, r, a, v, Source(a, v, p));
    }
    forall id | id in b.tab
      ensures EntryOk(s, b, id)
    {
      assert EntryRepointed(r, a, v, id);
      MovedEntry(m, r, a, v, id);
    }
    forall p | p in b.own && b.own[p].kind == Slot
      ensures SlotOk(s, b, p)
    {
      MovedSlot(m, r, a, v, Source(a, v, p));
    }
    forall p | p in b.own && b.own[p].kind == Target
      ensures TargetOk(b, p)
    {
      MovedTarget(m, a, v, Source(a, v, p));
    }
  }

  /** soap_update_pointers follows pending chains only. A slot filled before the move keeps the old
      address, so it names the object's new place exactly when that object did not move. */
  lemma FilledSlotFollowsIffUnmoved(m: Mem, r: Mem, a: State, v: Move, p: int)
    requires Good(m, a) && Owners(a) && Movable(m, a, v) && Framed(m, r, a.own, Nodes(a))
    requires p in a.own && a.own[p].kind == Slot && p !in a.links[a.own[p].id]
    ensures var s, id := Copy(r, v.to, v.from, v.n), a.own[p].id;
      && InMem(s, Shift(v, p), PTR)
      && (ReadPtr(s, Shift(v, p)) == Shift(v, a.tab[id].ptr) <==> !(v.from <= a.tab[id].ptr < v.from + v.n))
  {
    var id := a.own[p].id;
    assert SlotOk(m, a, p);
    MovedWord(m, r, a, v, p);
    if p in Nodes(a) {
      assert EntryOk(m, a, id);
      CopiesOwned(m, a, id);
    }
    FrameOwned(m, r, a.own, Nodes(a), p);
  }
}
