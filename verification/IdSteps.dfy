/** The state changes of soap_id_lookup, soap_id_forward and soap_id_enter, and why each keeps
    every chain, slot and target intact. */
module IdSteps {
  import opened Memory
  import opened IdTable
  import opened IdState

  /** Nobody registered any byte of [p, p + n). */
  ghost predicate Free(m: Mem, own: map<int, Own>, p: int, n: nat) {
    n > 0 && InMem(m, p, n) && forall q :: q in own ==> Apart(p, n, q, own[q].len)
  }

  /** Stores into free memory are invisible. */
  lemma WriteFree(m: Mem, r: Mem, a: State, p: int, n: nat)
    requires Good(m, a) && Free(m, a.own, p, n) && OnlyChanges(m, r, p, n)
    ensures Good(r, a)
  {
    ReadApart(m, r, p, n);
    forall i | i in a.tab
      ensures EntryOk(r, a, i)
    {
      assert EntryOk(m, a, i);
      CopiesOwned(m, a, i);
      ChainApart(m, r, a.tab[i].link, a.links[i], p, n);
      ChainApart(m, r, a.tab[i].copy, a.copies[i], p, n);
    }
    forall q | q in a.own && a.own[q].kind == Slot
      ensures SlotOk(r, a, q)
    {
      assert SlotOk(m, a, q);
    }
    forall q | q in a.own && a.own[q].kind == Target
      ensures TargetOk(a, q)
    {
      assert TargetOk(a, q);
    }
  }

  /** The parts of a state that decide whether entry i is intact are the same in b, and b owns more. */
  ghost predicate SameFor(a: State, b: State, i: string)
    requires Keyed(a) && Keyed(b) && i in a.tab
  {
    && i in b.tab
    && b.tab[i] == a.tab[i] && b.links[i] == a.links[i] && b.copies[i] == a.copies[i]
    && (forall q {:trigger b.own[q]} {:trigger a.own[q]} :: q in a.own ==> q in b.own && b.own[q] == a.own[q])
  }

  lemma SameForOk(m: Mem, a: State, b: State, i: string)
    requires Good(m, a) && Keyed(b) && i in a.tab && SameFor(a, b, i)
    ensures EntryOk(m, b, i)
  {
    assert EntryOk(m, a, i);
    assert Pending(b, i) == Pending(a, i);
  }

  /** Whatever waited for i in a still waits for i in b. */
  ghost predicate Keeps(a: State, b: State, i: string)
    requires Keyed(a) && Keyed(b) && i in a.tab
  {
    && i in b.tab && b.tab[i].ptr == a.tab[i].ptr
    && (forall q :: q in a.links[i] ==> q in b.links[i])
    && (forall q :: q in Pending(a, i) ==> q in Pending(b, i))
  }

  /** An extended state is intact when its entries are: every old slot and target is still
      accounted for, and p is the only new one. */
  lemma ExtendedGood(m: Mem, a: State, b: State, p: int, o: Own)
    requires Good(m, a) && Keyed(b) && Free(m, a.own, p, o.len)
    requires b.own == a.own[p := o]
    requires forall i {:trigger Keeps(a, b, i)} :: i in a.tab ==> Keeps(a, b, i)
    requires forall i {:trigger EntryOk(m, b, i)} :: i in b.tab ==> EntryOk(m, b, i)
    requires o.kind == Slot ==> SlotOk(m, b, p)
    requires o.kind == Target ==> TargetOk(b, p)
    ensures Good(m, b)
  {
    SeparatedAdd(m, a.own, p, o);
    forall q | q in b.own && b.own[q].kind == Slot
      ensures SlotOk(m, b, q)
    {
      if q != p {
        assert SlotOk(m, a, q);
        assert Keeps(a, b, a.own[q].id);
      }
    }
    forall q | q in b.own && b.own[q].kind == Target
      ensures TargetOk(b, q)
    {
      if q != p {
        assert TargetOk(a, q);
        assert Keeps(a, b, a.own[q].id);
      }
    }
  }

  lemma ChainPush(m: Mem, head: int, nodes: seq<int>, p: int)
    requires Chain(m, head, nodes) && InMem(m, p, PTR) && ReadPtr(m, p) == head
    ensures Chain(m, p, [p] + nodes)
  {
    var s := [p] + nodes;
    forall i | 0 <= i < |s|
      ensures InMem(m, s[i], PTR) && ReadPtr(m, s[i]) == At(s, i + 1)
    {
      if i > 0 {
        assert s[i] == nodes[i - 1] && At(s, i + 1) == At(nodes, i);
      } else {
        assert At(s, 1) == At(nodes, 0);
      }
    }
  }

  ghost function AddEntry(a: State, e: Entry): State {
    a.(tab := a.tab[e.id := e], links := a.links[e.id := []], copies := a.copies[e.id := []])
  }

  predicate Bare(e: Entry) {
    e.link == 0 && e.copy == 0 && e.flist == []
  }

  lemma AddEntryEntry(m: Mem, a: State, e: Entry, i: string)
    requires Good(m, a) && e.id !in a.tab && Bare(e)
    requires e.ptr != 0 ==> InMem(m, e.ptr, e.size) && e.ptr < WORD
    requires i in AddEntry(a, e).tab
    ensures EntryOk(m, AddEntry(a, e), i)
  {
    var b := AddEntry(a, e);
    if i == e.id {
      assert b.tab[i] == e && b.links[i] == [] && b.copies[i] == [] && Pending(b, i) == [];
    } else {
      SameForOk(m, a, b, i);
    }
  }

  lemma AddEntryGood(m: Mem, a: State, e: Entry)
    requires Good(m, a) && e.id !in a.tab && Bare(e)
    requires e.ptr != 0 ==> InMem(m, e.ptr, e.size) && e.ptr < WORD
    ensures Good(m, AddEntry(a, e))
  {
    var b := AddEntry(a, e);
    forall i | i in b.tab
      ensures EntryOk(m, b, i)
    {
      AddEntryEntry(m, a, e, i);
    }
    forall q | q in b.own && b.own[q].kind == Slot
      ensures SlotOk(m, b, q)
    {
      assert SlotOk(m, a, q);
    }
    forall q | q in b.own && b.own[q].kind == Target
      ensures TargetOk(b, q)
    {
      assert TargetOk(a, q);
      assert Pending(b, a.own[q].id) == Pending(a, a.own[q].id);
    }
  }

  lemma SeparatedAdd(m: Mem, own: map<int, Own>, p: int, o: Own)
    requires Separated(own) && OwnedInMem(m, own) && Free(m, own, p, o.len)
    ensures p !in own && Separated(own[p := o]) && OwnedInMem(m, own[p := o])
  {
    var b := own[p := o];
    assert p !in own;
    forall q, s | q in b && s in b && q != s
      ensures Apart(q, b[q].len, s, b[s].len)
    {
      if q != p && s != p {
        assert Apart(q, own[q].len, s, own[s].len);
      }
    }
  }

  /** p joins the front of the link chain of id. */
  ghost function PushLink(a: State, id: string, p: int): State
    requires Keyed(a) && id in a.tab
  {
    a.(tab := a.tab[id := a.tab[id].(link := p)],
       links := a.links[id := [p] + a.links[id]],
       own := a.own[p := Own(id, Slot, PTR)])
  }

  lemma PushLinkEntry(m: Mem, a: State, id: string, p: int)
    requires Good(m, a) && id in a.tab && Free(m, a.own, p, PTR)
    requires ReadPtr(m, p) == a.tab[id].link && p !in a.own
    ensures EntryOk(m, PushLink(a, id, p), id)
  {
    var b := PushLink(a, id, p);
    assert EntryOk(m, a, id);
    assert Pending(b, id) == Pending(a, id);
    ChainPush(m, a.tab[id].link, a.links[id], p);
    assert forall k :: 0 < k < |b.links[id]| ==> b.links[id][k] == a.links[id][k - 1];
  }

  lemma PushLinkKeeps(a: State, id: string, p: int, i: string)
    requires Keyed(a) && id in a.tab && i in a.tab
    ensures Keyed(PushLink(a, id, p)) && Keeps(a, PushLink(a, id, p), i)
  {
    var b := PushLink(a, id, p);
    assert Pending(b, i) == Pending(a, i);
  }

  lemma PushLinkGood(m: Mem, a: State, id: string, p: int)
    requires Good(m, a) && id in a.tab && Free(m, a.own, p, PTR)
    requires ReadPtr(m, p) == a.tab[id].link
    ensures Good(m, PushLink(a, id, p))
  {
    var b, o := PushLink(a, id, p), Own(id, Slot, PTR);
    assert p !in a.own;
    forall i | i in b.tab
      ensures EntryOk(m, b, i)
    {
      if i == id {
        PushLinkEntry(m, a, id, p);
      } else {
        SameForOk(m, a, b, i);
      }
    }
    forall i | i in a.tab
      ensures Keeps(a, b, i)
    {
      PushLinkKeeps(a, id, p, i);
    }
    assert SlotOk(m, b, p) by {
      assert b.links[id][0] == p;
    }
    ExtendedGood(m, a, b, p, o);
  }

  /** p is filled at once because id was entered before. */
  ghost function AddSlot(a: State, id: string, p: int): State {
    a.(own := a.own[p := Own(id, Slot, PTR)])
  }

  lemma AddSlotGood(m: Mem, a: State, id: string, p: int)
    requires Good(m, a) && id in a.tab && Free(m, a.own, p, PTR)
    requires a.tab[id].ptr != 0 && ReadPtr(m, p) == a.tab[id].ptr
    ensures Good(m, AddSlot(a, id, p))
  {
    var b, o := AddSlot(a, id, p), Own(id, Slot, PTR);
    assert p !in a.own;
    forall i | i in b.tab
      ensures EntryOk(m, b, i)
    {
      SameForOk(m, a, b, i);
    }
    forall i | i in a.tab
      ensures Keeps(a, b, i)
    {
      assert Pending(b, i) == Pending(a, i);
    }
    ExtendedGood(m, a, b, p, o);
  }

  /** p joins the front of the copy chain of id. */
  ghost function PushCopy(a: State, id: string, p: int): State
    requires Keyed(a) && id in a.tab
  {
    a.(tab := a.tab[id := a.tab[id].(copy := p)],
       copies := a.copies[id := [p] + a.copies[id]],
       own := a.own[p := Own(id, Target, a.tab[id].size)])
  }

  /** A flist node joins the front of the flist of id. */
  ghost function PushFwd(a: State, id: string, f: Fwd): State
    requires Keyed(a) && id in a.tab
  {
    a.(tab := a.tab[id := a.tab[id].(flist := [f] + a.tab[id].flist)],
       own := a.own[f.ptr := Own(id, Target, a.tab[id].size)])
  }

  lemma PushCopyGood(m: Mem, a: State, id: string, p: int)
    requires Good(m, a) && id in a.tab && Free(m, a.own, p, a.tab[id].size)
    requires Threaded(id, a.tab[id].size)
    requires InMem(m, p, PTR) && ReadPtr(m, p) == a.tab[id].copy
    ensures Good(m, PushCopy(a, id, p))
  {
    var b := PushCopy(a, id, p);
    assert EntryOk(m, a, id);
    ChainPush(m, a.tab[id].copy, a.copies[id], p);
    assert Pending(b, id) == [p] + Pending(a, id);
    TargetAddedGood(m, a, b, id, p);
  }

  lemma PushFwdGood(m: Mem, a: State, id: string, f: Fwd)
    requires Good(m, a) && id in a.tab && Free(m, a.own, f.ptr, a.tab[id].size)
    requires !Threaded(id, a.tab[id].size)
    ensures Good(m, PushFwd(a, id, f))
  {
    var b := PushFwd(a, id, f);
    assert EntryOk(m, a, id);
    assert FwdPtrs([f] + a.tab[id].flist) == [f.ptr] + FwdPtrs(a.tab[id].flist);
    assert Pending(b, id) == [f.ptr] + Pending(a, id);
    TargetAddedGood(m, a, b, id, f.ptr);
  }

  /** b is a with one new target p for id, in front of its other targets. */
  ghost predicate TargetAdded(a: State, b: State, id: string, p: int)
    requires Keyed(a) && Keyed(b)
  {
    && id in a.tab
    && b.tab.Keys == a.tab.Keys && b.links == a.links
    && (forall i :: i in a.tab && i != id ==> b.tab[i] == a.tab[i] && b.copies[i] == a.copies[i])
    && b.tab[id].(copy := 0, flist := []) == a.tab[id].(copy := 0, flist := [])
    && b.own == a.own[p := Own(id, Target, a.tab[id].size)]
    && Pending(b, id) == [p] + Pending(a, id)
    && (b.copies[id] != [] ==> Threaded(id, a.tab[id].size))
    && (b.tab[id].flist != [] ==> !Threaded(id, a.tab[id].size))
  }

  lemma TargetAddedEntry(m: Mem, a: State, b: State, id: string, p: int)
    requires Good(m, a) && Keyed(b) && TargetAdded(a, b, id, p) && p !in a.own
    requires Chain(m, b.tab[id].copy, b.copies[id])
    ensures EntryOk(m, b, id)
  {
    assert EntryOk(m, a, id);
    var x, y := Pending(a, id), Pending(b, id);
    assert forall j :: 0 < j < |y| ==> y[j] == x[j - 1];
  }

  lemma TargetAddedGood(m: Mem, a: State, b: State, id: string, p: int)
    requires Good(m, a) && Keyed(b) && TargetAdded(a, b, id, p)
    requires Free(m, a.own, p, a.tab[id].size)
    requires Chain(m, b.tab[id].copy, b.copies[id])
    ensures Good(m, b)
  {
    var o := Own(id, Target, a.tab[id].size);
    assert p !in a.own;
    forall i | i in b.tab
      ensures EntryOk(m, b, i)
    {
      if i != id {
        SameForOk(m, a, b, i);
      } else {
        TargetAddedEntry(m, a, b, id, p);
      }
    }
    forall i | i in a.tab
      ensures Keeps(a, b, i)
    {
      assert i != id ==> Pending(b, i) == Pending(a, i);
    }
    assert Pending(b, id)[0] == p;
    ExtendedGood(m, a, b, p, o);
  }

  /** The object of id is now known to be at p. */
  ghost function SetPtr(a: State, id: string, p: int, n: nat): State
    requires Keyed(a) && id in a.tab
  {
    a.(tab := a.tab[id := a.tab[id].(ptr := p, size := n)])
  }

  lemma SetPtrEntry(m: Mem, a: State, id: string, p: int, n: nat, i: string)
    requires Good(m, a) && id in a.tab && i in a.tab && a.tab[id].ptr == 0
    requires p != 0 ==> 0 < p < WORD && InMem(m, p, n)
    requires n == a.tab[id].size || Pending(a, id) == []
    ensures EntryOk(m, SetPtr(a, id, p, n), i)
    ensures Pending(SetPtr(a, id, p, n), i) == Pending(a, i)
  {
    var b := SetPtr(a, id, p, n);
    assert EntryOk(m, a, i);
    assert Pending(b, i) == Pending(a, i);
    assert |Pending(a, i)| == |a.copies[i]| + |a.tab[i].flist|;
  }

  lemma SetPtrGood(m: Mem, a: State, id: string, p: int, n: nat)
    requires Good(m, a) && id in a.tab && a.tab[id].ptr == 0
    requires p != 0 ==> 0 < p < WORD && InMem(m, p, n)
    requires n == a.tab[id].size || Pending(a, id) == []
    ensures Good(m, SetPtr(a, id, p, n))
  {
    var b := SetPtr(a, id, p, n);
    forall i | i in b.tab
      ensures EntryOk(m, b, i) && Pending(b, i) == Pending(a, i)
    {
      SetPtrEntry(m, a, id, p, n, i);
    }
    forall q | q in b.own && b.own[q].kind == Slot
      ensures SlotOk(m, b, q)
    {
      assert SlotOk(m, a, q);
    }
    forall q | q in b.own && b.own[q].kind == Target
      ensures TargetOk(b, q)
    {
      assert TargetOk(a, q);
      assert Pending(b, a.own[q].id) == Pending(a, a.own[q].id);
    }
  }
}
