/** What the id/href machinery means: which locations wait for which id, and who owns the bytes. */
module IdState {
  import opened Memory
  import opened IdTable

  /** A Slot is a pointer that an href asked for; a Target is a region that wants a copy of an object. */
  datatype Kind = Slot | Target

  datatype Own = Own(id: string, kind: Kind, len: nat)

  /** tab is the map the hash table stores, links and copies are the nodes of each entry's chains,
      own holds every registered slot and every target still waiting. */
  datatype State = State(tab: map<string, Entry>, links: map<string, seq<int>>, copies: map<string, seq<int>>,
                         own: map<int, Own>)

  function FwdPtrs(fs: seq<Fwd>): (ps: seq<int>)
    ensures |ps| == |fs|
    ensures forall k :: 0 <= k < |fs| ==> ps[k] == fs[k].ptr
  {
    seq(|fs|, k requires 0 <= k < |fs| => fs[k].ptr)
  }

  ghost predicate Keyed(a: State) {
    a.links.Keys == a.tab.Keys && a.copies.Keys == a.tab.Keys
  }

  /** The targets waiting for id: its copy chain, then its flist. */
  ghost function Pending(a: State, id: string): seq<int>
    requires Keyed(a) && id in a.tab
  {
    a.copies[id] + FwdPtrs(a.tab[id].flist)
  }

  /** Targets of this id wait on a chain through their own first word, not on an flist. */
  predicate Threaded(id: string, n: nat) {
    n >= PTR && |id| > 0 && id[0] == '#'
  }

  ghost predicate Distinct(s: seq<int>) {
    forall i, j :: 0 <= i < j < |s| ==> s[i] != s[j]
  }

  /** No two owned regions overlap. */
  ghost predicate Separated(own: map<int, Own>) {
    forall p, q {:trigger Apart(p, own[p].len, q, own[q].len)} ::
      p in own && q in own && p != q ==> Apart(p, own[p].len, q, own[q].len)
  }

  ghost predicate OwnedInMem(m: Mem, own: map<int, Own>) {
    forall p :: p in own ==> own[p].len > 0 && InMem(m, p, own[p].len)
  }

  /** A registered slot is on its id's link chain, or already holds the entered address. */
  ghost predicate SlotOk(m: Mem, a: State, p: int)
    requires Keyed(a) && p in a.own
  {
    && a.own[p].id in a.tab
    && a.own[p].len == PTR
    && InMem(m, p, PTR)
    && (p in a.links[a.own[p].id]
        || (a.tab[a.own[p].id].ptr != 0 && ReadPtr(m, p) == a.tab[a.own[p].id].ptr))
  }

  ghost predicate TargetOk(a: State, p: int)
    requires Keyed(a) && p in a.own
  {
    a.own[p].id in a.tab && p in Pending(a, a.own[p].id)
  }

  /** One entry: its chains are intact in memory, its nodes are owned, its object is in memory. */
  ghost predicate EntryOk(m: Mem, a: State, id: string)
    requires Keyed(a) && id in a.tab
  {
    var e := a.tab[id];
    && Chain(m, e.link, a.links[id])
    && Chain(m, e.copy, a.copies[id])
    && Distinct(a.links[id])
    && Distinct(Pending(a, id))
    && (forall k :: 0 <= k < |a.links[id]| ==> a.links[id][k] in a.own && a.own[a.links[id][k]] == Own(id, Slot, PTR))
    && (forall k :: 0 <= k < |Pending(a, id)| ==>
          Pending(a, id)[k] in a.own && a.own[Pending(a, id)[k]] == Own(id, Target, e.size))
    && (a.copies[id] != [] ==> Threaded(id, e.size))
    && (e.flist != [] ==> !Threaded(id, e.size))
    && (e.ptr != 0 ==> e.ptr < WORD && InMem(m, e.ptr, e.size))
  }

  ghost predicate Good(m: Mem, a: State) {
    && Keyed(a)
    && Separated(a.own)
    && OwnedInMem(m, a.own)
    && (forall id {:trigger EntryOk(m, a, id)} :: id in a.tab ==> EntryOk(m, a, id))
    && (forall p {:trigger SlotOk(m, a, p)} :: p in a.own && a.own[p].kind == Slot ==> SlotOk(m, a, p))
    && (forall p {:trigger TargetOk(a, p)} :: p in a.own && a.own[p].kind == Target ==> TargetOk(a, p))
  }

  // ---------- framing ----------

  ghost predicate Covered(own: map<int, Own>, c: set<int>, x: int) {
    exists p :: p in c && p in own && p <= x < p + own[p].len
  }

  /** Only bytes of the regions in c may differ. */
  ghost predicate Framed(m: Mem, r: Mem, own: map<int, Own>, c: set<int>) {
    |r| == |m| && forall x :: 0 <= x < |m| && !Covered(own, c, x) ==> r[x] == m[x]
  }

  /** The first word of each region. */
  ghost function Words(own: map<int, Own>): map<int, Own> {
    map p | p in own :: own[p].(len := PTR)
  }

  /** Changes to first words only are changes to the regions. */
  lemma WordsFramed(m: Mem, r: Mem, own: map<int, Own>, c: set<int>)
    requires Framed(m, r, Words(own), c)
    requires forall p :: p in c && p in own ==> own[p].len >= PTR
    ensures Framed(m, r, own, c)
  {
    forall x | 0 <= x < |m| && !Covered(own, c, x)
      ensures r[x] == m[x]
    {
      WordInRegion(own, c, x);
    }
  }

  lemma WordInRegion(own: map<int, Own>, c: set<int>, x: int)
    requires forall p :: p in c && p in own ==> own[p].len >= PTR
    ensures Covered(Words(own), c, x) ==> Covered(own, c, x)
  {
    if Covered(Words(own), c, x) {
      var p :| p in c && p in Words(own) && p <= x < p + Words(own)[p].len;
      assert p in own && p <= x < p + own[p].len;
    }
  }

  lemma FrameStep(m: Mem, r: Mem, s: Mem, own: map<int, Own>, c: set<int>, p: int)
    requires Framed(m, r, own, c) && p in own && OnlyChanges(r, s, p, own[p].len)
    ensures Framed(m, s, own, c + {p})
  {
    forall x | 0 <= x < |m| && !Covered(own, c + {p}, x)
      ensures s[x] == m[x]
    {
      assert p in c + {p};
      assert forall q :: q in c ==> q in c + {p};
      assert !Covered(own, c, x);
    }
  }

  /** A region apart from everything in c keeps its bytes. */
  lemma FrameApart(m: Mem, r: Mem, own: map<int, Own>, c: set<int>, p: int, n: int)
    requires Framed(m, r, own, c) && InMem(m, p, n)
    requires forall q :: q in c && q in own ==> Apart(p, n, q, own[q].len)
    ensures Bytes(r, p, n) == Bytes(m, p, n)
  {
    forall x | p <= x < p + n
      ensures r[x] == m[x]
    {
      assert !Covered(own, c, x);
    }
  }

  /** An owned region that is not in c keeps its bytes, and its word if it has one. */
  lemma FrameOwned(m: Mem, r: Mem, own: map<int, Own>, c: set<int>, p: int)
    requires Framed(m, r, own, c) && Separated(own) && OwnedInMem(m, own)
    requires p in own && p !in c
    ensures Bytes(r, p, own[p].len) == Bytes(m, p, own[p].len)
    ensures own[p].len >= PTR ==> ReadPtr(r, p) == ReadPtr(m, p)
  {
    FrameApart(m, r, own, c, p, own[p].len);
    if own[p].len >= PTR {
      FrameApart(m, r, own, c, p, PTR);
    }
  }

  /** A chain none of whose nodes is in c survives. */
  lemma FrameChain(m: Mem, r: Mem, own: map<int, Own>, c: set<int>, head: int, nodes: seq<int>)
    requires Framed(m, r, own, c) && Separated(own) && OwnedInMem(m, own)
    requires Chain(m, head, nodes)
    requires forall k :: 0 <= k < |nodes| ==> nodes[k] in own && own[nodes[k]].len >= PTR && nodes[k] !in c
    ensures Chain(r, head, nodes)
  {
    forall k | 0 <= k < |nodes|
      ensures ReadPtr(r, nodes[k]) == ReadPtr(m, nodes[k])
    {
      FrameOwned(m, r, own, c, nodes[k]);
    }
  }

  ghost function Elems(s: seq<int>): set<int> {
    set x | x in s
  }

  // ---------- the resolver's links ----------

  /** Resolving the links of id: every slot of its chain now holds the entered address. */
  ghost function DropLinks(a: State, id: string): State
    requires Keyed(a) && id in a.tab
  {
    a.(tab := a.tab[id := a.tab[id].(link := 0)], links := a.links[id := []])
  }

  lemma CopiesOwned(m: Mem, a: State, i: string)
    requires Keyed(a) && i in a.tab && EntryOk(m, a, i)
    ensures forall k :: 0 <= k < |a.copies[i]| ==>
              a.copies[i][k] in a.own && a.own[a.copies[i][k]] == Own(i, Target, a.tab[i].size) && a.tab[i].size >= PTR
  {
    forall k | 0 <= k < |a.copies[i]|
      ensures a.copies[i][k] == Pending(a, i)[k]
    {
    }
  }

  lemma LinksOwned(m: Mem, a: State, id: string, p: int)
    requires Good(m, a) && id in a.tab && p in Elems(a.links[id])
    ensures p in a.own && a.own[p] == Own(id, Slot, PTR)
  {
    assert EntryOk(m, a, id);
  }

  lemma DropLinksEntry(m: Mem, r: Mem, a: State, id: string, i: string)
    requires Good(m, a) && id in a.tab && i in a.tab
    requires Framed(m, r, a.own, Elems(a.links[id]))
    ensures EntryOk(r, DropLinks(a, id), i)
  {
    var b, c := DropLinks(a, id), Elems(a.links[id]);
    assert forall p :: p in c ==> p in a.own && a.own[p] == Own(id, Slot, PTR) by {
      forall p | p in c ensures p in a.own && a.own[p] == Own(id, Slot, PTR) { LinksOwned(m, a, id, p); }
    }
    assert EntryOk(m, a, i);
    CopiesOwned(m, a, i);
    FrameChain(m, r, a.own, c, a.tab[i].copy, a.copies[i]);
    assert Pending(b, i) == Pending(a, i);
    if i != id {
      FrameChain(m, r, a.own, c, a.tab[i].link, a.links[i]);
    }
  }

  lemma DropLinksSlot(m: Mem, r: Mem, a: State, id: string, p: int)
    requires Good(m, a) && id in a.tab && a.tab[id].ptr != 0
    requires Framed(m, r, a.own, Elems(a.links[id]))
    requires forall k :: 0 <= k < |a.links[id]| ==> InMem(r, a.links[id][k], PTR) && ReadPtr(r, a.links[id][k]) == a.tab[id].ptr
    requires p in a.own && a.own[p].kind == Slot
    ensures SlotOk(r, DropLinks(a, id), p)
  {
    assert SlotOk(m, a, p);
    if p in Elems(a.links[id]) {
      LinksOwned(m, a, id, p);
    } else {
      FrameOwned(m, r, a.own, Elems(a.links[id]), p);
    }
  }

  lemma DropLinksGood(m: Mem, r: Mem, a: State, id: string)
    requires Good(m, a) && id in a.tab && a.tab[id].ptr != 0
    requires Framed(m, r, a.own, Elems(a.links[id]))
    requires forall k :: 0 <= k < |a.links[id]| ==> InMem(r, a.links[id][k], PTR) && ReadPtr(r, a.links[id][k]) == a.tab[id].ptr
    ensures Good(r, DropLinks(a, id))
  {
    var b := DropLinks(a, id);
    forall i | i in b.tab
      ensures EntryOk(r, b, i)
    {
      DropLinksEntry(m, r, a, id, i);
    }
    forall p | p in b.own && b.own[p].kind == Slot
      ensures SlotOk(r, b, p)
    {
      DropLinksSlot(m, r, a, id, p);
    }
    forall p | p in b.own && b.own[p].kind == Target
      ensures TargetOk(b, p)
    {
      assert TargetOk(a, p);
      assert Pending(b, a.own[p].id) == Pending(a, a.own[p].id);
    }
  }

  // ---------- the resolver's copies ----------

  /** A target of id starts in [s, e). */
  ghost predicate Hits(a: State, id: string, s: int, e: int)
    requires Keyed(a) && id in a.tab
  {
    exists k :: 0 <= k < |Pending(a, id)| && s <= Pending(a, id)[k] < e
  }

  /** Some waiting target starts in [s, e): what soap_has_copies looks for. */
  ghost predicate PendingIn(a: State, s: int, e: int)
    requires Keyed(a)
  {
    exists id :: id in a.tab && Hits(a, id, s, e)
  }

  /** Each target lies inside or apart from each entered object. */
  ghost predicate WellPlaced(a: State) {
    forall id, t {:trigger a.tab[id].ptr, a.own[t]} ::
      id in a.tab && a.tab[id].ptr != 0 && t in a.own && a.own[t].kind == Target ==>
        || Inside(t, a.own[t].len, a.tab[id].ptr, a.tab[id].size)
        || Apart(t, a.own[t].len, a.tab[id].ptr, a.tab[id].size)
  }

  ghost function DropPending(a: State, id: string): State
    requires Keyed(a) && id in a.tab
  {
    a.(tab := a.tab[id := a.tab[id].(copy := 0, flist := [])],
       copies := a.copies[id := []],
       own := a.own - Elems(Pending(a, id)))
  }

  lemma PendingAfterDrop(a: State, id: string, i: string)
    requires Keyed(a) && id in a.tab && i in a.tab
    ensures Keyed(DropPending(a, id))
    ensures Pending(DropPending(a, id), i) == if i == id then [] else Pending(a, i)
  {
  }

  lemma PendingOwned(m: Mem, a: State, id: string, p: int)
    requires Good(m, a) && id in a.tab && p in Elems(Pending(a, id))
    ensures p in a.own && a.own[p] == Own(id, Target, a.tab[id].size)
  {
    assert EntryOk(m, a, id);
  }

  /** What keeps the chains of i alive while the targets of id are overwritten. */
  lemma DropPendingChains(m: Mem, r: Mem, a: State, id: string, i: string)
    requires Good(m, a) && id in a.tab && i in a.tab
    requires Framed(m, r, a.own, Elems(Pending(a, id)))
    ensures Chain(r, a.tab[i].link, a.links[i])
    ensures i != id ==> Chain(r, a.tab[i].copy, a.copies[i])
  {
    var c := Elems(Pending(a, id));
    forall p | p in c
      ensures p in a.own && a.own[p] == Own(id, Target, a.tab[id].size)
    {
      PendingOwned(m, a, id, p);
    }
    assert EntryOk(m, a, i);
    CopiesOwned(m, a, i);
    FrameChain(m, r, a.own, c, a.tab[i].link, a.links[i]);
    if i != id {
      FrameChain(m, r, a.own, c, a.tab[i].copy, a.copies[i]);
    }
  }

  lemma DropPendingSelf(m: Mem, r: Mem, a: State, id: string)
    requires Good(m, a) && id in a.tab
    requires Framed(m, r, a.own, Elems(Pending(a, id)))
    ensures EntryOk(r, DropPending(a, id), id)
  {
    DropPendingChains(m, r, a, id, id);
    PendingAfterDrop(a, id, id);
    LinksSurvive(m, a, id);
    assert EntryOk(m, a, id);
  }

  lemma LinksSurvive(m: Mem, a: State, id: string)
    requires Good(m, a) && id in a.tab
    ensures var own := DropPending(a, id).own;
            forall k :: 0 <= k < |a.links[id]| ==> a.links[id][k] in own && own[a.links[id][k]] == Own(id, Slot, PTR)
  {
    assert EntryOk(m, a, id);
    SlotsSurvive(m, a, id);
  }

  lemma DropPendingOther(m: Mem, r: Mem, a: State, id: string, i: string)
    requires Good(m, a) && id in a.tab && i in a.tab && i != id
    requires Framed(m, r, a.own, Elems(Pending(a, id)))
    ensures EntryOk(r, DropPending(a, id), i)
  {
    DropPendingChains(m, r, a, id, i);
    PendingAfterDrop(a, id, i);
    assert EntryOk(m, a, i);
    OthersSurvive(m, a, id);
  }

  lemma OthersSurvive(m: Mem, a: State, id: string)
    requires Good(m, a) && id in a.tab
    ensures forall p :: p in a.own && a.own[p].id != id ==> p in DropPending(a, id).own
  {
    forall p | p in Elems(Pending(a, id))
      ensures p in a.own && a.own[p].id == id
    {
      PendingOwned(m, a, id, p);
    }
  }

  lemma SlotsSurvive(m: Mem, a: State, id: string)
    requires Good(m, a) && id in a.tab
    ensures forall p :: p in a.own && a.own[p].kind == Slot ==> p in DropPending(a, id).own
  {
    forall p | p in Elems(Pending(a, id))
      ensures p in a.own && a.own[p].kind == Target
    {
      PendingOwned(m, a, id, p);
    }
  }

  lemma SeparatedLess(own: map<int, Own>, c: set<int>)
    requires Separated(own)
    ensures Separated(own - c)
  {
    forall p, q | p in own - c && q in own - c && p != q
      ensures Apart(p, (own - c)[p].len, q, (own - c)[q].len)
    {
      assert Apart(p, own[p].len, q, own[q].len);
    }
  }

  lemma DropPendingGood(m: Mem, r: Mem, a: State, id: string)
    requires Good(m, a) && id in a.tab
    requires Framed(m, r, a.own, Elems(Pending(a, id)))
    ensures Good(r, DropPending(a, id))
  {
    var b, c := DropPending(a, id), Elems(Pending(a, id));
    assert forall p :: p in c ==> p in a.own && a.own[p] == Own(id, Target, a.tab[id].size) by {
      assert EntryOk(m, a, id);
    }
    SeparatedLess(a.own, c);
    forall i | i in b.tab
      ensures EntryOk(r, b, i)
    {
      if i == id {
        DropPendingSelf(m, r, a, id);
      } else {
        DropPendingOther(m, r, a, id, i);
      }
    }
    forall p | p in b.own && b.own[p].kind == Slot
      ensures SlotOk(r, b, p)
    {
      assert SlotOk(m, a, p);
      FrameOwned(m, r, a.own, c, p);
    }
    forall p | p in b.own && b.own[p].kind == Target
      ensures TargetOk(b, p)
    {
      assert TargetOk(a, p);
      PendingAfterDrop(a, id, a.own[p].id);
    }
  }

  /** Between the links phase (state a0) and now (state a, memory m), id is either still waiting
      for everything it waited for, or every one of its targets equals its object and no target that
      still waits lies in that object. */
  ghost predicate Settled(a0: State, a: State, m: Mem, id: string)
    requires Keyed(a0) && Keyed(a) && id in a0.tab
  {
    var e, ts := a0.tab[id], Pending(a0, id);
    && e.ptr != 0
    && InMem(m, e.ptr, e.size)
    && !PendingIn(a, e.ptr, e.ptr + e.size)
    && forall k :: 0 <= k < |ts| ==> InMem(m, ts[k], e.size) && Bytes(m, ts[k], e.size) == Bytes(m, e.ptr, e.size)
  }

  ghost predicate IdProgress(a0: State, a: State, m: Mem, id: string)
    requires Keyed(a0) && Keyed(a) && id in a0.tab
  {
    && id in a.tab
    && a.tab[id].(copy := 0, flist := []) == a0.tab[id].(copy := 0, flist := [])
    && (Pending(a, id) == Pending(a0, id)
        || (Pending(a, id) == [] && Settled(a0, a, m, id)))
  }

  ghost predicate Progress(a0: State, a: State, m: Mem) {
    && Keyed(a0) && Keyed(a)
    && a.tab.Keys == a0.tab.Keys
    && a.links == a0.links
    && (forall p :: p in a.own ==> p in a0.own && a0.own[p] == a.own[p])
    && (forall p :: p in a0.own && a0.own[p].kind == Slot ==> p in a.own)
    && (forall id {:trigger IdProgress(a0, a, m, id)} :: id in a0.tab ==> IdProgress(a0, a, m, id))
  }

  /** Copying the object of id to all its targets settles id and disturbs nothing settled before:
      earlier copies stay equal to their sources, because no waiting target was inside those. */
  lemma ProgressStep(m0: Mem, a0: State, m: Mem, r: Mem, a: State, id: string)
    requires Good(m0, a0) && WellPlaced(a0) && Good(m, a) && Progress(a0, a, m)
    requires |m0| == |m|
    requires id in a.tab && a.tab[id].ptr != 0 && Pending(a, id) != []
    requires !PendingIn(a, a.tab[id].ptr, a.tab[id].ptr + a.tab[id].size)
    requires Framed(m, r, a.own, Elems(Pending(a, id)))
    requires EntryOk(m, a, id)
    requires forall k :: 0 <= k < |Pending(a, id)| ==>
               Bytes(r, Pending(a, id)[k], a.tab[id].size) == Bytes(r, a.tab[id].ptr, a.tab[id].size)
    ensures Progress(a0, DropPending(a, id), r)
  {
    var b := DropPending(a, id);
    forall i | i in a0.tab
      ensures IdProgress(a0, b, r, i)
    {
      IdProgressStep(m0, a0, m, r, a, id, i);
    }
    OwnShrinks(m, a0, a, id);
  }

  lemma OwnShrinks(m: Mem, a0: State, a: State, id: string)
    requires Good(m, a) && id in a.tab && Keyed(a0)
    requires forall p :: p in a.own ==> p in a0.own && a0.own[p] == a.own[p]
    requires forall p :: p in a0.own && a0.own[p].kind == Slot ==> p in a.own
    ensures forall p :: p in DropPending(a, id).own ==> p in a0.own && a0.own[p] == DropPending(a, id).own[p]
    ensures forall p :: p in a0.own && a0.own[p].kind == Slot ==> p in DropPending(a, id).own
  {
    SlotsSurvive(m, a, id);
  }

  lemma SettlesNow(m0: Mem, a0: State, m: Mem, r: Mem, a: State, id: string)
    requires Good(m0, a0) && WellPlaced(a0) && Good(m, a) && Progress(a0, a, m)
    requires |m0| == |m|
    requires id in a.tab && a.tab[id].ptr != 0 && Pending(a, id) != []
    requires !PendingIn(a, a.tab[id].ptr, a.tab[id].ptr + a.tab[id].size)
    requires Framed(m, r, a.own, Elems(Pending(a, id)))
    requires EntryOk(m, a, id)
    requires forall k :: 0 <= k < |Pending(a, id)| ==>
               Bytes(r, Pending(a, id)[k], a.tab[id].size) == Bytes(r, a.tab[id].ptr, a.tab[id].size)
    ensures Keyed(DropPending(a, id)) && Settled(a0, DropPending(a, id), r, id)
  {
    assert IdProgress(a0, a, m, id);
    PendingShrinks(a, id, a.tab[id].ptr, a.tab[id].ptr + a.tab[id].size);
    assert Pending(a0, id) == Pending(a, id);
    var ts := Pending(a, id);
    forall k | 0 <= k < |ts|
      ensures InMem(r, ts[k], a.tab[id].size)
    {
      assert ts[k] in a.own;
    }
  }

  lemma IdProgressStep(m0: Mem, a0: State, m: Mem, r: Mem, a: State, id: string, i: string)
    requires Good(m0, a0) && WellPlaced(a0) && Good(m, a) && Progress(a0, a, m)
    requires |m0| == |m|
    requires id in a.tab && a.tab[id].ptr != 0 && Pending(a, id) != []
    requires !PendingIn(a, a.tab[id].ptr, a.tab[id].ptr + a.tab[id].size)
    requires Framed(m, r, a.own, Elems(Pending(a, id)))
    requires EntryOk(m, a, id)
    requires forall k :: 0 <= k < |Pending(a, id)| ==>
               Bytes(r, Pending(a, id)[k], a.tab[id].size) == Bytes(r, a.tab[id].ptr, a.tab[id].size)
    requires i in a0.tab
    ensures Keyed(DropPending(a, id)) && IdProgress(a0, DropPending(a, id), r, i)
  {
    assert IdProgress(a0, a, m, i);
    PendingAfterDrop(a, id, i);
    if i == id {
      SettlesNow(m0, a0, m, r, a, id);
    } else if Settled(a0, a, m, i) {
      PendingShrinks(a, id, a0.tab[i].ptr, a0.tab[i].ptr + a0.tab[i].size);
      SettledStays(m0, a0, m, r, a, id, i);
    }
  }

  lemma PendingShrinks(a: State, id: string, s: int, e: int)
    requires Keyed(a) && id in a.tab
    ensures Keyed(DropPending(a, id))
    ensures PendingIn(DropPending(a, id), s, e) ==> PendingIn(a, s, e)
  {
    var b := DropPending(a, id);
    if PendingIn(b, s, e) {
      var i :| i in b.tab && Hits(b, i, s, e);
      PendingAfterDrop(a, id, i);
      assert Hits(a, i, s, e);
    }
  }

  lemma SettledStays(m0: Mem, a0: State, m: Mem, r: Mem, a: State, id: string, i: string)
    requires Good(m0, a0) && WellPlaced(a0) && Good(m, a) && Progress(a0, a, m)
    requires |m0| == |m|
    requires id in a.tab && i in a0.tab && id != i && Pending(a, id) != []
    requires Framed(m, r, a.own, Elems(Pending(a, id)))
    requires Settled(a0, a, m, i)
    requires !PendingIn(DropPending(a, id), a0.tab[i].ptr, a0.tab[i].ptr + a0.tab[i].size)
    ensures Settled(a0, DropPending(a, id), r, i)
  {
    var e, ts, c := a0.tab[i], Pending(a0, i), Elems(Pending(a, id));
    assert EntryOk(m, a, id) && EntryOk(m0, a0, i) && IdProgress(a0, a, m, id);
    forall t | t in c
      ensures t in a.own && a.own[t] == Own(id, Target, a.tab[id].size) && a0.own[t] == a.own[t]
      ensures Apart(e.ptr, e.size, t, a.own[t].len)
    {
      var k :| 0 <= k < |Pending(a, id)| && Pending(a, id)[k] == t;
      assert !Hits(a, id, e.ptr, e.ptr + e.size);
      assert a0.tab[i].ptr != 0 && a0.own[t].kind == Target;
    }
    FrameApart(m, r, a.own, c, e.ptr, e.size);
    forall k | 0 <= k < |ts|
      ensures Bytes(r, ts[k], e.size) == Bytes(m, ts[k], e.size)
    {
      forall t | t in c && t in a.own
        ensures Apart(ts[k], e.size, t, a.own[t].len)
      {
        assert Apart(ts[k], a0.own[ts[k]].len, t, a0.own[t].len);
      }
      FrameApart(m, r, a.own, c, ts[k], e.size);
    }
  }

  // ---------- which ids can never be copied ----------

  ghost function Waiting(a: State): set<string>
    requires Keyed(a)
  {
    set id | id in a.tab && Pending(a, id) != []
  }

  /** id waits, and it is either never entered or its object holds a target of a member of s. */
  ghost predicate Blocked(a: State, s: set<string>, id: string)
    requires Keyed(a) && id in a.tab
  {
    a.tab[id].ptr == 0 || exists j :: j in s && j in a.tab && LiesIn(a, j, id)
  }

  /** A target of j starts in the object of id. */
  ghost predicate LiesIn(a: State, j: string, id: string)
    requires Keyed(a) && id in a.tab && j in a.tab
  {
    Hits(a, j, a.tab[id].ptr, a.tab[id].ptr + a.tab[id].size)
  }

  /** A set of waiting ids in which everyone waits for someone: forwarding within it cannot finish. */
  ghost predicate Deadlocked(a: State, s: set<string>)
    requires Keyed(a)
  {
    forall id :: id in s ==> id in a.tab && Pending(a, id) != [] && Blocked(a, s, id)
  }

  /** No member of a deadlocked set is ever settled. */
  lemma DeadlockedWaits(a0: State, a: State, m: Mem, s: set<string>)
    requires Progress(a0, a, m) && Deadlocked(a0, s)
    requires forall id :: id in s ==> id in Waiting(a)
    ensures forall id :: id in s && a.tab[id].ptr != 0 ==>
              PendingIn(a, a.tab[id].ptr, a.tab[id].ptr + a.tab[id].size)
  {
    forall id | id in s && a.tab[id].ptr != 0
      ensures PendingIn(a, a.tab[id].ptr, a.tab[id].ptr + a.tab[id].size)
    {
      assert IdProgress(a0, a, m, id);
      var j :| j in s && j in a0.tab && LiesIn(a0, j, id);
      assert IdProgress(a0, a, m, j);
      assert Hits(a, j, a.tab[id].ptr, a.tab[id].ptr + a.tab[id].size);
    }
  }

  /** A state in which every waiting id is blocked is deadlocked, as seen from the start. */
  lemma WaitingDeadlocked(a0: State, a: State, m: Mem)
    requires Progress(a0, a, m)
    requires forall id :: id in Waiting(a) ==>
               a.tab[id].ptr == 0 || PendingIn(a, a.tab[id].ptr, a.tab[id].ptr + a.tab[id].size)
    ensures Deadlocked(a0, Waiting(a))
  {
    var s := Waiting(a);
    forall id | id in s
      ensures id in a0.tab && Pending(a0, id) != [] && Blocked(a0, s, id)
    {
      assert IdProgress(a0, a, m, id);
      if a.tab[id].ptr != 0 {
        var j :| j in a.tab && Hits(a, j, a.tab[id].ptr, a.tab[id].ptr + a.tab[id].size);
        assert IdProgress(a0, a, m, j);
        assert LiesIn(a0, j, id);
        assert j in s;
      }
    }
  }

  /** rank strictly falls from an id to every id with a target inside its object. */
  ghost predicate Ranked(a: State, rank: map<string, nat>)
    requires Keyed(a)
  {
    && rank.Keys == a.tab.Keys
    && (forall i, j {:trigger LiesIn(a, j, i)} ::
          i in a.tab && j in a.tab && a.tab[i].ptr != 0 && LiesIn(a, j, i) ==> rank[j] < rank[i])
  }

  /** With acyclic containment and every source entered, only the empty set is deadlocked. */
  lemma {:induction false} AcyclicNeverDeadlocks(a: State, rank: map<string, nat>, s: set<string>, id: string)
    requires Keyed(a) && Ranked(a, rank) && Deadlocked(a, s)
    requires forall i :: i in a.tab && Pending(a, i) != [] ==> a.tab[i].ptr != 0
    requires id in a.tab
    ensures id !in s
    decreases rank[id]
  {
    if id in s {
      assert Blocked(a, s, id);
      var j :| j in s && j in a.tab && LiesIn(a, j, id);
      AcyclicNeverDeadlocks(a, rank, s, j);
    }
  }
}
