/** soap_update_pointers: the pass over the table and all chains before a block moves. */
module UpdatePointers {
  import opened Memory
  import opened IdTable
  import opened IdState
  import opened IdSteps
  import opened Soap
  import opened Resolver
  import opened Relocate

  ghost function NodesOf(a: State, id: string): set<int>
    requires Keyed(a) && id in a.tab
  {
    Elems(a.links[id]) + Elems(a.copies[id])
  }

  /** Which ids own which nodes: independent of what memory holds. */
  lemma NodeOwner(m: Mem, a: State, id: string, p: int)
    requires Good(m, a) && id in a.tab && p in NodesOf(a, id)
    ensures p in a.own && a.own[p].id == id && a.own[p].len >= PTR
    ensures p in a.links[id] <==> a.own[p].kind == Slot
  {
    assert EntryOk(m, a, id);
    CopiesOwned(m, a, id);
  }

  /** Relink one chain: every word that points into the moving block follows the block. The walk
      itself stays on the old addresses. */
  method UpdateChain(c: Context, head: int, ghost ns: seq<int>, start: int, end: int, delta: int, ghost v: Move)
    requires v.from == start && v.n == end - start && v.to == start + delta
    requires start > 0 && (v.n > 0 ==> InMem(c.mem, v.to, v.n))
    requires Chain(c.mem, head, ns) && Distinct(ns)
    requires Separated(c.st.own) && OwnedInMem(c.mem, c.st.own)
    requires forall i :: 0 <= i < |ns| ==> ns[i] in c.st.own && c.st.own[ns[i]].len >= PTR
    modifies c`mem
    ensures Repointed(c.mem, v, ns)
    ensures Framed(old(c.mem), c.mem, Words(c.st.own), Elems(ns))
  {
    ghost var m := c.mem;
    var q := head;
    ghost var k := 0;
    while q != 0
      invariant 0 <= k <= |ns| && q == At(ns, k)
      invariant |c.mem| == |m|
      invariant forall i {:trigger ReadPtr(c.mem, ns[i])} :: 0 <= i < k ==> ReadPtr(c.mem, ns[i]) == Shift(v, At(ns, i + 1))
      invariant forall i {:trigger ReadPtr(c.mem, ns[i])} :: k <= i < |ns| ==> ReadPtr(c.mem, ns[i]) == At(ns, i + 1)
      invariant Framed(m, c.mem, Words(c.st.own), Elems(ns))
      decreases |ns| - k
    {
      ghost var before := c.mem;
      assert ReadPtr(c.mem, ns[k]) == At(ns, k + 1);
      var p := ReadPtr(c.mem, q);
      if p != 0 && start <= p < end {
        c.mem := WritePtr(c.mem, q, p + delta);
      }
      assert ReadPtr(c.mem, ns[k]) == Shift(v, p);
      ChainStoreKeeps(m, before, c.mem, c.st.own, ns, k);
      q := p;
      k := k + 1;
    }
  }

  lemma ChainStoreKeeps(m: Mem, r: Mem, s: Mem, own: map<int, Own>, ns: seq<int>, k: nat)
    requires k < |ns| && Distinct(ns) && Separated(own) && OwnedInMem(m, own)
    requires forall i :: 0 <= i < |ns| ==> ns[i] in own && own[ns[i]].len >= PTR
    requires Framed(m, r, Words(own), Elems(ns)) && OnlyChanges(r, s, ns[k], PTR)
    ensures forall i {:trigger ReadPtr(s, ns[i])} :: 0 <= i < |ns| && i != k ==> ReadPtr(s, ns[i]) == ReadPtr(r, ns[i])
    ensures Framed(m, s, Words(own), Elems(ns))
  {
    OtherNodesKeep(r, s, own, ns, k);
    FrameStep(m, r, s, Words(own), Elems(ns), ns[k]);
    assert Elems(ns) + {ns[k]} == Elems(ns);
  }

  /** A chain all of whose words are as in another memory. */
  ghost predicate SameWords(m: Mem, r: Mem, ns: seq<int>) {
    forall i {:trigger ns[i]} :: 0 <= i < |ns| ==> InMem(m, ns[i], PTR) && InMem(r, ns[i], PTR) && ReadPtr(r, ns[i]) == ReadPtr(m, ns[i])
  }

  lemma SameChain(m: Mem, r: Mem, head: int, ns: seq<int>)
    requires Chain(m, head, ns) && SameWords(m, r, ns)
    ensures Chain(r, head, ns)
  {
    forall i | 0 <= i < |ns|
      ensures ReadPtr(r, ns[i]) == At(ns, i + 1)
    {
      assert ReadPtr(m, ns[i]) == At(ns, i + 1);
    }
  }

  lemma FrameWords(m: Mem, r: Mem, s: Mem, a: State, id: string, c: set<int>)
    requires Good(m, a) && |r| == |m| && id in a.tab && Framed(r, s, a.own, c) && c !! NodesOf(a, id)
    ensures SameWords(r, s, a.links[id]) && SameWords(r, s, a.copies[id])
  {
    forall p | p in NodesOf(a, id)
      ensures InMem(r, p, PTR) && InMem(s, p, PTR) && ReadPtr(s, p) == ReadPtr(r, p)
    {
      NodeOwner(m, a, id, p);
      FrameOwned(r, s, a.own, c, p);
    }
    assert forall i :: 0 <= i < |a.links[id]| ==> a.links[id][i] in NodesOf(a, id);
    assert forall i :: 0 <= i < |a.copies[id]| ==> a.copies[id][i] in NodesOf(a, id);
  }

  lemma FrameKeepsRepointed(m: Mem, r: Mem, s: Mem, a: State, v: Move, id: string, c: set<int>)
    requires Good(m, a) && |r| == |m| && id in a.tab && Framed(r, s, a.own, c) && c !! NodesOf(a, id)
    requires EntryRepointed(r, a, v, id)
    ensures EntryRepointed(s, a, v, id)
  {
    FrameWords(m, r, s, a, id, c);
    forall i | 0 <= i < |a.links[id]|
      ensures ReadPtr(s, a.links[id][i]) == Shift(v, At(a.links[id], i + 1))
    {
      assert ReadPtr(r, a.links[id][i]) == Shift(v, At(a.links[id], i + 1));
    }
    forall i | 0 <= i < |a.copies[id]|
      ensures ReadPtr(s, a.copies[id][i]) == Shift(v, At(a.copies[id], i + 1))
    {
      assert ReadPtr(r, a.copies[id][i]) == Shift(v, At(a.copies[id], i + 1));
    }
  }

  lemma NodesFramed(m: Mem, r: Mem, s: Mem, a: State, id: string)
    requires Good(m, a) && id in a.tab && Framed(r, s, Words(a.own), NodesOf(a, id))
    ensures Framed(r, s, a.own, NodesOf(a, id))
  {
    forall p | p in NodesOf(a, id)
      ensures p in a.own && a.own[p].len >= PTR
    {
      NodeOwner(m, a, id, p);
    }
    WordsFramed(r, s, a.own, NodesOf(a, id));
  }

  lemma NodesDisjoint(m: Mem, a: State, id: string, i: string)
    requires Good(m, a) && id in a.tab && i in a.tab && id != i
    ensures NodesOf(a, id) !! NodesOf(a, i)
  {
    forall p | p in NodesOf(a, id) && p in NodesOf(a, i)
      ensures false
    {
      NodeOwner(m, a, id, p);
      NodeOwner(m, a, i, p);
    }
  }

  lemma NodesInside(m: Mem, a: State, id: string)
    requires Good(m, a) && Owners(a) && id in a.tab
    ensures NodesOf(a, id) <= Nodes(a)
  {
    forall p | p in NodesOf(a, id)
      ensures p in Nodes(a)
    {
      NodeOwner(m, a, id, p);
    }
  }

  /** The links and copies of one entry. */
  method UpdateChains(c: Context, ip: Entry, start: int, end: int, delta: int, ghost v: Move, ghost m: Mem)
    requires Good(m, c.st) && ip.id in c.st.tab && |c.mem| == |m|
    requires v.from == start && v.n == end - start && v.to == start + delta
    requires start > 0 && (v.n > 0 ==> InMem(m, v.to, v.n))
    requires Chain(c.mem, ip.link, c.st.links[ip.id]) && Chain(c.mem, ip.copy, c.st.copies[ip.id])
    modifies c`mem
    ensures EntryRepointed(c.mem, c.st, v, ip.id)
    ensures Framed(old(c.mem), c.mem, Words(c.st.own), NodesOf(c.st, ip.id))
  {
    ghost var a, id, r := c.st, ip.id, c.mem;
    ChainFacts(m, a, id);
    UpdateChain(c, ip.link, a.links[id], start, end, delta, v);
    ghost var s := c.mem;
    WordsFramed(r, s, a.own, Elems(a.links[id]));
    FrameSomeWords(r, s, a.own, Elems(a.links[id]), a.copies[id]);
    SameChain(r, s, ip.copy, a.copies[id]);
    UpdateChain(c, ip.copy, a.copies[id], start, end, delta, v);
    WordsFramed(s, c.mem, a.own, Elems(a.copies[id]));
    FrameSomeWords(s, c.mem, a.own, Elems(a.copies[id]), a.links[id]);
    FrameUnion(r, s, c.mem, Words(a.own), Elems(a.links[id]), Elems(a.copies[id]));
  }

  lemma ChainFacts(m: Mem, a: State, id: string)
    requires Good(m, a) && id in a.tab
    ensures Distinct(a.links[id]) && Distinct(a.copies[id])
    ensures Separated(a.own) && OwnedInMem(m, a.own)
    ensures forall i :: 0 <= i < |a.links[id]| ==> a.links[id][i] in a.own && a.own[a.links[id][i]].len >= PTR
    ensures forall i :: 0 <= i < |a.copies[id]| ==> a.copies[id][i] in a.own && a.own[a.copies[id][i]].len >= PTR
    ensures Elems(a.links[id]) !! Elems(a.copies[id])
  {
    assert EntryOk(m, a, id);
    CopiesOwned(m, a, id);
    assert forall i :: 0 <= i < |a.copies[id]| ==> a.copies[id][i] == Pending(a, id)[i];
  }

  lemma FrameSomeWords(r: Mem, s: Mem, own: map<int, Own>, c: set<int>, ns: seq<int>)
    requires Framed(r, s, own, c) && Separated(own) && OwnedInMem(r, own)
    requires forall i :: 0 <= i < |ns| ==> ns[i] in own && own[ns[i]].len >= PTR
    requires c !! Elems(ns)
    ensures SameWords(r, s, ns)
  {
    forall i | 0 <= i < |ns|
      ensures InMem(r, ns[i], PTR) && InMem(s, ns[i], PTR) && ReadPtr(s, ns[i]) == ReadPtr(r, ns[i])
    {
      FrameOwned(r, s, own, c, ns[i]);
    }
  }

  lemma FrameUnion(m: Mem, r: Mem, s: Mem, own: map<int, Own>, c: set<int>, d: set<int>)
    requires Framed(m, r, own, c) && Framed(r, s, own, d)
    ensures Framed(m, s, own, c + d)
  {
    forall x | 0 <= x < |m| && !Covered(own, c + d, x)
      ensures s[x] == m[x]
    {
      assert forall p :: p in c || p in d ==> p in c + d;
      assert !Covered(own, c, x) && !Covered(own, d, x);
    }
  }

  /** Entry (g, k) of the table as it is when the pass has come to (i, j). */
  ghost predicate Updated(t: Table, u: Table, v: Move, m: Mem, a: State, g: nat, k: nat, i: nat, j: nat)
    requires Keyed(a) && g < |t| && k < |t[g]| && |u| == |t| && |u[g]| == |t[g]|
  {
    && t[g][k].id in a.tab
    && u[g][k] == (if Before(g, k, i, j) then ShiftEntry(v, t[g][k]) else t[g][k])
    && (if Before(g, k, i, j) then EntryRepointed(m, a, v, t[g][k].id)
        else Chain(m, t[g][k].link, a.links[t[g][k].id]) && Chain(m, t[g][k].copy, a.copies[t[g][k].id]))
  }

  ghost predicate SameShape(t: Table, u: Table) {
    |u| == |t| && forall g :: 0 <= g < |t| ==> |u[g]| == |t[g]|
  }

  /** The pass has come to (i, j). */
  ghost predicate PassAt(t: Table, u: Table, v: Move, m: Mem, a: State, i: nat, j: nat)
    requires Keyed(a)
  {
    SameShape(t, u)
    && forall g, k {:trigger Updated(t, u, v, m, a, g, k, i, j)} ::
         0 <= g < |t| && 0 <= k < |t[g]| ==> Updated(t, u, v, m, a, g, k, i, j)
  }

  lemma PassStart(m: Mem, t: Table, a: State, v: Move)
    requires Sound(m, t, a)
    ensures PassAt(t, t, v, m, a, 0, 0)
  {
    forall g, k | 0 <= g < |t| && 0 <= k < |t[g]|
      ensures Updated(t, t, v, m, a, g, k, 0, 0)
    {
      assert Filed(t, a.tab, g, k);
      assert EntryOk(m, a, t[g][k].id);
    }
  }

  lemma PassRow(t: Table, u: Table, v: Move, m: Mem, a: State, i: nat)
    requires Keyed(a) && i < |t| && PassAt(t, u, v, m, a, i, |t[i]|)
    ensures PassAt(t, u, v, m, a, i + 1, 0)
  {
    var n := i + 1;
    forall g, k | 0 <= g < |t| && 0 <= k < |t[g]|
      ensures Updated(t, u, v, m, a, g, k, n, 0)
    {
      assert Updated(t, u, v, m, a, g, k, i, |t[i]|);
    }
  }

  lemma PassStep(m: Mem, r: Mem, s: Mem, t: Table, u: Table, v: Move, a: State, i: nat, j: nat)
    requires Sound(m, t, a) && |r| == |m|
    requires i < |t| && j < |t[i]| && PassAt(t, u, v, r, a, i, j)
    requires Located(t, a, t[i][j].id, i, j)
    requires EntryRepointed(s, a, v, t[i][j].id)
    requires Framed(r, s, a.own, NodesOf(a, t[i][j].id))
    ensures PassAt(t, Replace(u, i, j, ShiftEntry(v, t[i][j])), v, s, a, i, j + 1)
  {
    var w, id, n := Replace(u, i, j, ShiftEntry(v, t[i][j])), t[i][j].id, j + 1;
    forall g, k | 0 <= g < |t| && 0 <= k < |t[g]|
      ensures Updated(t, w, v, s, a, g, k, i, n)
    {
      assert Updated(t, u, v, r, a, g, k, i, j);
      if g != i || k != j {
        OtherId(t, a.tab, g, k, i, j);
        var o := t[g][k].id;
        NodesDisjoint(m, a, id, o);
        FrameWords(m, r, s, a, o, NodesOf(a, id));
        if Before(g, k, i, j) {
          FrameKeepsRepointed(m, r, s, a, v, o, NodesOf(a, id));
        } else {
          SameChain(r, s, t[g][k].link, a.links[o]);
          SameChain(r, s, t[g][k].copy, a.copies[o]);
        }
      }
    }
  }

  lemma OtherId(t: Table, tab: map<string, Entry>, g: nat, k: nat, i: nat, j: nat)
    requires Stores(t, tab) && g < |t| && k < |t[g]| && i < |t| && j < |t[i]| && (g != i || k != j)
    ensures t[g][k].id != t[i][j].id
  {
    assert Filed(t, tab, g, k) && Filed(t, tab, i, j) && NoRepeat(t[g]);
  }

  /** At the end of the pass the table stores the shifted entries and every chain is repointed. */
  lemma PassEnd(m: Mem, r: Mem, t: Table, u: Table, v: Move, a: State)
    requires Sound(m, t, a) && Owners(a) && PassAt(t, u, v, r, a, |t|, 0)
    ensures Stores(u, Moved(a, v).tab)
    ensures forall id :: id in a.tab ==> EntryRepointed(r, a, v, id)
  {
    var tab := Moved(a, v).tab;
    forall g, k | 0 <= g < |u| && 0 <= k < |u[g]|
      ensures Filed(u, tab, g, k) && u[g][k].id == t[g][k].id
    {
      assert Updated(t, u, v, r, a, g, k, |t|, 0);
      assert Filed(t, a.tab, g, k);
    }
    forall g | 0 <= g < |u|
      ensures NoRepeat(u[g])
    {
      assert NoRepeat(t[g]);
      assert forall k :: 0 <= k < |u[g]| ==> Filed(u, tab, g, k) ==> u[g][k].id == t[g][k].id;
    }
    forall id | id in a.tab
      ensures Holds(u[Hash(id, |u|)], id)
      ensures EntryRepointed(r, a, v, id)
    {
      var h := Hash(id, |t|);
      assert Holds(t[h], id);
      var k :| 0 <= k < |t[h]| && t[h][k].id == id;
      assert Updated(t, u, v, r, a, h, k, |t|, 0);
      assert u[h][k].id == id;
    }
  }

  /** The table has the new addresses and so have the words of the chains; nothing else has changed. */
  ghost predicate Told(m: Mem, r: Mem, t: Table, a: State, v: Move) {
    && Owners(a) && Stores(t, Moved(a, v).tab)
    && Framed(m, r, Words(a.own), Nodes(a))
    && forall id {:trigger EntryRepointed(r, a, v, id)} :: id in a.tab ==> EntryRepointed(r, a, v, id)
  }

  /** soap_update_pointers(start, end, p1, p2): the bytes [start, end) are about to move by p1 - p2. */
  method UpdateAll(c: Context, start: int, end: int, p1: int, p2: int, ghost v: Move)
    requires c.Valid() && start <= end
    requires v == Move(start, end - start, start + (p1 - p2))
    requires start > 0 && (v.n > 0 ==> InMem(c.mem, v.to, v.n))
    modifies c`mem, c`iht
    ensures Told(old(c.mem), c.mem, c.iht, c.st, v)
  {
    ghost var m, t, a := c.mem, c.iht, c.st;
    GoodOwners(m, a);
    PassStart(m, t, a, v);
    var i := 0;
    while i < |c.iht|
      invariant 0 <= i <= |c.iht| == |t|
      invariant PassAt(t, c.iht, v, c.mem, a, i, 0)
      invariant Framed(m, c.mem, Words(a.own), Nodes(a))
      decreases |t| - i
    {
      var j := 0;
      while j < |c.iht[i]|
        invariant 0 <= i < |c.iht| == |t| && 0 <= j <= |c.iht[i]| == |t[i]|
        invariant PassAt(t, c.iht, v, c.mem, a, i, j)
        invariant Framed(m, c.mem, Words(a.own), Nodes(a))
        decreases |t[i]| - j
      {
        UpdateEntry(c, i, j, start, end, p1 - p2, v, m, t);
        j := j + 1;
      }
      PassRow(t, c.iht, v, c.mem, a, i);
      i := i + 1;
    }
    PassEnd(m, c.mem, t, c.iht, v, a);
  }

  lemma EntryFramed(m: Mem, r: Mem, s: Mem, a: State, id: string)
    requires Good(m, a) && Owners(a) && id in a.tab
    requires Framed(m, r, Words(a.own), Nodes(a)) && Framed(r, s, Words(a.own), NodesOf(a, id))
    ensures Framed(m, s, Words(a.own), Nodes(a))
  {
    NodesInside(m, a, id);
    FrameUnion(m, r, s, Words(a.own), Nodes(a), NodesOf(a, id));
    assert Nodes(a) + NodesOf(a, id) == Nodes(a);
  }

  /** The body of the pass for the entry at (i, j). */
  method UpdateEntry(c: Context, i: nat, j: nat, start: int, end: int, delta: int, ghost v: Move, ghost m: Mem, ghost t: Table)
    requires Sound(m, t, c.st) && Owners(c.st) && |c.mem| == |m|
    requires v.from == start && v.n == end - start && v.to == start + delta
    requires start > 0 && (v.n > 0 ==> InMem(m, v.to, v.n))
    requires i < |t| && j < |t[i]| && PassAt(t, c.iht, v, c.mem, c.st, i, j)
    requires Framed(m, c.mem, Words(c.st.own), Nodes(c.st))
    modifies c`mem, c`iht
    ensures PassAt(t, c.iht, v, c.mem, c.st, i, j + 1)
    ensures Framed(m, c.mem, Words(c.st.own), Nodes(c.st))
  {
    ghost var a, r, u := c.st, c.mem, c.iht;
    assert Filed(t, a.tab, i, j);
    assert Updated(t, u, v, r, a, i, j, i, j);
    var ip := c.iht[i][j];
    var shifted := UpdateFields(ip, start, end, delta, v);
    UpdateChains(c, ip, start, end, delta, v, m);
    c.iht := Replace(c.iht, i, j, shifted);
    NodesFramed(m, r, c.mem, a, ip.id);
    PassStep(m, r, c.mem, t, u, v, a, i, j);
    EntryFramed(m, r, c.mem, a, ip.id);
  }

  /** The addresses in the entry itself. */
  method UpdateFields(ip: Entry, start: int, end: int, delta: int, ghost v: Move) returns (r: Entry)
    requires v.from == start > 0 && v.n == end - start && v.to == start + delta
    ensures r == ShiftEntry(v, ip)
  {
    var moves := (x: int) => x != 0 && start <= x < end;
    var ptr := if moves(ip.ptr) then ip.ptr + delta else ip.ptr;
    var link := if moves(ip.link) then ip.link + delta else ip.link;
    var copy := if moves(ip.copy) then ip.copy + delta else ip.copy;
    var flist := UpdateFlist(ip.flist, start, end, delta, v);
    r := ip.(ptr := ptr, link := link, copy := copy, flist := flist);
  }

  method UpdateFlist(fs: seq<Fwd>, start: int, end: int, delta: int, ghost v: Move) returns (r: seq<Fwd>)
    requires v.from == start && v.n == end - start && v.to == start + delta
    ensures r == ShiftFlist(v, fs)
  {
    r := fs;
    var i := 0;
    while i < |fs|
      invariant 0 <= i <= |fs| == |r|
      invariant forall k :: 0 <= k < |fs| ==> r[k] == if k < i then ShiftFlist(v, fs)[k] else fs[k]
    {
      if start <= r[i].ptr < end {
        r := r[i := r[i].(ptr := r[i].ptr + delta)];
      }
      i := i + 1;
    }
  }
}
