/** soap_resolve: fill every slot, then copy objects to the targets that wait for them. */
module Resolver {
  import opened Memory
  import opened IdTable
  import opened IdState
  import opened IdSteps
  import opened Soap

  /** Entries before (h, j) in table order. */
  predicate Before(g: nat, k: nat, h: nat, j: nat) {
    g < h || (g == h && k < j)
  }

  ghost predicate Unhit(t: Table, a: State, s: int, e: int, g: nat, k: nat)
    requires Keyed(a) && g < |t| && k < |t[g]|
  {
    t[g][k].id in a.tab && !Hits(a, t[g][k].id, s, e)
  }

  /** If no entry of the table has a target in [s, e), there is none. */
  lemma NoneHit(t: Table, a: State, s: int, e: int)
    requires Keyed(a) && Stores(t, a.tab)
    requires forall g, k {:trigger Unhit(t, a, s, e, g, k)} :: 0 <= g < |t| && 0 <= k < |t[g]| ==> Unhit(t, a, s, e, g, k)
    ensures !PendingIn(a, s, e)
  {
    forall id | id in a.tab
      ensures !Hits(a, id, s, e)
    {
      var b := t[Hash(id, |t|)];
      assert Holds(b, id);
      var k :| 0 <= k < |b| && b[k].id == id;
      assert Unhit(t, a, s, e, Hash(id, |t|), k);
    }
  }

  /** What a walk over the targets of an entry relies on. */
  lemma CopyNodes(m: Mem, t: Table, a: State, h: nat, j: nat)
    requires Sound(m, t, a) && h < |t| && j < |t[h]|
    ensures var e := t[h][j];
      && Located(t, a, e.id, h, j)
      && var ns, ps := a.copies[e.id], Pending(a, e.id);
         && Chain(m, e.copy, ns)
         && ps == ns + FwdPtrs(e.flist)
         && |ps| == |ns| + |e.flist|
         && (forall i :: 0 <= i < |ns| ==> ps[i] == ns[i])
         && (forall i :: 0 <= i < |e.flist| ==> ps[|ns| + i] == e.flist[i].ptr)
  {
    assert Filed(t, a.tab, h, j);
    assert EntryOk(m, a, t[h][j].id);
  }

  ghost predicate AnyIn(ps: seq<int>, s: int, e: int) {
    exists k :: 0 <= k < |ps| && s <= ps[k] < e
  }

  lemma HitsSplit(a: State, id: string, s: int, e: int)
    requires Keyed(a) && id in a.tab
    ensures Hits(a, id, s, e) == (AnyIn(a.copies[id], s, e) || AnyIn(FwdPtrs(a.tab[id].flist), s, e))
  {
    var x, y, z := a.copies[id], FwdPtrs(a.tab[id].flist), Pending(a, id);
    if AnyIn(x, s, e) {
      var k :| 0 <= k < |x| && s <= x[k] < e;
      assert z[k] == x[k];
    }
    if AnyIn(y, s, e) {
      var k :| 0 <= k < |y| && s <= y[k] < e;
      assert z[|x| + k] == y[k];
    }
    if Hits(a, id, s, e) {
      var k :| 0 <= k < |z| && s <= z[k] < e;
      assert z[k] == if k < |x| then x[k] else y[k - |x|];
    }
  }

  /** soap_has_copies for one entry: walk the copy chain ns, then the flist. */
  method EntryHasCopies(m: Mem, ip: Entry, ghost ns: seq<int>, s: int, e: int) returns (r: bool)
    requires Chain(m, ip.copy, ns)
    ensures r == (AnyIn(ns, s, e) || AnyIn(FwdPtrs(ip.flist), s, e))
  {
    var p := ip.copy;
    ghost var k := 0;
    while p != 0
      invariant 0 <= k <= |ns| && p == At(ns, k)
      invariant forall i :: 0 <= i < k ==> !(s <= ns[i] < e)
      decreases |ns| - k
    {
      if s <= p < e {
        return true;
      }
      assert ReadPtr(m, ns[k]) == At(ns, k + 1);
      p := ReadPtr(m, p);
      k := k + 1;
    }
    var fs, i := ip.flist, 0;
    while i < |fs|
      invariant 0 <= i <= |fs|
      invariant forall x :: 0 <= x < i ==> !(s <= fs[x].ptr < e)
    {
      assert FwdPtrs(fs)[i] == fs[i].ptr;
      if s <= fs[i].ptr < e {
        return true;
      }
      i := i + 1;
    }
    r := false;
  }

  /** soap_has_copies: does a target that still waits start in [s, e)? */
  method HasCopies(c: Context, s: int, e: int) returns (r: bool)
    requires c.Valid()
    ensures r == PendingIn(c.st, s, e)
  {
    var i := 0;
    while i < |c.iht|
      invariant 0 <= i <= |c.iht|
      invariant forall g, k {:trigger Unhit(c.iht, c.st, s, e, g, k)} ::
                  0 <= g < i && 0 <= k < |c.iht[g]| ==> Unhit(c.iht, c.st, s, e, g, k)
    {
      var j := 0;
      while j < |c.iht[i]|
        invariant 0 <= j <= |c.iht[i]|
        invariant forall k {:trigger Unhit(c.iht, c.st, s, e, i, k)} :: 0 <= k < j ==> Unhit(c.iht, c.st, s, e, i, k)
      {
        CopyNodes(c.mem, c.iht, c.st, i, j);
        HitsSplit(c.st, c.iht[i][j].id, s, e);
        var hit := EntryHasCopies(c.mem, c.iht[i][j], c.st.copies[c.iht[i][j].id], s, e);
        if hit {
          return true;
        }
        assert Unhit(c.iht, c.st, s, e, i, j);
        j := j + 1;
      }
      i := i + 1;
    }
    NoneHit(c.iht, c.st, s, e);
    r := false;
  }

  // ---------- first phase: links ----------

  lemma LinkNodes(m: Mem, t: Table, a: State, h: nat, j: nat)
    requires Sound(m, t, a) && h < |t| && j < |t[h]|
    ensures var e := t[h][j];
      && Located(t, a, e.id, h, j)
      && (e.ptr != 0 ==> 0 < e.ptr < WORD)
      && var ns := a.links[e.id];
         && Chain(m, e.link, ns)
         && Distinct(ns)
         && (forall i :: 0 <= i < |ns| ==> ns[i] in a.own && a.own[ns[i]].len == PTR)
  {
    assert Filed(t, a.tab, h, j);
    assert EntryOk(m, a, t[h][j].id);
  }

  lemma DropLinksSound(m: Mem, r: Mem, t: Table, a: State, h: nat, j: nat)
    requires Sound(m, t, a) && h < |t| && j < |t[h]| && Located(t, a, t[h][j].id, h, j) && t[h][j].ptr != 0
    requires var ns := a.links[t[h][j].id];
      && Framed(m, r, a.own, Elems(ns))
      && forall k :: 0 <= k < |ns| ==> InMem(r, ns[k], PTR) && ReadPtr(r, ns[k]) == t[h][j].ptr
    ensures Sound(r, Replace(t, h, j, t[h][j].(link := 0)), DropLinks(a, t[h][j].id))
  {
    DropLinksGood(m, r, a, t[h][j].id);
    ReplaceStores(t, a.tab, h, j, t[h][j].(link := 0));
  }

  lemma DropPendingSound(m: Mem, r: Mem, t: Table, a: State, h: nat, j: nat)
    requires Sound(m, t, a) && h < |t| && j < |t[h]| && Located(t, a, t[h][j].id, h, j)
    requires Framed(m, r, a.own, Elems(Pending(a, t[h][j].id)))
    ensures Sound(r, Replace(t, h, j, t[h][j].(copy := 0, flist := [])), DropPending(a, t[h][j].id))
  {
    DropPendingGood(m, r, a, t[h][j].id);
    ReplaceStores(t, a.tab, h, j, t[h][j].(copy := 0, flist := []));
  }

  /** Walk the link chain of one entry and store its address in every slot. */
  method ResolveLinks(c: Context, h: nat, j: nat)
    requires c.Valid() && h < |c.iht| && j < |c.iht[h]| && c.iht[h][j].ptr != 0
    modifies c`mem, c`iht, c`st
    ensures c.Valid()
    ensures c.iht == Replace(old(c.iht), h, j, old(c.iht[h][j]).(link := 0))
    ensures var id := old(c.iht[h][j].id);
      && id in old(c.st.tab)
      && c.st == DropLinks(old(c.st), id)
      && Framed(old(c.mem), c.mem, old(c.st.own), Elems(old(c.st.links[id])))
  {
    LinkNodes(c.mem, c.iht, c.st, h, j);
    var ip := c.iht[h][j];
    ghost var m, a, id := c.mem, c.st, ip.id;
    FillChain(c, ip.link, ip.ptr, a.links[id]);
    DropLinksSound(m, c.mem, c.iht, a, h, j);
    c.iht, c.st := Replace(c.iht, h, j, ip.(link := 0)), DropLinks(a, id);
  }

  /** The walk itself: store r in every node of the chain ns. */
  method FillChain(c: Context, head: int, r: int, ghost ns: seq<int>)
    requires Chain(c.mem, head, ns) && Distinct(ns) && 0 <= r < WORD
    requires Separated(c.st.own) && OwnedInMem(c.mem, c.st.own)
    requires forall i :: 0 <= i < |ns| ==> ns[i] in c.st.own && c.st.own[ns[i]].len == PTR
    modifies c`mem
    ensures Framed(old(c.mem), c.mem, c.st.own, Elems(ns))
    ensures forall k :: 0 <= k < |ns| ==> InMem(c.mem, ns[k], PTR) && ReadPtr(c.mem, ns[k]) == r
  {
    ghost var m := c.mem;
    var q := head;
    ghost var k := 0;
    while q != 0
      invariant 0 <= k <= |ns| && q == At(ns, k)
      invariant |c.mem| == |m|
      invariant forall i {:trigger ReadPtr(c.mem, ns[i])} :: 0 <= i < k ==> ReadPtr(c.mem, ns[i]) == r
      invariant forall i {:trigger ReadPtr(c.mem, ns[i])} :: k <= i < |ns| ==> ReadPtr(c.mem, ns[i]) == At(ns, i + 1)
      invariant Framed(m, c.mem, c.st.own, Elems(ns))
      decreases |ns| - k
    {
      assert ReadPtr(c.mem, ns[k]) == At(ns, k + 1);
      var p := ReadPtr(c.mem, q);
      ghost var before := c.mem;
      c.mem := WritePtr(c.mem, q, r);
      OtherNodesKeep(before, c.mem, c.st.own, ns, k);
      FrameStep(m, before, c.mem, c.st.own, Elems(ns), q);
      assert Elems(ns) + {q} == Elems(ns);
      q := p;
      k := k + 1;
    }
  }

  lemma OtherNodesKeep(m: Mem, r: Mem, own: map<int, Own>, ns: seq<int>, k: nat)
    requires k < |ns| && Distinct(ns) && Separated(own) && OwnedInMem(m, own)
    requires forall i :: 0 <= i < |ns| ==> ns[i] in own && own[ns[i]].len >= PTR
    requires OnlyChanges(m, r, ns[k], own[ns[k]].len)
    ensures forall i :: 0 <= i < |ns| && i != k ==> ReadPtr(r, ns[i]) == ReadPtr(m, ns[i])
  {
    forall i | 0 <= i < |ns| && i != k
      ensures ReadPtr(r, ns[i]) == ReadPtr(m, ns[i])
    {
      assert Apart(ns[i], own[ns[i]].len, ns[k], own[ns[k]].len);
      SameBytes(m, r, ns[i], PTR);
    }
  }

  // ---------- second phase: copies ----------

  /** The state reached when the first k targets of ps hold the object of id. */
  ghost predicate Copied(m: Mem, r: Mem, a: State, id: string, ps: seq<int>, k: nat)
    requires Keyed(a) && id in a.tab
  {
    var e := a.tab[id];
    && k <= |ps|
    && Framed(m, r, a.own, Elems(ps[..k]))
    && InMem(r, e.ptr, e.size)
    && Bytes(r, e.ptr, e.size) == Bytes(m, e.ptr, e.size)
    && (forall i :: 0 <= i < |ps| ==> InMem(r, ps[i], e.size))
    && (forall i :: 0 <= i < k ==> Bytes(r, ps[i], e.size) == Bytes(m, e.ptr, e.size))
  }

  lemma CopiedStart(m: Mem, a: State, id: string)
    requires Good(m, a) && id in a.tab && a.tab[id].ptr != 0
    ensures Copied(m, m, a, id, Pending(a, id), 0)
  {
    assert EntryOk(m, a, id);
  }

  /** One more memcpy from the object of id to its target ps[k]. The regions cannot overlap,
      the object stays as it is, and so do the targets filled before and the chains. */
  lemma CopiedStep(m: Mem, r: Mem, a: State, id: string, k: nat)
    requires Good(m, a) && WellPlaced(a) && id in a.tab && a.tab[id].ptr != 0
    requires !PendingIn(a, a.tab[id].ptr, a.tab[id].ptr + a.tab[id].size)
    requires Copied(m, r, a, id, Pending(a, id), k) && k < |Pending(a, id)|
    ensures Apart(Pending(a, id)[k], a.tab[id].size, a.tab[id].ptr, a.tab[id].size)
    ensures Copied(m, Copy(r, Pending(a, id)[k], a.tab[id].ptr, a.tab[id].size), a, id, Pending(a, id), k + 1)
  {
    var e, ps := a.tab[id], Pending(a, id);
    assert EntryOk(m, a, id);
    var q := ps[k];
    assert q in a.own && a.own[q] == Own(id, Target, e.size);
    assert !Hits(a, id, e.ptr, e.ptr + e.size);
    assert Apart(q, e.size, e.ptr, e.size) by {
      assert a.tab[id].ptr != 0 && a.own[q].kind == Target;
    }
    var s := Copy(r, q, e.ptr, e.size);
    SameBytes(r, s, e.ptr, e.size);
    forall i | 0 <= i < k
      ensures Bytes(s, ps[i], e.size) == Bytes(r, ps[i], e.size)
    {
      assert Apart(ps[i], a.own[ps[i]].len, q, a.own[q].len);
      SameBytes(r, s, ps[i], e.size);
    }
    FrameStep(m, r, s, a.own, Elems(ps[..k]), q);
    assert Elems(ps[..k + 1]) == Elems(ps[..k]) + {q};
  }

  /** Nodes of the copy chain that are not filled yet still hold their links. */
  lemma CopyChainKeeps(m: Mem, r: Mem, a: State, id: string, k: nat, i: nat)
    requires Good(m, a) && id in a.tab && k <= i < |a.copies[id]|
    requires Framed(m, r, a.own, Elems(Pending(a, id)[..k]))
    ensures InMem(r, a.copies[id][i], PTR) && ReadPtr(r, a.copies[id][i]) == At(a.copies[id], i + 1)
  {
    assert EntryOk(m, a, id);
    CopiesOwned(m, a, id);
    assert a.copies[id][i] == Pending(a, id)[i];
    FrameOwned(m, r, a.own, Elems(Pending(a, id)[..k]), a.copies[id][i]);
  }

  /** Copy the object of one entry to every node of its copy chain; the chain is read off the
      targets just before they are overwritten. */
  method CopyChain(c: Context, ghost m: Mem, ip: Entry, ghost ns: seq<int>)
    requires Good(m, c.st) && WellPlaced(c.st) && ip.id in c.st.tab && c.st.tab[ip.id] == ip && ip.ptr != 0
    requires !PendingIn(c.st, ip.ptr, ip.ptr + ip.size)
    requires ns == c.st.copies[ip.id] && ip.copy == At(ns, 0)
    requires c.mem == m
    modifies c`mem
    ensures Copied(m, c.mem, c.st, ip.id, Pending(c.st, ip.id), |ns|)
  {
    CopiedStart(m, c.st, ip.id);
    var q := ip.copy;
    ghost var k := 0;
    while q != 0
      invariant 0 <= k <= |ns| && q == At(ns, k)
      invariant Copied(m, c.mem, c.st, ip.id, Pending(c.st, ip.id), k)
      decreases |ns| - k
    {
      CopyChainKeeps(m, c.mem, c.st, ip.id, k, k);
      CopiedStep(m, c.mem, c.st, ip.id, k);
      var p := ReadPtr(c.mem, q);
      c.mem := Copy(c.mem, q, ip.ptr, ip.size);
      q := p;
      k := k + 1;
    }
    CopiedStart(m, c.st, ip.id);
  }

  method CopyFlist(c: Context, ghost m: Mem, ip: Entry, ghost n: nat)
    requires Good(m, c.st) && WellPlaced(c.st) && ip.id in c.st.tab && c.st.tab[ip.id] == ip && ip.ptr != 0
    requires !PendingIn(c.st, ip.ptr, ip.ptr + ip.size)
    requires n == |c.st.copies[ip.id]| && Copied(m, c.mem, c.st, ip.id, Pending(c.st, ip.id), n)
    modifies c`mem
    ensures Copied(m, c.mem, c.st, ip.id, Pending(c.st, ip.id), |Pending(c.st, ip.id)|)
  {
    var fs, i := ip.flist, 0;
    while i < |fs|
      invariant 0 <= i <= |fs|
      invariant Copied(m, c.mem, c.st, ip.id, Pending(c.st, ip.id), n + i)
    {
      CopiedStep(m, c.mem, c.st, ip.id, n + i);
      c.mem := Copy(c.mem, fs[i].ptr, ip.ptr, ip.size);
      i := i + 1;
    }
  }

  /** Copy the object of one entry to every target on its copy chain and its flist. */
  method CopyOut(c: Context, h: nat, j: nat) returns (did: bool)
    requires c.Valid() && WellPlaced(c.st) && h < |c.iht| && j < |c.iht[h]|
    requires var e := c.iht[h][j]; e.ptr != 0 && !PendingIn(c.st, e.ptr, e.ptr + e.size)
    modifies c`mem, c`iht, c`st
    ensures c.Valid()
    ensures c.iht == Replace(old(c.iht), h, j, old(c.iht[h][j]).(copy := 0, flist := []))
    ensures Located(old(c.iht), old(c.st), old(c.iht[h][j].id), h, j)
    ensures var id := old(c.iht[h][j].id);
      && did == (Pending(old(c.st), id) != [])
      && c.st == DropPending(old(c.st), id)
      && Copied(old(c.mem), c.mem, old(c.st), id, Pending(old(c.st), id), |Pending(old(c.st), id)|)
  {
    CopyNodes(c.mem, c.iht, c.st, h, j);
    var ip := c.iht[h][j];
    ghost var m, a, id := c.mem, c.st, ip.id;
    did := ip.copy != 0 || ip.flist != [];
    PendingEmpty(m, a, id);
    CopyChain(c, m, ip, a.copies[id]);
    CopyFlist(c, m, ip, |a.copies[id]|);
    assert Pending(a, id)[..|Pending(a, id)|] == Pending(a, id);
    DropPendingSound(m, c.mem, c.iht, a, h, j);
    c.iht, c.st := Replace(c.iht, h, j, ip.(copy := 0, flist := [])), DropPending(a, id);
  }
}
