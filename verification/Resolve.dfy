/** soap_resolve as a whole. */
module Resolve {
  import opened Memory
  import opened IdTable
  import opened IdState
  import opened IdSteps
  import opened Soap
  import opened Resolver

  /** An id that must be defined in the message itself. */
  predicate Local(id: string) {
    |id| > 0 && id[0] == '#'
  }

  lemma Locate(t: Table, tab: map<string, Entry>, id: string) returns (h: nat, j: nat)
    requires Stores(t, tab) && id in tab
    ensures h < |t| && j < |t[h]| && t[h][j] == tab[id] && t[h][j].id == id
  {
    h := Hash(id, |t|);
    assert Holds(t[h], id);
    j :| 0 <= j < |t[h]| && t[h][j].id == id;
    assert Filed(t, tab, h, j);
  }

  // ---------- first phase ----------

  /** b is a with some link chains of entered ids emptied. */
  ghost predicate OnlyLinks(a: State, b: State, id: string)
    requires Keyed(a) && Keyed(b) && id in a.tab
  {
    && id in b.tab
    && b.tab[id].(link := 0) == a.tab[id].(link := 0)
    && b.copies[id] == a.copies[id]
    && (b.links[id] == a.links[id] || (b.links[id] == [] && a.tab[id].ptr != 0))
  }

  ghost predicate Linking(a: State, b: State) {
    && Keyed(a) && Keyed(b)
    && b.tab.Keys == a.tab.Keys
    && b.own == a.own
    && (forall id {:trigger OnlyLinks(a, b, id)} :: id in a.tab ==> OnlyLinks(a, b, id))
  }

  lemma LinkingStep(a: State, b: State, id: string)
    requires Linking(a, b) && id in a.tab && b.tab[id].ptr != 0
    ensures Linking(a, DropLinks(b, id))
  {
    var d := DropLinks(b, id);
    forall i | i in a.tab
      ensures OnlyLinks(a, d, i)
    {
      assert OnlyLinks(a, b, i);
    }
  }

  lemma LinkingPending(a: State, b: State, id: string)
    requires Linking(a, b) && id in a.tab
    ensures Pending(b, id) == Pending(a, id) && b.tab[id].ptr == a.tab[id].ptr && b.tab[id].size == a.tab[id].size
  {
    assert OnlyLinks(a, b, id);
  }

  /** The entry at (g, k) needs nothing more from the first phase. */
  ghost predicate Linked(t: Table, a: State, g: nat, k: nat)
    requires Keyed(a) && g < |t| && k < |t[g]|
  {
    && t[g][k].id in a.tab
    && (t[g][k].ptr != 0 ==> a.links[t[g][k].id] == [])
    && (Local(t[g][k].id) ==> t[g][k].ptr != 0)
  }

  /** The slots whose chains the first phase empties. */
  ghost function LinkSlots(a: State): set<int>
    requires Keyed(a)
  {
    set p | p in a.own && a.own[p].kind == Slot && a.own[p].id in a.tab && a.tab[a.own[p].id].ptr != 0
  }

  lemma LinkSlotsHold(m: Mem, a: State, b: State, id: string)
    requires Good(m, b) && Linking(a, b) && id in a.tab && a.tab[id].ptr != 0
    ensures Elems(b.links[id]) <= LinkSlots(a)
  {
    forall p | p in Elems(b.links[id])
      ensures p in LinkSlots(a)
    {
      LinksOwned(m, b, id, p);
    }
  }

  lemma FrameWider(m: Mem, r: Mem, s: Mem, own: map<int, Own>, small: map<int, Own>, c: set<int>, d: set<int>)
    requires Framed(m, r, own, c) && Framed(r, s, small, d)
    requires forall p :: p in small ==> p in own && own[p] == small[p]
    ensures Framed(m, s, own, c + d)
  {
    forall x | 0 <= x < |m| && !Covered(own, c + d, x)
      ensures s[x] == m[x]
    {
      assert forall p :: p in c || p in d ==> p in c + d;
      assert !Covered(own, c, x) && !Covered(small, d, x);
    }
  }

  /** The first loop nest of soap_resolve. */
  method LinkAll(c: Context) returns (missing: bool)
    requires c.Valid()
    modifies c
    ensures c.Valid() && Linking(old(c.st), c.st)
    ensures Framed(old(c.mem), c.mem, old(c.st.own), LinkSlots(old(c.st)))
    ensures missing <==> exists id :: id in old(c.st.tab) && Local(id) && old(c.st.tab)[id].ptr == 0
    ensures missing ==> c.error == SoapMissingId && ("#" + c.id) in old(c.st.tab) && old(c.st.tab)["#" + c.id].ptr == 0
    ensures !missing ==> c.error == old(c.error) && c.id == old(c.id)
    ensures !missing ==> forall id :: id in c.st.tab && c.st.tab[id].ptr != 0 ==> c.st.links[id] == []
  {
    ghost var m, a := c.mem, c.st;
    assert forall id :: id in a.tab ==> OnlyLinks(a, a, id);
    var i := 0;
    while i < |c.iht|
      invariant 0 <= i <= |c.iht| == |old(c.iht)|
      invariant c.Valid() && Linking(a, c.st)
      invariant Framed(m, c.mem, a.own, LinkSlots(a))
      invariant c.error == old(c.error) && c.id == old(c.id)
      invariant forall g, k {:trigger Linked(c.iht, c.st, g, k)} :: 0 <= g < i && 0 <= k < |c.iht[g]| ==> Linked(c.iht, c.st, g, k)
    {
      var j := 0;
      while j < |c.iht[i]|
        invariant 0 <= i < |c.iht| == |old(c.iht)| && 0 <= j <= |c.iht[i]|
        invariant c.Valid() && Linking(a, c.st)
        invariant Framed(m, c.mem, a.own, LinkSlots(a))
        invariant c.error == old(c.error) && c.id == old(c.id)
        invariant forall g, k {:trigger Linked(c.iht, c.st, g, k)} ::
                    0 <= g <= i && 0 <= k < |c.iht[g]| && Before(g, k, i, j) ==> Linked(c.iht, c.st, g, k)
        decreases |c.iht[i]| - j
      {
        missing := LinkEntry(c, i, j, m, a);
        if missing {
          return;
        }
        j := j + 1;
      }
      i := i + 1;
    }
    AllLinked(c.iht, a, c.st);
    missing := false;
  }

  lemma AllLinked(t: Table, a: State, b: State)
    requires Linking(a, b) && Stores(t, b.tab)
    requires forall g, k {:trigger Linked(t, b, g, k)} :: 0 <= g < |t| && 0 <= k < |t[g]| ==> Linked(t, b, g, k)
    ensures forall id :: id in b.tab && b.tab[id].ptr != 0 ==> b.links[id] == []
    ensures forall id :: id in a.tab && Local(id) ==> a.tab[id].ptr != 0
  {
    forall id | id in b.tab
      ensures b.tab[id].ptr != 0 ==> b.links[id] == []
      ensures Local(id) ==> a.tab[id].ptr != 0
    {
      var h, j := Locate(t, b.tab, id);
      assert Linked(t, b, h, j);
      assert OnlyLinks(a, b, id);
    }
  }

  /** The body of the first loop nest, for the entry at (i, j). */
  method LinkEntry(c: Context, i: nat, j: nat, ghost m: Mem, ghost a: State) returns (missing: bool)
    requires c.Valid() && Linking(a, c.st) && Framed(m, c.mem, a.own, LinkSlots(a))
    requires i < |c.iht| && j < |c.iht[i]|
    requires forall g, k {:trigger Linked(c.iht, c.st, g, k)} ::
               0 <= g <= i && 0 <= k < |c.iht[g]| && Before(g, k, i, j) ==> Linked(c.iht, c.st, g, k)
    modifies c
    ensures c.Valid() && Linking(a, c.st) && Framed(m, c.mem, a.own, LinkSlots(a))
    ensures |c.iht| == |old(c.iht)| && i < |c.iht| && |c.iht[i]| == |old(c.iht)[i]|
    ensures missing ==> c.error == SoapMissingId && Local("#" + c.id) && ("#" + c.id) in a.tab && a.tab["#" + c.id].ptr == 0
    ensures !missing ==>
      && c.error == old(c.error) && c.id == old(c.id)
      && forall g, k {:trigger Linked(c.iht, c.st, g, k)} ::
           0 <= g <= i && 0 <= k < |c.iht[g]| && Before(g, k, i, j + 1) ==> Linked(c.iht, c.st, g, k)
  {
    LinkNodes(c.mem, c.iht, c.st, i, j);
    var ip := c.iht[i][j];
    ghost var b, t, r := c.st, c.iht, c.mem;
    assert OnlyLinks(a, b, ip.id);
    missing := false;
    if ip.ptr != 0 {
      LinkingStep(a, b, ip.id);
      LinkSlotsHold(r, a, b, ip.id);
      ResolveLinks(c, i, j);
      FrameWider(m, r, c.mem, a.own, b.own, LinkSlots(a), Elems(b.links[ip.id]));
      assert LinkSlots(a) + Elems(b.links[ip.id]) == LinkSlots(a);
      LinkedKept(t, b, i, j);
    } else if |ip.id| > 0 && ip.id[0] == '#' {
      c.id := ip.id[1..];
      c.error := SoapMissingId;
      assert "#" + c.id == ip.id;
      missing := true;
    } else {
      assert Linked(t, b, i, j);
    }
  }

  lemma LinkedKept(t: Table, b: State, i: nat, j: nat)
    requires Keyed(b) && Stores(t, b.tab) && i < |t| && j < |t[i]| && Located(t, b, t[i][j].id, i, j) && t[i][j].ptr != 0
    requires forall g, k {:trigger Linked(t, b, g, k)} ::
               0 <= g <= i && 0 <= k < |t[g]| && Before(g, k, i, j) ==> Linked(t, b, g, k)
    ensures var u, d := Replace(t, i, j, t[i][j].(link := 0)), DropLinks(b, t[i][j].id);
      forall g, k {:trigger Linked(u, d, g, k)} ::
        0 <= g <= i && 0 <= k < |u[g]| && Before(g, k, i, j + 1) ==> Linked(u, d, g, k)
  {
    var u, d := Replace(t, i, j, t[i][j].(link := 0)), DropLinks(b, t[i][j].id);
    forall g, k | 0 <= g <= i && 0 <= k < |u[g]| && Before(g, k, i, j + 1)
      ensures Linked(u, d, g, k)
    {
      if Before(g, k, i, j) {
        assert Linked(t, b, g, k);
      }
    }
  }

  // ---------- second phase ----------

  lemma WellPlacedAfterDrop(a: State, id: string)
    requires Keyed(a) && id in a.tab && WellPlaced(a)
    ensures WellPlaced(DropPending(a, id))
  {
    var b := DropPending(a, id);
    forall i, t | i in b.tab && b.tab[i].ptr != 0 && t in b.own && b.own[t].kind == Target
      ensures Inside(t, b.own[t].len, b.tab[i].ptr, b.tab[i].size) || Apart(t, b.own[t].len, b.tab[i].ptr, b.tab[i].size)
    {
      assert a.tab[i].ptr != 0 && a.own[t].kind == Target;
    }
  }

  /** Every set that is deadlocked at the start is still waiting. */
  ghost predicate DeadlocksWait(a0: State, a: State)
    requires Keyed(a0) && Keyed(a)
  {
    forall s: set<string> {:trigger Deadlocked(a0, s)} :: Deadlocked(a0, s) ==> s <= Waiting(a)
  }

  lemma WaitingAfterDrop(a: State, id: string)
    requires Keyed(a) && id in a.tab
    ensures Keyed(DropPending(a, id)) && Waiting(DropPending(a, id)) == Waiting(a) - {id}
  {
    forall i | i in a.tab
      ensures i in Waiting(DropPending(a, id)) <==> i in Waiting(a) - {id}
    {
      PendingAfterDrop(a, id, i);
    }
  }

  lemma DeadlocksStep(a0: State, a: State, m: Mem, id: string)
    requires Progress(a0, a, m) && DeadlocksWait(a0, a)
    requires id in a.tab && a.tab[id].ptr != 0 && !PendingIn(a, a.tab[id].ptr, a.tab[id].ptr + a.tab[id].size)
    ensures Keyed(DropPending(a, id)) && DeadlocksWait(a0, DropPending(a, id))
  {
    WaitingAfterDrop(a, id);
    forall s: set<string> | Deadlocked(a0, s)
      ensures s <= Waiting(DropPending(a, id))
    {
      DeadlockedWaits(a0, a, m, s);
    }
  }

  /** What holds throughout the second phase, which started at memory m0 and state a0. */
  ghost predicate Copying(m0: Mem, a0: State, m: Mem, a: State) {
    && Good(m0, a0) && Good(m, a) && WellPlaced(a0) && WellPlaced(a)
    && Progress(a0, a, m)
    && DeadlocksWait(a0, a)
    && Framed(m0, m, a0.own, a0.own.Keys - a.own.Keys)
  }

  lemma CopyingStep(m0: Mem, a0: State, m: Mem, r: Mem, a: State, id: string)
    requires Copying(m0, a0, m, a) && id in a.tab && a.tab[id].ptr != 0
    requires !PendingIn(a, a.tab[id].ptr, a.tab[id].ptr + a.tab[id].size)
    requires Pending(a, id) != []
    requires Copied(m, r, a, id, Pending(a, id), |Pending(a, id)|)
    requires Good(r, DropPending(a, id))
    ensures Copying(m0, a0, r, DropPending(a, id))
  {
    var ps, d := Pending(a, id), DropPending(a, id);
    assert ps[..|ps|] == ps;
    assert EntryOk(m, a, id);
    ProgressStep(m0, a0, m, r, a, id);
    DeadlocksStep(a0, a, m, id);
    WellPlacedAfterDrop(a, id);
    FrameWider(m0, m, r, a0.own, a.own, a0.own.Keys - a.own.Keys, Elems(ps));
    assert a0.own.Keys - a.own.Keys + Elems(ps) == a0.own.Keys - d.own.Keys;
  }

  /** Nothing could be done for the entry at (g, k). */
  ghost predicate Stuck(t: Table, a: State, g: nat, k: nat)
    requires Keyed(a) && g < |t| && k < |t[g]|
  {
    var e := t[g][k];
    e.id in a.tab && (Pending(a, e.id) == [] || e.ptr == 0 || PendingIn(a, e.ptr, e.ptr + e.size))
  }

  lemma AllStuck(a0: State, t: Table, a: State, m: Mem)
    requires Progress(a0, a, m) && Stores(t, a.tab)
    requires forall g, k {:trigger Stuck(t, a, g, k)} :: 0 <= g < |t| && 0 <= k < |t[g]| ==> Stuck(t, a, g, k)
    ensures Deadlocked(a0, Waiting(a))
  {
    forall id | id in Waiting(a)
      ensures a.tab[id].ptr == 0 || PendingIn(a, a.tab[id].ptr, a.tab[id].ptr + a.tab[id].size)
    {
      var h, j := Locate(t, a.tab, id);
      assert Stuck(t, a, h, j);
    }
    WaitingDeadlocked(a0, a, m);
  }

  /** The body of the second loop nest, for the entry at (i, j). */
  method CopyEntry(c: Context, i: nat, j: nat, ghost m0: Mem, ghost a0: State) returns (did: bool)
    requires c.Valid() && Copying(m0, a0, c.mem, c.st)
    requires i < |c.iht| && j < |c.iht[i]|
    modifies c`mem, c`iht, c`st
    ensures c.Valid() && Copying(m0, a0, c.mem, c.st)
    ensures |c.iht| == |old(c.iht)| && |c.iht[i]| == |old(c.iht)[i]|
    ensures did ==> Waiting(c.st) < Waiting(old(c.st))
    ensures !did ==> c.iht == old(c.iht) && c.st == old(c.st) && Stuck(c.iht, c.st, i, j)
  {
    CopyNodes(c.mem, c.iht, c.st, i, j);
    var ip := c.iht[i][j];
    ghost var m, a, t := c.mem, c.st, c.iht;
    did := false;
    if ip.ptr != 0 {
      var hit := HasCopies(c, ip.ptr, ip.ptr + ip.size);
      if !hit {
        did := CopyOut(c, i, j);
        WaitingAfterDrop(a, ip.id);
        if did {
          CopyingStep(m0, a0, m, c.mem, a, ip.id);
        } else {
          NothingDropped(m, c.mem, t, a, i, j);
        }
      }
    }
  }

  lemma NothingDropped(m: Mem, r: Mem, t: Table, a: State, i: nat, j: nat)
    requires Sound(m, t, a) && i < |t| && j < |t[i]| && Located(t, a, t[i][j].id, i, j)
    requires Pending(a, t[i][j].id) == []
    requires Copied(m, r, a, t[i][j].id, Pending(a, t[i][j].id), 0)
    ensures r == m
    ensures Replace(t, i, j, t[i][j].(copy := 0, flist := [])) == t
    ensures DropPending(a, t[i][j].id) == a
  {
    var id := t[i][j].id;
    PendingEmpty(m, a, id);
    assert EntryOk(m, a, id);
    assert |a.copies[id]| == 0;
    assert a.tab[id := a.tab[id]] == a.tab && a.copies[id := []] == a.copies;
    assert a.own - Elems([]) == a.own;
    assert t[i][j := t[i][j]] == t[i];
    assert forall x :: 0 <= x < |m| ==> !Covered(a.own, Elems([]), x);
  }

  /** The second loop nest of soap_resolve: passes over the table until one changes nothing. */
  method CopyAll(c: Context)
    requires c.Valid() && WellPlaced(c.st)
    modifies c`mem, c`iht, c`st
    ensures c.Valid() && Copying(old(c.mem), old(c.st), c.mem, c.st)
    ensures Deadlocked(old(c.st), Waiting(c.st))
  {
    ghost var m0, a0 := c.mem, c.st;
    CopyingStart(m0, a0);
    var flag := true;
    while flag
      invariant c.Valid() && Copying(m0, a0, c.mem, c.st)
      invariant !flag ==> Deadlocked(a0, Waiting(c.st))
      decreases |Waiting(c.st)|, flag
    {
      flag := Pass(c, m0, a0);
    }
  }

  lemma CopyingStart(m: Mem, a: State)
    requires Good(m, a) && WellPlaced(a)
    ensures Copying(m, a, m, a)
  {
    assert forall id :: id in a.tab ==> IdProgress(a, a, m, id);
    forall s: set<string> | Deadlocked(a, s)
      ensures s <= Waiting(a)
    {
    }
  }

  /** One bucket of a pass. */
  method PassBucket(c: Context, i: nat, ghost m0: Mem, ghost a0: State) returns (flag: bool)
    requires c.Valid() && Copying(m0, a0, c.mem, c.st) && i < |c.iht|
    modifies c`mem, c`iht, c`st
    ensures c.Valid() && Copying(m0, a0, c.mem, c.st)
    ensures |c.iht| == |old(c.iht)|
    ensures flag ==> Waiting(c.st) < Waiting(old(c.st))
    ensures !flag ==> c.iht == old(c.iht) && c.st == old(c.st)
    ensures !flag ==> forall k {:trigger Stuck(c.iht, c.st, i, k)} :: 0 <= k < |c.iht[i]| ==> Stuck(c.iht, c.st, i, k)
  {
    flag := false;
    var j := 0;
    while j < |c.iht[i]|
      invariant i < |c.iht| == |old(c.iht)| && 0 <= j <= |c.iht[i]|
      invariant c.Valid() && Copying(m0, a0, c.mem, c.st)
      invariant if flag then Waiting(c.st) < Waiting(old(c.st)) else c.iht == old(c.iht) && c.st == old(c.st)
      invariant !flag ==> forall k {:trigger Stuck(c.iht, c.st, i, k)} :: 0 <= k < j ==> Stuck(c.iht, c.st, i, k)
      decreases |c.iht[i]| - j
    {
      var did := CopyEntry(c, i, j, m0, a0);
      flag := flag || did;
      j := j + 1;
    }
  }

  /** One pass: either some id stops waiting, or every waiting id is stuck. */
  method Pass(c: Context, ghost m0: Mem, ghost a0: State) returns (flag: bool)
    requires c.Valid() && Copying(m0, a0, c.mem, c.st)
    modifies c`mem, c`iht, c`st
    ensures c.Valid() && Copying(m0, a0, c.mem, c.st)
    ensures flag ==> |Waiting(c.st)| < |Waiting(old(c.st))|
    ensures !flag ==> c.st == old(c.st) && Deadlocked(a0, Waiting(c.st))
  {
    flag := false;
    var i := 0;
    while i < |c.iht|
      invariant 0 <= i <= |c.iht| == |old(c.iht)|
      invariant c.Valid() && Copying(m0, a0, c.mem, c.st)
      invariant if flag then |Waiting(c.st)| < |Waiting(old(c.st))| else c.st == old(c.st)
      invariant !flag ==> forall g, k {:trigger Stuck(c.iht, c.st, g, k)} :: 0 <= g < i && 0 <= k < |c.iht[g]| ==> Stuck(c.iht, c.st, g, k)
    {
      ghost var w := Waiting(c.st);
      var did := PassBucket(c, i, m0, a0);
      if did {
        SmallerCard(Waiting(c.st), w);
        flag := true;
      }
      i := i + 1;
    }
    if !flag {
      AllStuck(a0, c.iht, c.st, c.mem);
    }
  }

  lemma SmallerCard(s: set<string>, t: set<string>)
    requires s < t
    ensures |s| < |t|
  {
    assert t == s + (t - s);
    assert |t - s| > 0;
  }

  // ---------- soap_resolve ----------

  lemma LinkingHits(a: State, b: State, j: string, s: int, e: int)
    requires Linking(a, b) && j in a.tab
    ensures Hits(b, j, s, e) == Hits(a, j, s, e)
  {
    LinkingPending(a, b, j);
  }

  /** The first phase does not change which sets are deadlocked. */
  lemma LinkingDeadlocked(a: State, b: State, s: set<string>)
    requires Linking(a, b)
    ensures Deadlocked(a, s) == Deadlocked(b, s)
  {
    forall id | id in s && id in a.tab
      ensures Pending(b, id) == Pending(a, id) && Blocked(a, s, id) == Blocked(b, s, id)
    {
      LinkingPending(a, b, id);
      forall j | j in a.tab
        ensures LiesIn(a, j, id) == LiesIn(b, j, id)
      {
        LinkingHits(a, b, j, a.tab[id].ptr, a.tab[id].ptr + a.tab[id].size);
      }
    }
  }

  lemma LinkingWellPlaced(a: State, b: State)
    requires Linking(a, b) && WellPlaced(a)
    ensures WellPlaced(b)
  {
    forall i, t | i in b.tab && b.tab[i].ptr != 0 && t in b.own && b.own[t].kind == Target
      ensures Inside(t, b.own[t].len, b.tab[i].ptr, b.tab[i].size) || Apart(t, b.own[t].len, b.tab[i].ptr, b.tab[i].size)
    {
      LinkingPending(a, b, i);
      assert a.tab[i].ptr != 0 && a.own[t].kind == Target;
    }
  }

  /** Every slot registered for an entered id holds that id's address. */
  ghost predicate SlotsFilled(m: Mem, a: State)
    requires Keyed(a)
  {
    forall p {:trigger a.own[p]} :: p in a.own && a.own[p].kind == Slot && a.own[p].id in a.tab && a.tab[a.own[p].id].ptr != 0 ==>
      InMem(m, p, PTR) && ReadPtr(m, p) == a.tab[a.own[p].id].ptr
  }

  /** id still waits for everything it waited for in a, or every target it had equals its object. */
  ghost predicate AllOrNothing(m: Mem, a: State, b: State, id: string)
    requires Keyed(a) && Keyed(b) && id in a.tab && id in b.tab
  {
    var e, ts := a.tab[id], Pending(a, id);
    || Pending(b, id) == ts
    || (&& Pending(b, id) == []
        && e.ptr != 0 && InMem(m, e.ptr, e.size)
        && forall k :: 0 <= k < |ts| ==> InMem(m, ts[k], e.size) && Bytes(m, ts[k], e.size) == Bytes(m, e.ptr, e.size))
  }

  /** Without a missing local id: every slot of an entered id is filled; each id is copied to all of
      its targets or to none, and at the end every copy made still equals its source; the ids left
      waiting are the largest deadlocked set; the chain of an id never entered is as it was; no other byte of memory has changed. */
  ghost predicate Resolved(m0: Mem, a0: State, m: Mem, a: State) {
    && Keyed(a0) && Keyed(a) && a.tab.Keys == a0.tab.Keys
    && SlotsFilled(m, a0)
    && (forall id :: id in a0.tab && a0.tab[id].ptr == 0 ==> a.links[id] == a0.links[id])
    && (forall id {:trigger AllOrNothing(m, a0, a, id)} :: id in a0.tab ==> AllOrNothing(m, a0, a, id))
    && Deadlocked(a0, Waiting(a))
    && DeadlocksWait(a0, a)
    && Framed(m0, m, a0.own, LinkSlots(a0) + (a0.own.Keys - a.own.Keys))
  }

  /** soap_resolve. */
  method ResolveAll(c: Context) returns (err: Status)
    requires c.Valid() && WellPlaced(c.st)
    modifies c
    ensures c.Valid()
    ensures err == SoapOk || err == SoapMissingId
    ensures err == SoapMissingId <==> exists id :: id in old(c.st.tab) && Local(id) && old(c.st.tab)[id].ptr == 0
    ensures err == SoapMissingId ==> c.error == err && ("#" + c.id) in old(c.st.tab) && old(c.st.tab)["#" + c.id].ptr == 0
    ensures err == SoapOk ==> c.error == old(c.error) && Resolved(old(c.mem), old(c.st), c.mem, c.st)
  {
    ghost var m0, a0 := c.mem, c.st;
    var missing := LinkAll(c);
    if missing {
      return SoapMissingId;
    }
    ghost var m1, a1 := c.mem, c.st;
    LinkingWellPlaced(a0, a1);
    CopyAll(c);
    ResolvedAtEnd(m0, a0, m1, a1, c.mem, c.st);
    err := SoapOk;
  }

  lemma ResolvedAtEnd(m0: Mem, a0: State, m1: Mem, a1: State, m: Mem, a: State)
    requires Good(m0, a0) && Linking(a0, a1) && Framed(m0, m1, a0.own, LinkSlots(a0))
    requires forall id :: id in a1.tab && a1.tab[id].ptr != 0 ==> a1.links[id] == []
    requires Copying(m1, a1, m, a) && Deadlocked(a1, Waiting(a))
    ensures Resolved(m0, a0, m, a)
  {
    assert SlotsFilled(m, a0) by { SlotsFilledAtEnd(m0, a0, m1, a1, m, a); }
    forall id | id in a0.tab
      ensures AllOrNothing(m, a0, a, id)
    {
      assert IdProgress(a1, a, m, id);
      LinkingPending(a0, a1, id);
    }
    forall id | id in a0.tab && a0.tab[id].ptr == 0
      ensures a.links[id] == a0.links[id]
    {
      assert OnlyLinks(a0, a1, id);
    }
    LinkingDeadlocked(a0, a1, Waiting(a));
    forall s: set<string> | Deadlocked(a0, s)
      ensures s <= Waiting(a)
    {
      LinkingDeadlocked(a0, a1, s);
    }
    FrameWider(m0, m1, m, a0.own, a1.own, LinkSlots(a0), a1.own.Keys - a.own.Keys);
  }

  lemma SlotsFilledAtEnd(m0: Mem, a0: State, m1: Mem, a1: State, m: Mem, a: State)
    requires Good(m0, a0) && Linking(a0, a1)
    requires forall id :: id in a1.tab && a1.tab[id].ptr != 0 ==> a1.links[id] == []
    requires Copying(m1, a1, m, a)
    ensures SlotsFilled(m, a0)
  {
    forall p | p in a0.own && a0.own[p].kind == Slot && a0.own[p].id in a0.tab && a0.tab[a0.own[p].id].ptr != 0
      ensures InMem(m, p, PTR) && ReadPtr(m, p) == a0.tab[a0.own[p].id].ptr
    {
      LinkingPending(a0, a1, a0.own[p].id);
      assert SlotOk(m1, a1, p);
      FrameOwned(m1, m, a1.own, a1.own.Keys - a.own.Keys, p);
    }
  }

  /** soap_resolve does not fill the slots of an id that is not local and was never entered, and reports
      no error: each such slot still holds the address of the slot registered before it. */
  lemma UnenteredSlotKeepsLink(m0: Mem, a0: State, m: Mem, a: State, id: string, k: nat)
    requires Resolved(m0, a0, m, a) && Good(m, a)
    requires id in a0.tab && a0.tab[id].ptr == 0 && k < |a0.links[id]|
    ensures InMem(m, a0.links[id][k], PTR)
    ensures ReadPtr(m, a0.links[id][k]) == if k + 1 < |a0.links[id]| then a0.links[id][k + 1] else 0
  {
    assert EntryOk(m, a, id);
  }

  /** When containment is acyclic and every source was entered, resolving leaves nothing waiting. */
  lemma NothingLeftWaiting(m0: Mem, a0: State, m: Mem, a: State, rank: map<string, nat>)
    requires Resolved(m0, a0, m, a) && Ranked(a0, rank)
    requires forall id :: id in a0.tab && Pending(a0, id) != [] ==> a0.tab[id].ptr != 0
    ensures Waiting(a) == {}
  {
    if id :| id in Waiting(a) {
      AcyclicNeverDeadlocks(a0, rank, Waiting(a), id);
    }
  }
}
