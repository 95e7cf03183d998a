/** Whole runs: any sequence of lookups, forwards and entries on an empty table, then soap_resolve. */
module Runs {
  import opened Memory
  import opened IdTable
  import opened IdState
  import opened IdSteps
  import opened Soap
  import opened Resolver
  import opened Resolve

  /** A call of soap_id_lookup, soap_id_forward or soap_id_enter. */
  datatype Op =
    | Look(id: string, at: int, typ: int, size: nat, oom: bool)
    | Forward(id: string, at: int, len: nat, styp: int, typ: int, size: nat, oom: bool, oomNode: bool)
    | Enter(id: string, at: int, typ: int, size: nat, made: int, oom: bool)

  /** The call registers a region: a slot or a target. */
  predicate Claims(op: Op) {
    !op.Enter? && op.at != 0 && op.id != ""
  }

  function Len(op: Op): nat {
    if op.Look? then PTR else op.size
  }

  /** Where the object is that the call enters. */
  function Object(op: Op): int
    requires op.Enter?
  {
    if op.at == 0 then op.made else op.at
  }

  /** The call returned what it was called for. */
  predicate Done(op: Op, r: int) {
    op.id != "" && r != 0 && (op.Enter? || op.at != 0)
  }

  /** What a caller owes: regions and objects in memory, regions that do not overlap, and each target inside
      or apart from each object. */
  ghost predicate WellBehaved(m: Mem, ops: seq<Op>) {
    && (forall i :: 0 <= i < |ops| && Claims(ops[i]) ==> Len(ops[i]) > 0 && InMem(m, ops[i].at, Len(ops[i])))
    && (forall i :: 0 <= i < |ops| && ops[i].Enter? && Object(ops[i]) != 0 ==>
          0 < Object(ops[i]) < WORD && InMem(m, Object(ops[i]), ops[i].size))
    && (forall i, j :: 0 <= i < j < |ops| && Claims(ops[i]) && Claims(ops[j]) ==>
          Apart(ops[j].at, Len(ops[j]), ops[i].at, Len(ops[i])))
    && (forall i, j :: 0 <= i < |ops| && 0 <= j < |ops| && Claims(ops[i]) && ops[i].Forward? && ops[j].Enter? && Object(ops[j]) != 0 ==>
          || Inside(ops[i].at, ops[i].size, Object(ops[j]), ops[j].size)
          || Apart(ops[i].at, ops[i].size, Object(ops[j]), ops[j].size))
  }

  // ---------- one call ----------

  ghost predicate Recorded(a: State, op: Op) {
    match op
    case Look(id, at, _, _, _) => at in a.own && a.own[at] == Own(id, Slot, PTR)
    case Forward(id, at, _, _, _, n, _, _) => at in a.own && a.own[at] == Own(id, Target, n)
    case Enter(id, _, _, n, _, _) => id in a.tab && a.tab[id].ptr == Object(op) != 0 && a.tab[id].size == n
  }

  /** The region at p of b is what op claims. */
  ghost predicate Claimed(b: State, op: Op, r: int, p: int)
    requires p in b.own
  {
    Claims(op) && Done(op, r) && op.at == p && op.id == b.own[p].id && Len(op) == b.own[p].len && (b.own[p].kind == Slot <==> op.Look?)
  }

  /** The object of id in b is the one that op entered. */
  ghost predicate EnteredBy(b: State, op: Op, r: int, id: string)
    requires id in b.tab
  {
    op.Enter? && Done(op, r) && op.id == id && Object(op) == b.tab[id].ptr && op.size == b.tab[id].size
  }

  /** b is a after op, as far as regions and objects go: everything in a stays, and only op adds to it. */
  ghost predicate Grown(a: State, b: State, op: Op, r: int) {
    && (forall p {:trigger b.own[p]} {:trigger a.own[p]} :: p in a.own ==> p in b.own && b.own[p] == a.own[p])
    && (forall p {:trigger Claimed(b, op, r, p)} {:trigger b.own[p]} :: p in b.own && p !in a.own ==> Claimed(b, op, r, p))
    && (forall id {:trigger b.tab[id]} {:trigger a.tab[id]} :: id in a.tab && a.tab[id].ptr != 0 ==>
          id in b.tab && b.tab[id].ptr == a.tab[id].ptr && b.tab[id].size == a.tab[id].size)
    && (forall id {:trigger EnteredBy(b, op, r, id)} {:trigger b.tab[id]} :: id in b.tab && b.tab[id].ptr != 0 ==>
          EnteredBy(b, op, r, id)
          || (id in a.tab && a.tab[id].ptr == b.tab[id].ptr && a.tab[id].size == b.tab[id].size))
    && (Done(op, r) ==> Recorded(b, op))
  }

  method StepLook(c: Context, op: Op) returns (r: int)
    requires c.Valid() && op.Look?
    requires Claims(op) ==> Free(c.mem, c.st.own, op.at, Len(op))
    modifies c
    ensures c.Valid() && |c.mem| == |old(c.mem)|
    ensures Grown(old(c.st), c.st, op, r)
  {
    r := c.IdLookup(op.id, op.at, op.typ, op.size, op.oom);
  }

  method StepForward(c: Context, op: Op) returns (r: int)
    requires c.Valid() && op.Forward?
    requires Claims(op) ==> Free(c.mem, c.st.own, op.at, Len(op))
    modifies c
    ensures c.Valid() && |c.mem| == |old(c.mem)|
    ensures Grown(old(c.st), c.st, op, r)
  {
    r := c.IdForward(op.id, op.at, op.len, op.styp, op.typ, op.size, op.oom, op.oomNode);
  }

  method StepEnter(c: Context, op: Op) returns (r: int)
    requires c.Valid() && op.Enter?
    requires Object(op) != 0 ==> 0 < Object(op) < WORD && InMem(c.mem, Object(op), op.size)
    modifies c
    ensures c.Valid() && |c.mem| == |old(c.mem)|
    ensures Grown(old(c.st), c.st, op, r)
  {
    r := c.IdEnter(op.id, op.at, op.typ, op.size, op.made, op.oom);
  }

  method Step(c: Context, op: Op) returns (r: int)
    requires c.Valid()
    requires Claims(op) ==> Free(c.mem, c.st.own, op.at, Len(op))
    requires op.Enter? && Object(op) != 0 ==> 0 < Object(op) < WORD && InMem(c.mem, Object(op), op.size)
    modifies c
    ensures c.Valid() && |c.mem| == |old(c.mem)|
    ensures Grown(old(c.st), c.st, op, r)
  {
    match op
    case Look(_, _, _, _, _) => r := StepLook(c, op);
    case Forward(_, _, _, _, _, _, _, _) => r := StepForward(c, op);
    case Enter(_, _, _, _, _, _) => r := StepEnter(c, op);
  }

  // ---------- all calls ----------

  /** The state that the calls of ops answered by rs have led to. */
  ghost predicate Ran(ops: seq<Op>, rs: seq<int>, a: State) {
    && |rs| <= |ops|
    && (forall p {:trigger a.own[p]} :: p in a.own ==> SomeClaims(ops, rs, a, p))
    && (forall id {:trigger a.tab[id]} :: id in a.tab && a.tab[id].ptr != 0 ==> SomeEnters(ops, rs, a, id))
    && (forall i {:trigger rs[i]} :: 0 <= i < |rs| && Done(ops[i], rs[i]) ==> Recorded(a, ops[i]))
  }

  ghost predicate SomeClaims(ops: seq<Op>, rs: seq<int>, a: State, p: int)
    requires |rs| <= |ops| && p in a.own
  {
    exists i :: 0 <= i < |rs| && Claimed(a, ops[i], rs[i], p)
  }

  ghost predicate SomeEnters(ops: seq<Op>, rs: seq<int>, a: State, id: string)
    requires |rs| <= |ops| && id in a.tab
  {
    exists i :: 0 <= i < |rs| && EnteredBy(a, ops[i], rs[i], id)
  }

  lemma RanStep(ops: seq<Op>, rs: seq<int>, a: State, b: State, r: int)
    requires Ran(ops, rs, a) && |rs| < |ops| && Grown(a, b, ops[|rs|], r)
    ensures Ran(ops, rs + [r], b)
  {
    var ss := rs + [r];
    forall p | p in b.own
      ensures SomeClaims(ops, ss, b, p)
    {
      if p in a.own {
        assert a.own[p] == b.own[p];
        var i :| 0 <= i < |rs| && Claimed(a, ops[i], rs[i], p);
        assert Claimed(b, ops[i], ss[i], p);
      } else {
        assert Claimed(b, ops[|rs|], ss[|rs|], p);
      }
    }
    forall id | id in b.tab && b.tab[id].ptr != 0
      ensures SomeEnters(ops, ss, b, id)
    {
      if EnteredBy(b, ops[|rs|], r, id) {
        assert ss[|rs|] == r;
      } else {
        assert a.tab[id].ptr == b.tab[id].ptr;
        var i :| 0 <= i < |rs| && EnteredBy(a, ops[i], rs[i], id);
        assert EnteredBy(b, ops[i], ss[i], id);
      }
    }
    forall i | 0 <= i < |ss| && Done(ops[i], ss[i])
      ensures Recorded(b, ops[i])
    {
      if i < |rs| {
        assert rs[i] == ss[i] && Recorded(a, ops[i]);
      }
    }
  }

  /** The next region is still free. */
  lemma NextFree(m: Mem, ops: seq<Op>, rs: seq<int>, a: State)
    requires Ran(ops, rs, a) && WellBehaved(m, ops) && |rs| < |ops| && Claims(ops[|rs|])
    ensures Free(m, a.own, ops[|rs|].at, Len(ops[|rs|]))
  {
    var op := ops[|rs|];
    forall q | q in a.own
      ensures Apart(op.at, Len(op), q, a.own[q].len)
    {
      assert SomeClaims(ops, rs, a, q);
      var i :| 0 <= i < |rs| && Claimed(a, ops[i], rs[i], q);
    }
  }

  lemma AllPlaced(m: Mem, ops: seq<Op>, rs: seq<int>, a: State)
    requires Ran(ops, rs, a) && WellBehaved(m, ops)
    ensures WellPlaced(a)
  {
    forall id, t | id in a.tab && a.tab[id].ptr != 0 && t in a.own && a.own[t].kind == Target
      ensures Inside(t, a.own[t].len, a.tab[id].ptr, a.tab[id].size) || Apart(t, a.own[t].len, a.tab[id].ptr, a.tab[id].size)
    {
      assert SomeClaims(ops, rs, a, t) && SomeEnters(ops, rs, a, id);
      var i :| 0 <= i < |rs| && Claimed(a, ops[i], rs[i], t);
      var j :| 0 <= j < |rs| && EnteredBy(a, ops[j], rs[j], id);
    }
  }

  lemma WellBehavedKept(m: Mem, r: Mem, ops: seq<Op>)
    requires WellBehaved(m, ops) && |r| == |m|
    ensures WellBehaved(r, ops)
  {
  }

  /** The target of i starts in the object of j. */
  predicate StartsIn(i: Op, j: Op) {
    i.Forward? && j.Enter? && Object(j) <= i.at < Object(j) + j.size
  }

  /** A rank that falls from an object's id to the id of every target inside the object: containment is acyclic. */
  ghost predicate Layered(ops: seq<Op>, rank: map<string, nat>) {
    && (forall i :: 0 <= i < |ops| ==> ops[i].id in rank)
    && (forall i, j :: 0 <= i < |ops| && 0 <= j < |ops| && StartsIn(ops[i], ops[j]) ==> rank[ops[i].id] < rank[ops[j].id])
  }

  /** Whatever was forwarded was also entered. */
  ghost predicate AllEntered(ops: seq<Op>, rs: seq<int>)
    requires |rs| == |ops|
  {
    forall i {:trigger rs[i]} :: 0 <= i < |ops| && ops[i].Forward? && Done(ops[i], rs[i]) ==>
      EnteredId(ops, rs, ops[i].id)
  }

  ghost predicate EnteredId(ops: seq<Op>, rs: seq<int>, id: string)
    requires |rs| == |ops|
  {
    exists j :: 0 <= j < |ops| && ops[j].Enter? && ops[j].id == id && Done(ops[j], rs[j])
  }

  /** The slot of call i holds the address entered by call j. */
  ghost predicate SlotHolds(m: Mem, ops: seq<Op>, i: nat, j: nat)
    requires i < |ops| && j < |ops| && ops[j].Enter?
  {
    InMem(m, ops[i].at, PTR) && ReadPtr(m, ops[i].at) == Object(ops[j])
  }

  /** The target of call i equals the object entered by call j. */
  ghost predicate TargetEquals(m: Mem, ops: seq<Op>, i: nat, j: nat)
    requires i < |ops| && j < |ops| && ops[j].Enter?
  {
    && InMem(m, ops[i].at, ops[j].size) && InMem(m, Object(ops[j]), ops[j].size)
    && Bytes(m, ops[i].at, ops[j].size) == Bytes(m, Object(ops[j]), ops[j].size)
  }

  /** Call j entered the object that call i asks for, and both succeeded. */
  predicate Answers(ops: seq<Op>, rs: seq<int>, i: nat, j: nat)
    requires |rs| == |ops| && i < |ops| && j < |ops|
  {
    ops[j].Enter? && ops[i].id == ops[j].id && Done(ops[i], rs[i]) && Done(ops[j], rs[j])
  }

  ghost predicate LocalsEntered(ops: seq<Op>, rs: seq<int>)
    requires |rs| == |ops|
  {
    forall i {:trigger rs[i]} :: 0 <= i < |ops| && Done(ops[i], rs[i]) && Local(ops[i].id) ==> EnteredId(ops, rs, ops[i].id)
  }

  ghost predicate SlotsHold(m: Mem, ops: seq<Op>, rs: seq<int>)
    requires |rs| == |ops|
  {
    forall i, j {:trigger Answers(ops, rs, i, j)} ::
      0 <= i < |ops| && 0 <= j < |ops| && ops[i].Look? && Answers(ops, rs, i, j) ==> SlotHolds(m, ops, i, j)
  }

  ghost predicate TargetsEqual(m: Mem, ops: seq<Op>, rs: seq<int>)
    requires |rs| == |ops|
  {
    forall i, j {:trigger Answers(ops, rs, i, j)} ::
      0 <= i < |ops| && 0 <= j < |ops| && ops[i].Forward? && Answers(ops, rs, i, j) ==> TargetEquals(m, ops, i, j)
  }

  lemma SlotHoldsAtEnd(m0: Mem, a0: State, m: Mem, a: State, ops: seq<Op>, rs: seq<int>, i: nat, j: nat)
    requires |rs| == |ops| && Ran(ops, rs, a0) && Resolved(m0, a0, m, a) && i < |rs| && j < |rs|
    requires ops[i].Look? && Answers(ops, rs, i, j)
    ensures SlotHolds(m, ops, i, j)
  {
    assert Recorded(a0, ops[i]) && Recorded(a0, ops[j]);
  }

  /** When containment is acyclic and every source was entered, every target equals its object. */
  lemma TargetEqualsAtEnd(m0: Mem, a0: State, m: Mem, a: State, ops: seq<Op>, rs: seq<int>, rank: map<string, nat>, i: nat, j: nat)
    requires |rs| == |ops| && Ran(ops, rs, a0) && Good(m0, a0) && Resolved(m0, a0, m, a)
    requires Layered(ops, rank) && AllEntered(ops, rs) && i < |rs| && j < |rs|
    requires ops[i].Forward? && Answers(ops, rs, i, j)
    ensures TargetEquals(m, ops, i, j)
  {
    NothingWaits(m0, a0, m, a, ops, rs, rank);
    var id := ops[i].id;
    assert Recorded(a0, ops[i]) && Recorded(a0, ops[j]);
    assert TargetOk(a0, ops[i].at);
    assert AllOrNothing(m, a0, a, id);
    assert id !in Waiting(a);
  }

  lemma NothingWaits(m0: Mem, a0: State, m: Mem, a: State, ops: seq<Op>, rs: seq<int>, rank: map<string, nat>)
    requires |rs| == |ops| && Ran(ops, rs, a0) && Good(m0, a0) && Resolved(m0, a0, m, a)
    requires Layered(ops, rank) && AllEntered(ops, rs)
    ensures Waiting(a) == {}
  {
    var ranks := map id | id in a0.tab :: if id in rank then rank[id] else 0;
    forall i, j | i in a0.tab && j in a0.tab && a0.tab[i].ptr != 0 && LiesIn(a0, j, i)
      ensures ranks[j] < ranks[i]
    {
      RankFalls(m0, a0, ops, rs, rank, i, j);
    }
    forall id | id in a0.tab && Pending(a0, id) != []
      ensures a0.tab[id].ptr != 0
    {
      var g := PendingForwarded(m0, a0, ops, rs, id, 0);
      assert EnteredId(ops, rs, ops[g].id);
      var j :| 0 <= j < |ops| && ops[j].Enter? && ops[j].id == ops[g].id && Done(ops[j], rs[j]);
      assert Recorded(a0, ops[j]);
    }
    NothingLeftWaiting(m0, a0, m, a, ranks);
  }

  /** What waits was put there by a forward. */
  lemma PendingForwarded(m: Mem, a: State, ops: seq<Op>, rs: seq<int>, id: string, k: nat) returns (g: nat)
    requires |rs| == |ops| && Ran(ops, rs, a) && Good(m, a) && id in a.tab && k < |Pending(a, id)|
    ensures g < |ops| && ops[g].Forward? && Done(ops[g], rs[g]) && ops[g].id == id && ops[g].at == Pending(a, id)[k]
  {
    var p := Pending(a, id)[k];
    assert EntryOk(m, a, id);
    assert a.own[p] == Own(id, Target, a.tab[id].size);
    assert SomeClaims(ops, rs, a, p);
    g :| 0 <= g < |rs| && Claimed(a, ops[g], rs[g], p);
  }

  lemma RankFalls(m: Mem, a: State, ops: seq<Op>, rs: seq<int>, rank: map<string, nat>, i: string, j: string)
    requires |rs| == |ops| && Ran(ops, rs, a) && Good(m, a) && Layered(ops, rank)
    requires i in a.tab && j in a.tab && a.tab[i].ptr != 0 && LiesIn(a, j, i)
    ensures i in rank && j in rank && rank[j] < rank[i]
  {
    var k :| 0 <= k < |Pending(a, j)| && a.tab[i].ptr <= Pending(a, j)[k] < a.tab[i].ptr + a.tab[i].size;
    var g := PendingForwarded(m, a, ops, rs, j, k);
    assert SomeEnters(ops, rs, a, i);
    var e :| 0 <= e < |rs| && EnteredBy(a, ops[e], rs[e], i);
  }

  /** A local id that something waits for and that was not missed has been entered. */
  lemma LocalEntered(m: Mem, a: State, ops: seq<Op>, rs: seq<int>, i: nat)
    requires |rs| == |ops| && Ran(ops, rs, a) && Good(m, a) && i < |ops| && Done(ops[i], rs[i])
    requires Local(ops[i].id) ==> ops[i].id in a.tab ==> a.tab[ops[i].id].ptr != 0
    ensures Local(ops[i].id) ==> EnteredId(ops, rs, ops[i].id)
  {
    assert Recorded(a, ops[i]);
    if !ops[i].Enter? {
      GoodOwned(m, a, ops[i].at);
      if Local(ops[i].id) {
        assert SomeEnters(ops, rs, a, ops[i].id);
      }
    }
  }

  lemma GoodOwned(m: Mem, a: State, p: int)
    requires Good(m, a) && p in a.own
    ensures a.own[p].id in a.tab
  {
    assert a.own[p].kind == Slot ==> SlotOk(m, a, p);
    assert a.own[p].kind == Target ==> TargetOk(a, p);
  }

  /** For every sequence of calls, in any order: if soap_resolve reports no error, then every local id that was
      asked for was entered, and every slot of an entered id holds the address entered for it; and when containment is
      acyclic and everything forwarded was entered, every
      target equals the object of its id. */
  method RunAndResolve(m: Mem, buckets: nat, ops: seq<Op>, ghost rank: map<string, nat>) returns (r: Mem, rs: seq<int>, err: Status)
    requires buckets > 0 && WellBehaved(m, ops)
    ensures |rs| == |ops| && (err == SoapOk ==> |r| == |m|)
    ensures err == SoapOk || err == SoapMissingId
    ensures err == SoapOk ==> LocalsEntered(ops, rs) && SlotsHold(r, ops, rs)
    ensures err == SoapOk && Layered(ops, rank) && AllEntered(ops, rs) ==> TargetsEqual(r, ops, rs)
  {
    var c := new Context(m, buckets);
    rs := [];
    while |rs| < |ops|
      invariant |rs| <= |ops| && c.Valid() && |c.mem| == |m| && Ran(ops, rs, c.st)
      invariant fresh(c)
      decreases |ops| - |rs|
    {
      WellBehavedKept(m, c.mem, ops);
      if Claims(ops[|rs|]) {
        NextFree(c.mem, ops, rs, c.st);
      }
      ghost var a := c.st;
      var x := Step(c, ops[|rs|]);
      RanStep(ops, rs, a, c.st, x);
      rs := rs + [x];
    }
    AllPlaced(m, ops, rs, c.st);
    ghost var m0, a0 := c.mem, c.st;
    err := ResolveAll(c);
    r := c.mem;
    if err == SoapOk {
      forall i | 0 <= i < |ops| && Done(ops[i], rs[i]) && Local(ops[i].id)
        ensures EnteredId(ops, rs, ops[i].id)
      {
        LocalEntered(m0, a0, ops, rs, i);
      }
      forall i, j | 0 <= i < |ops| && 0 <= j < |ops| && ops[i].Look? && Answers(ops, rs, i, j)
        ensures SlotHolds(r, ops, i, j)
      {
        SlotHoldsAtEnd(m0, a0, r, c.st, ops, rs, i, j);
      }
      if Layered(ops, rank) && AllEntered(ops, rs) {
        forall i, j | 0 <= i < |ops| && 0 <= j < |ops| && ops[i].Forward? && Answers(ops, rs, i, j)
          ensures TargetEquals(r, ops, i, j)
        {
          TargetEqualsAtEnd(m0, a0, r, c.st, ops, rs, rank, i, j);
        }
      }
    }
  }
}
