/** Runs in which the id/href machinery reports success and leaves a slot without its object's address. */
module Counterexamples {
  import opened Memory
  import opened IdTable
  import opened IdState
  import opened IdSteps
  import opened Soap
  import opened Resolver
  import opened Resolve
  import opened Relocate
  import opened BlockList
  import opened Blocks
  import opened SaveBlock

  /** Two slots wait for "x". */
  ghost predicate TwoSlots(a: State) {
    Keyed(a) && a.tab.Keys == {"x"} && a.tab["x"].ptr == 0 && a.links["x"] == [8, 4]
  }

  lemma LastSlotDangles(m0: Mem, a0: State, m: Mem, a: State)
    requires TwoSlots(a0) && Resolved(m0, a0, m, a) && Good(m, a)
    ensures InMem(m, 8, PTR) && ReadPtr(m, 8) == 4
  {
    UnenteredSlotKeepsLink(m0, a0, m, a, "x", 0);
  }

  /** Two slots ask for "x", which is not local and is never entered. soap_resolve reports no error, and the
      slot registered last holds the address of the other one. */
  method DanglingSlots() returns (err: Status, word: int)
    ensures err == SoapOk && word == 4
  {
    var c := new Context(seq(16, _ => 0), 1);
    var p := c.IdLookup("x", 4, 1, 4, false);
    var q := c.IdLookup("x", 8, 1, 4, false);
    ghost var m, a := c.mem, c.st;
    assert TwoSlots(a);
    err := ResolveAll(c);
    LastSlotDangles(m, a, c.mem, c.st);
    word := ReadPtr(c.mem, 8);
  }

  const BLOCK := Block(8, 4)

  /** The registered regions when one slot of "#a", whose object is at 16, has been filled. */
  ghost predicate OneFilledSlot(a: State) {
    && a.tab.Keys == {"#a"} && a.links.Keys == {"#a"} && a.copies.Keys == {"#a"}
    && a.tab["#a"].ptr == 16 && a.tab["#a"].size == 4 && a.links["#a"] == [] && a.copies["#a"] == []
    && a.own == map[4 := Own("#a", Slot, PTR)]
  }

  lemma OneReady(m: Mem, a: State)
    requires |m| == 64 && OneFilledSlot(a)
    ensures Reversed([BLOCK]) == [BLOCK] && Total([BLOCK]) == 4
    ensures Ready(m, a, [BLOCK], 32)
  {
    assert Total([BLOCK][1..]) == 0;
    assert Reversed([BLOCK]) == [BLOCK];
  }

  lemma ObjectMoves(a0: State, a: State)
    requires OneFilledSlot(a0) && MovesTo(a0, Plan([BLOCK], 32), a)
    ensures "#a" in a.tab && a.tab["#a"].ptr == 32
  {
    var ms := Plan([BLOCK], 32);
    assert [BLOCK][1..] == [] && Data(BLOCK) == 16;
    assert Plan([BLOCK][1..], 36) == [];
    assert ms == [Move(16, 4, 32)];
    MovesKeepChains(a0, ms, a, "#a");
    assert ms[1..] == [];
  }

  lemma SlotStays(m0: Mem, a0: State, m: Mem)
    requires Good(m0, a0) && OneFilledSlot(a0) && Total([BLOCK]) == 4 && LeftAlone(m0, a0, [BLOCK], m, 32)
    ensures InMem(m, 4, PTR) && ReadPtr(m, 4) == 16
  {
    assert SlotOk(m0, a0, 4);
    assert Nodes(a0) == {};
    forall x | 4 <= x < 8
      ensures m[x] == m0[x]
    {
      assert Elsewhere([BLOCK], 32, x);
    }
    SameBytes(m0, m, 4, PTR);
  }

  /** The object of "#a" is in a block and a slot outside has been given its address. When the block is saved
      the object moves, the table follows, and the slot still names the old place. */
  method StaleSlot() returns (slot: int, place: int)
    ensures slot == 16 && place == 32
  {
    var c := new Context(seq(64, _ => 0), 1);
    var b := new Blist();
    var p := PushBlock(c, b, 4, 8);
    assert b.bs == [BLOCK];
    p := c.IdEnter("#a", 16, 1, 4, 0, false);
    ghost var m := c.mem;
    assert InMem(c.mem, 4, PTR) && c.st.own == map[];
    p := c.IdLookup("#a", 4, 1, 4, false);
    StoredApart(m, c.mem, c.st, b.ptr, b.bs, 4, PTR);
    ghost var m1, a1 := c.mem, c.st;
    OneReady(m1, a1);
    p := SaveAll(c, b, 32, true, 0);
    ObjectMoves(a1, c.st);
    SlotStays(m1, a1, c.mem);
    slot := ReadPtr(c.mem, 4);
    var found, h, j := Lookup(c.iht, c.st.tab, "#a");
    place := c.iht[h][j].ptr;
  }
}
