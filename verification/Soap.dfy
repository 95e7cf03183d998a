/** The part of struct soap that multi-reference values live in, and the operations on it.
    Pointer level 0 throughout: an href names the object itself. */
module Soap {
  import opened Memory
  import opened IdTable
  import opened IdState
  import opened IdSteps

  datatype Status = SoapOk | SoapHref | SoapDuplicateId | SoapMissingId | SoapEom

  /** No id is known and nothing waits. */
  ghost const NOTHING := State(map[], map[], map[], map[])

  class Context {
    var mem: Mem
    var iht: Table
    var error: Status
    var id: string
    var alloced: bool
    ghost var st: State

    /** soap_init_iht over a memory in which nothing is registered. */
    constructor (m: Mem, buckets: nat)
      requires buckets > 0
      ensures Valid() && mem == m && st == NOTHING && error == SoapOk
    {
      mem, iht, st := m, seq(buckets, _ => []), NOTHING;
      error, id, alloced := SoapOk, "", false;
    }

    ghost predicate Valid()
      reads this
    {
      Sound(mem, iht, st)
    }

    /** soap_id_lookup: p wants the address of the object called id.
        oom says whether the allocator refuses a new table entry. */
    method IdLookup(id: string, p: int, t: int, n: nat, oom: bool) returns (r: int)
      requires Valid()
      requires p != 0 && id != "" ==> Free(mem, st.own, p, PTR)
      modifies this
      ensures Valid()
      ensures p == 0 || id == "" ==> r == p && mem == old(mem) && st == old(st) && error == old(error)
      ensures p != 0 && id != "" ==> OnlyChanges(old(mem), mem, p, PTR)
      ensures p != 0 && id != "" && id !in old(st.tab) ==>
                if oom then r == 0 && st == old(st) && mem == old(mem)
                else r == p && st == PushLink(AddEntry(old(st), Entry(id, t, n, 0, 0, [], 0)), id, p)
      ensures p != 0 && id in old(st.tab) && id != "" && old(st.tab[id].ptr) != 0 ==>
                if old(st.tab[id].typ) == t then r == p && st == AddSlot(old(st), id, p)
                else r == 0 && error == SoapHref && this.id == id && st == old(st) && mem == old(mem)
      ensures p != 0 && id in old(st.tab) && id != "" && old(st.tab[id].ptr) == 0 ==>
                r == p && st == PushLink(old(st), id, p)
    {
      if p == 0 || id == "" {
        return p;
      }
      var found, h, j := Lookup(iht, st.tab, id);
      if !found {
        if oom {
          return 0;
        }
        Enter(Entry(id, t, n, 0, 0, [], 0));
        h, j := Hash(id, |iht|), 0;
      }
      var ip := iht[h][j];
      if ip.ptr != 0 {
        if ip.typ != t {
          this.id := id;
          error := SoapHref;
          return 0;
        }
        AddSlotSound(mem, iht, st, id, p);
        mem, st := WritePtr(mem, p, ip.ptr), AddSlot(st, id, p);
      } else {
        PushLinkSound(mem, iht, st, id, h, j, p);
        mem, iht, st := WritePtr(mem, p, ip.link), Replace(iht, h, j, ip.(link := p)), PushLink(st, id, p);
      }
      r := p;
    }

    /** soap_enter: a new table entry, first in its bucket. */
    method Enter(e: Entry)
      requires Valid()
      requires e.id !in st.tab && Bare(e)
      requires e.ptr != 0 ==> 0 < e.ptr < WORD && InMem(mem, e.ptr, e.size)
      modifies this`iht, this`st
      ensures Valid()
      ensures st == AddEntry(old(st), e)
      ensures iht == Push(old(iht), e)
      ensures Located(iht, st, e.id, Hash(e.id, |iht|), 0)
    {
      AddEntrySound(mem, iht, st, e);
      iht, st := Push(iht, e), AddEntry(st, e);
    }

    /** soap_id_forward: the n bytes at p want a copy of the object called href.
        oom and oomNode say whether the allocator refuses a table entry or an flist node. */
    method IdForward(href: string, p: int, len: nat, styp: int, ttyp: int, n: nat, oom: bool, oomNode: bool) returns (r: int)
      requires Valid()
      requires p != 0 && href != "" ==> Free(mem, st.own, p, n)
      modifies this
      ensures Valid()
      ensures p == 0 || href == "" ==> r == p && mem == old(mem) && st == old(st)
      ensures p != 0 && href != "" ==> OnlyChanges(old(mem), mem, p, n)
      ensures p != 0 && href != "" && href in old(st.tab)
              && (old(st.tab[href].typ) != styp || old(st.tab[href].size) != n) ==>
                r == 0 && error == SoapHref && id == href && st == old(st) && mem == old(mem)
      ensures p != 0 && href != "" && href !in old(st.tab) && oom ==>
                r == 0 && st == old(st) && mem == old(mem) && error == old(error)
      ensures p != 0 && href != ""
              && (if href in old(st.tab) then old(st.tab[href].typ) == styp && old(st.tab[href].size) == n else !oom) ==>
                var a := Named(old(st), href, styp, n);
                if Threaded(href, n) then r == p && st == PushCopy(a, href, p)
                else if oomNode then r == 0 && error == SoapEom && st == a && mem == old(mem)
                else r == p && st == PushFwd(a, href, Fwd(ttyp, p, len)) && mem == old(mem)
    {
      if p == 0 || href == "" {
        return p;
      }
      var found, h, j := Lookup(iht, st.tab, href);
      if !found {
        if oom {
          return 0;
        }
        Enter(Entry(href, styp, n, 0, 0, [], 0));
        h, j := Hash(href, |iht|), 0;
      } else if iht[h][j].typ != styp || iht[h][j].size != n {
        id := href;
        error := SoapHref;
        return 0;
      }
      r := Attach(href, h, j, p, len, ttyp, n, oomNode);
    }

    /** The second half of soap_id_forward: thread p through its own first word, or put it on the flist. */
    method Attach(href: string, h: nat, j: nat, p: int, len: nat, ttyp: int, n: nat, oomNode: bool) returns (r: int)
      requires Valid()
      requires Located(iht, st, href, h, j)
      requires p != 0 && href != "" && st.tab[href].size == n && Free(mem, st.own, p, n)
      modifies this`mem, this`iht, this`error, this`st
      ensures Valid()
      ensures OnlyChanges(old(mem), mem, p, n)
      ensures if Threaded(href, n) then r == p && st == PushCopy(old(st), href, p)
              else if oomNode then r == 0 && error == SoapEom && st == old(st) && mem == old(mem)
              else r == p && st == PushFwd(old(st), href, Fwd(ttyp, p, len)) && mem == old(mem)
    {
      var ip := iht[h][j];
      if n < PTR || href[0] != '#' {
        if oomNode {
          error := SoapEom;
          return 0;
        }
        var f := Fwd(ttyp, p, len);
        PushFwdSound(mem, iht, st, href, h, j, f);
        iht, st := Replace(iht, h, j, ip.(flist := [f] + ip.flist)), PushFwd(st, href, f);
      } else {
        PushCopySound(mem, iht, st, href, h, j, p);
        mem, iht, st := WritePtr(mem, p, ip.copy), Replace(iht, h, j, ip.(copy := p)), PushCopy(st, href, p);
      }
      r := p;
    }

    /** soap_id_enter: the object called id is at p, or at made when p is NULL.
        oom says whether the allocator refuses a new table entry. */
    method IdEnter(id: string, p: int, t: int, n: nat, made: int, oom: bool) returns (r: int)
      requires Valid()
      requires var o := if p == 0 then made else p; o != 0 ==> 0 < o < WORD && InMem(mem, o, n)
      modifies this
      ensures Valid()
      ensures mem == old(mem)
      ensures alloced == (p == 0 && made != 0)
      ensures id == "" ==> r == (if p == 0 then made else p) && st == old(st)
      ensures id != "" && id !in old(st.tab) ==>
                if oom then r == 0 && st == old(st)
                else var o := if p == 0 then made else p;
                     r == o && st == AddEntry(old(st), Entry(id, t, n, 0, 0, [], o))
      ensures id != "" && id in old(st.tab) ==>
                var e, o := old(st.tab[id]), if p == 0 then made else p;
                if (e.typ != t || e.size != n) && Pending(old(st), id) != [] then
                  r == 0 && error == SoapHref && this.id == id && st == old(st)
                else if e.ptr != 0 then
                  r == 0 && error == SoapDuplicateId && this.id == id && st == old(st)
                else
                  r == o && st == SetPtr(old(st), id, o, n)
    {
      alloced := false;
      var o := p;
      if p == 0 {
        o := made;
        if o != 0 {
          alloced := true;
        }
      }
      if id == "" {
        return o;
      }
      var found, h, j := Lookup(iht, st.tab, id);
      if !found {
        if oom {
          return 0;
        }
        Enter(Entry(id, t, n, 0, 0, [], o));
        return o;
      }
      var ip := iht[h][j];
      PendingEmpty(mem, st, id);
      if (ip.typ != t || ip.size != n) && (ip.copy != 0 || ip.flist != []) {
        this.id := id;
        error := SoapHref;
        return 0;
      } else if ip.ptr != 0 {
        this.id := id;
        error := SoapDuplicateId;
        return 0;
      }
      Place(id, h, j, o, n);
      r := o;
    }

    /** Record where the object of an id already named is. */
    method Place(id: string, h: nat, j: nat, o: int, n: nat)
      requires Valid()
      requires Located(iht, st, id, h, j)
      requires st.tab[id].ptr == 0
      requires o != 0 ==> 0 < o < WORD && InMem(mem, o, n)
      requires n == st.tab[id].size || Pending(st, id) == []
      modifies this`iht, this`st
      ensures Valid()
      ensures st == SetPtr(old(st), id, o, n)
    {
      SetPtrSound(mem, iht, st, id, h, j, o, n);
      iht, st := Replace(iht, h, j, iht[h][j].(size := n, ptr := o)), SetPtr(st, id, o, n);
    }
  }

  ghost predicate Sound(m: Mem, t: Table, a: State) {
    Stores(t, a.tab) && Good(m, a)
  }

  ghost predicate Located(t: Table, a: State, id: string, h: nat, j: nat) {
    id in a.tab && h < |t| && j < |t[h]| && t[h][j] == a.tab[id] && a.tab[id].id == id
  }

  lemma PushFwdSound(m: Mem, t: Table, a: State, id: string, h: nat, j: nat, f: Fwd)
    requires Sound(m, t, a) && Located(t, a, id, h, j)
    requires Free(m, a.own, f.ptr, a.tab[id].size) && !Threaded(id, a.tab[id].size)
    ensures Sound(m, Replace(t, h, j, t[h][j].(flist := [f] + t[h][j].flist)), PushFwd(a, id, f))
  {
    PushFwdGood(m, a, id, f);
    ReplaceStores(t, a.tab, h, j, t[h][j].(flist := [f] + t[h][j].flist));
  }

  lemma PushCopySound(m: Mem, t: Table, a: State, id: string, h: nat, j: nat, p: int)
    requires Sound(m, t, a) && Located(t, a, id, h, j)
    requires Free(m, a.own, p, a.tab[id].size) && Threaded(id, a.tab[id].size)
    ensures InMem(m, p, PTR) && 0 <= a.tab[id].copy < WORD
    ensures OnlyChanges(m, WritePtr(m, p, a.tab[id].copy), p, a.tab[id].size)
    ensures Sound(WritePtr(m, p, a.tab[id].copy), Replace(t, h, j, t[h][j].(copy := p)), PushCopy(a, id, p))
  {
    NodesAreAddresses(m, a, id);
    var r := WritePtr(m, p, a.tab[id].copy);
    WriteFree(m, r, a, p, a.tab[id].size);
    PushCopyGood(r, a, id, p);
    ReplaceStores(t, a.tab, h, j, t[h][j].(copy := p));
  }

  lemma PushLinkSound(m: Mem, t: Table, a: State, id: string, h: nat, j: nat, p: int)
    requires Sound(m, t, a) && Located(t, a, id, h, j)
    requires Free(m, a.own, p, PTR)
    ensures 0 <= a.tab[id].link < WORD
    ensures Sound(WritePtr(m, p, a.tab[id].link), Replace(t, h, j, t[h][j].(link := p)), PushLink(a, id, p))
  {
    NodesAreAddresses(m, a, id);
    var r := WritePtr(m, p, a.tab[id].link);
    WriteFree(m, r, a, p, PTR);
    PushLinkGood(r, a, id, p);
    ReplaceStores(t, a.tab, h, j, t[h][j].(link := p));
  }

  lemma AddSlotSound(m: Mem, t: Table, a: State, id: string, p: int)
    requires Sound(m, t, a) && id in a.tab && a.tab[id].ptr != 0
    requires Free(m, a.own, p, PTR)
    ensures 0 <= a.tab[id].ptr < WORD
    ensures Sound(WritePtr(m, p, a.tab[id].ptr), t, AddSlot(a, id, p))
  {
    assert EntryOk(m, a, id);
    var r := WritePtr(m, p, a.tab[id].ptr);
    WriteFree(m, r, a, p, PTR);
    AddSlotGood(r, a, id, p);
  }

  lemma AddEntrySound(m: Mem, t: Table, a: State, e: Entry)
    requires Sound(m, t, a) && e.id !in a.tab && Bare(e)
    requires e.ptr != 0 ==> 0 < e.ptr < WORD && InMem(m, e.ptr, e.size)
    ensures Sound(m, Push(t, e), AddEntry(a, e))
    ensures Located(Push(t, e), AddEntry(a, e), e.id, Hash(e.id, |t|), 0)
  {
    PushStores(t, a.tab, e);
    AddEntryGood(m, a, e);
  }

  lemma SetPtrSound(m: Mem, t: Table, a: State, id: string, h: nat, j: nat, o: int, n: nat)
    requires Sound(m, t, a) && Located(t, a, id, h, j) && a.tab[id].ptr == 0
    requires o != 0 ==> 0 < o < WORD && InMem(m, o, n)
    requires n == a.tab[id].size || Pending(a, id) == []
    ensures Sound(m, Replace(t, h, j, t[h][j].(size := n, ptr := o)), SetPtr(a, id, o, n))
  {
    SetPtrGood(m, a, id, o, n);
    ReplaceStores(t, a.tab, h, j, t[h][j].(size := n, ptr := o));
  }

  /** The state with an entry for id, made if there is none. */
  ghost function Named(a: State, id: string, t: int, n: nat): State {
    if id in a.tab then a else AddEntry(a, Entry(id, t, n, 0, 0, [], 0))
  }

  /** The heads of the chains of id can be stored in a word. */
  lemma NodesAreAddresses(m: Mem, a: State, id: string)
    requires Good(m, a) && id in a.tab
    ensures 0 <= a.tab[id].link < WORD && 0 <= a.tab[id].copy < WORD
  {
    assert EntryOk(m, a, id);
  }

  /** Nothing waits for a copy of id exactly when its two heads are NULL. */
  lemma PendingEmpty(m: Mem, a: State, id: string)
    requires Good(m, a) && id in a.tab
    ensures Pending(a, id) == [] <==> a.tab[id].copy == 0 && a.tab[id].flist == []
  {
    assert EntryOk(m, a, id);
    assert |Pending(a, id)| == |a.copies[id]| + |a.tab[id].flist|;
  }
}
