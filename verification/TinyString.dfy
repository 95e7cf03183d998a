/** TiXmlString: a growing buffer whose reallocations are paid for by its length. */
module TinyString {

  const NUL: char := 0 as char
  /** size_type has 32 bits; the header of a representation takes part of them. */
  const SIZE_MAX := 0xFFFF_FFF0

  /** The header and the bytes behind it, one more than the capacity. */
  class Rep {
    var size: nat
    const capacity: nat
    const str: array<char>

    constructor (sz: nat, cap: nat)
      requires sz <= cap
      ensures size == sz && capacity == cap && fresh(str) && str.Length == cap + 1 && str[sz] == NUL
    {
      size, capacity := sz, cap;
      str := new char[cap + 1];
      new;
      str[sz] := NUL;
    }
  }

  class TiXmlString {
    /** The representation every empty string shares. */
    const nullrep: Rep
    var rep: Rep
    /** The bytes that reallocations have moved since the string was last assigned. */
    ghost var moved: nat

    ghost predicate Valid()
      reads this, rep, rep.str, nullrep, nullrep.str
    {
      rep.str.Length == rep.capacity + 1
      && rep.size <= rep.capacity && rep.str[rep.size] == NUL
      && nullrep.capacity == 0 && nullrep.size == 0 && nullrep.str.Length == 1 && nullrep.str[0] == NUL
      && (rep.capacity == 0 <==> rep == nullrep)
      && (rep != nullrep ==> rep.str != nullrep.str)
    }

    /** The length has paid for the bytes moved. */
    ghost predicate Paid()
      reads this, rep
    {
      moved <= 2 * rep.size && moved <= rep.capacity
    }

    ghost function Contents(): (s: seq<char>)
      reads this, rep, rep.str
      requires rep.size <= rep.str.Length
    {
      rep.str[..][..rep.size]
    }

    constructor (nullrep0: Rep)
      requires nullrep0.capacity == 0 && nullrep0.size == 0 && nullrep0.str.Length == 1 && nullrep0.str[0] == NUL
      ensures Valid() && Contents() == [] && nullrep == nullrep0 && moved == 0 && rep == nullrep
    {
      nullrep, rep, moved := nullrep0, nullrep0, 0;
    }

    method Length() returns (n: nat)
      requires Valid()
      ensures n == |Contents()|
    {
      n := rep.size;
    }

    /** init: a capacity of zero is the shared representation. */
    method Init(sz: nat, cap: nat) returns (r: Rep)
      requires Valid() && sz <= cap
      ensures if cap == 0 then r == nullrep else fresh(r) && fresh(r.str)
      ensures cap != 0 ==> r.size == sz && r.capacity == cap && r.str.Length == cap + 1 && r.str[sz] == NUL
    {
      if cap != 0 {
        r := new Rep(sz, cap);
      } else {
        r := nullrep;
      }
    }

    /** reserve */
    method Reserve(cap: nat)
      requires Valid() && cap <= SIZE_MAX
      modifies `rep, `moved
      ensures Valid() && Contents() == old(Contents())
      ensures rep.capacity == (if cap > old(rep.capacity) then cap else old(rep.capacity)) && rep.size == old(rep.size)
      ensures rep == old(rep) || (fresh(rep) && fresh(rep.str))
      ensures moved == old(moved) + if cap > old(rep.capacity) then old(rep.size) else 0
    {
      if cap > rep.capacity {
        var tmp := Init(rep.size, cap);
        forall i | 0 <= i < rep.size {
          tmp.str[i] := rep.str[i];
        }
        moved := moved + rep.size;
        rep := tmp;
      }
    }

    /** append, for characters outside the buffer. */
    method Append(str: seq<char>)
      requires Valid() && rep.size + |str| + rep.capacity <= SIZE_MAX
      modifies this, rep, rep.str
      ensures Valid() && Contents() == old(Contents()) + str
      ensures old(Paid()) ==> Paid()
      ensures old(rep.capacity <= 2 * rep.size) ==> rep.capacity <= 2 * rep.size
      ensures rep == old(rep) || (fresh(rep) && fresh(rep.str))
    {
      var newsize := rep.size + |str|;
      if newsize > rep.capacity {
        Reserve(newsize + rep.capacity);
      }
      ghost var was, n := rep.str[..], rep.size;
      forall i | 0 <= i < |str| {
        rep.str[rep.size + i] := str[i];
      }
      assert rep.str[..][..newsize] == was[..n] + str;
      SetSize(newsize);
    }

    /** set_size */
    method SetSize(sz: nat)
      requires sz < rep.str.Length
      modifies rep`size, rep.str
      ensures rep.size == sz && rep.str[..] == old(rep.str[..])[sz := NUL]
    {
      rep.size := sz;
      rep.str[sz] := NUL;
    }

    /** assign, for characters outside the buffer; a buffer far too large is given up. */
    method Assign(str: seq<char>)
      requires Valid() && 3 * (|str| + 8) <= SIZE_MAX
      modifies this, rep, rep.str
      ensures Valid() && Contents() == str && moved == 0 && Paid()
      ensures |str| <= rep.capacity <= 3 * (|str| + 8)
      ensures rep == old(rep) || rep == nullrep || (fresh(rep) && fresh(rep.str))
    {
      var cap := rep.capacity;
      moved := 0;
      if |str| > cap || cap > 3 * (|str| + 8) {
        var tmp := Init(|str|, |str|);
        forall i | 0 <= i < |str| {
          tmp.str[i] := str[i];
        }
        rep := tmp;
        assert Contents() == str;
      } else {
        forall i | 0 <= i < |str| {
          rep.str[i] := str[i];
        }
        assert rep.str[..][..|str|] == str;
        SetSize(|str|);
      }
    }

    /** find: the search ends at the first NUL. */
    method Find(tofind: char, offset: nat) returns (p: int)
      requires Valid()
      ensures p == -1 || (offset <= p < |Contents()| && Contents()[p] == tofind
        && forall i :: offset <= i < p ==> Contents()[i] != tofind && Contents()[i] != NUL)
      ensures p == -1 ==> forall i :: offset <= i < |Contents()| && Contents()[i] == tofind ==>
        exists j :: offset <= j <= i && Contents()[j] == NUL
    {
      if offset >= rep.size {
        return -1;
      }
      p := offset;
      while rep.str[p] != NUL
        invariant offset <= p <= rep.size
        invariant forall i :: offset <= i < p ==> Contents()[i] != tofind && Contents()[i] != NUL
        decreases rep.size - p
      {
        if rep.str[p] == tofind {
          return;
        }
        p := p + 1;
      }
      assert p < |Contents()| ==> Contents()[p] == NUL;
      p := -1;
    }
  }

  /** All the pieces, one after the other. */
  function Concat(pieces: seq<seq<char>>): (s: seq<char>) {
    if pieces == [] then [] else Concat(pieces[..|pieces| - 1]) + pieces[|pieces| - 1]
  }

  lemma {:induction false} ConcatGrows(pieces: seq<seq<char>>, i: nat)
    requires i <= |pieces|
    ensures |Concat(pieces[..i])| <= |Concat(pieces)|
    decreases |pieces|
  {
    if i < |pieces| {
      assert pieces[..|pieces| - 1][..i] == pieces[..i];
      ConcatGrows(pieces[..|pieces| - 1], i);
    } else {
      assert pieces[..i] == pieces;
    }
  }

  /** Any run of appends to an empty string: the result is the concatenation, and the bytes its
      reallocations have moved are at most twice its length. */
  method AppendAll(nullrep: Rep, pieces: seq<seq<char>>) returns (t: TiXmlString)
    requires nullrep.capacity == 0 && nullrep.size == 0 && nullrep.str.Length == 1 && nullrep.str[0] == NUL
    requires 3 * |Concat(pieces)| <= SIZE_MAX
    modifies nullrep, nullrep.str
    ensures t.Valid() && t.Contents() == Concat(pieces) && t.moved <= 2 * |Concat(pieces)|
    ensures t.rep.capacity <= 2 * |Concat(pieces)|
  {
    t := new TiXmlString(nullrep);
    for i := 0 to |pieces|
      invariant t.Valid() && t.Contents() == Concat(pieces[..i]) && t.Paid()
      invariant fresh(t) && t.nullrep == nullrep && (t.rep == nullrep || (fresh(t.rep) && fresh(t.rep.str)))
      invariant t.rep.capacity <= 2 * t.rep.size
    {
      assert pieces[..i + 1][..i] == pieces[..i];
      ConcatGrows(pieces, i + 1);
      t.Append(pieces[i]);
    }
    assert pieces[..|pieces|] == pieces;
  }
}
