/** soap_save_block: gather all blocks, oldest first, in one buffer, taking pending hrefs along. */
module SaveBlock {
  import opened Memory
  import opened IdTable
  import opened IdState
  import opened IdSteps
  import opened Soap
  import opened Relocate
  import opened UpdatePointers
  import opened BlockList
  import opened Blocks

  /** The moves that lay out bs one after the other from p on. */
  function Plan(bs: seq<Block>, p: int): seq<Move> {
    if bs == [] then [] else [Move(Data(bs[0]), bs[0].n, p)] + Plan(bs[1..], p + bs[0].n)
  }

  /** b is a after the moves, one by one. */
  ghost predicate MovesTo(a: State, ms: seq<Move>, b: State)
    decreases |ms|
  {
    if ms == [] then b == a else Owners(a) && MovesTo(Moved(a, ms[0]), ms[1..], b)
  }

  /** Where an address ends up. */
  function Follow(ms: seq<Move>, p: int): int {
    if ms == [] then p else Follow(ms[1..], Shift(ms[0], p))
  }

  function FollowAll(ms: seq<Move>, ps: seq<int>): (r: seq<int>)
    ensures |r| == |ps|
  {
    seq(|ps|, i requires 0 <= i < |ps| => Follow(ms, ps[i]))
  }

  /** All chains after the moves: the same nodes in the same order, each at the address it moved to;
      every object and every waiting target followed too. */
  lemma {:induction false} MovesKeepChains(a: State, ms: seq<Move>, b: State, id: string)
    requires Keyed(a) && MovesTo(a, ms, b) && id in a.tab
    ensures Keyed(b) && id in b.tab
    ensures b.links[id] == FollowAll(ms, a.links[id])
    ensures Pending(b, id) == FollowAll(ms, Pending(a, id))
    ensures b.tab[id].ptr == Follow(ms, a.tab[id].ptr)
    decreases |ms|
  {
    if ms == [] {
      assert FollowAll(ms, a.links[id]) == a.links[id] && FollowAll(ms, Pending(a, id)) == Pending(a, id);
    } else {
      MovedPending(a, ms[0], id);
      MovesKeepChains(Moved(a, ms[0]), ms[1..], b, id);
      assert FollowAll(ms[1..], ShiftAll(ms[0], a.links[id])) == FollowAll(ms, a.links[id]);
      assert FollowAll(ms[1..], ShiftAll(ms[0], Pending(a, id))) == FollowAll(ms, Pending(a, id));
    }
  }

  ghost predicate ApartFrom(bs: seq<Block>, p: int, n: int) {
    forall i :: 0 <= i < |bs| ==> Apart(p, n, bs[i].at, HEADER + bs[i].n)
  }

  /** An address outside the data of all blocks stays. */
  lemma {:induction false} FollowOutside(bs: seq<Block>, p: int, x: int)
    requires forall i :: 0 <= i < |bs| ==> !(Data(bs[i]) <= x < Data(bs[i]) + bs[i].n)
    ensures Follow(Plan(bs, p), x) == x
  {
    if bs != [] {
      assert Shift(Plan(bs, p)[0], x) == x;
      FollowOutside(bs[1..], p + bs[0].n, x);
    }
  }

  lemma BufferOutside(bs: seq<Block>, p: int, d: int)
    requires 0 <= d < Total(bs) && ApartFrom(bs, p, Total(bs))
    ensures forall i :: 0 <= i < |bs[1..]| ==> !(Data(bs[1..][i]) <= p + d < Data(bs[1..][i]) + bs[1..][i].n)
  {
    forall i | 0 <= i < |bs[1..]|
      ensures !(Data(bs[1..][i]) <= p + d < Data(bs[1..][i]) + bs[1..][i].n)
    {
      assert Apart(p, Total(bs), bs[i + 1].at, HEADER + bs[i + 1].n);
    }
  }

  lemma ApartLater(bs: seq<Block>, p: int)
    requires bs != [] && BlocksApart(bs) && ApartFrom(bs, p, Total(bs))
    ensures BlocksApart(bs[1..]) && ApartFrom(bs[1..], p + bs[0].n, Total(bs[1..]))
  {
    forall i | 0 <= i < |bs[1..]|
      ensures Apart(p + bs[0].n, Total(bs[1..]), bs[1..][i].at, HEADER + bs[1..][i].n)
    {
      assert Apart(p, Total(bs), bs[i + 1].at, HEADER + bs[i + 1].n);
    }
  }

  /** Byte d of the joined data goes to p + d. */
  lemma {:induction false} FollowOrigin(bs: seq<Block>, p: int, d: int)
    requires 0 <= d < Total(bs) && BlocksApart(bs) && ApartFrom(bs, p, Total(bs))
    ensures Follow(Plan(bs, p), Origin(bs, d)) == p + d
  {
    var x, v := Origin(bs, d), Move(Data(bs[0]), bs[0].n, p);
    assert Plan(bs, p)[0] == v && Plan(bs, p)[1..] == Plan(bs[1..], p + bs[0].n);
    if d < bs[0].n {
      assert Shift(v, x) == p + d;
      BufferOutside(bs, p, d);
      FollowOutside(bs[1..], p + bs[0].n, p + d);
    } else {
      NotInFirst(bs, d);
      assert Shift(v, x) == x;
      ApartLater(bs, p);
      FollowOrigin(bs[1..], p + bs[0].n, d - bs[0].n);
    }
  }

  lemma NotInFirst(bs: seq<Block>, d: int)
    requires BlocksApart(bs) && bs != [] && bs[0].n <= d < Total(bs)
    ensures !(Data(bs[0]) <= Origin(bs, d) < Data(bs[0]) + bs[0].n)
  {
    OriginInside(bs[1..], d - bs[0].n);
    var i :| 0 <= i < |bs[1..]| && Data(bs[1..][i]) <= Origin(bs, d) < Data(bs[1..][i]) + bs[1..][i].n;
    assert bs[1..][i] == bs[i + 1];
    assert Apart(bs[0].at, HEADER + bs[0].n, bs[i + 1].at, HEADER + bs[i + 1].n);
  }

  lemma {:induction false} OriginInside(bs: seq<Block>, d: int)
    requires 0 <= d < Total(bs)
    ensures exists i :: 0 <= i < |bs| && Data(bs[i]) <= Origin(bs, d) < Data(bs[i]) + bs[i].n
  {
    if d >= bs[0].n {
      OriginInside(bs[1..], d - bs[0].n);
      var i :| 0 <= i < |bs[1..]| && Data(bs[1..][i]) <= Origin(bs[1..], d - bs[0].n) < Data(bs[1..][i]) + bs[1..][i].n;
      assert bs[1..][i] == bs[i + 1];
    }
  }

  /** The space from p on is free for the data of bs, and objects lie in blocks as a whole. */
  ghost predicate Ready(m: Mem, a: State, bs: seq<Block>, p: int) {
    && InMem(m, p, Total(bs))
    && ApartFrom(bs, p, Total(bs))
    && (forall q :: q in a.own ==> Apart(p, Total(bs), q, a.own[q].len))
    && (forall i :: 0 <= i < |bs| ==> Encloses(a, bs[i]))
  }

  lemma {:induction false} TotalBound(bs: seq<Block>, i: nat)
    requires i < |bs|
    ensures bs[i].n <= Total(bs)
  {
    if i > 0 {
      TotalBound(bs[1..], i - 1);
    }
  }

  /** The move of the first block. */
  ghost predicate MovesFirst(bs: seq<Block>, v: Move) {
    bs != [] && v.from == Data(bs[0]) && v.n == bs[0].n
  }

  lemma ReadyMovable(m: Mem, a: State, head: int, bs: seq<Block>, v: Move)
    requires Good(m, a) && Stored(m, a, head, bs) && MovesFirst(bs, v) && Ready(m, a, bs, v.to)
    ensures Movable(m, a, v)
  {
    assert HeaderAt(m, bs, 0);
    assert Houses(a.own, bs[0]) && Encloses(a, bs[0]);
    TotalBound(bs, 0);
  }

  lemma AllNodesFramed(m: Mem, r: Mem, a: State)
    requires Good(m, a) && Owners(a) && Framed(m, r, Words(a.own), Nodes(a))
    ensures Framed(m, r, a.own, Nodes(a))
  {
    forall p | p in Nodes(a)
      ensures p in a.own && a.own[p].len >= PTR
    {
      NodeOwner(m, a, a.own[p].id, p);
    }
    WordsFramed(m, r, a.own, Nodes(a));
  }

  lemma SoundAfterMove(m: Mem, r: Mem, t: Table, a: State, v: Move)
    requires Good(m, a) && Movable(m, a, v) && Told(m, r, t, a, v)
    ensures |r| == |m| && InMem(r, v.from, v.n) && InMem(r, v.to, v.n)
    ensures Sound(Copy(r, v.to, v.from, v.n), t, Moved(a, v))
  {
    AllNodesFramed(m, r, a);
    MovedGood(m, r, a, v);
  }

  /** After the first block has moved, the others are as they were and nothing is left in the first. */
  lemma StoredAfterMove(m: Mem, r: Mem, a: State, head: int, bs: seq<Block>, v: Move)
    requires Good(m, a) && Owners(a) && Stored(m, a, head, bs) && MovesFirst(bs, v) && Ready(m, a, bs, v.to)
    requires Framed(m, r, Words(a.own), Nodes(a)) && InMem(r, v.from, v.n) && InMem(r, v.to, v.n)
    ensures Stored(Copy(r, v.to, v.from, v.n), Moved(a, v), head, bs)
    ensures ApartFromOwn(Moved(a, v), bs[0])
  {
    ReadyMovable(m, a, head, bs, v);
    MovedOwn(m, a, v);
    AllNodesFramed(m, r, a);
    ListedFramed(m, r, a.own, Nodes(a), head, bs);
    var s, b := Copy(r, v.to, v.from, v.n), Moved(a, v);
    forall i | 0 <= i < |bs|
      ensures Apart(v.to, v.n, bs[i].at, HEADER + bs[i].n)
    {
      TotalBound(bs, 0);
      assert Apart(v.to, Total(bs), bs[i].at, HEADER + bs[i].n);
    }
    ListedApart(r, s, head, bs, v.to, v.n);
    forall i, q | 0 <= i < |bs| && q in b.own
      ensures Inside(q, b.own[q].len, Data(bs[i]), bs[i].n) || Apart(q, b.own[q].len, bs[i].at, HEADER + bs[i].n)
      ensures i == 0 ==> Apart(bs[0].at, HEADER + bs[0].n, q, b.own[q].len)
    {
      var o := Source(a, v, q);
      assert Houses(a.own, bs[i]) && Houses(a.own, bs[0]);
    }
    forall i | 0 <= i < |bs|
      ensures Houses(b.own, bs[i])
    {
    }
  }

  ghost predicate ApartFromOwn(a: State, b: Block) {
    forall q :: q in a.own ==> Apart(b.at, HEADER + b.n, q, a.own[q].len)
  }

  lemma RoomAfterMove(m: Mem, a: State, head: int, bs: seq<Block>, v: Move, q: int)
    requires Good(m, a) && Owners(a) && Stored(m, a, head, bs) && MovesFirst(bs, v) && Ready(m, a, bs, v.to)
    requires q in Moved(a, v).own
    ensures Apart(v.to + v.n, Total(bs[1..]), q, Moved(a, v).own[q].len)
  {
    ReadyMovable(m, a, head, bs, v);
    MovedOwn(m, a, v);
    var o := Source(a, v, q);
    assert Apart(v.to, Total(bs), o, a.own[o].len);
    assert Houses(a.own, bs[0]);
  }

  lemma RoomForRest(m: Mem, a: State, head: int, bs: seq<Block>, v: Move)
    requires Good(m, a) && Owners(a) && Stored(m, a, head, bs) && MovesFirst(bs, v) && Ready(m, a, bs, v.to)
    ensures forall q :: q in Moved(a, v).own ==> Apart(v.to + v.n, Total(bs[1..]), q, Moved(a, v).own[q].len)
  {
    forall q | q in Moved(a, v).own
      ensures Apart(v.to + v.n, Total(bs[1..]), q, Moved(a, v).own[q].len)
    {
      RoomAfterMove(m, a, head, bs, v, q);
    }
  }

  lemma RestEnclosed(m: Mem, a: State, head: int, bs: seq<Block>, v: Move)
    requires Good(m, a) && Owners(a) && Stored(m, a, head, bs) && MovesFirst(bs, v) && Ready(m, a, bs, v.to)
    ensures forall i :: 0 <= i < |bs[1..]| ==> Encloses(Moved(a, v), bs[1..][i])
  {
    forall i | 0 <= i < |bs[1..]|
      ensures Encloses(Moved(a, v), bs[1..][i])
    {
      EnclosesAfterMove(m, a, head, bs, v, i + 1);
    }
  }

  lemma RestApart(bs: seq<Block>, v: Move)
    requires MovesFirst(bs, v) && ApartFrom(bs, v.to, Total(bs))
    ensures ApartFrom(bs[1..], v.to + v.n, Total(bs[1..]))
  {
    forall i | 0 <= i < |bs[1..]|
      ensures Apart(v.to + v.n, Total(bs[1..]), bs[1..][i].at, HEADER + bs[1..][i].n)
    {
      assert Apart(v.to, Total(bs), bs[i + 1].at, HEADER + bs[i + 1].n);
    }
  }

  lemma ReadyAfterMove(m: Mem, r: Mem, a: State, head: int, bs: seq<Block>, v: Move)
    requires Good(m, a) && Owners(a) && Stored(m, a, head, bs) && MovesFirst(bs, v) && Ready(m, a, bs, v.to)
    requires |r| == |m|
    ensures Ready(r, Moved(a, v), bs[1..], v.to + v.n)
  {
    RoomForRest(m, a, head, bs, v);
    RestEnclosed(m, a, head, bs, v);
    RestApart(bs, v);
  }

  lemma EnclosesAfterMove(m: Mem, a: State, head: int, bs: seq<Block>, v: Move, i: nat)
    requires Good(m, a) && Owners(a) && Stored(m, a, head, bs) && MovesFirst(bs, v) && Ready(m, a, bs, v.to) && 0 < i < |bs|
    ensures Encloses(Moved(a, v), bs[i])
  {
    var b := Moved(a, v);
    assert Encloses(a, bs[i]);
    assert Apart(v.to, Total(bs), bs[i].at, HEADER + bs[i].n);
    TotalBound(bs, 0);
    forall id | id in b.tab && Data(bs[i]) <= b.tab[id].ptr < Data(bs[i]) + bs[i].n
      ensures b.tab[id].ptr == a.tab[id].ptr && b.tab[id].size == a.tab[id].size
    {
    }
  }

  // ---------- what the bytes are ----------

  /** Byte y of m mirrors byte x of m0, unless x belonged to a word of a pending chain. */
  ghost predicate Mirror(m0: Mem, a0: State, m: Mem, a: State, y: int, x: int)
    requires Owners(a0) && Owners(a)
  {
    || Covered(Words(a0.own), Nodes(a0), x)
    || (0 <= y < |m| && 0 <= x < |m0| && !Covered(Words(a.own), Nodes(a), y) && m[y] == m0[x])
  }

  lemma MovedNode(m: Mem, a: State, v: Move, q: int) returns (p: int)
    requires Good(m, a) && Owners(a) && Movable(m, a, v)
    requires Owners(Moved(a, v)) && q in Moved(a, v).own && q in Nodes(Moved(a, v))
    ensures p in Nodes(a) && p in a.own && Shift(v, p) == q && a.own[p].len >= PTR
  {
    var b := Moved(a, v);
    MovedOwn(m, a, v);
    var id := b.own[q].id;
    assert EntryOk(m, a, id);
    CopiesOwned(m, a, id);
    if q in b.links[id] {
      var k :| 0 <= k < |b.links[id]| && b.links[id][k] == q;
      p := a.links[id][k];
    } else {
      var k :| 0 <= k < |b.copies[id]| && b.copies[id][k] == q;
      p := a.copies[id][k];
    }
  }

  function Back(v: Move, y: int): int {
    if v.to <= y < v.to + v.n then y - v.to + v.from else y
  }

  lemma BackInside(v: Move, p: int, n: nat, y: int)
    requires Inside(p, n, v.from, v.n) || Apart(p, n, v.from, v.n)
    requires Apart(v.to, v.n, p, n)
    requires v.to <= y < v.to + v.n || !(v.from <= y < v.from + v.n)
    requires Shift(v, p) <= y < Shift(v, p) + n
    ensures p <= Back(v, y) < p + n
  {
  }

  lemma NodeWordFits(m: Mem, a: State, v: Move, p: int)
    requires Movable(m, a, v) && p in a.own && a.own[p].len >= PTR
    ensures Inside(p, PTR, v.from, v.n) || Apart(p, PTR, v.from, v.n)
    ensures Apart(v.to, v.n, p, PTR)
  {
    assert Inside(p, a.own[p].len, v.from, v.n) || Apart(p, a.own[p].len, v.from, v.n);
    assert Apart(v.to, v.n, p, a.own[p].len);
  }

  /** A byte outside the words of pending chains after the move came from one outside them. */
  lemma CoveredAfterMove(m: Mem, a: State, v: Move, y: int)
    requires Good(m, a) && Owners(a) && Movable(m, a, v) && Owners(Moved(a, v))
    requires Covered(Words(Moved(a, v).own), Nodes(Moved(a, v)), y)
    requires v.to <= y < v.to + v.n || !(v.from <= y < v.from + v.n)
    ensures Covered(Words(a.own), Nodes(a), Back(v, y))
  {
    var b := Moved(a, v);
    var q :| q in Nodes(b) && q in Words(b.own) && q <= y < q + PTR;
    var p := MovedNode(m, a, v, q);
    NodeWordFits(m, a, v, p);
    BackInside(v, p, PTR, y);
    WordCovered(a.own, Nodes(a), p, Back(v, y));
  }

  lemma WordCovered(own: map<int, Own>, c: set<int>, p: int, x: int)
    requires p in c && p in own && p <= x < p + PTR
    ensures Covered(Words(own), c, x)
  {
    assert p in Words(own) && Words(own)[p].len == PTR;
  }

  lemma MirrorAfterMove(m0: Mem, a0: State, m: Mem, r: Mem, a: State, v: Move, y: int, x: int)
    requires Owners(a0) && Good(m, a) && Owners(a) && Movable(m, a, v) && Owners(Moved(a, v))
    requires Framed(m, r, Words(a.own), Nodes(a))
    requires v.to <= y < v.to + v.n || !(v.from <= y < v.from + v.n)
    requires Mirror(m0, a0, m, a, Back(v, y), x)
    ensures Mirror(m0, a0, Copy(r, v.to, v.from, v.n), Moved(a, v), y, x)
  {
    if !Covered(Words(a0.own), Nodes(a0), x) {
      if Covered(Words(Moved(a, v).own), Nodes(Moved(a, v)), y) {
        CoveredAfterMove(m, a, v, y);
      }
      ByteAfterMove(m, r, a, v, y);
    }
  }

  lemma ByteAfterMove(m: Mem, r: Mem, a: State, v: Move, y: int)
    requires Owners(a) && Framed(m, r, Words(a.own), Nodes(a))
    requires InMem(m, v.from, v.n) && InMem(m, v.to, v.n)
    requires 0 <= Back(v, y) < |m| && 0 <= y && !Covered(Words(a.own), Nodes(a), Back(v, y))
    ensures y < |m| && Copy(r, v.to, v.from, v.n)[y] == m[Back(v, y)]
  {
    var s := Copy(r, v.to, v.from, v.n);
    if v.to <= y < v.to + v.n {
      assert Bytes(s, v.to, v.n)[y - v.to] == Bytes(r, v.from, v.n)[y - v.to];
    }
  }

  /** The buffer at p holds the first d bytes of the joined data, and the rest is where it was. */
  ghost predicate Gathered(m0: Mem, a0: State, all: seq<Block>, p: int, m: Mem, a: State, d: int)
    requires Owners(a0) && Owners(a)
  {
    forall k {:trigger Origin(all, k)} :: 0 <= k < Total(all) ==>
      Mirror(m0, a0, m, a, if k < d then p + k else Origin(all, k), Origin(all, k))
  }

  lemma {:induction false} OriginLater(bs: seq<Block>, j: nat, k: int)
    requires j <= |bs| && Total(bs[..j]) <= k < Total(bs)
    ensures exists i :: j <= i < |bs| && Data(bs[i]) <= Origin(bs, k) < Data(bs[i]) + bs[i].n
  {
    if j == 0 {
      OriginInside(bs, k);
    } else {
      assert bs[..j][1..] == bs[1..][..j - 1];
      OriginLater(bs[1..], j - 1, k - bs[0].n);
      var i :| j - 1 <= i < |bs[1..]| && Data(bs[1..][i]) <= Origin(bs[1..], k - bs[0].n) < Data(bs[1..][i]) + bs[1..][i].n;
      assert bs[1..][i] == bs[i + 1];
    }
  }

  lemma {:induction false} TotalPrefix(bs: seq<Block>, j: nat)
    requires j < |bs|
    ensures Total(bs[..j + 1]) == Total(bs[..j]) + bs[j].n
    ensures Total(bs[..j]) + Total(bs[j..]) == Total(bs)
    ensures Total(bs[j..]) == bs[j].n + Total(bs[j + 1..])
  {
    assert bs[..j + 1] == bs[..j] + [bs[j]];
    TotalSnoc(bs[..j], bs[j]);
    assert bs == bs[..j] + bs[j..];
    TotalAppend(bs[..j], bs[j..]);
    assert bs[j..][1..] == bs[j + 1..];
  }

  /** Data of a later block is neither in block j nor in the buffer. */
  lemma LaterElsewhere(all: seq<Block>, j: nat, p: int, k: int)
    requires j < |all| && BlocksApart(all) && ApartFrom(all, p, Total(all))
    requires Total(all[..j + 1]) <= k < Total(all)
    ensures !(all[j].at <= Origin(all, k) < all[j].at + HEADER + all[j].n)
    ensures !(p <= Origin(all, k) < p + Total(all))
  {
    OriginLater(all, j + 1, k);
    var i :| j + 1 <= i < |all| && Data(all[i]) <= Origin(all, k) < Data(all[i]) + all[i].n;
    assert Apart(all[j].at, HEADER + all[j].n, all[i].at, HEADER + all[i].n);
    assert Apart(p, Total(all), all[i].at, HEADER + all[i].n);
  }

  /** Where byte k is when block j has moved, and where it was before: y and x. */
  ghost predicate Placed(all: seq<Block>, j: nat, p: int, k: int, y: int, x: int)
    requires j < |all|
  {
    var v := Move(Data(all[j]), all[j].n, p + Total(all[..j]));
    && (v.to <= y < v.to + v.n || !(v.from <= y < v.from + v.n))
    && Back(v, y) == x
    && !(all[j].at <= y < all[j].at + HEADER + all[j].n)
  }

  lemma PlacedEarlier(all: seq<Block>, j: nat, p: int, k: int)
    requires j < |all| && ApartFrom(all, p, Total(all)) && 0 <= k < Total(all[..j])
    ensures Placed(all, j, p, k, p + k, p + k)
  {
    TotalPrefix(all, j);
    assert Apart(p, Total(all), all[j].at, HEADER + all[j].n);
  }

  lemma PlacedNow(all: seq<Block>, j: nat, p: int, k: int)
    requires j < |all| && ApartFrom(all, p, Total(all)) && Total(all[..j]) <= k < Total(all[..j]) + all[j].n
    ensures k < Total(all) && Placed(all, j, p, k, p + k, Origin(all, k))
  {
    TotalPrefix(all, j);
    assert Apart(p, Total(all), all[j].at, HEADER + all[j].n);
    OriginAt(all, j, k - Total(all[..j]));
  }

  lemma PlacedLater(all: seq<Block>, j: nat, p: int, k: int)
    requires j < |all| && BlocksApart(all) && ApartFrom(all, p, Total(all))
    requires Total(all[..j]) + all[j].n <= k < Total(all)
    ensures Placed(all, j, p, k, Origin(all, k), Origin(all, k))
  {
    TotalPrefix(all, j);
    LaterElsewhere(all, j, p, k);
  }

  /** Where byte k was before block j moved. */
  lemma PlaceBefore(all: seq<Block>, j: nat, p: int, k: int)
    requires j < |all| && BlocksApart(all) && ApartFrom(all, p, Total(all)) && 0 <= k < Total(all)
    ensures var d, v := Total(all[..j]), Move(Data(all[j]), all[j].n, p + Total(all[..j]));
      var y := if k < d + all[j].n then p + k else Origin(all, k);
      && (v.to <= y < v.to + v.n || !(v.from <= y < v.from + v.n))
      && Back(v, y) == (if k < d then p + k else Origin(all, k))
      && !(all[j].at <= y < all[j].at + HEADER + all[j].n)
  {
    var d := Total(all[..j]);
    if k < d {
      PlacedEarlier(all, j, p, k);
    } else if k < d + all[j].n {
      PlacedNow(all, j, p, k);
    } else {
      PlacedLater(all, j, p, k);
    }
  }

  lemma GatheredStep(m0: Mem, a0: State, all: seq<Block>, p: int, m: Mem, r: Mem, a: State, j: nat, v: Move)
    requires Owners(a0) && Good(m, a) && Owners(a)
    requires j < |all| && BlocksApart(all) && ApartFrom(all, p, Total(all))
    requires v == Move(Data(all[j]), all[j].n, p + Total(all[..j])) && Movable(m, a, v) && Owners(Moved(a, v))
    requires Framed(m, r, Words(a.own), Nodes(a))
    requires Gathered(m0, a0, all, p, m, a, v.to - p)
    ensures Gathered(m0, a0, all, p, Copy(r, v.to, v.from, v.n), Moved(a, v), v.to + v.n - p)
  {
    var d, e := v.to - p, v.to + v.n - p;
    forall k {:trigger Origin(all, k)} | 0 <= k < Total(all)
      ensures Mirror(m0, a0, Copy(r, v.to, v.from, v.n), Moved(a, v), if k < e then p + k else Origin(all, k), Origin(all, k))
    {
      PlaceBefore(all, j, p, k);
      MirrorAfterMove(m0, a0, m, r, a, v, if k < e then p + k else Origin(all, k), Origin(all, k));
    }
  }

  /** Releasing block j does not touch what has been gathered or is still to come. */
  lemma GatheredFreed(m0: Mem, a0: State, all: seq<Block>, p: int, m: Mem, r: Mem, a: State, j: nat, d: int)
    requires Owners(a0) && Owners(a)
    requires j < |all| && BlocksApart(all) && ApartFrom(all, p, Total(all))
    requires d == Total(all[..j]) + all[j].n
    requires OnlyChanges(m, r, all[j].at, HEADER + all[j].n)
    requires Gathered(m0, a0, all, p, m, a, d)
    ensures Gathered(m0, a0, all, p, r, a, d)
  {
    forall k {:trigger Origin(all, k)} | 0 <= k < Total(all)
      ensures Mirror(m0, a0, r, a, if k < d then p + k else Origin(all, k), Origin(all, k))
    {
      PlaceBefore(all, j, p, k);
      assert Mirror(m0, a0, m, a, if k < d then p + k else Origin(all, k), Origin(all, k));
    }
  }

  /** Reversing the list in place leaves all data alone. */
  lemma GatheredStart(m0: Mem, m: Mem, a: State, head: int, bs: seq<Block>, p: int)
    requires Good(m0, a) && Owners(a) && Stored(m0, a, head, bs) && OnlyHeaders(m0, m, bs)
    ensures Gathered(m0, a, Reversed(bs), p, m, a, 0)
  {
    var all := Reversed(bs);
    forall k {:trigger Origin(all, k)} | 0 <= k < Total(all)
      ensures Mirror(m0, a, m, a, Origin(all, k), Origin(all, k))
    {
      OriginInside(all, k);
      var i :| 0 <= i < |all| && Data(all[i]) <= Origin(all, k) < Data(all[i]) + all[i].n;
      assert all[i] == bs[|bs| - 1 - i];
      DataOutsideHeaders(m0, head, bs, |bs| - 1 - i, Origin(all, k));
    }
  }

  /** Neither in a block nor in the buffer at p. */
  ghost predicate Elsewhere(all: seq<Block>, p: int, x: int) {
    !(p <= x < p + Total(all)) && !InBlock(all, x)
  }

  /** Everything elsewhere is as it was. */
  ghost predicate Aloof(m0: Mem, a0: State, all: seq<Block>, p: int, m: Mem, a: State)
    requires Owners(a0) && Owners(a)
  {
    forall x {:trigger Elsewhere(all, p, x)} :: 0 <= x < |m0| && Elsewhere(all, p, x) ==> Mirror(m0, a0, m, a, x, x)
  }

  lemma AloofStart(m0: Mem, m: Mem, a: State, bs: seq<Block>, p: int)
    requires Owners(a) && OnlyHeaders(m0, m, bs)
    ensures Aloof(m0, a, Reversed(bs), p, m, a)
  {
    forall x | 0 <= x < |m0| && Elsewhere(Reversed(bs), p, x)
      ensures Mirror(m0, a, m, a, x, x)
    {
      forall i | 0 <= i < |bs|
        ensures !(bs[i].at <= x < bs[i].at + HEADER)
      {
        assert Reversed(bs)[|bs| - 1 - i] == bs[i];
      }
    }
  }

  lemma AloofStep(m0: Mem, a0: State, all: seq<Block>, p: int, m: Mem, r: Mem, a: State, j: nat, v: Move)
    requires Owners(a0) && Good(m, a) && Owners(a) && |m| == |m0|
    requires j < |all| && v == Move(Data(all[j]), all[j].n, p + Total(all[..j])) && Movable(m, a, v) && Owners(Moved(a, v))
    requires Framed(m, r, Words(a.own), Nodes(a))
    requires Aloof(m0, a0, all, p, m, a)
    ensures Aloof(m0, a0, all, p, Copy(r, v.to, v.from, v.n), Moved(a, v))
  {
    TotalPrefix(all, j);
    forall x | 0 <= x < |m0| && Elsewhere(all, p, x)
      ensures Mirror(m0, a0, Copy(r, v.to, v.from, v.n), Moved(a, v), x, x)
    {
      assert Back(v, x) == x && !(v.from <= x < v.from + v.n);
      MirrorAfterMove(m0, a0, m, r, a, v, x, x);
    }
  }

  lemma AloofFreed(m0: Mem, a0: State, all: seq<Block>, p: int, m: Mem, r: Mem, a: State, j: nat)
    requires Owners(a0) && Owners(a) && |m| == |m0| && j < |all| && OnlyChanges(m, r, all[j].at, HEADER + all[j].n)
    requires Aloof(m0, a0, all, p, m, a)
    ensures Aloof(m0, a0, all, p, r, a)
  {
    forall x | 0 <= x < |m0| && Elsewhere(all, p, x)
      ensures Mirror(m0, a0, r, a, x, x)
    {
      assert Mirror(m0, a0, m, a, x, x);
      assert !(all[j].at <= x < all[j].at + HEADER + all[j].n);
    }
  }

  lemma DataOutsideHeaders(m: Mem, head: int, bs: seq<Block>, i: nat, x: int)
    requires Listed(m, head, bs) && BlocksApart(bs) && i < |bs| && Data(bs[i]) <= x < Data(bs[i]) + bs[i].n
    ensures 0 <= x < |m| && !InHeader(bs, x)
  {
    assert HeaderAt(m, bs, i);
    forall g | 0 <= g < |bs|
      ensures !(bs[g].at <= x < bs[g].at + HEADER)
    {
      if g < i {
        assert Apart(bs[g].at, HEADER + bs[g].n, bs[i].at, HEADER + bs[i].n);
      } else if i < g {
        assert Apart(bs[i].at, HEADER + bs[i].n, bs[g].at, HEADER + bs[g].n);
      }
    }
  }

  // ---------- soap_save_block ----------

  /** Nothing registered lies in the blocks. */
  ghost predicate Vacant(a: State, bs: seq<Block>) {
    && (forall i, q :: 0 <= i < |bs| && q in a.own ==> Apart(bs[i].at, HEADER + bs[i].n, q, a.own[q].len))
    && (forall i, id :: 0 <= i < |bs| && id in a.tab ==> !(Data(bs[i]) <= a.tab[id].ptr < Data(bs[i]) + bs[i].n))
  }

  lemma MovedVacantEntry(m: Mem, a: State, v: Move, id: string)
    requires Good(m, a) && Owners(a) && id in a.tab && InMem(m, v.from, v.n)
    requires forall q :: q in a.own ==> Apart(v.from, v.n, q, a.own[q].len)
    requires !(v.from <= a.tab[id].ptr < v.from + v.n)
    ensures ShiftEntry(v, a.tab[id]) == a.tab[id]
    ensures ShiftAll(v, a.links[id]) == a.links[id] && ShiftAll(v, a.copies[id]) == a.copies[id]
  {
    assert EntryOk(m, a, id);
    CopiesOwned(m, a, id);
    assert forall k :: 0 <= k < |a.tab[id].flist| ==> Pending(a, id)[|a.copies[id]| + k] == a.tab[id].flist[k].ptr;
    assert ShiftFlist(v, a.tab[id].flist) == a.tab[id].flist;
  }

  /** Moving a block in which nothing is registered changes no address. */
  lemma MovedVacant(m: Mem, a: State, v: Move)
    requires Good(m, a) && Owners(a) && Movable(m, a, v) && Unregistered(a, v)
    ensures Moved(a, v) == a
  {
    forall id | id in a.tab
      ensures ShiftEntry(v, a.tab[id]) == a.tab[id]
      ensures ShiftAll(v, a.links[id]) == a.links[id] && ShiftAll(v, a.copies[id]) == a.copies[id]
    {
      MovedVacantEntry(m, a, v, id);
    }
    OwnUnshifted(a, v);
    TabUnshifted(a, v);
    LinksUnshifted(a, v);
    CopiesUnshifted(a, v);
  }

  lemma TabUnshifted(a: State, v: Move)
    requires Owners(a) && forall id :: id in a.tab ==> ShiftEntry(v, a.tab[id]) == a.tab[id]
    ensures Moved(a, v).tab == a.tab
  {
  }

  lemma LinksUnshifted(a: State, v: Move)
    requires Owners(a) && forall id :: id in a.tab ==> ShiftAll(v, a.links[id]) == a.links[id]
    ensures Moved(a, v).links == a.links
  {
  }

  lemma CopiesUnshifted(a: State, v: Move)
    requires Owners(a) && forall id :: id in a.tab ==> ShiftAll(v, a.copies[id]) == a.copies[id]
    ensures Moved(a, v).copies == a.copies
  {
  }

  /** If no owned address shifts or goes stale, the owners are as before. */
  lemma OwnUnshifted(a: State, v: Move)
    requires Owners(a) && forall q :: q in a.own ==> !Stale(a, v, q) && Shift(v, q) == q
    ensures Moved(a, v).own == a.own
  {
    var own := Moved(a, v).own;
    forall q | q in own
      ensures q in a.own && own[q] == a.own[q]
    {
      var p := Source(a, v, q);
    }
    forall q | q in a.own
      ensures q in own
    {
      assert Shift(v, q) == q;
    }
  }

  /** Nothing registered lies in the bytes that move. */
  ghost predicate Unregistered(a: State, v: Move) {
    && (forall q :: q in a.own ==> Apart(v.from, v.n, q, a.own[q].len))
    && (forall id :: id in a.tab ==> !(v.from <= a.tab[id].ptr < v.from + v.n))
  }

  /** Copy n bytes from q to s, pending hrefs first. */
  method MoveTold(c: Context, q: int, n: nat, s: int, ghost v: Move) returns (ghost r: Mem)
    requires c.Valid() && v == Move(q, n, s) && Movable(c.mem, c.st, v)
    modifies c`mem, c`iht, c`st
    ensures Owners(old(c.st)) && c.Valid() && c.st == Moved(old(c.st), v)
    ensures |r| == |c.mem| == |old(c.mem)| && Framed(old(c.mem), r, Words(old(c.st.own)), Nodes(old(c.st)))
    ensures InMem(r, v.from, v.n) && InMem(r, v.to, v.n) && c.mem == Copy(r, v.to, v.from, v.n)
  {
    ghost var m, a := c.mem, c.st;
    UpdateAll(c, q, q + n, s, q, v);
    r := c.mem;
    c.mem := Copy(c.mem, s, q, n);
    SoundAfterMove(m, r, c.iht, a, v);
    c.st := Moved(a, v);
  }

  /** Copy n bytes from q to s: with flag, pending hrefs are told first. */
  method MoveData(c: Context, q: int, n: nat, s: int, flag: bool, ghost v: Move) returns (ghost r: Mem)
    requires c.Valid() && v == Move(q, n, s) && Movable(c.mem, c.st, v)
    requires !flag ==> Unregistered(c.st, v)
    modifies c`mem, c`iht, c`st
    ensures Owners(old(c.st)) && c.Valid() && c.st == Moved(old(c.st), v)
    ensures |r| == |c.mem| == |old(c.mem)| && Framed(old(c.mem), r, Words(old(c.st.own)), Nodes(old(c.st)))
    ensures InMem(r, v.from, v.n) && InMem(r, v.to, v.n) && c.mem == Copy(r, v.to, v.from, v.n)
    ensures !flag ==> c.st == old(c.st)
  {
    ghost var m, a := c.mem, c.st;
    GoodOwners(m, a);
    if flag {
      r := MoveTold(c, q, n, s, v);
    } else {
      r := c.mem;
      c.mem := Copy(c.mem, s, q, n);
      VacantCopyGood(m, a, v);
      MovedVacant(m, a, v);
    }
  }

  /** Move the first block to s. */
  method MoveFirst(c: Context, b: Blist, q: int, s: int, flag: bool, ghost v: Move) returns (n: nat, ghost r: Mem)
    requires c.Valid() && Stored(c.mem, c.st, b.ptr, b.bs) && b.bs != [] && Ready(c.mem, c.st, b.bs, s)
    requires q == Data(b.bs[0]) && v == Move(q, b.bs[0].n, s)
    requires !flag ==> Vacant(c.st, b.bs)
    modifies c`mem, c`iht, c`st
    ensures n == b.bs[0].n
    ensures c.Valid() && Owners(old(c.st)) && c.st == Moved(old(c.st), v)
    ensures !flag ==> c.st == old(c.st)
    ensures Stored(c.mem, c.st, b.ptr, b.bs) && |c.mem| == |old(c.mem)|
    ensures ApartFromOwn(c.st, b.bs[0])
    ensures |r| == |c.mem| && Framed(old(c.mem), r, Words(old(c.st.own)), Nodes(old(c.st)))
    ensures InMem(r, v.from, v.n) && InMem(r, v.to, v.n) && c.mem == Copy(r, v.to, v.from, v.n)
  {
    ghost var m, a, bs := c.mem, c.st, b.bs;
    ReadyMovable(m, a, b.ptr, bs, v);
    n := BlockSize(c, b);
    r := MoveData(c, q, n, s, flag, v);
    StoredAfterMove(m, r, a, b.ptr, bs, v);
  }

  lemma VacantCopyGood(m: Mem, a: State, v: Move)
    requires Good(m, a) && Movable(m, a, v)
    ensures Good(Copy(m, v.to, v.from, v.n), a)
  {
    if v.n > 0 {
      WriteFree(m, Copy(m, v.to, v.from, v.n), a, v.to, v.n);
    } else {
      assert Copy(m, v.to, v.from, v.n) == m;
    }
  }

  /** Whatever the moves still to come lead to is what all moves lead to. */
  ghost predicate PlanOk(a0: State, all: seq<Block>, p: int, a: State, rest: seq<Block>, s: int) {
    forall f {:trigger MovesTo(a, Plan(rest, s), f)} :: MovesTo(a, Plan(rest, s), f) ==> MovesTo(a0, Plan(all, p), f)
  }

  lemma PlanStep(a0: State, all: seq<Block>, p: int, a: State, rest: seq<Block>, v: Move)
    requires Owners(a) && MovesFirst(rest, v) && PlanOk(a0, all, p, a, rest, v.to)
    ensures PlanOk(a0, all, p, Moved(a, v), rest[1..], v.to + v.n)
  {
    assert Plan(rest, v.to)[0] == v;
    assert Plan(rest, v.to)[1..] == Plan(rest[1..], v.to + v.n);
    forall f | MovesTo(Moved(a, v), Plan(rest[1..], v.to + v.n), f)
      ensures MovesTo(a0, Plan(all, p), f)
    {
      assert MovesTo(a, Plan(rest, v.to), f);
    }
  }

  /** How far soap_save_block has come: rest is still to be moved, to s and after. */
  ghost predicate Saving(m0: Mem, a0: State, all: seq<Block>, p: int, flag: bool, m: Mem, a: State, rest: seq<Block>, s: int)
  {
    && Owners(a0) && Owners(a) && |m| == |m0|
    && Ready(m, a, rest, s)
    && PlanOk(a0, all, p, a, rest, s)
    && Gathered(m0, a0, all, p, m, a, s - p)
    && Aloof(m0, a0, all, p, m, a)
    && (!flag ==> a == a0)
  }

  lemma SavingStep(m0: Mem, a0: State, all: seq<Block>, p: int, flag: bool, m: Mem, a: State, rest: seq<Block>, v: Move,
                   j: nat, r: Mem, s: Mem, t: Mem, b: State, head: int)
    requires Saving(m0, a0, all, p, flag, m, a, rest, v.to)
    requires j < |all| && MovesFirst(rest, v) && rest[0] == all[j] && v == Move(Data(all[j]), all[j].n, p + Total(all[..j]))
    requires Good(m, a) && Stored(m, a, head, rest)
    requires BlocksApart(all) && ApartFrom(all, p, Total(all))
    requires Framed(m, r, Words(a.own), Nodes(a)) && |r| == |m| && InMem(r, v.from, v.n) && InMem(r, v.to, v.n)
    requires s == Copy(r, v.to, v.from, v.n) && OnlyChanges(s, t, all[j].at, HEADER + all[j].n)
    requires b == Moved(a, v) && Owners(b) && (!flag ==> b == a)
    ensures Saving(m0, a0, all, p, flag, t, b, rest[1..], v.to + v.n)
  {
    ReadyMovable(m, a, head, rest, v);
    ReadyAfterMove(m, t, a, head, rest, v);
    PlanStep(a0, all, p, a, rest, v);
    GatheredStep(m0, a0, all, p, m, r, a, j, v);
    GatheredFreed(m0, a0, all, p, s, t, Moved(a, v), j, v.to + v.n - p);
    AloofStep(m0, a0, all, p, m, r, a, j, v);
    AloofFreed(m0, a0, all, p, s, t, Moved(a, v), j);
  }

  lemma ReversedFacts(a: State, bs: seq<Block>)
    requires BlocksApart(bs)
    ensures BlocksApart(Reversed(bs))
    ensures Vacant(a, bs) ==> Vacant(a, Reversed(bs))
  {
    var all := Reversed(bs);
    forall i, j | 0 <= i < j < |all|
      ensures Apart(all[i].at, HEADER + all[i].n, all[j].at, HEADER + all[j].n)
    {
      assert all[i] == bs[|bs| - 1 - i] && all[j] == bs[|bs| - 1 - j];
    }
  }

  lemma SavingStart(m0: Mem, m: Mem, a: State, head: int, bs: seq<Block>, p: int, flag: bool)
    requires Good(m0, a) && Owners(a) && Stored(m0, a, head, bs) && OnlyHeaders(m0, m, bs)
    requires Ready(m0, a, Reversed(bs), p) && (!flag ==> Vacant(a, Reversed(bs)))
    ensures Saving(m0, a, Reversed(bs), p, flag, m, a, Reversed(bs), p)
  {
    GatheredStart(m0, m, a, head, bs, p);
    AloofStart(m0, m, a, bs, p);
  }

  /** The loop of soap_save_block. */
  method Gather(c: Context, b: Blist, p: int, flag: bool)
    requires c.Valid() && Stored(c.mem, c.st, b.ptr, b.bs) && Owners(c.st)
    requires Ready(c.mem, c.st, Reversed(b.bs), p)
    requires !flag ==> Vacant(c.st, b.bs)
    modifies c`mem, c`iht, c`st, b`ptr, b`bs
    ensures c.Valid() && Stored(c.mem, c.st, b.ptr, b.bs) && b.bs == []
    ensures MovesTo(old(c.st), Plan(Reversed(old(b.bs)), p), c.st)
    ensures !flag ==> c.st == old(c.st)
    ensures SavedAs(old(c.mem), old(c.st), Reversed(old(b.bs)), c.mem, p)
    ensures LeftAlone(old(c.mem), old(c.st), Reversed(old(b.bs)), c.mem, p)
  {
    ghost var m0, a0, all := c.mem, c.st, Reversed(b.bs);
    ReversedFacts(a0, b.bs);
    ghost var head0, bs0 := b.ptr, b.bs;
    var s := p;
    var q := FirstBlock(c, b);
    SavingStart(m0, c.mem, a0, head0, bs0, p, flag);
    ghost var j, rest, spot := 0, all, p;
    assert all[0..] == all && all[..0] == [];
    while q != 0
      invariant c.Valid() && Stored(c.mem, c.st, b.ptr, b.bs)
      invariant 0 <= j <= |all| && rest == b.bs == all[j..] && spot == s == p + Total(all[..j])
      invariant Saving(m0, a0, all, p, flag, c.mem, c.st, rest, spot)
      invariant q == if b.bs == [] then 0 else Data(b.bs[0])
      decreases |all| - j
    {
      TotalPrefix(all, j);
      VacantTail(a0, all, j, flag);
      assert all[j..][0] == all[j] && all[j..][1..] == all[j + 1..];
      ghost var v := Move(q, all[j].n, spot);
      var n, next := Advance(c, b, q, s, flag, m0, a0, all, p, j, rest, v);
      s := s + n;
      q := next;
      rest, spot, j := rest[1..], v.to + v.n, j + 1;
    }
    DataNotNull(c.mem, c.st, b.ptr, b.bs);
    assert j == |all| && all[..j] == all;
    SavedBytes(m0, a0, bs0, head0, p, flag, c.mem, c.st, rest, spot);
  }

  /** Releases the first block, whose data is no longer registered. */
  method ReleaseFirst(c: Context, b: Blist) returns (next: int)
    requires c.Valid() && Stored(c.mem, c.st, b.ptr, b.bs) && b.bs != [] && ApartFromOwn(c.st, b.bs[0])
    modifies c`mem, b`ptr, b`bs
    ensures c.Valid() && Stored(c.mem, c.st, b.ptr, b.bs) && b.bs == old(b.bs)[1..] && Owners(c.st)
    ensures next == if b.bs == [] then 0 else Data(b.bs[0])
    ensures OnlyChanges(old(c.mem), c.mem, old(b.bs)[0].at, HEADER + old(b.bs)[0].n)
  {
    FirstFree(c.mem, c.st, b.ptr, b.bs);
    GoodOwners(c.mem, c.st);
    next := NextBlock(c, b);
  }

  /** Moves the first block's data, then releases the block; r is the memory the data is copied in, t the one after it. */
  method MoveThenFree(c: Context, b: Blist, q: int, s: int, flag: bool, ghost v: Move)
    returns (n: nat, next: int, ghost r: Mem, ghost t: Mem)
    requires c.Valid() && Stored(c.mem, c.st, b.ptr, b.bs) && b.bs != [] && Ready(c.mem, c.st, b.bs, s)
    requires q == Data(b.bs[0]) && v == Move(q, b.bs[0].n, s)
    requires !flag ==> Vacant(c.st, b.bs)
    modifies c`mem, c`iht, c`st, b`ptr, b`bs
    ensures n == v.n && next == if b.bs == [] then 0 else Data(b.bs[0])
    ensures c.Valid() && Stored(c.mem, c.st, b.ptr, b.bs) && b.bs == old(b.bs)[1..]
    ensures Owners(old(c.st)) && Owners(c.st) && c.st == Moved(old(c.st), v) && (!flag ==> c.st == old(c.st))
    ensures |r| == |old(c.mem)| && Framed(old(c.mem), r, Words(old(c.st.own)), Nodes(old(c.st)))
    ensures InMem(r, v.from, v.n) && InMem(r, v.to, v.n) && t == Copy(r, v.to, v.from, v.n)
    ensures OnlyChanges(t, c.mem, old(b.bs)[0].at, HEADER + old(b.bs)[0].n)
  {
    n, r := MoveFirst(c, b, q, s, flag, v);
    t := c.mem;
    next := ReleaseFirst(c, b);
  }

  /** One round of the loop: move a block, then release it. */
  method Advance(c: Context, b: Blist, q: int, s: int, flag: bool,
                 ghost m0: Mem, ghost a0: State, ghost all: seq<Block>, ghost p: int, ghost j: nat,
                 ghost rest: seq<Block>, ghost v: Move)
    returns (n: nat, next: int)
    requires c.Valid() && Stored(c.mem, c.st, b.ptr, b.bs)
    requires j < |all| && rest == b.bs && MovesFirst(rest, v) && rest[0] == all[j]
    requires v == Move(Data(all[j]), all[j].n, p + Total(all[..j])) && q == v.from && s == v.to
    requires BlocksApart(all) && ApartFrom(all, p, Total(all))
    requires Saving(m0, a0, all, p, flag, c.mem, c.st, rest, v.to)
    requires !flag ==> Vacant(c.st, b.bs)
    modifies c`mem, c`iht, c`st, b`ptr, b`bs
    ensures n == v.n && next == if b.bs == [] then 0 else Data(b.bs[0])
    ensures c.Valid() && Stored(c.mem, c.st, b.ptr, b.bs) && b.bs == rest[1..]
    ensures Saving(m0, a0, all, p, flag, c.mem, c.st, rest[1..], v.to + v.n)
  {
    ghost var m, a, h := c.mem, c.st, b.ptr;
    ghost var r, t;
    n, next, r, t := MoveThenFree(c, b, q, s, flag, v);
    SavingStep(m0, a0, all, p, flag, m, a, rest, v, j, r, t, c.mem, c.st, h);
  }

  lemma VacantTail(a: State, all: seq<Block>, j: nat, flag: bool)
    requires j <= |all| && (!flag ==> Vacant(a, all))
    ensures !flag ==> Vacant(a, all[j..])
  {
    assert forall i :: 0 <= i < |all[j..]| ==> all[j..][i] == all[j + i];
  }

  lemma FirstFree(m: Mem, a: State, head: int, bs: seq<Block>)
    requires Stored(m, a, head, bs) && bs != []
    requires ApartFromOwn(a, bs[0])
    ensures Free(m, a.own, bs[0].at, HEADER + bs[0].n)
  {
    assert HeaderAt(m, bs, 0);
  }

  lemma DataNotNull(m: Mem, a: State, head: int, bs: seq<Block>)
    requires Stored(m, a, head, bs)
    ensures bs != [] ==> Data(bs[0]) > 0
  {
    if bs != [] {
      assert HeaderAt(m, bs, 0);
    }
  }

  lemma NoDataVacant(m: Mem, a: State, head: int, bs: seq<Block>)
    requires Good(m, a) && Stored(m, a, head, bs) && Total(bs) == 0
    ensures AllFree(m, a, bs)
  {
    forall i | 0 <= i < |bs|
      ensures Free(m, a.own, bs[i].at, HEADER + bs[i].n)
    {
      TotalBound(bs, i);
      assert HeaderAt(m, bs, i);
      assert Houses(a.own, bs[i]);
    }
  }

  lemma SavedBytes(m0: Mem, a0: State, bs: seq<Block>, head: int, p: int, flag: bool, m: Mem, a: State, rest: seq<Block>, spot: int)
    requires Stored(m0, a0, head, bs) && Ready(m0, a0, Reversed(bs), p)
    requires rest == [] && spot == p + Total(Reversed(bs))
    requires Saving(m0, a0, Reversed(bs), p, flag, m, a, rest, spot)
    ensures MovesTo(a0, Plan(Reversed(bs), p), a)
    ensures SavedAs(m0, a0, Reversed(bs), m, p) && LeftAlone(m0, a0, Reversed(bs), m, p)
  {
    var all, n := Reversed(bs), Total(Reversed(bs));
    assert MovesTo(a, Plan(rest, spot), a);
    forall i | 0 <= i < |all|
      ensures InMem(m0, all[i].at, HEADER + all[i].n)
    {
      assert HeaderAt(m0, bs, |bs| - 1 - i);
    }
    forall x | 0 <= x < |m0| && Elsewhere(all, p, x) && !Covered(Words(a0.own), Nodes(a0), x)
      ensures m[x] == m0[x]
    {
      assert Mirror(m0, a0, m, a, x, x);
    }
    forall k | 0 <= k < n && !Covered(Words(a0.own), Nodes(a0), Origin(all, k))
      ensures Bytes(m, p, n)[k] == Joined(m0, all)[k]
    {
      JoinedAt(m0, all, k);
      assert Mirror(m0, a0, m, a, p + k, Origin(all, k));
    }
  }

  /** The bytes at p are the data of the blocks in this order, except for the words of
      pending chains, which MovesKeepChains is about. */
  ghost predicate SavedAs(m0: Mem, a0: State, all: seq<Block>, m: Mem, p: int) {
    && Owners(a0) && InMem(m, p, Total(all))
    && (forall i {:trigger all[i]} :: 0 <= i < |all| ==> InMem(m0, all[i].at, HEADER + all[i].n))
    && (forall k {:trigger Origin(all, k)} :: 0 <= k < Total(all) && !Covered(Words(a0.own), Nodes(a0), Origin(all, k)) ==>
          Bytes(m, p, Total(all))[k] == Joined(m0, all)[k])
  }

  /** No byte outside the blocks, the buffer at p and the words of pending chains has changed. */
  ghost predicate LeftAlone(m0: Mem, a0: State, all: seq<Block>, m: Mem, p: int) {
    && Owners(a0) && |m| == |m0|
    && forall x {:trigger Elsewhere(all, p, x)} ::
         0 <= x < |m0| && Elsewhere(all, p, x) && !Covered(Words(a0.own), Nodes(a0), x) ==> m[x] == m0[x]
  }

  /** soap_save_block: at is what the allocator returns when the caller gives no buffer.
      With flag the pending hrefs move too; without it nothing may be registered in the blocks. */
  method SaveAll(c: Context, b: Blist, p: int, flag: bool, at: int) returns (r: int)
    requires c.Valid() && Stored(c.mem, c.st, b.ptr, b.bs) && b.size == Total(b.bs)
    requires var d := if p == 0 then at else p; b.size != 0 && d != 0 ==> Ready(c.mem, c.st, Reversed(b.bs), d)
    requires !flag ==> Vacant(c.st, b.bs)
    modifies c, b
    ensures b.ptr == 0 && b.size == 0 && b.bs == []
    ensures old(b.size) == 0 ==> r == p && c.Valid() && c.st == old(c.st)
    ensures old(b.size) != 0 ==> r == if p == 0 then at else p
    ensures old(b.size) != 0 && r == 0 ==> c.error == SoapEom
    ensures old(b.size) != 0 && r != 0 ==>
      && c.Valid()
      && MovesTo(old(c.st), Plan(Reversed(old(b.bs)), r), c.st)
      && (!flag ==> c.st == old(c.st))
      && SavedAs(old(c.mem), old(c.st), Reversed(old(b.bs)), c.mem, r)
      && LeftAlone(old(c.mem), old(c.st), Reversed(old(b.bs)), c.mem, r)
  {
    r := p;
    ghost var m0, a0, bs, head := c.mem, c.st, b.bs, b.ptr;
    if b.size != 0 {
      if r == 0 {
        r := at;
      }
      if r != 0 {
        GoodOwners(m0, a0);
        TotalReversed(bs);
        Gather(c, b, r, flag);
      } else {
        c.error := SoapEom;
      }
    } else {
      NoDataVacant(m0, a0, b.ptr, bs);
    }
    EndBlock(c, b);
  }
}
