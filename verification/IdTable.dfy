/** The hash table of ids and hrefs: SOAP_IDHASH buckets, each a list with the newest entry first. */
module IdTable {

  /** A flist node: a location that wants a copy of the object and cannot be threaded into a chain. */
  datatype Fwd = Fwd(typ: int, ptr: int, len: nat)

  datatype Entry = Entry(id: string, typ: int, size: nat, link: int, copy: int, flist: seq<Fwd>, ptr: int)

  type Table = seq<seq<Entry>>

  /** char is signed: bytes from 128 up enter the sum as negative numbers. */
  function SignedChar(c: char): int {
    var v := c as int % 0x100;
    if v < 0x80 then v else v - 0x100
  }

  function HashSum(s: string): (h: int)
    ensures 0 <= h < 0x1_0000_0000
  {
    if s == "" then 0
    else (65599 * HashSum(s[..|s| - 1]) + SignedChar(s[|s| - 1])) % 0x1_0000_0000
  }

  /** The 32-bit multiplicative hash of soap_hash. */
  function Hash(s: string, n: nat): (h: nat)
    requires n > 0
    ensures h < n
  {
    HashSum(s) % n
  }

  /** "#1" has the hash 35 * 65599 + 49, and a character above ASCII counts as negative. */
  lemma HashesOf()
    ensures HashSum("#1") == 2296014 && HashSum("\U{E9}") == 0xFFFF_FFE9
  {
    assert "#1"[..1] == "#" && "#"[..0] == "" && "\U{E9}"[..0] == "";
  }

  /** soap_hash as the loop it is. */
  method ComputeHash(s: string, n: nat) returns (h: nat)
    requires n > 0
    ensures h == Hash(s, n)
  {
    var sum, i := 0, 0;
    while i < |s|
      invariant 0 <= i <= |s|
      invariant sum == HashSum(s[..i])
    {
      assert s[..i + 1][..i] == s[..i];
      sum := (65599 * sum + SignedChar(s[i])) % 0x1_0000_0000;
      i := i + 1;
    }
    assert s[..|s|] == s;
    h := sum % n;
  }

  /** The table stores exactly the map tab: every entry sits in the bucket its id hashes to,
      and no id occurs twice. */
  ghost predicate Stores(t: Table, tab: map<string, Entry>) {
    && |t| > 0
    && (forall h, j {:trigger Filed(t, tab, h, j)} :: 0 <= h < |t| && 0 <= j < |t[h]| ==> Filed(t, tab, h, j))
    && (forall h {:trigger NoRepeat(t[h])} :: 0 <= h < |t| ==> NoRepeat(t[h]))
    && (forall id {:trigger Holds(t[Hash(id, |t|)], id)} :: id in tab ==> Holds(t[Hash(id, |t|)], id))
  }

  ghost predicate Filed(t: Table, tab: map<string, Entry>, h: nat, j: nat)
    requires h < |t| && j < |t[h]|
  {
    Hash(t[h][j].id, |t|) == h && t[h][j].id in tab && tab[t[h][j].id] == t[h][j]
  }

  ghost predicate NoRepeat(b: seq<Entry>) {
    forall j, k :: 0 <= j < k < |b| ==> b[j].id != b[k].id
  }

  ghost predicate Holds(b: seq<Entry>, id: string) {
    exists j :: 0 <= j < |b| && b[j].id == id
  }

  function Replace(t: Table, h: nat, j: nat, e: Entry): Table
    requires h < |t| && j < |t[h]|
  {
    t[h := t[h][j := e]]
  }

  /** Overwriting an entry in place keeps the table a map. */
  lemma ReplaceStores(t: Table, tab: map<string, Entry>, h: nat, j: nat, e: Entry)
    requires Stores(t, tab)
    requires h < |t| && j < |t[h]| && t[h][j].id == e.id
    ensures Stores(Replace(t, h, j, e), tab[e.id := e])
  {
    var r, n := Replace(t, h, j, e), tab[e.id := e];
    assert NoRepeat(t[h]) && Filed(t, tab, h, j);
    forall g, k | 0 <= g < |r| && 0 <= k < |r[g]|
      ensures Filed(r, n, g, k)
    {
      assert Filed(t, tab, g, k);
    }
    forall g | 0 <= g < |r|
      ensures NoRepeat(r[g])
    {
      assert NoRepeat(t[g]);
    }
    forall id | id in n
      ensures Holds(r[Hash(id, |r|)], id)
    {
      var b := t[Hash(id, |t|)];
      assert Holds(b, id);
      var k :| 0 <= k < |b| && b[k].id == id;
      assert r[Hash(id, |r|)][k].id == id;
    }
  }

  function Push(t: Table, e: Entry): Table
    requires |t| > 0
  {
    var h := Hash(e.id, |t|);
    t[h := [e] + t[h]]
  }

  /** soap_enter: a new entry at the head of its bucket. */
  lemma PushStores(t: Table, tab: map<string, Entry>, e: Entry)
    requires Stores(t, tab) && e.id !in tab
    ensures Stores(Push(t, e), tab[e.id := e])
  {
    var h := Hash(e.id, |t|);
    var r, n := Push(t, e), tab[e.id := e];
    forall g, k | 0 <= g < |r| && 0 <= k < |r[g]|
      ensures Filed(r, n, g, k)
    {
      if g != h {
        assert Filed(t, tab, g, k);
      } else if k > 0 {
        assert Filed(t, tab, h, k - 1);
      }
    }
    forall g | 0 <= g < |r|
      ensures NoRepeat(r[g])
    {
      assert NoRepeat(t[g]);
      if g == h {
        forall k | 0 < k < |r[h]|
          ensures r[h][k].id != e.id && r[h][k] == t[h][k - 1]
        {
          assert Filed(t, tab, h, k - 1);
        }
      }
    }
    forall id | id in n
      ensures Holds(r[Hash(id, |r|)], id)
    {
      PushHolds(t, tab, e, id);
    }
  }

  lemma PushHolds(t: Table, tab: map<string, Entry>, e: Entry, id: string)
    requires Stores(t, tab) && (id == e.id || id in tab)
    ensures Holds(Push(t, e)[Hash(id, |t|)], id)
  {
    var h, g := Hash(e.id, |t|), Hash(id, |t|);
    var r: Table := Push(t, e);
    if id == e.id {
      assert r[h][0].id == id;
    } else {
      assert Holds(t[g], id);
      var k :| 0 <= k < |t[g]| && t[g][k].id == id;
      assert r[g][if g == h then k + 1 else k].id == id;
    }
  }

  /** soap_lookup: the bucket scan finds an id exactly when the map has it. */
  method Lookup(t: Table, ghost tab: map<string, Entry>, id: string) returns (found: bool, h: nat, j: nat)
    requires Stores(t, tab)
    ensures found == (id in tab)
    ensures h == Hash(id, |t|)
    ensures found ==> j < |t[h]| && t[h][j] == tab[id] && tab[id].id == id
  {
    h := ComputeHash(id, |t|);
    j := 0;
    while j < |t[h]|
      invariant 0 <= j <= |t[h]|
      invariant forall k :: 0 <= k < j ==> t[h][k].id != id
    {
      if t[h][j].id == id {
        assert Filed(t, tab, h, j);
        return true, h, j;
      }
      j := j + 1;
    }
    assert !Holds(t[h], id);
    found := false;
  }
}
