/** What several parts of the program need and none of them owns. */
module Basics {

  datatype Option<T> = None | Some(value: T)

  /** Entry k of a row of a table. */
  function Row<T>(k: nat, a: T, b: T, c: T, d: T, e: T, f: T, g: T, h: T): T {
    if k == 0 then a else if k == 1 then b else if k == 2 then c else if k == 3 then d
    else if k == 4 then e else if k == 5 then f else if k == 6 then g else h
  }

  lemma Associate<T>(a: seq<T>, b: seq<T>, c: seq<T>)
    ensures a + b + c == a + (b + c)
  {
  }

  /** d after n elements of s have been copied over it. */
  function Moved<T>(d: seq<T>, to: nat, s: seq<T>, from: nat, n: nat): seq<T>
    requires to + n <= |d| && from + n <= |s|
  {
    d[..to] + s[from..from + n] + d[to + n..]
  }

  /** memcpy: n elements from one place to another that does not overlap it. */
  method Memcpy<T>(dst: array<T>, to: nat, src: array<T>, from: nat, n: nat)
    requires to + n <= dst.Length && from + n <= src.Length
    requires dst == src ==> to + n <= from || from + n <= to
    modifies dst
    ensures dst[..] == Moved(old(dst[..]), to, old(src[..]), from, n)
  {
    forall i | to <= i < to + n {
      dst[i] := src[i - to + from];
    }
  }
}
