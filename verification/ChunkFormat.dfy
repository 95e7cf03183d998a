/** The chunked transfer coding (section 4.1 of RFC 7230) as the gSOAP receiver reads it. */
module ChunkFormat {
  import opened Memory

  const CR: Byte := 13
  const LF: Byte := 10
  const CRLF: seq<Byte> := [CR, LF]

  /** soap_isxdigit */
  predicate IsHex(b: int) {
    48 <= b <= 57 || 65 <= b <= 70 || 97 <= b <= 102
  }

  function DigitValue(b: int): (v: int)
    requires IsHex(b)
    ensures 0 <= v < 16
  {
    if b <= 57 then b - 48 else if b <= 70 then b - 55 else b - 87
  }

  predicate AllHex(ds: seq<Byte>) {
    forall i :: 0 <= i < |ds| ==> IsHex(ds[i])
  }

  /** What strtoul(ds, NULL, 16) yields as long as it does not overflow. */
  function HexValue(ds: seq<Byte>): (v: nat)
    requires AllHex(ds)
  {
    if ds == [] then 0 else 16 * HexValue(ds[..|ds| - 1]) + DigitValue(ds[|ds| - 1])
  }

  function Digit(v: nat): (b: Byte)
    requires v < 16
    ensures IsHex(b) && DigitValue(b) == v
  {
    if v < 10 then 48 + v else 55 + v
  }

  /** sprintf("%lX", n) */
  function Hex(n: nat): (ds: seq<Byte>)
    ensures |ds| > 0 && AllHex(ds)
  {
    if n < 16 then [Digit(n)] else Hex(n / 16) + [Digit(n % 16)]
  }

  lemma {:induction false} HexInverse(n: nat)
    ensures HexValue(Hex(n)) == n
  {
    if n < 16 {
      assert Hex(n)[..0] == [];
    } else {
      HexInverse(n / 16);
      var ds := Hex(n);
      assert ds[..|ds| - 1] == Hex(n / 16);
    }
  }

  /** A 32-bit number has at most eight digits. */
  lemma {:induction false} HexShort(n: nat, k: nat, cap: nat)
    requires k > 0 && n < cap && cap == Power16(k)
    ensures |Hex(n)| <= k
  {
    if n >= 16 {
      HexShort(n / 16, k - 1, Power16(k - 1));
    }
  }

  function Power16(k: nat): (v: nat)
    ensures v > 0
  {
    if k == 0 then 1 else 16 * Power16(k - 1)
  }

  lemma Hex32(n: nat)
    requires n < WORD
    ensures |Hex(n)| <= 8
  {
    assert Power16(4) == 0x1_0000;
    assert Power16(8) == 0x1_0000_0000;
    HexShort(n, 8, WORD);
  }

  /** One chunk as it may arrive: anything that is no digit, the size in hex, the rest of the size line
      (extensions), a line feed, the data. No byte before the data is 0xFF, which the receiver, whose
      char is signed, takes for the end of the stream. */
  datatype Frame = Frame(junk: seq<Byte>, digits: seq<Byte>, tail: seq<Byte>, data: seq<Byte>)

  predicate HeadOk(f: Frame) {
    && (forall i :: 0 <= i < |f.junk| ==> !IsHex(f.junk[i]) && f.junk[i] != 0xFF)
    && 0 < |f.digits| <= 16 && AllHex(f.digits)
    && (forall i :: 0 <= i < |f.tail| ==> f.tail[i] != LF && f.tail[i] != 0xFF)
    && (f.tail != [] ==> !IsHex(f.tail[0]))
    && HexValue(f.digits) == |f.data|
  }

  function Head(f: Frame): seq<Byte> {
    f.junk + f.digits + f.tail + [LF]
  }

  predicate FramesOk(fs: seq<Frame>) {
    forall i :: 0 <= i < |fs| ==> HeadOk(fs[i]) && fs[i].data != []
  }

  /** The bytes of the chunks fs, then the last-chunk and whatever follows it. */
  function Stream(fs: seq<Frame>, last: Frame, trailer: seq<Byte>): (s: seq<Byte>)
    ensures |s| > 0
  {
    if fs == [] then Head(last) + trailer else Head(fs[0]) + (fs[0].data + Stream(fs[1..], last, trailer))
  }

  /** The body that the chunks carry. */
  function Body(fs: seq<Frame>): seq<Byte> {
    if fs == [] then [] else fs[0].data + Body(fs[1..])
  }
}
