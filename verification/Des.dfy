/** DES as DesAlgo computes it: as functions of the bits. */
module Des {
  import opened DesTables
  import opened DesBits

  /** The six tables SelectExchangeFromTable chooses between. */
  datatype Table = IpTable | IpInverseTable | ETable | PTable | Pc1Table | Pc2Table

  /** g_nOut */
  function OutSize(t: Table): nat {
    match t
    case IpTable => 64
    case IpInverseTable => 64
    case ETable => 48
    case PTable => 32
    case Pc1Table => 56
    case Pc2Table => 48
  }

  /** How many bits the table selects from. */
  function InSize(t: Table): nat {
    match t
    case IpTable => 64
    case IpInverseTable => 64
    case ETable => 32
    case PTable => 32
    case Pc1Table => 64
    case Pc2Table => 56
  }

  function Entry(t: Table, i: nat): (v: nat)
    requires i < OutSize(t)
    ensures v < InSize(t)
  {
    match t
    case IpTable => Ip(i)
    case IpInverseTable => IpInverse(i)
    case ETable => EPro(i)
    case PTable => P(i)
    case Pc1Table => Pc1(i)
    case Pc2Table => Pc2Pro(i)
  }

  function Select(t: Table, s: Bits): (r: Bits)
    requires |s| == InSize(t)
    ensures |r| == OutSize(t)
  {
    seq(OutSize(t), i requires 0 <= i < OutSize(t) => s[Entry(t, i)])
  }

  // ---------- the round function ----------

  function Worth(b: bool, v: nat): (w: nat)
    ensures w == 0 || w == v
  {
    if b then v else 0
  }

  /** The six bits from at on, read as a number. */
  function Six(x: Bits, at: nat): (n: nat)
    requires at + 6 <= |x|
    ensures n < 64
  {
    Worth(x[at], 32) + Worth(x[at + 1], 16) + Worth(x[at + 2], 8)
    + Worth(x[at + 3], 4) + Worth(x[at + 4], 2) + Worth(x[at + 5], 1)
  }

  /** Four bits out of each group of six. */
  function Boxes(x: Bits): (r: Bits)
    requires |x| == 48
    ensures |r| == 32
  {
    seq(32, i requires 0 <= i < 32 => Bit(S(i / 4, Six(x, 6 * (i / 4))), 4 + i % 4))
  }

  function F(r: Bits, k: Bits): (out: Bits)
    requires |r| == 32 && |k| == 48
    ensures |out| == 32
  {
    Select(PTable, Boxes(Xor(k, Select(ETable, r))))
  }

  // ---------- the key schedule ----------

  function Rotl(h: Bits, n: nat): (r: Bits)
    requires n <= |h|
    ensures |r| == |h|
  {
    h[n..] + h[..n]
  }

  function Rotr(h: Bits, n: nat): (r: Bits)
    requires n <= |h|
    ensures |r| == |h|
  {
    h[|h| - n..] + h[..|h| - n]
  }

  /** One half of the key after i turns of Shift. */
  function Turned(h: Bits, i: nat, encrypt: bool): (r: Bits)
    requires |h| == 28 && i <= 16
    ensures |r| == 28
  {
    if i == 0 then h
    else if encrypt then Rotl(Turned(h, i - 1, encrypt), Shifts(i - 1))
    else if i == 1 then Turned(h, 0, encrypt)
    else Rotr(Turned(h, i - 1, encrypt), Shifts(i - 1))
  }

  function RoundKey(cd: Bits, i: nat, encrypt: bool): (k: Bits)
    requires |cd| == 56 && i < 16
    ensures |k| == 48
  {
    Select(Pc2Table, Turned(cd[..28], i + 1, encrypt) + Turned(cd[28..], i + 1, encrypt))
  }

  type Keys = ks: seq<Bits> | forall i :: 0 <= i < |ks| ==> |ks[i]| == 48 witness []

  function RoundKeys(key: Block, encrypt: bool): (ks: Keys)
    ensures |ks| == 16
  {
    seq(16, i requires 0 <= i < 16 => RoundKey(Select(Pc1Table, Unpack(key)), i, encrypt))
  }

  // ---------- the rounds ----------

  /** One round on L and R side by side. */
  function Round(lr: Bits, k: Bits): (r: Bits)
    requires |lr| == 64 && |k| == 48
    ensures |r| == 64
  {
    lr[32..] + Xor(lr[..32], F(lr[32..], k))
  }

  function Rounds(lr: Bits, ks: Keys): (r: Bits)
    requires |lr| == 64
    ensures |r| == 64
  {
    if ks == [] then lr else Round(Rounds(lr, ks[..|ks| - 1]), ks[|ks| - 1])
  }

  lemma Prefix<T>(s: seq<T>, i: nat)
    requires i < |s|
    ensures s[..i + 1][..i] == s[..i] && s[..i + 1][i] == s[i]
  {
  }

  lemma RoundStep(lr: Bits, ks: Keys, i: nat)
    requires |lr| == 64 && i < |ks|
    ensures Rounds(lr, ks[..i + 1]) == Round(Rounds(lr, ks[..i]), ks[i])
  {
    Prefix(ks, i);
  }

  function Swap(lr: Bits): (r: Bits)
    requires |lr| == 64
    ensures |r| == 64
  {
    lr[32..] + lr[..32]
  }

  function Cipher(block: Block, ks: Keys): (out: Block) {
    Pack(Select(IpInverseTable, Swap(Rounds(Select(IpTable, Unpack(block)), ks))))
  }

  /** DesAlgo */
  function Algo(key: Block, src: Block, encrypt: bool): (dst: Block) {
    Cipher(src, RoundKeys(key, encrypt))
  }

  function Encrypt(key: Block, src: Block): (dst: Block) {
    Algo(key, src, true)
  }

  function Decrypt(key: Block, src: Block): (dst: Block) {
    Algo(key, src, false)
  }

  /** The two halves of a two-key 3DES key. */
  type DoubleKey = k: seq<Octet> | |k| == 16 witness seq(16, _ => 0)

  function Encrypt3(key: DoubleKey, src: Block): (dst: Block) {
    Encrypt(key[..8], Decrypt(key[8..], Encrypt(key[..8], src)))
  }

  function Decrypt3(key: DoubleKey, src: Block): (dst: Block) {
    Decrypt(key[..8], Encrypt(key[8..], Decrypt(key[..8], src)))
  }
}
