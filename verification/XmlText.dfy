/** How TinyXML writes characters and reads them back, in the legacy encoding. */
module XmlText {
  import opened Basics

  const WORD := 0x1_0000_0000

  // ---------- characters ----------

  /** A character is a byte; a string ends before its first NUL. */
  predicate IsString(s: string) {
    forall i :: 0 <= i < |s| ==> 0 < s[i] as int < 256
  }

  predicate IsSpace(c: char) {
    c == ' ' || 9 <= c as int <= 13
  }

  predicate IsDigit(c: char) {
    '0' <= c <= '9'
  }

  /** IsAlpha: above the ASCII range everything is a letter. */
  predicate IsAlpha(c: char) {
    'a' <= c <= 'z' || 'A' <= c <= 'Z' || c as int >= 127
  }

  predicate StartsName(c: char) {
    IsAlpha(c) || c == '_'
  }

  predicate InName(c: char) {
    IsAlpha(c) || IsDigit(c) || c == '_' || c == '-' || c == '.' || c == ':'
  }

  // ---------- EncodeString ----------

  predicate StartsHex(s: string) {
    |s| > 2 && s[0] == '&' && s[1] == '#' && s[2] == 'x'
  }

  /** A hexadecimal reference passes through up to its semicolon, or up to the last character. */
  function PassEnd(s: string, i: nat): (j: nat)
    requires i < |s|
    ensures i <= j < |s| && (j == |s| - 1 || s[j] == ';')
    ensures forall k :: i <= k < j ==> s[k] != ';'
    decreases |s| - i
  {
    if i == |s| - 1 || s[i] == ';' then i else PassEnd(s, i + 1)
  }

  function HexDigit(v: nat): (c: char)
    requires v < 16
  {
    if v < 10 then '0' + v as char else 'A' + (v - 10) as char
  }

  function Escape(c: char): (e: string)
    ensures |e| > 0
  {
    if c == '&' then "&amp;"
    else if c == '<' then "&lt;"
    else if c == '>' then "&gt;"
    else if c == '\"' then "&quot;"
    else if c == '\'' then "&apos;"
    else if c as int < 32 then "&#x" + [HexDigit(c as int / 16), HexDigit(c as int % 16)] + ";"
    else [c]
  }

  function Encode(s: string): string
    decreases |s|
  {
    if s == [] then []
    else if StartsHex(s) then
      var j := PassEnd(s, 1);
      s[..j] + Encode(s[j..])
    else Escape(s[0]) + Encode(s[1..])
  }

  // ---------- GetChar ----------

  /** What a read leaves: the characters it yields and the text after it, or a null pointer. */
  datatype Read = Read(out: string, rest: string) | Null

  function Prepend(out: string, r: Read): (p: Read)
    ensures r.Read? <==> p.Read?
    ensures r.Read? ==> p.out == out + r.out && p.rest == r.rest
  {
    if r.Null? then Null else Read(out + r.out, r.rest)
  }

  function FirstSemi(t: string, i: nat): (k: nat)
    requires i <= |t|
    ensures i <= k <= |t| && (k < |t| ==> t[k] == ';')
    ensures forall j :: i <= j < k ==> t[j] != ';'
    decreases |t| - i
  {
    if i == |t| || t[i] == ';' then i else FirstSemi(t, i + 1)
  }

  /** The value of a digit, or the base if it is none. */
  function DigitOf(c: char, base: nat): (v: nat)
    requires base == 10 || base == 16
    ensures v <= base
  {
    if IsDigit(c) then c as int - '0' as int
    else if base == 16 && 'a' <= c <= 'f' then c as int - 'a' as int + 10
    else if base == 16 && 'A' <= c <= 'F' then c as int - 'A' as int + 10
    else base
  }

  /** The digits from q backwards to the nearest stop character, in 32 bits. */
  function Backwards(t: string, q: nat, stop: nat, base: nat, mult: nat, ucs: nat): (r: Option<nat>)
    requires stop <= q < |t| && (base == 10 || base == 16)
    decreases q
  {
    if q == stop || t[q] == t[stop] then Some(ucs)
    else if DigitOf(t[q], base) == base then None
    else Backwards(t, q - 1, stop, base, mult * base % WORD, (ucs + mult * DigitOf(t[q], base)) % WORD)
  }

  /** A numeric reference whose digits come after position stop; only the low byte is kept. */
  function Numeric(t: string, stop: nat, base: nat): (r: Read)
    requires stop + 1 < |t| && (base == 10 || base == 16)
    ensures r.Read? ==> |r.out| == 1 && |r.rest| < |t|
  {
    var k := FirstSemi(t, stop + 1);
    if k == |t| then Null
    else
      match Backwards(t, k - 1, stop, base, 1, 0)
      case None => Null
      case Some(ucs) => Read([(ucs % 256) as char], t[k + 1..])
  }

  function GetEntity(t: string): (r: Read)
    requires |t| > 0
    ensures r.Read? ==> |r.out| <= 1 && |r.rest| < |t|
  {
    if |t| > 2 && t[1] == '#' then
      if t[2] != 'x' then Numeric(t, 1, 10) else if |t| == 3 then Null else Numeric(t, 2, 16)
    else if "&amp;" <= t then Read("&", t[5..])
    else if "&lt;" <= t then Read("<", t[4..])
    else if "&gt;" <= t then Read(">", t[4..])
    else if "&quot;" <= t then Read("\"", t[6..])
    else if "&apos;" <= t then Read("'", t[6..])
    else Read("", t[1..])
  }

  function GetChar(t: string): (r: Read)
    requires |t| > 0
    ensures r.Read? ==> |r.out| <= 1 && |r.rest| < |t|
  {
    if t[0] == '&' then GetEntity(t) else Read(t[..1], t[1..])
  }

  // ---------- ReadText ----------

  /** ReadText for an attribute value: everything up to the quote is kept, and something must follow it. */
  function ReadValue(t: string, quote: char): (r: Read)
    ensures r.Read? ==> |r.rest| < |t| && r.rest != []
    decreases |t|
  {
    if t == [] then Null
    else if t[0] == quote then if |t| == 1 then Null else Read("", t[1..])
    else
      match GetChar(t)
      case Null => Null
      case Read(out, rest) => Prepend(out, ReadValue(rest, quote))
  }

  /** ReadText for the text of an element: runs of white space become one space, and it ends before a tag. */
  function ReadCondensed(t: string, space: bool): (r: Read)
    ensures r.Read? ==> |r.rest| <= |t| && |r.rest| > 1 && r.rest[0] == '<'
    ensures r.Read? && t[0] != '<' ==> |r.rest| < |t|
    decreases |t|
  {
    if t == [] then Null
    else if t[0] == '<' then if |t| == 1 then Null else Read("", t)
    else if IsSpace(t[0]) then ReadCondensed(t[1..], true)
    else
      match GetChar(t)
      case Null => Null
      case Read(out, rest) => Prepend((if space then " " else "") + out, ReadCondensed(rest, false))
  }

  /** SkipWhiteSpace; a null pointer and the end of the text are both the empty text. */
  function Skip(t: string): (r: string)
    ensures |r| <= |t| && (r != [] ==> !IsSpace(r[0]))
  {
    if t == [] || !IsSpace(t[0]) then t else Skip(t[1..])
  }

  /** The end of a name. */
  function NameEnd(t: string, i: nat): (k: nat)
    requires i <= |t|
    ensures i <= k <= |t| && (k < |t| ==> !InName(t[k]))
    ensures forall j :: i <= j < k ==> InName(t[j])
    decreases |t| - i
  {
    if i == |t| || !InName(t[i]) then i else NameEnd(t, i + 1)
  }

  function ReadName(t: string): (r: Read)
    ensures r.Read? ==> |r.rest| < |t|
  {
    if t == [] || !StartsName(t[0]) then Null
    else Read(t[..NameEnd(t, 0)], t[NameEnd(t, 0)..])
  }
}
