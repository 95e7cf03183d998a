/** TinyXML's elements: how they are printed and how they are parsed. */
module XmlTree {
  import opened Basics
  import opened XmlText

  datatype Attribute = Attribute(name: string, value: string)

  datatype Node =
    | Element(name: string, attributes: seq<Attribute>, kids: seq<Node>)
    | Text(value: string)

  // ---------- printing ----------

  function Indent(depth: nat): string {
    if depth == 0 then "" else "    " + Indent(depth - 1)
  }

  function QuoteFor(value: string): char {
    if '\"' in value then '\'' else '\"'
  }

  function PrintAttribute(a: Attribute): string {
    Encode(a.name) + ("=" + ([QuoteFor(a.value)] + (Encode(a.value) + [QuoteFor(a.value)])))
  }

  function PrintAttributes(attributes: seq<Attribute>): string {
    if attributes == [] then ""
    else " " + (PrintAttribute(attributes[0]) + PrintAttributes(attributes[1..]))
  }

  /** What ends an element with children: an only child that is text keeps it on one line. */
  function Close(name: string, kids: seq<Node>, depth: nat): string {
    (if |kids| == 1 && kids[0].Text? then "" else "\n" + Indent(depth)) + ("</" + (name + ">"))
  }

  /** An element from its '<' on. */
  function Flat(e: Node, depth: nat): string
    requires e.Element?
    decreases e, 0
  {
    "<" + (e.name + (PrintAttributes(e.attributes)
      + if e.kids == [] then " />" else ">" + (PrintKids(e.kids, depth + 1) + Close(e.name, e.kids, depth))))
  }

  function Print(node: Node, depth: nat): string
    decreases node, 1
  {
    if node.Text? then Encode(node.value) else Indent(depth) + Flat(node, depth)
  }

  function PrintKids(kids: seq<Node>, depth: nat): string
    decreases kids, 0
  {
    if kids == [] then ""
    else (if kids[0].Text? then "" else "\n") + (Print(kids[0], depth) + PrintKids(kids[1..], depth))
  }

  /** A document: every node on its own line. */
  function PrintDocument(nodes: seq<Node>): string {
    if nodes == [] then "" else Print(nodes[0], 0) + ("\n" + PrintDocument(nodes[1..]))
  }

  // ---------- parsing ----------

  /** Other stands for declarations, comments, CDATA sections and unknown tags, which this model leaves out. */
  datatype Outcome<T> = Done(value: T, rest: string) | Failed | Other

  function Unquoted(t: string): (r: Read)
    ensures r.Read? ==> |r.rest| <= |t|
  {
    if t == [] || IsSpace(t[0]) || t[0] == '/' || t[0] == '>' then Read("", t)
    else if t[0] == '\'' || t[0] == '\"' then Null
    else Prepend([t[0]], Unquoted(t[1..]))
  }

  /** A value in quotes of either kind, or without. */
  function ParseValue(name: string, t: string): (r: Outcome<Attribute>)
    ensures !r.Other? && (r.Done? ==> |r.rest| <= |t| && r.rest != [])
  {
    if t == [] then Failed
    else
      var v := if t[0] == '\'' || t[0] == '\"' then ReadValue(t[1..], t[0]) else Unquoted(t);
      if v.Null? || v.rest == [] then Failed else Done(Attribute(name, v.out), v.rest)
  }

  function ParseSigned(name: string, t: string): (r: Outcome<Attribute>)
    ensures !r.Other? && (r.Done? ==> |r.rest| < |t| && r.rest != [])
  {
    if t == [] || t[0] != '=' then Failed else ParseValue(name, Skip(t[1..]))
  }

  function ParseAttribute(t: string): (r: Outcome<Attribute>)
    ensures !r.Other? && (r.Done? ==> |r.rest| < |t| && r.rest != [])
  {
    match ReadName(Skip(t))
    case Null => Failed
    case Read(name, rest) => ParseSigned(name, Skip(rest))
  }

  predicate HasName(attributes: seq<Attribute>, name: string) {
    exists i :: 0 <= i < |attributes| && attributes[i].name == name
  }

  predicate Blank(v: string) {
    forall i :: 0 <= i < |v| ==> IsSpace(v[i])
  }

  /** Identify, after a '<': only elements are told apart from everything else. */
  predicate IsElement(t: string) {
    |t| > 1 && StartsName(t[1])
  }

  function ParseElement(t: string): (r: Outcome<Node>)
    ensures r.Done? ==> |r.rest| < |t| && r.value.Element?
    decreases |t|, 0
  {
    var from := Skip(t);
    if from == [] || from[0] != '<' then Failed else ParseTag(from[1..])
  }

  /** An element after its '<'. */
  function ParseTag(t: string): (r: Outcome<Node>)
    ensures r.Done? ==> |r.rest| < |t| && r.value.Element?
    decreases |t|, 0
  {
    match ReadName(Skip(t))
    case Null => Failed
    case Read(name, rest) => if rest == [] then Failed else ParseOpened(name, [], rest)
  }

  /** The attributes that are left, and what is in the element. */
  function ParseOpened(name: string, attributes: seq<Attribute>, t: string): (r: Outcome<Node>)
    ensures r.Done? ==> |r.rest| < |t| && r.value.Element?
    decreases |t|, 0
  {
    var from := Skip(t);
    if from == [] then Failed
    else if from[0] == '/' then
      if |from| > 1 && from[1] == '>' then Done(Element(name, attributes, []), from[2..]) else Failed
    else if from[0] == '>' then
      match ParseKids([], from[1..])
      case Failed => Failed
      case Other => Other
      case Done(kids, end) =>
        if "</" + name <= end then
          var last := Skip(end[2 + |name|..]);
          if last != [] && last[0] == '>' then Done(Element(name, attributes, kids), last[1..]) else Failed
        else Failed
    else
      match ParseAttribute(from)
      case Done(a, rest) =>
        if HasName(attributes, a.name) then Failed else ParseOpened(name, attributes + [a], rest)
      case _ => Failed
  }

  /** The children that are left, up to the closing tag. */
  function ParseKids(kids: seq<Node>, t: string): (r: Outcome<seq<Node>>)
    ensures r.Done? ==> |r.rest| <= |t|
    decreases |t|, 1
  {
    var from := Skip(t);
    if from == [] then Failed
    else if from[0] != '<' then
      match ReadCondensed(from, false)
      case Null => Failed
      case Read(value, rest) => ParseKids(if Blank(value) then kids else kids + [Text(value)], rest)
    else if "</" <= from then Done(kids, from)
    else if !IsElement(from) then Other
    else
      match ParseElement(from)
      case Done(kid, rest) => ParseKids(kids + [kid], rest)
      case Failed => Failed
      case Other => Other
  }

  function ParseNodes(nodes: seq<Node>, t: string): (r: Outcome<seq<Node>>)
    decreases |t|
  {
    var from := Skip(t);
    if from == [] || from[0] != '<' then if nodes == [] then Failed else Done(nodes, from)
    else if !IsElement(from) then Other
    else
      match ParseElement(from)
      case Done(node, rest) => ParseNodes(nodes + [node], rest)
      case Failed => Failed
      case Other => Other
  }

  function ParseDocument(t: string): (r: Outcome<seq<Node>>) {
    ParseNodes([], t)
  }
}
