/** What every parsed document looks like, and so exactly which documents can be read back. */
module XmlShape {
  import opened Basics
  import opened XmlText
  import opened XmlTextProofs
  import opened XmlTextExact
  import opened XmlTree
  import opened XmlRoundTrip

  // ---------- the shape ----------

  ghost predicate Named(n: string) {
    n != [] && StartsName(n[0]) && forall i :: 0 <= i < |n| ==> InName(n[i])
  }

  /** No two attributes have one name. */
  ghost predicate ShapedAttributes(attributes: seq<Attribute>) {
    (forall i :: 0 <= i < |attributes| ==> Named(attributes[i].name))
    && forall i, j :: 0 <= i < j < |attributes| ==> attributes[i].name != attributes[j].name
  }

  /** No text stands right after another. */
  ghost predicate Alternate(kids: seq<Node>) {
    forall i {:trigger kids[i]} :: 0 <= i && i + 1 < |kids| ==> kids[i].Element? || kids[i + 1].Element?
  }

  /** Names are names, no text is blank or next to another: what a parser can make. */
  ghost predicate Shaped(node: Node)
    decreases node
  {
    if node.Text? then !Blank(node.value)
    else
      Named(node.name) && ShapedAttributes(node.attributes) && Alternate(node.kids)
      && forall i :: 0 <= i < |node.kids| ==> Shaped(node.kids[i])
  }

  ghost predicate ShapedDocument(nodes: seq<Node>) {
    nodes != [] && forall i :: 0 <= i < |nodes| ==> nodes[i].Element? && Shaped(nodes[i])
  }

  // ---------- whatever is parsed has the shape ----------

  lemma NameShaped(t: string)
    ensures ReadName(t).Read? ==> Named(ReadName(t).out)
  {
    if t != [] && StartsName(t[0]) {
      assert InName(t[0]);
    }
  }

  lemma AttributeNamed(t: string)
    ensures ParseAttribute(t).Done? ==> Named(ParseAttribute(t).value.name)
  {
    NameShaped(Skip(t));
  }

  lemma AttributeJoins(attributes: seq<Attribute>, a: Attribute)
    requires ShapedAttributes(attributes) && Named(a.name) && !HasName(attributes, a.name)
    ensures ShapedAttributes(attributes + [a])
  {
  }

  /** Behind a text only a tag can stand. */
  ghost predicate Follows(kids: seq<Node>, t: string) {
    kids != [] && kids[|kids| - 1].Text? ==> Skip(t) != [] && Skip(t)[0] == '<'
  }

  ghost predicate ShapedKids(kids: seq<Node>) {
    Alternate(kids) && forall i :: 0 <= i < |kids| ==> Shaped(kids[i])
  }

  lemma KidJoins(kids: seq<Node>, kid: Node)
    requires ShapedKids(kids) && Shaped(kid) && (kid.Element? || kids == [] || kids[|kids| - 1].Element?)
    ensures ShapedKids(kids + [kid])
  {
  }

  lemma {:induction false} ElementShaped(t: string)
    ensures ParseElement(t).Done? ==> Shaped(ParseElement(t).value)
    decreases |t|, 0
  {
    var from := Skip(t);
    if from != [] && from[0] == '<' {
      TagShaped(from[1..]);
    }
  }

  lemma {:induction false} TagShaped(t: string)
    ensures ParseTag(t).Done? ==> Shaped(ParseTag(t).value)
    decreases |t|, 0
  {
    NameShaped(Skip(t));
    match ReadName(Skip(t))
    case Null =>
    case Read(name, rest) =>
      if rest != [] {
        OpenedShaped(name, [], rest);
      }
  }

  lemma {:induction false} OpenedShaped(name: string, attributes: seq<Attribute>, t: string)
    requires Named(name) && ShapedAttributes(attributes)
    ensures ParseOpened(name, attributes, t).Done? ==> Shaped(ParseOpened(name, attributes, t).value)
    decreases |t|, 0
  {
    var from := Skip(t);
    if from == [] || from[0] == '/' {
    } else if from[0] == '>' {
      KidsShaped([], from[1..]);
    } else {
      AttributeNamed(from);
      match ParseAttribute(from)
      case Done(a, rest) =>
        if !HasName(attributes, a.name) {
          AttributeJoins(attributes, a);
          OpenedShaped(name, attributes + [a], rest);
        }
      case _ =>
    }
  }

  lemma {:induction false} KidsShaped(kids: seq<Node>, t: string)
    requires ShapedKids(kids) && Follows(kids, t)
    ensures ParseKids(kids, t).Done? ==> ShapedKids(ParseKids(kids, t).value)
    decreases |t|, 1
  {
    var from := Skip(t);
    if from == [] || "</" <= from {
    } else if from[0] != '<' {
      match ReadCondensed(from, false)
      case Null =>
      case Read(value, rest) =>
        NoneSkips(rest);
        if Blank(value) {
          KidsShaped(kids, rest);
        } else {
          KidJoins(kids, Text(value));
          KidsShaped(kids + [Text(value)], rest);
        }
    } else if IsElement(from) {
      ElementShaped(from);
      match ParseElement(from)
      case Done(kid, rest) =>
        KidJoins(kids, kid);
        KidsShaped(kids + [kid], rest);
      case _ =>
    }
  }

  lemma {:induction false} NodesShaped(nodes: seq<Node>, t: string)
    requires nodes == [] || ShapedDocument(nodes)
    ensures ParseNodes(nodes, t).Done? ==> ShapedDocument(ParseNodes(nodes, t).value)
    decreases |t|
  {
    var from := Skip(t);
    if from != [] && from[0] == '<' && IsElement(from) {
      ElementShaped(from);
      match ParseElement(from)
      case Done(node, rest) => NodesShaped(nodes + [node], rest);
      case _ =>
    }
  }

  /** Whatever text is given, a document parsed from it has the shape. */
  lemma ParsedShaped(t: string)
    ensures ParseDocument(t).Done? ==> ShapedDocument(ParseDocument(t).value)
  {
    NodesShaped([], t);
  }

  // ---------- what has the shape and survives in its values and texts is valid ----------

  /** Every string of the tree is a C string, every value and text one that can be read back by itself. */
  ghost predicate Kept(node: Node)
    decreases node
  {
    if node.Text? then IsString(node.value) && ReadableText(node.value)
    else
      IsString(node.name) && (forall i :: 0 <= i < |node.attributes| ==> KeptAttribute(node.attributes[i]))
      && forall i :: 0 <= i < |node.kids| ==> Kept(node.kids[i])
  }

  ghost predicate KeptAttribute(a: Attribute) {
    IsString(a.name) && IsString(a.value) && NoHex(a.value)
  }

  lemma {:induction false} ValidIff(node: Node)
    requires Kept(node)
    ensures Valid(node) <==> Shaped(node)
    decreases node, 1
  {
    if node.Element? {
      ValidKidsIff(node.kids);
    }
  }

  lemma {:induction false} ValidKidsIff(kids: seq<Node>)
    requires forall i :: 0 <= i < |kids| ==> Kept(kids[i])
    ensures ValidKids(kids) <==> ShapedKids(kids)
    decreases kids, 0
  {
    if kids != [] {
      ValidIff(kids[0]);
      ValidKidsIff(kids[1..]);
      TailKids(kids);
    }
  }

  lemma TailKids(kids: seq<Node>)
    requires kids != []
    ensures ShapedKids(kids)
      <==> Shaped(kids[0]) && ShapedKids(kids[1..]) && (|kids| > 1 ==> kids[0].Element? || kids[1].Element?)
  {
    assert kids == [kids[0]] + kids[1..];
  }

  /** A document whose values and texts can each be read back survives printing and parsing exactly when it has the
      shape of a parsed one. */
  lemma DocumentReadsIff(nodes: seq<Node>)
    requires forall i :: 0 <= i < |nodes| ==> Kept(nodes[i])
    ensures ParseDocument(PrintDocument(nodes)) == Done(nodes, []) <==> ShapedDocument(nodes)
  {
    ParsedShaped(PrintDocument(nodes));
    if ShapedDocument(nodes) {
      forall i | 0 <= i < |nodes| ensures nodes[i].Element? && Valid(nodes[i]) {
        ValidIff(nodes[i]);
      }
      DocumentReads(nodes);
    }
  }

  /** Parsing what was printed from a parsed document changes nothing more. */
  lemma ReparseSame(t: string)
    requires var r := ParseDocument(t); r.Done? && forall i :: 0 <= i < |r.value| ==> Kept(r.value[i])
    ensures ParseDocument(PrintDocument(ParseDocument(t).value)) == Done(ParseDocument(t).value, [])
  {
    ParsedShaped(t);
    DocumentReadsIff(ParseDocument(t).value);
  }

  /** Two texts side by side come back as one, or not at all. */
  lemma AdjacentTextsLost()
    ensures var d := [Element("a", [], [Text("b"), Text("c")])]; ParseDocument(PrintDocument(d)) != Done(d, [])
  {
    var e := Element("a", [], [Text("b"), Text("c")]);
    ParsedShaped(PrintDocument([e]));
    assert !Alternate(e.kids) by {
      var b, c := e.kids[0], e.kids[1];
    }
    assert [e][0] == e;
  }
}
