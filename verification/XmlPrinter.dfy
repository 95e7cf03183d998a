/** TinyXML's printing to a file, proved to append what XmlTree's functions give. */
module XmlPrinter {
  import opened Basics
  import opened XmlText
  import opened XmlTextProofs
  import opened XmlTree
  import opened XmlRoundTrip
  import opened XmlCode
  import opened XmlParser

  /** What has been written to a FILE so far. */
  class File {
    var written: string

    constructor ()
      ensures written == ""
    {
      written := "";
    }

    method Put(s: string)
      modifies this
      ensures written == old(written) + s
    {
      written := written + s;
    }
  }

  lemma IndentNext(depth: nat)
    ensures Indent(depth + 1) == Indent(depth) + "    "
  {
    if depth > 0 {
      IndentNext(depth - 1);
    }
  }

  method PrintIndent(f: File, depth: nat)
    modifies f
    ensures f.written == old(f.written) + Indent(depth)
  {
    for i := 0 to depth
      invariant f.written == old(f.written) + Indent(i)
    {
      IndentNext(i);
      f.Put("    ");
    }
  }

  /** value.find('"'), and the quote it leads to. */
  method ChooseQuote(value: string) returns (q: char)
    ensures q == QuoteFor(value)
  {
    var i := 0;
    while i < |value| && value[i] != '\"'
      invariant 0 <= i <= |value| && forall k :: 0 <= k < i ==> value[k] != '\"'
    {
      i := i + 1;
    }
    q := if i == |value| then '\"' else '\'';
  }

  /** TiXmlAttribute::Print */
  method PrintAttributeTo(f: File, a: Attribute)
    modifies f
    ensures f.written == old(f.written) + PrintAttribute(a)
  {
    var n := EncodeString(a.name, "");
    var v := EncodeString(a.value, "");
    assert n == Encode(a.name) && v == Encode(a.value);
    var q := ChooseQuote(a.value);
    var text := n + ("=" + ([q] + (v + [q])));
    assert text == PrintAttribute(a);
    f.Put(text);
  }

  lemma AttributesNext(attributes: seq<Attribute>, i: nat)
    requires i < |attributes|
    ensures PrintAttributes(attributes[i..]) == " " + (PrintAttribute(attributes[i]) + PrintAttributes(attributes[i + 1..]))
  {
    assert attributes[i..][1..] == attributes[i + 1..];
  }

  lemma KidsNext(kids: seq<Node>, i: nat, depth: nat)
    requires i < |kids|
    ensures PrintKids(kids[i..], depth)
      == (if kids[i].Text? then "" else "\n") + (Print(kids[i], depth) + PrintKids(kids[i + 1..], depth))
  {
    assert kids[i..][1..] == kids[i + 1..];
  }

  lemma Moved(total: string, before: string, a: string, b: string, rest: string)
    requires total == before + (a + (b + rest))
    ensures total == ((before + a) + b) + rest
  {
  }

  method PrintAttributesTo(f: File, attributes: seq<Attribute>)
    modifies f
    ensures f.written == old(f.written) + PrintAttributes(attributes)
  {
    ghost var total := f.written + PrintAttributes(attributes);
    assert attributes[0..] == attributes;
    for i := 0 to |attributes|
      invariant f.written + PrintAttributes(attributes[i..]) == total
    {
      AttributesNext(attributes, i);
      Moved(total, f.written, " ", PrintAttribute(attributes[i]), PrintAttributes(attributes[i + 1..]));
      f.Put(" ");
      PrintAttributeTo(f, attributes[i]);
    }
    assert f.written + PrintAttributes(attributes[|attributes|..]) == f.written;
  }

  /** The children of an element, each element on a line of its own. */
  method PrintKidsTo(f: File, kids: seq<Node>, depth: nat)
    modifies f
    ensures f.written == old(f.written) + PrintKids(kids, depth)
    decreases kids, 1
  {
    ghost var total := f.written + PrintKids(kids, depth);
    assert kids[0..] == kids;
    for i := 0 to |kids|
      invariant f.written + PrintKids(kids[i..], depth) == total
    {
      KidsNext(kids, i, depth);
      ghost var gap := if kids[i].Text? then "" else "\n";
      Moved(total, f.written, gap, Print(kids[i], depth), PrintKids(kids[i + 1..], depth));
      ghost var before := f.written;
      if !kids[i].Text? {
        f.Put("\n");
      }
      assert f.written == before + gap;
      PrintTo(f, kids[i], depth);
    }
    assert f.written + PrintKids(kids[|kids|..], depth) == f.written;
  }

  lemma Joined(b: string, i: string, l: string, n: string, a: string, t: string)
    ensures b + (i + (l + (n + (a + t)))) == (((b + i) + (l + n)) + a) + t
  {
  }

  lemma OpenPrints(before: string, e: Node, depth: nat, open: string)
    requires e.Element? && open == ((before + Indent(depth)) + ("<" + e.name)) + PrintAttributes(e.attributes)
    ensures before + Print(e, depth) == open
      + if e.kids == [] then " />" else ">" + (PrintKids(e.kids, depth + 1) + Close(e.name, e.kids, depth))
  {
    var tail := if e.kids == [] then " />" else ">" + (PrintKids(e.kids, depth + 1) + Close(e.name, e.kids, depth));
    Joined(before, Indent(depth), "<", e.name, PrintAttributes(e.attributes), tail);
  }

  /** TiXmlElement::Print and TiXmlText::Print */
  method PrintTo(f: File, node: Node, depth: nat)
    modifies f
    ensures f.written == old(f.written) + Print(node, depth)
    decreases node, 2
  {
    if node.Text? {
      var buffer := EncodeString(node.value, "");
      f.Put(buffer);
      return;
    }
    ghost var before := f.written;
    PrintIndent(f, depth);
    f.Put("<" + node.name);
    PrintAttributesTo(f, node.attributes);
    ghost var open := f.written;
    OpenPrints(before, node, depth, open);
    var kids := node.kids;
    if kids == [] {
      f.Put(" />");
    } else if |kids| == 1 && kids[0].Text? {
      f.Put(">");
      PrintTo(f, kids[0], depth + 1);
      OnlyText(open, kids, depth, node.name);
      f.Put("</" + (node.name + ">"));
    } else {
      f.Put(">");
      PrintKidsTo(f, kids, depth + 1);
      ManyKids(open, kids, depth, node.name);
      f.Put("\n");
      PrintIndent(f, depth);
      f.Put("</" + (node.name + ">"));
    }
  }

  lemma OnlyText(open: string, kids: seq<Node>, depth: nat, name: string)
    requires |kids| == 1 && kids[0].Text?
    ensures open + (">" + (PrintKids(kids, depth + 1) + Close(name, kids, depth)))
      == ((open + ">") + Print(kids[0], depth + 1)) + ("</" + (name + ">"))
  {
    assert PrintKids(kids, depth + 1) == "" + (Print(kids[0], depth + 1) + "");
  }

  lemma ManyKids(open: string, kids: seq<Node>, depth: nat, name: string)
    requires !(|kids| == 1 && kids[0].Text?)
    ensures open + (">" + (PrintKids(kids, depth + 1) + Close(name, kids, depth)))
      == ((((open + ">") + PrintKids(kids, depth + 1)) + "\n") + Indent(depth)) + ("</" + (name + ">"))
  {
  }

  lemma NodesNext(nodes: seq<Node>, i: nat)
    requires i < |nodes|
    ensures PrintDocument(nodes[i..]) == Print(nodes[i], 0) + ("\n" + PrintDocument(nodes[i + 1..]))
  {
    assert nodes[i..][1..] == nodes[i + 1..];
  }

  /** TiXmlDocument::Print */
  method PrintDocumentTo(f: File, nodes: seq<Node>)
    modifies f
    ensures f.written == old(f.written) + PrintDocument(nodes)
  {
    ghost var total := f.written + PrintDocument(nodes);
    assert nodes[0..] == nodes;
    for i := 0 to |nodes|
      invariant f.written + PrintDocument(nodes[i..]) == total
    {
      NodesNext(nodes, i);
      Moved(total, f.written, Print(nodes[i], 0), "\n", PrintDocument(nodes[i + 1..]));
      PrintTo(f, nodes[i], 0);
      f.Put("\n");
    }
    assert f.written + PrintDocument(nodes[|nodes|..]) == f.written;
  }

  /** A document printed to an empty file and parsed from it is the same document. */
  method PrintThenParse(nodes: seq<Node>) returns (error: bool, again: seq<Node>)
    requires ValidDocument(nodes)
    ensures !error && again == nodes
  {
    var f := new File();
    PrintDocumentTo(f, nodes);
    assert f.written == PrintDocument(nodes);
    DocumentReads(nodes);
    var other;
    error, again, other := ParseDocumentAt(f.written);
  }
}
