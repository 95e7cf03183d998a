/** A printed document parses back into the same elements. */
module XmlRoundTrip {
  import opened Basics
  import opened XmlText
  import opened XmlTextProofs
  import opened XmlTree

  // ---------- which trees ----------

  ghost predicate ValidName(n: string) {
    n != [] && IsString(n) && StartsName(n[0]) && forall i :: 0 <= i < |n| ==> InName(n[i])
  }

  ghost predicate ValidAttribute(a: Attribute) {
    ValidName(a.name) && IsString(a.value) && NoHex(a.value)
  }

  ghost predicate ValidAttributes(attributes: seq<Attribute>) {
    (forall i :: 0 <= i < |attributes| ==> ValidAttribute(attributes[i]))
    && forall i, j :: 0 <= i < j < |attributes| ==> attributes[i].name != attributes[j].name
  }

  ghost predicate ValidText(v: string) {
    IsString(v) && NoHex(v) && !Blank(v) && v[0] != ' ' && Condensed(v)
  }

  /** Elements and texts in any order, but no text right after another. */
  ghost predicate Valid(node: Node)
    decreases node, 1
  {
    if node.Text? then ValidText(node.value)
    else ValidName(node.name) && ValidAttributes(node.attributes) && ValidKids(node.kids)
  }

  ghost predicate ValidKids(kids: seq<Node>)
    decreases kids, 0
  {
    kids == [] ||
    (Valid(kids[0]) && ValidKids(kids[1..]) && (|kids| > 1 ==> kids[0].Element? || kids[1].Element?))
  }

  // ---------- white space and names ----------

  lemma {:induction false} IndentSkips(depth: nat, z: string)
    ensures Skip(Indent(depth) + z) == Skip(z)
  {
    if depth == 0 {
      assert Indent(0) + z == z;
    } else {
      IndentSkips(depth - 1, z);
      var more := Indent(depth - 1) + z;
      assert Indent(depth) + z == "    " + more;
      SpacesSkip(more);
    }
  }

  lemma SpacesSkip(z: string)
    ensures Skip("    " + z) == Skip(z)
  {
    assert "    " + z == [' '] + ([' '] + ([' '] + ([' '] + z)));
    OneSkips(' ', [' '] + ([' '] + ([' '] + z)));
    OneSkips(' ', [' '] + ([' '] + z));
    OneSkips(' ', [' '] + z);
    OneSkips(' ', z);
  }

  lemma OneSkips(c: char, z: string)
    requires IsSpace(c)
    ensures Skip([c] + z) == Skip(z)
  {
    assert ([c] + z)[1..] == z;
  }

  lemma NoneSkips(t: string)
    requires t != [] && !IsSpace(t[0])
    ensures Skip(t) == t
  {
  }

  lemma SkipTwice(t: string)
    ensures Skip(Skip(t)) == Skip(t)
  {
  }

  lemma NameReads(n: string, z: string)
    requires ValidName(n) && (z == [] || !InName(z[0]))
    ensures ReadName(n + z) == Read(n, z) && !IsSpace(n[0]) && Skip(n + z) == n + z
  {
    NameEnds(n, z, 0);
    assert (n + z)[0] == n[0] && InName(n[0]);
    assert (n + z)[..|n|] == n && (n + z)[|n|..] == z;
  }

  lemma {:induction false} NamePrints(n: string)
    requires IsString(n) && forall i :: 0 <= i < |n| ==> InName(n[i])
    ensures Encode(n) == n
  {
    if n != [] {
      NamePrints(n[1..]);
      assert InName(n[0]) && [n[0]] + n[1..] == n;
    }
  }

  // ---------- attributes ----------

  lemma AttributeReads(a: Attribute, z: string)
    requires ValidAttribute(a) && z != []
    ensures ParseAttribute(PrintAttribute(a) + z) == Done(a, z)
    ensures StartsName(PrintAttribute(a)[0])
  {
    NamePrints(a.name);
    var q := QuoteFor(a.value);
    var value := Encode(a.value) + ([q] + z);
    var quoted := [q] + value;
    var sign := "=" + quoted;
    assert PrintAttribute(a) + z == a.name + sign;
    NameReads(a.name, sign);
    assert sign[1..] == quoted && quoted[1..] == value;
    NoneSkips(sign);
    NoneSkips(quoted);
    ValueReads(a.value, q, z);
  }

  lemma AttributesPrint(todo: seq<Attribute>, z: string)
    requires todo != []
    ensures PrintAttributes(todo) + z == [' '] + (PrintAttribute(todo[0]) + (PrintAttributes(todo[1..]) + z))
  {
  }

  lemma NewName(done: seq<Attribute>, todo: seq<Attribute>)
    requires ValidAttributes(done + todo) && todo != []
    ensures ValidAttribute(todo[0]) && !HasName(done, todo[0].name)
    ensures done + todo == (done + [todo[0]]) + todo[1..]
  {
    assert (done + todo)[|done|] == todo[0];
    forall i | 0 <= i < |done| ensures done[i].name != todo[0].name {
      assert (done + todo)[i] == done[i];
    }
  }

  lemma {:induction false} AttributesRead(name: string, done: seq<Attribute>, todo: seq<Attribute>, z: string)
    requires ValidAttributes(done + todo) && z != []
    ensures ParseOpened(name, done, PrintAttributes(todo) + z) == ParseOpened(name, done + todo, z)
    decreases |todo|
  {
    if todo == [] {
      assert done + todo == done && PrintAttributes(todo) + z == z;
    } else {
      var a, more := todo[0], PrintAttributes(todo[1..]) + z;
      var printed := PrintAttribute(a) + more;
      NewName(done, todo);
      AttributesPrint(todo, z);
      AttributeReads(a, more);
      OneSkips(' ', printed);
      NoneSkips(printed);
      AttributeStep(name, done, a, [' '] + printed, printed, more);
      AttributesRead(name, done + [a], todo[1..], z);
    }
  }

  lemma AttributeStep(name: string, done: seq<Attribute>, a: Attribute, t: string, from: string, rest: string)
    requires from != [] && StartsName(from[0]) && Skip(t) == from
    requires ParseAttribute(from) == Done(a, rest) && !HasName(done, a.name)
    ensures ParseOpened(name, done, t) == ParseOpened(name, done + [a], rest)
  {
  }

  // ---------- elements ----------

  /** A closing tag, after white space. */
  predicate AtClose(z: string) {
    "</" <= Skip(z)
  }

  lemma ClosePrints(name: string, kids: seq<Node>, depth: nat, z: string)
    requires ValidName(name)
    ensures AtClose(Close(name, kids, depth) + z)
    ensures Skip(Close(name, kids, depth) + z) == ("</" + name) + (">" + z)
  {
    var tag := "</" + (name + ">");
    var end := ("</" + name) + (">" + z);
    assert tag + z == end;
    NoneSkips(end);
    if !(|kids| == 1 && kids[0].Text?) {
      assert Close(name, kids, depth) + z == ['\n'] + (Indent(depth) + end);
      OneSkips('\n', Indent(depth) + end);
      IndentSkips(depth, end);
    }
  }

  /** The tag that ends an element, once its children have been read. */
  lemma ElementCloses(name: string, attributes: seq<Attribute>, kids: seq<Node>, t: string, body: string, z: string)
    requires t == ">" + body
    requires ParseKids([], body) == Done(kids, ("</" + name) + (">" + z))
    ensures ParseOpened(name, attributes, t) == Done(Element(name, attributes, kids), z)
  {
    var end := ("</" + name) + (">" + z);
    assert t[1..] == body;
    assert "</" + name <= end && end[2 + |name|..] == ">" + z;
    NoneSkips(">" + z);
    assert (">" + z)[1..] == z;
  }

  lemma EmptyCloses(name: string, attributes: seq<Attribute>, z: string)
    ensures ParseOpened(name, attributes, " />" + z) == Done(Element(name, attributes, []), z)
  {
    var end := "/>" + z;
    assert " />" + z == [' '] + end;
    OneSkips(' ', end);
    NoneSkips(end);
    assert end[2..] == z;
  }

  /** The name and the attributes behind the '<'. */
  lemma TagOpens(e: Node, more: string, z: string)
    requires e.Element? && ValidName(e.name) && ValidAttributes(e.attributes)
    requires z != [] && (z[0] == ' ' || z[0] == '>')
    requires more == PrintAttributes(e.attributes) + z
    ensures ParseTag(e.name + more) == ParseOpened(e.name, e.attributes, z) && StartsName((e.name + more)[0])
  {
    if e.attributes == [] {
      assert more == z;
    } else {
      AttributesPrint(e.attributes, z);
    }
    NameReads(e.name, more);
    assert [] + e.attributes == e.attributes;
    AttributesRead(e.name, [], e.attributes, z);
  }

  /** The name and the attributes of an element. */
  lemma ElementOpens(e: Node, t: string, z: string)
    requires e.Element? && ValidName(e.name) && ValidAttributes(e.attributes)
    requires z != [] && (z[0] == ' ' || z[0] == '>')
    requires t == "<" + (e.name + (PrintAttributes(e.attributes) + z))
    ensures ParseElement(t) == ParseOpened(e.name, e.attributes, z) && IsElement(t) && Skip(t) == t
  {
    var more := PrintAttributes(e.attributes) + z;
    NoneSkips(t);
    assert t[1..] == e.name + more;
    TagOpens(e, more, z);
  }

  lemma {:induction false} ElementReads(e: Node, depth: nat, z: string)
    requires e.Element? && Valid(e)
    ensures ParseElement(Flat(e, depth) + z) == Done(e, z)
    ensures IsElement(Flat(e, depth) + z) && Skip(Flat(e, depth) + z) == Flat(e, depth) + z
    decreases e, 0
  {
    var t := Flat(e, depth) + z;
    if e.kids == [] {
      assert t == "<" + (e.name + (PrintAttributes(e.attributes) + (" />" + z)));
      ElementOpens(e, t, " />" + z);
      EmptyCloses(e.name, e.attributes, z);
    } else {
      var end := Close(e.name, e.kids, depth) + z;
      var body := PrintKids(e.kids, depth + 1) + end;
      assert t == "<" + (e.name + (PrintAttributes(e.attributes) + (">" + body)));
      ElementOpens(e, t, ">" + body);
      ClosePrints(e.name, e.kids, depth, z);
      KidsRead([], e.kids, depth + 1, end);
      assert [] + e.kids == e.kids;
      ElementCloses(e.name, e.attributes, e.kids, ">" + body, body, z);
    }
  }

  lemma Regroup(a: string, b: string, c: string, d: string, z: string)
    ensures (a + ((b + c) + d)) + z == a + (b + (c + (d + z)))
  {
  }

  lemma ElementPrints(kids: seq<Node>, depth: nat, z: string)
    requires kids != [] && kids[0].Element?
    ensures PrintKids(kids, depth) + z
      == ['\n'] + (Indent(depth) + (Flat(kids[0], depth) + (PrintKids(kids[1..], depth) + z)))
  {
    Regroup("\n", Indent(depth), Flat(kids[0], depth), PrintKids(kids[1..], depth), z);
    assert Print(kids[0], depth) == Indent(depth) + Flat(kids[0], depth);
  }

  lemma TextPrints(kids: seq<Node>, depth: nat, z: string)
    requires kids != [] && kids[0].Text?
    ensures PrintKids(kids, depth) + z == Encode(kids[0].value) + (PrintKids(kids[1..], depth) + z)
  {
    var e, r := Encode(kids[0].value), PrintKids(kids[1..], depth);
    assert PrintKids(kids, depth) == "" + (e + r) == e + r;
    Associate(e, r, z);
  }

  lemma ElementSkips(kids: seq<Node>, depth: nat, z: string)
    requires kids != [] && kids[0].Element?
    ensures Skip(PrintKids(kids, depth) + z) == Skip(Flat(kids[0], depth) + (PrintKids(kids[1..], depth) + z))
  {
    var flat := Flat(kids[0], depth) + (PrintKids(kids[1..], depth) + z);
    ElementPrints(kids, depth, z);
    OneSkips('\n', Indent(depth) + flat);
    IndentSkips(depth, flat);
  }

  lemma FlatStarts(e: Node, depth: nat, z: string)
    requires e.Element? && ValidName(e.name)
    ensures var t := Flat(e, depth) + z; |t| > 1 && t[0] == '<' && Skip(t) == t
  {
    NoneSkips(Flat(e, depth) + z);
  }

  /** After a text comes a tag. */
  lemma KidsStart(kids: seq<Node>, depth: nat, z: string)
    requires ValidKids(kids) && AtClose(z) && (kids == [] || kids[0].Element?)
    ensures AtTag(PrintKids(kids, depth) + z)
  {
    if kids == [] {
      assert PrintKids(kids, depth) + z == z;
    } else {
      ElementSkips(kids, depth, z);
      FlatStarts(kids[0], depth, PrintKids(kids[1..], depth) + z);
    }
  }

  lemma TextStarts(v: string, z: string)
    requires ValidText(v)
    ensures var t := Encode(v) + z; t != [] && t[0] != '<' && !IsSpace(t[0])
  {
    NoHexTail(v);
    EncodeNext(v, z);
    EscapeStarts(v[0]);
  }

  lemma TextStepKids(done: seq<Node>, v: string, t: string, rest: string)
    requires t != [] && t[0] != '<' && Skip(t) == t && ReadCondensed(t, false) == Read(v, rest) && !Blank(v)
    ensures ParseKids(done, t) == ParseKids(done + [Text(v)], rest)
  {
  }

  lemma SkippedKids(done: seq<Node>, z: string)
    ensures ParseKids(done, Skip(z)) == ParseKids(done, z)
  {
    SkipTwice(z);
  }

  lemma TextKid(done: seq<Node>, v: string, t: string, z: string)
    requires ValidText(v) && AtTag(z) && t == Encode(v) + z
    ensures ParseKids(done, t) == ParseKids(done + [Text(v)], z)
  {
    TextStarts(v, z);
    NoneSkips(t);
    TextReads(v, z, false);
    assert Gap(false) + v == v;
    TextStepKids(done, v, t, Skip(z));
    SkippedKids(done + [Text(v)], z);
  }

  lemma ElementKid(done: seq<Node>, kid: Node, t: string, flat: string, rest: string)
    requires Skip(t) == flat && flat != [] && flat[0] == '<' && IsElement(flat)
    requires ParseElement(flat) == Done(kid, rest)
    ensures ParseKids(done, t) == ParseKids(done + [kid], rest)
  {
  }

  lemma {:induction false} KidsRead(done: seq<Node>, kids: seq<Node>, depth: nat, z: string)
    requires ValidKids(kids) && AtClose(z)
    ensures ParseKids(done, PrintKids(kids, depth) + z) == Done(done + kids, Skip(z))
    decreases kids, 1
  {
    var t := PrintKids(kids, depth) + z;
    if kids == [] {
      assert t == z && done + kids == done;
    } else {
      var kid, rest := kids[0], PrintKids(kids[1..], depth) + z;
      assert done + kids == (done + [kid]) + kids[1..];
      KidsRead(done + [kid], kids[1..], depth, z);
      if kid.Text? {
        TextPrints(kids, depth, z);
        KidsStart(kids[1..], depth, z);
        TextKid(done, kid.value, t, rest);
      } else {
        ElementSkips(kids, depth, z);
        FlatStarts(kid, depth, rest);
        ElementReads(kid, depth, rest);
        ElementKid(done, kid, t, Flat(kid, depth) + rest, rest);
      }
    }
  }

  // ---------- documents ----------

  ghost predicate ValidDocument(nodes: seq<Node>) {
    nodes != [] && forall i :: 0 <= i < |nodes| ==> nodes[i].Element? && Valid(nodes[i])
  }

  lemma NodePrints(nodes: seq<Node>)
    requires nodes != [] && nodes[0].Element?
    ensures PrintDocument(nodes) == Flat(nodes[0], 0) + (['\n'] + PrintDocument(nodes[1..]))
  {
    assert Indent(0) + Flat(nodes[0], 0) == Flat(nodes[0], 0);
  }

  lemma NodeStep(done: seq<Node>, node: Node, t: string, flat: string, rest: string)
    requires Skip(t) == flat && flat != [] && flat[0] == '<' && IsElement(flat)
    requires ParseElement(flat) == Done(node, rest)
    ensures ParseNodes(done, t) == ParseNodes(done + [node], rest)
  {
  }

  lemma {:induction false} NodesRead(done: seq<Node>, todo: seq<Node>, t: string)
    requires done + todo != [] && forall i :: 0 <= i < |todo| ==> todo[i].Element? && Valid(todo[i])
    requires Skip(t) == Skip(PrintDocument(todo))
    ensures ParseNodes(done, t) == Done(done + todo, [])
    decreases |todo|
  {
    if todo == [] {
      assert done + todo == done;
    } else {
      var node, more := todo[0], PrintDocument(todo[1..]);
      var rest := ['\n'] + more;
      assert done + todo == (done + [node]) + todo[1..];
      OneSkips('\n', more);
      NodesRead(done + [node], todo[1..], rest);
      NodePrints(todo);
      FlatStarts(node, 0, rest);
      ElementReads(node, 0, rest);
      NodeStep(done, node, t, Flat(node, 0) + rest, rest);
    }
  }

  /** Printing and then parsing gives the tree back. */
  lemma DocumentReads(nodes: seq<Node>)
    requires ValidDocument(nodes)
    ensures ParseDocument(PrintDocument(nodes)) == Done(nodes, [])
  {
    NodesRead([], nodes, PrintDocument(nodes));
    assert [] + nodes == nodes;
  }

  // ---------- what a document looks like ----------

  lemma InnerPrints()
    ensures Flat(Element("d", [], [Text("t")]), 1) == "<d>t</d>"
    ensures Flat(Element("e", [], []), 1) == "<e />"
  {
    var kids := [Text("t")];
    assert Encode("t") == "t" + Encode("t"[1..]) == "t";
    assert kids[1..] == [] && PrintKids(kids, 2) == "" + (Print(kids[0], 2) + PrintKids([], 2)) == "t";
    assert Close("d", kids, 1) == "" + ("</" + ("d" + ">")) == "</d>";
  }

  lemma AttributePrints(a: Attribute)
    requires a == Attribute("b", "c")
    ensures PrintAttributes([a]) == " b=\"c\""
  {
    assert "b"[1..] == "" && "c"[1..] == "" && Encode("b") == "b" && Encode("c") == "c";
    assert [a][1..] == [];
    assert PrintAttribute(a) == "b" + ("=" + (['\"'] + ("c" + ['\"']))) == "b=\"c\"";
  }

  lemma LastKid(e: Node)
    requires e == Element("e", [], [])
    ensures PrintKids([e], 1) == "\n    <e />"
  {
    InnerPrints();
    assert Indent(1) == "    " && [e][1..] == [];
    assert Print(e, 1) == "    " + "<e />";
    assert PrintKids([e], 1) == "\n" + (Print(e, 1) + "");
  }

  /** Children stand on lines of their own, four spaces further in; an only text stays on the line of its element. */
  lemma KidsPrint(d: Node, e: Node)
    requires d == Element("d", [], [Text("t")]) && e == Element("e", [], [])
    ensures PrintKids([d, e], 1) == "\n    <d>t</d>\n    <e />"
  {
    LastKid(e);
    InnerPrints();
    assert Indent(1) == "    " && [d, e][1..] == [e];
    assert Print(d, 1) == "    " + "<d>t</d>";
    assert PrintKids([d, e], 1) == "\n" + (Print(d, 1) + PrintKids([e], 1));
  }

  lemma EmptyFlat(a: Node)
    requires a == Element("a", [Attribute("b", "c")], [])
    ensures Flat(a, 0) == "<a b=\"c\" />"
  {
    AttributePrints(Attribute("b", "c"));
    assert Flat(a, 0) == "<" + ("a" + (" b=\"c\"" + " />"));
  }

  /** Attributes stand on the line of their element, and a document ends its lines. */
  lemma EmptyPrints(a: Node)
    requires a == Element("a", [Attribute("b", "c")], [])
    ensures PrintDocument([a]) == "<a b=\"c\" />" + "\n"
  {
    EmptyFlat(a);
    assert Print(a, 0) == Indent(0) + Flat(a, 0) == Flat(a, 0);
    assert [a][1..] == [] && PrintDocument([a]) == Print(a, 0) + ("\n" + "");
  }
}
