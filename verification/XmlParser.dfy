/** TinyXML's recursive descent over a character buffer, proved to compute the functions of XmlTree. */
module XmlParser {
  import opened Basics
  import opened XmlText
  import opened XmlTree
  import opened XmlCode

  /** q and value are what o says; Failed is a null pointer, and an error has been set. */
  ghost predicate Yields<T>(s: string, q: Pointer, value: T, other: bool, o: Outcome<T>) {
    match o
    case Done(v, rest) => !other && 0 <= q <= |s| && s[q..] == rest && value == v
    case Failed => !other && q == NULL
    case Other => other
  }

  // ---------- attributes ----------

  lemma UnquotedMoves(t: string, total: Read, before: string)
    requires total == Prepend(before, Unquoted(t))
    requires t != [] && !IsSpace(t[0]) && t[0] != '/' && t[0] != '>'
    ensures if t[0] == '\'' || t[0] == '\"' then total == Null
      else total == Prepend(before + [t[0]], Unquoted(t[1..]))
  {
    if Unquoted(t).Read? {
      assert before + ([t[0]] + Unquoted(t[1..]).out) == (before + [t[0]]) + Unquoted(t[1..]).out;
    }
  }

  /** A value without quotes. */
  method ReadUnquoted(s: string, p: Pointer) returns (q: Pointer, value: string)
    requires 0 <= p <= |s|
    ensures Reads(s, q, value, Unquoted(s[p..]))
  {
    q, value := p, "";
    ghost var total := Unquoted(s[p..]);
    assert total == Prepend("", total);
    while q < |s| && !IsSpace(s[q]) && s[q] != '/' && s[q] != '>'
      invariant 0 <= q <= |s| && total == Prepend(value, Unquoted(s[q..]))
    {
      UnquotedMoves(s[q..], total, value);
      if s[q] == '\'' || s[q] == '\"' {
        return NULL, value;
      }
      assert s[q..][1..] == s[q + 1..];
      value := value + [s[q]];
      q := q + 1;
    }
  }

  /** A pointer to the end fails at the caller, as a null pointer does. */
  ghost predicate YieldsAttribute(s: string, q: Pointer, a: Attribute, o: Outcome<Attribute>) {
    match o
    case Done(v, rest) => 0 <= q < |s| && s[q..] == rest && a == v
    case _ => q == NULL || q == |s|
  }

  /** TiXmlAttribute::Parse, its value. */
  method ParseValueAt(s: string, p: Pointer, name: string) returns (q: Pointer, a: Attribute)
    requires 0 <= p < |s|
    ensures YieldsAttribute(s, q, a, ParseValue(name, s[p..]))
  {
    var value;
    ghost var t := s[p..];
    if s[p] == '\'' || s[p] == '\"' {
      assert t[1..] == s[p + 1..];
      q, value := ReadTextKept(s, p + 1, s[p]);
    } else {
      q, value := ReadUnquoted(s, p);
    }
    a := Attribute(name, value);
  }

  /** TiXmlAttribute::Parse, from the equals sign on. */
  lemma SignedBehind(s: string, p: nat, name: string)
    requires p < |s| && s[p] == '='
    ensures ParseSigned(name, s[p..]) == ParseValue(name, Skip(s[p + 1..]))
  {
    assert s[p..][1..] == s[p + 1..];
  }

  method ParseSignedAt(s: string, p: Pointer, name: string) returns (q: Pointer, a: Attribute)
    requires Points(s, p)
    ensures YieldsAttribute(s, q, a, ParseSigned(name, Rest(s, p)))
  {
    a := Attribute(name, "");
    if p == NULL || p == |s| || s[p] != '=' {
      return NULL, a;
    }
    q := SkipWhiteSpace(s, p + 1);
    SignedBehind(s, p, name);
    if q != NULL && q < |s| {
      q, a := ParseValueAt(s, q, name);
    }
  }

  /** TiXmlAttribute::Parse */
  method ParseAttributeAt(s: string, p: Pointer) returns (q: Pointer, a: Attribute)
    requires Points(s, p)
    ensures YieldsAttribute(s, q, a, ParseAttribute(Rest(s, p)))
  {
    a := Attribute("", "");
    q := SkipWhiteSpace(s, p);
    if q == NULL || q == |s| {
      return NULL, a;
    }
    var name;
    q, name := ReadNameAt(s, q);
    if q == NULL || q == |s| {
      return NULL, a;
    }
    q := SkipWhiteSpace(s, q);
    q, a := ParseSignedAt(s, q, name);
  }

  /** TiXmlAttributeSet::Find */
  method Find(attributes: seq<Attribute>, name: string) returns (found: bool)
    ensures found <==> HasName(attributes, name)
  {
    for i := 0 to |attributes|
      invariant forall k :: 0 <= k < i ==> attributes[k].name != name
    {
      if attributes[i].name == name {
        return true;
      }
    }
    found := false;
  }

  /** TiXmlText::Blank */
  method IsBlank(value: string) returns (b: bool)
    ensures b <==> Blank(value)
  {
    for i := 0 to |value|
      invariant forall k :: 0 <= k < i ==> IsSpace(value[k])
    {
      if !IsSpace(value[i]) {
        return false;
      }
    }
    b := true;
  }

  // ---------- elements ----------

  /** TiXmlElement::Parse; other is set at a construct this model leaves out. */
  method ParseElementAt(s: string, p: Pointer) returns (q: Pointer, node: Node, other: bool)
    requires Points(s, p)
    ensures Yields(s, q, node, other, ParseElement(Rest(s, p)))
    decreases |Rest(s, p)|, 0
  {
    node, other := Text(""), false;
    q := SkipWhiteSpace(s, p);
    if q == NULL || q == |s| || s[q] != '<' {
      return NULL, node, other;
    }
    assert s[q..][1..] == s[q + 1..];
    q, node, other := ParseTagAt(s, q + 1);
  }

  /** TiXmlElement::Parse, from the name on. */
  method ParseTagAt(s: string, p: Pointer) returns (q: Pointer, node: Node, other: bool)
    requires 0 <= p <= |s|
    ensures Yields(s, q, node, other, ParseTag(s[p..]))
    decreases |s| - p, 0
  {
    node, other := Text(""), false;
    q := SkipWhiteSpace(s, p);
    var name;
    q, name := ReadNameAt(s, q);
    if q == NULL || q == |s| {
      return NULL, node, other;
    }
    q, node, other := ParseOpenedAt(s, q, name);
  }

  lemma Closes(name: string, attributes: seq<Attribute>, t: string, kids: seq<Node>, end: string)
    requires Skip(t) != [] && Skip(t)[0] == '>' && ParseKids([], Skip(t)[1..]) == Done(kids, end)
    ensures ParseOpened(name, attributes, t) ==
      if "</" + name <= end then
        var last := Skip(end[2 + |name|..]);
        if last != [] && last[0] == '>' then Done(Element(name, attributes, kids), last[1..]) else Failed
      else Failed
  {
  }

  /** ParseOpened by the first character after white space. */
  lemma OpenedMoves(name: string, attributes: seq<Attribute>, t: string)
    ensures Skip(t) == [] ==> ParseOpened(name, attributes, t) == Failed
    ensures Skip(t) != [] && Skip(t)[0] == '/' ==>
      (ParseOpened(name, attributes, t) ==
        if |Skip(t)| > 1 && Skip(t)[1] == '>' then Done(Element(name, attributes, []), Skip(t)[2..]) else Failed)
    ensures Skip(t) != [] && Skip(t)[0] == '>' && ParseKids([], Skip(t)[1..]).Failed? ==>
      ParseOpened(name, attributes, t) == Failed
    ensures Skip(t) != [] && Skip(t)[0] == '>' && ParseKids([], Skip(t)[1..]).Other? ==>
      ParseOpened(name, attributes, t) == Other
  {
  }

  lemma AttributeMoves(name: string, attributes: seq<Attribute>, t: string)
    requires Skip(t) != [] && Skip(t)[0] != '/' && Skip(t)[0] != '>'
    ensures ParseAttribute(Skip(t)).Failed? ==> ParseOpened(name, attributes, t) == Failed
    ensures ParseAttribute(Skip(t)).Done? ==>
      var a := ParseAttribute(Skip(t)).value;
      ParseOpened(name, attributes, t) ==
        if HasName(attributes, a.name) then Failed
        else ParseOpened(name, attributes + [a], ParseAttribute(Skip(t)).rest)
  {
  }

  /** After the '>': the children and the closing tag. */
  method ParseContentAt(s: string, p: Pointer, name: string, attributes: seq<Attribute>, ghost t: string)
    returns (q: Pointer, node: Node, other: bool)
    requires 0 <= p < |s| && s[p] == '>' && Skip(t) == s[p..]
    ensures Yields(s, q, node, other, ParseOpened(name, attributes, t))
    decreases |s| - p, 0
  {
    assert s[p..][1..] == s[p + 1..];
    OpenedMoves(name, attributes, t);
    var kids;
    q, kids, other := ReadValueAt(s, p + 1);
    node := Element(name, attributes, kids);
    if other || q == NULL || q == |s| {
      return NULL, node, other;
    }
    Closes(name, attributes, t, kids, s[q..]);
    q := ParseEndTag(s, q, name);
  }

  /** TiXmlElement::Parse, from the end of the name on. */
  method ParseOpenedAt(s: string, p: Pointer, name: string) returns (q: Pointer, node: Node, other: bool)
    requires 0 <= p < |s|
    ensures Yields(s, q, node, other, ParseOpened(name, [], s[p..]))
    decreases |s| - p, 1
  {
    q, node, other := p, Text(""), false;
    var attributes := [];
    ghost var total := ParseOpened(name, [], s[p..]);
    while q != NULL && q < |s|
      invariant p <= q < |s| && !other
      invariant total == ParseOpened(name, attributes, s[q..])
      decreases |s| - q
    {
      ghost var t := s[q..];
      OpenedMoves(name, attributes, t);
      q := SkipWhiteSpace(s, q);
      if q == NULL || q == |s| {
        return NULL, node, other;
      }
      if s[q] == '/' {
        if q + 1 == |s| || s[q + 1] != '>' {
          return NULL, node, other;
        }
        assert s[q..][2..] == s[q + 2..];
        return q + 2, Element(name, attributes, []), other;
      } else if s[q] == '>' {
        q, node, other := ParseContentAt(s, q, name, attributes, t);
        return;
      } else {
        AttributeMoves(name, attributes, t);
        var a;
        q, a := ParseAttributeAt(s, q);
        if q == NULL || q == |s| {
          return NULL, node, other;
        }
        var twice := Find(attributes, a.name);
        if twice {
          return NULL, node, other;
        }
        attributes := attributes + [a];
      }
    }
  }

  /** The closing tag of an element. */
  method ParseEndTag(s: string, p: Pointer, name: string) returns (q: Pointer)
    requires 0 <= p < |s|
    ensures var end := s[p..];
      if "</" + name <= end && Skip(end[2 + |name|..]) != [] && Skip(end[2 + |name|..])[0] == '>'
      then 0 <= q <= |s| && s[q..] == Skip(end[2 + |name|..])[1..] else q == NULL
  {
    var endTag := "</" + name;
    var matches := StringEqual(s, p, endTag);
    q := NULL;
    if matches {
      assert s[p..][|endTag|..] == s[p + |endTag|..];
      q := SkipWhiteSpace(s, p + |endTag|);
      if q != NULL && q < |s| && s[q] == '>' {
        assert s[q..][1..] == s[q + 1..];
        return q + 1;
      }
      q := NULL;
    }
  }

  /** Children end before a closing tag; at the end of the text the caller fails. */
  ghost predicate YieldsKids(s: string, q: Pointer, kids: seq<Node>, other: bool, o: Outcome<seq<Node>>) {
    match o
    case Done(v, rest) => !other && 0 <= q < |s| && s[q..] == rest && kids == v
    case Failed => !other && (q == NULL || q == |s|)
    case Other => other
  }

  /** ParseKids by the first character after white space. */
  lemma KidsMove(kids: seq<Node>, t: string)
    requires t != [] && Skip(t) == t
    ensures t[0] != '<' && ReadCondensed(t, false).Null? ==> ParseKids(kids, t) == Failed
    ensures t[0] != '<' && ReadCondensed(t, false).Read? ==>
      ParseKids(kids, t) == ParseKids(
        if Blank(ReadCondensed(t, false).out) then kids else kids + [Text(ReadCondensed(t, false).out)],
        ReadCondensed(t, false).rest)
    ensures t[0] == '<' && "</" <= t ==> ParseKids(kids, t) == Done(kids, t)
    ensures t[0] == '<' && !("</" <= t) && !IsElement(t) ==> ParseKids(kids, t) == Other
    ensures t[0] == '<' && !("</" <= t) && IsElement(t) ==>
      (ParseElement(t).Done? ==>
        ParseKids(kids, t) == ParseKids(kids + [ParseElement(t).value], ParseElement(t).rest))
      && (ParseElement(t).Failed? ==> ParseKids(kids, t) == Failed)
      && (ParseElement(t).Other? ==> ParseKids(kids, t) == Other)
  {
  }

  lemma KidsSkip(kids: seq<Node>, t: string)
    ensures ParseKids(kids, Skip(t)) == ParseKids(kids, t) && Skip(Skip(t)) == Skip(t)
    ensures Skip(t) == [] ==> ParseKids(kids, t) == Failed
  {
  }

  /** ReadValue's text, unless it is blank. */
  method ReadTextKid(s: string, p: Pointer, kids0: seq<Node>) returns (q: Pointer, kids: seq<Node>)
    requires 0 <= p < |s| && Skip(s[p..]) == s[p..] && s[p] != '<'
    ensures Points(s, q) && (q != NULL ==> p < q)
    ensures ParseKids(kids0, s[p..]) == if q == NULL then Failed else ParseKids(kids, s[q..])
  {
    kids := kids0;
    KidsMove(kids, s[p..]);
    var value;
    q, value := ReadTextCondensed(s, p);
    if q != NULL {
      q := q - 1;
      var blank := IsBlank(value);
      if !blank {
        kids := kids + [Text(value)];
      }
    }
  }

  /** The body of ReadValue's loop, when it does not return. */
  method ReadKid(s: string, p: Pointer, kids0: seq<Node>) returns (q: Pointer, kids: seq<Node>, other: bool)
    requires 0 <= p < |s| && Skip(s[p..]) == s[p..] && !("</" <= s[p..])
    ensures Points(s, q) && (!other && q != NULL ==> p < q)
    ensures other ==> ParseKids(kids0, s[p..]) == Other
    ensures !other ==> ParseKids(kids0, s[p..]) == if q == NULL then Failed else ParseKids(kids, s[q..])
    decreases |s| - p, 1
  {
    kids, other := kids0, false;
    if s[p] != '<' {
      q, kids := ReadTextKid(s, p, kids0);
      return;
    }
    KidsMove(kids, s[p..]);
    if p + 1 == |s| || !StartsName(s[p + 1]) {
      return NULL, kids, true;
    }
    var node;
    q, node, other := ParseElementAt(s, p);
    if other {
      q := NULL;
    } else {
      kids := kids + [node];
    }
  }

  /** TiXmlElement::ReadValue */
  method ReadValueAt(s: string, p: Pointer) returns (q: Pointer, kids: seq<Node>, other: bool)
    requires 0 <= p <= |s|
    ensures YieldsKids(s, q, kids, other, ParseKids([], s[p..]))
    decreases |s| - p, 2
  {
    kids, other := [], false;
    ghost var total := ParseKids([], s[p..]);
    q := SkipWhiteSpace(s, p);
    KidsSkip([], s[p..]);
    while q != NULL && q < |s|
      invariant Points(s, q) && (q != NULL ==> p <= q) && !other
      invariant Skip(Rest(s, q)) == Rest(s, q)
      invariant total == if Rest(s, q) == "" then Failed else ParseKids(kids, Rest(s, q))
      decreases if q == NULL then 0 else 1 + |s| - q
    {
      if s[q] == '<' {
        var closing := StringEqual(s, q, "</");
        if closing {
          KidsMove(kids, s[q..]);
          return q, kids, other;
        }
      }
      q, kids, other := ReadKid(s, q, kids);
      if other {
        return NULL, kids, other;
      }
      KidsSkip(kids, Rest(s, q));
      q := SkipWhiteSpace(s, q);
    }
  }

  // ---------- documents ----------

  lemma NodesMove(nodes: seq<Node>, t: string)
    requires t != [] && Skip(t) == t && t[0] == '<'
    ensures !IsElement(t) ==> ParseNodes(nodes, t) == Other
    ensures IsElement(t) && ParseElement(t).Done? ==>
      ParseNodes(nodes, t) == ParseNodes(nodes + [ParseElement(t).value], ParseElement(t).rest)
    ensures IsElement(t) && ParseElement(t).Failed? ==> ParseNodes(nodes, t) == Failed
    ensures IsElement(t) && ParseElement(t).Other? ==> ParseNodes(nodes, t) == Other
  {
  }

  lemma NodesSkip(nodes: seq<Node>, t: string)
    ensures ParseNodes(nodes, Skip(t)) == ParseNodes(nodes, t) && Skip(Skip(t)) == Skip(t)
    ensures Skip(t) == [] || Skip(t)[0] != '<' ==>
      ParseNodes(nodes, t) == if nodes == [] then Failed else Done(nodes, Skip(t))
  {
  }

  /** TiXmlDocument::Parse in the legacy encoding; error says whether one has been set. */
  method ParseDocumentAt(s: string) returns (error: bool, nodes: seq<Node>, other: bool)
    ensures other <==> ParseDocument(s).Other?
    ensures !other ==> (error <==> ParseDocument(s).Failed?)
    ensures !other && !error ==> ParseDocument(s).Done? && nodes == ParseDocument(s).value
  {
    error, nodes, other := false, [], false;
    ghost var total := ParseDocument(s);
    NodesSkip([], s);
    if |s| == 0 {
      return true, nodes, other;
    }
    assert s[0..] == s;
    var p := SkipWhiteSpace(s, 0);
    while p != NULL && p < |s|
      invariant Points(s, p) && !other
      invariant Skip(Rest(s, p)) == Rest(s, p)
      invariant total == if error then Failed else ParseNodes(nodes, Rest(s, p))
      invariant error ==> p == NULL
      decreases if p == NULL then 0 else 1 + |s| - p
    {
      if s[p] != '<' {
        break;
      }
      NodesMove(nodes, s[p..]);
      if p + 1 == |s| || !StartsName(s[p + 1]) {
        return error, nodes, true;
      }
      var node;
      p, node, other := ParseElementAt(s, p);
      if other {
        return error, nodes, other;
      }
      if p == NULL {
        error := true;
      } else {
        nodes := nodes + [node];
      }
      NodesSkip(nodes, Rest(s, p));
      p := SkipWhiteSpace(s, p);
    }
    NodesSkip(nodes, Rest(s, p));
    if !error && nodes == [] {
      error := true;
    }
  }
}
