/** The intrusive sibling lists of TinyXML's nodes. */
module DomList {

  datatype NodeType = Document | Element | Comment | Unknown | Text | Declaration

  /** The links a child holds. */
  datatype Links = Links(parent: TiXmlNode?, prev: TiXmlNode?, next: TiXmlNode?)

  /** The node at place i, null off the ends. */
  function At(kids: seq<TiXmlNode>, i: int): TiXmlNode? {
    if 0 <= i < |kids| then kids[i] else null
  }

  /** Child i points to its neighbours and to its parent. */
  ghost predicate Placed(owner: TiXmlNode, kids: seq<TiXmlNode>, links: seq<Links>, i: int)
    requires |links| == |kids| && 0 <= i < |kids|
  {
    links[i] == Links(owner, At(kids, i - 1), At(kids, i + 1))
  }

  ghost predicate Distinct(owner: TiXmlNode, kids: seq<TiXmlNode>) {
    owner !in kids && forall i, j :: 0 <= i < j < |kids| ==> kids[i] != kids[j]
  }

  /** The ends and the links describe kids, in which no node occurs twice. */
  ghost predicate Shape(owner: TiXmlNode, kids: seq<TiXmlNode>, links: seq<Links>, first: TiXmlNode?, last: TiXmlNode?)
    requires |links| == |kids|
  {
    first == At(kids, 0) && last == At(kids, |kids| - 1) && Distinct(owner, kids)
    && forall i {:trigger Placed(owner, kids, links, i)} :: 0 <= i < |kids| ==> Placed(owner, kids, links, i)
  }

  function Inserted<T>(s: seq<T>, at: nat, x: T): (r: seq<T>)
    requires at <= |s|
    ensures |r| == |s| + 1 && r[at] == x
    ensures forall i :: 0 <= i < at ==> r[i] == s[i]
    ensures forall i :: at < i < |r| ==> r[i] == s[i - 1]
  {
    s[..at] + [x] + s[at..]
  }

  function Removed<T>(s: seq<T>, at: nat): (r: seq<T>)
    requires at < |s|
    ensures |r| == |s| - 1
    ensures forall i :: 0 <= i < at ==> r[i] == s[i]
    ensures forall i :: at <= i < |r| ==> r[i] == s[i + 1]
  {
    s[..at] + s[at + 1..]
  }

  /** The links after child i, if there is one, has been given another successor. */
  function TurnNext(links: seq<Links>, i: int, node: TiXmlNode?): (r: seq<Links>)
    ensures |r| == |links|
  {
    if 0 <= i < |links| then links[i := links[i].(next := node)] else links
  }

  function TurnPrev(links: seq<Links>, i: int, node: TiXmlNode?): (r: seq<Links>)
    ensures |r| == |links|
  {
    if 0 <= i < |links| then links[i := links[i].(prev := node)] else links
  }

  /** A node put between place at - 1 and place at. */
  lemma InsertedShape(owner: TiXmlNode, kids: seq<TiXmlNode>, links: seq<Links>, first: TiXmlNode?, last: TiXmlNode?,
      at: nat, node: TiXmlNode)
    requires |links| == |kids| && Shape(owner, kids, links, first, last) && at <= |kids| && node != owner && node !in kids
    ensures Shape(owner, Inserted(kids, at, node),
      Inserted(TurnPrev(TurnNext(links, at - 1, node), at, node), at, Links(owner, At(kids, at - 1), At(kids, at))),
      if at == 0 then node else first, if at == |kids| then node else last)
  {
    var now := Inserted(kids, at, node);
    var turned := TurnPrev(TurnNext(links, at - 1, node), at, node);
    var later := Inserted(turned, at, Links(owner, At(kids, at - 1), At(kids, at)));
    forall i | 0 <= i < |now| ensures Placed(owner, now, later, i) {
      if i < at {
        assert Placed(owner, kids, links, i);
      } else if i > at {
        assert Placed(owner, kids, links, i - 1);
      }
    }
  }

  /** A node put in the place of another. */
  lemma ReplacedShape(owner: TiXmlNode, kids: seq<TiXmlNode>, links: seq<Links>, first: TiXmlNode?, last: TiXmlNode?,
      at: nat, node: TiXmlNode)
    requires |links| == |kids| && Shape(owner, kids, links, first, last) && at < |kids| && node != owner && node !in kids
    ensures Shape(owner, kids[at := node],
      TurnPrev(TurnNext(links, at - 1, node), at + 1, node)[at := Links(owner, At(kids, at - 1), At(kids, at + 1))],
      if at == 0 then node else first, if at == |kids| - 1 then node else last)
  {
    var now := kids[at := node];
    var later := TurnPrev(TurnNext(links, at - 1, node), at + 1, node)[at := Links(owner, At(kids, at - 1), At(kids, at + 1))];
    forall i | 0 <= i < |now| ensures Placed(owner, now, later, i) {
      assert Placed(owner, kids, links, i);
    }
  }

  /** A node taken out. */
  lemma RemovedShape(owner: TiXmlNode, kids: seq<TiXmlNode>, links: seq<Links>, first: TiXmlNode?, last: TiXmlNode?,
      at: nat)
    requires |links| == |kids| && Shape(owner, kids, links, first, last) && at < |kids|
    ensures Shape(owner, Removed(kids, at),
      Removed(TurnPrev(TurnNext(links, at - 1, At(kids, at + 1)), at + 1, At(kids, at - 1)), at),
      if at == 0 then At(kids, 1) else first, if at == |kids| - 1 then At(kids, at - 1) else last)
  {
    var now := Removed(kids, at);
    var later := Removed(TurnPrev(TurnNext(links, at - 1, At(kids, at + 1)), at + 1, At(kids, at - 1)), at);
    forall i | 0 <= i < |now| ensures Placed(owner, now, later, i) {
      assert Placed(owner, kids, links, if i < at then i else i + 1);
    }
  }

  class TiXmlNode {
    const nodeType: NodeType
    var value: string
    var parent: TiXmlNode?
    var firstChild: TiXmlNode?
    var lastChild: TiXmlNode?
    var prev: TiXmlNode?
    var next: TiXmlNode?
    /** The children, in order. */
    ghost var kids: seq<TiXmlNode>

    constructor (nodeType0: NodeType, value0: string)
      ensures nodeType == nodeType0 && value == value0 && kids == [] && Linked()
      ensures parent == prev == next == null
    {
      nodeType, value := nodeType0, value0;
      parent, firstChild, lastChild, prev, next := null, null, null, null, null;
      kids := [];
    }

    /** The links of the children as they are. */
    ghost function Snapshot(): (links: seq<Links>)
      reads this, kids
      ensures |links| == |kids|
    {
      seq(|kids|, i requires 0 <= i < |kids| reads this, kids => kids[i].MyLinks())
    }

    ghost function MyLinks(): Links
      reads this
    {
      Links(parent, prev, next)
    }

    /** firstChild, lastChild and the links of the children describe kids. */
    ghost predicate Linked()
      reads this, kids
    {
      Shape(this, kids, Snapshot(), firstChild, lastChild)
    }

    /** Going forward and going back undo each other, and the ends have nothing beyond them. */
    lemma LinksInverse(i: nat)
      requires Linked() && i < |kids|
      ensures kids[i].parent == this
      ensures kids[i].next != null ==> kids[i].next.prev == kids[i]
      ensures kids[i].prev != null ==> kids[i].prev.next == kids[i]
      ensures kids[i].next == null <==> kids[i] == lastChild
      ensures kids[i].prev == null <==> kids[i] == firstChild
    {
      var links := Snapshot();
      assert Placed(this, kids, links, i) && links[i] == kids[i].MyLinks();
      if i + 1 < |kids| {
        assert Placed(this, kids, links, i + 1) && links[i + 1] == kids[i + 1].MyLinks();
      }
      if i > 0 {
        assert Placed(this, kids, links, i - 1) && links[i - 1] == kids[i - 1].MyLinks();
      }
    }

    // ---------- changing the list ----------

    /** x.next := node, for the child x at place i. */
    method SetNext(x: TiXmlNode, node: TiXmlNode?, ghost i: nat)
      requires Distinct(this, kids) && i < |kids| && kids[i] == x
      modifies x`next
      ensures x.next == node && Snapshot() == TurnNext(old(Snapshot()), i, node)
    {
      x.next := node;
    }

    method SetPrev(x: TiXmlNode, node: TiXmlNode?, ghost i: nat)
      requires Distinct(this, kids) && i < |kids| && kids[i] == x
      modifies x`prev
      ensures x.prev == node && Snapshot() == TurnPrev(old(Snapshot()), i, node)
    {
      x.prev := node;
    }

    /** The node after place i - 1, or lastChild if there is none, is told of node. */
    method TurnBack(after: TiXmlNode?, node: TiXmlNode?, ghost i: nat)
      requires Distinct(this, kids) && i <= |kids| && after == At(kids, i)
      modifies `lastChild, (if after == null then {} else {after})`prev
      ensures Snapshot() == TurnPrev(old(Snapshot()), i, node)
      ensures lastChild == if i == |kids| then node else old(lastChild)
    {
      if after != null {
        SetPrev(after, node, i);
      } else {
        lastChild := node;
        assert Snapshot() == old(Snapshot());
      }
    }

    /** The node at place i, or firstChild if i is -1, is told of node. */
    method TurnForth(before: TiXmlNode?, node: TiXmlNode?, ghost i: int)
      requires Distinct(this, kids) && -1 <= i < |kids| && before == At(kids, i)
      modifies `firstChild, (if before == null then {} else {before})`next
      ensures Snapshot() == TurnNext(old(Snapshot()), i, node)
      ensures firstChild == if i == -1 then node else old(firstChild)
    {
      if before != null {
        SetNext(before, node, i);
      } else {
        firstChild := node;
        assert Snapshot() == old(Snapshot());
      }
    }

    /** kids takes a node in; its links come with it. */
    ghost method TakeIn(node: TiXmlNode, at: nat, turned: seq<Links>)
      requires at <= |kids| && Snapshot() == turned
      modifies `kids
      ensures kids == Inserted(old(kids), at, node) && Snapshot() == Inserted(turned, at, node.MyLinks())
    {
      kids := Inserted(kids, at, node);
    }

    ghost method PutIn(node: TiXmlNode, at: nat, turned: seq<Links>)
      requires at < |kids| && Snapshot() == turned
      modifies `kids
      ensures kids == old(kids)[at := node] && Snapshot() == turned[at := node.MyLinks()]
    {
      kids := kids[at := node];
    }

    ghost method TakeOut(at: nat, turned: seq<Links>)
      requires at < |kids| && Snapshot() == turned
      modifies `kids
      ensures kids == Removed(old(kids), at) && Snapshot() == Removed(turned, at)
    {
      kids := Removed(kids, at);
    }

    /** Puts node in front of child at. */
    method LinkBefore(beforeThis: TiXmlNode, node: TiXmlNode, ghost at: nat)
      requires Linked() && node != this && node !in kids && at < |kids| && kids[at] == beforeThis
      modifies `firstChild, `kids, kids`next, kids`prev, node`parent, node`prev, node`next
      ensures Linked() && kids == Inserted(old(kids), at, node)
    {
      ghost var was, links := kids, Snapshot();
      ghost var first, last := firstChild, lastChild;
      assert Placed(this, was, links, at) && links[at] == beforeThis.MyLinks();
      node.parent := this;
      node.next := beforeThis;
      node.prev := beforeThis.prev;
      assert Snapshot() == links && node.MyLinks() == Links(this, At(was, at - 1), At(was, at));
      TurnForth(beforeThis.prev, node, at - 1);
      assert Snapshot() == TurnNext(links, at - 1, node);
      SetPrev(beforeThis, node, at);
      TakeIn(node, at, TurnPrev(TurnNext(links, at - 1, node), at, node));
      assert firstChild == if at == 0 then node else was[0];
      InsertedShape(this, was, links, first, last, at, node);
    }

    /** Puts node behind child at. */
    method LinkAfter(afterThis: TiXmlNode, node: TiXmlNode, ghost at: nat)
      requires Linked() && node != this && node !in kids && at < |kids| && kids[at] == afterThis
      modifies `lastChild, `kids, kids`next, kids`prev, node`parent, node`prev, node`next
      ensures Linked() && kids == Inserted(old(kids), at + 1, node)
    {
      ghost var was, links, to := kids, Snapshot(), at + 1;
      ghost var first, last := firstChild, lastChild;
      assert Placed(this, was, links, at) && links[at] == afterThis.MyLinks();
      assert At(was, to - 1) == afterThis;
      node.parent := this;
      node.prev := afterThis;
      node.next := afterThis.next;
      assert Snapshot() == links && node.MyLinks() == Links(this, At(was, to - 1), At(was, to));
      ghost var turned := TurnPrev(TurnNext(links, to - 1, node), to, node);
      TurnBack(afterThis.next, node, to);
      assert Snapshot() == TurnPrev(links, to, node);
      SetNext(afterThis, node, at);
      assert Snapshot() == turned;
      TakeIn(node, to, turned);
      assert lastChild == if to == |was| then node else was[|was| - 1];
      InsertedShape(this, was, links, first, last, to, node);
    }

    /** Puts node in the place of child at. */
    method LinkInstead(replaceThis: TiXmlNode, node: TiXmlNode, ghost at: nat)
      requires Linked() && node != this && node !in kids && at < |kids| && kids[at] == replaceThis
      modifies `firstChild, `lastChild, `kids, kids`next, kids`prev, node`parent, node`prev, node`next
      ensures Linked() && kids == old(kids)[at := node]
    {
      ghost var was, links := kids, Snapshot();
      ghost var first, last := firstChild, lastChild;
      assert Placed(this, was, links, at) && links[at] == replaceThis.MyLinks();
      node.next := replaceThis.next;
      node.prev := replaceThis.prev;
      assert Snapshot() == links && node.next == At(was, at + 1) && node.prev == At(was, at - 1);
      TurnBack(replaceThis.next, node, at + 1);
      TurnForth(replaceThis.prev, node, at - 1);
      ghost var turned := TurnPrev(TurnNext(links, at - 1, node), at + 1, node);
      assert Snapshot() == turned;
      node.parent := this;
      assert node.MyLinks() == Links(this, At(was, at - 1), At(was, at + 1));
      PutIn(node, at, turned);
      ReplacedShape(this, was, links, first, last, at, node);
    }

    /** Takes child at out. */
    method Unlink(removeThis: TiXmlNode, ghost at: nat)
      requires Linked() && at < |kids| && kids[at] == removeThis
      modifies `firstChild, `lastChild, `kids, kids`next, kids`prev
      ensures Linked() && kids == Removed(old(kids), at)
    {
      ghost var was, links := kids, Snapshot();
      ghost var first, last := firstChild, lastChild;
      assert Placed(this, was, links, at) && links[at] == removeThis.MyLinks();
      TurnBack(removeThis.next, removeThis.prev, at + 1);
      assert removeThis.prev == At(was, at - 1) && removeThis.next == At(was, at + 1);
      TurnForth(removeThis.prev, removeThis.next, at - 1);
      ghost var turned := TurnPrev(TurnNext(links, at - 1, At(was, at + 1)), at + 1, At(was, at - 1));
      assert Snapshot() == turned;
      TakeOut(at, turned);
      assert firstChild == if at == 0 then At(was, 1) else was[0];
      assert lastChild == if at + 1 == |was| then At(was, at - 1) else was[|was| - 1];
      RemovedShape(this, was, links, first, last, at);
    }

    /** topOnly says that a document was refused as a child. */
    method LinkEndChild(node: TiXmlNode) returns (r: TiXmlNode?, topOnly: bool)
      requires Linked() && node != this && node !in kids
      modifies `firstChild, `lastChild, `kids, node`parent, node`prev, node`next, kids`next
      ensures Linked() && topOnly == (node.nodeType == Document)
      ensures topOnly ==> r == null && kids == old(kids)
      ensures !topOnly ==> r == node && kids == old(kids) + [node]
    {
      r, topOnly := null, node.nodeType == Document;
      if topOnly {
        return;
      }
      ghost var was, links := kids, Snapshot();
      InsertedShape(this, was, links, firstChild, lastChild, |was|, node);
      node.parent := this;
      node.prev := lastChild;
      node.next := null;
      assert Snapshot() == links;
      if lastChild != null {
        SetNext(lastChild, node, |was| - 1);
      } else {
        firstChild := node;
      }
      ghost var turned := TurnNext(links, |was| - 1, node);
      assert Snapshot() == turned == TurnPrev(turned, |was|, node);
      lastChild := node;
      TakeIn(node, |was|, turned);
      r := node;
    }

    /** What the code checks of a child it is given. */
    predicate Mine(child: TiXmlNode?)
      reads child
    {
      child != null && child.parent == this
    }

    /** A node whose parent is this one is among its children, at place at. */
    ghost predicate IsChild(child: TiXmlNode?, at: nat)
      reads this, child
    {
      Mine(child) ==> at < |kids| && kids[at] == child
    }

    /** node is the clone of what is added, whose type is addType; topOnly says that a document was refused. */
    method InsertBeforeChild(beforeThis: TiXmlNode?, addType: NodeType, node: TiXmlNode, ghost at: nat)
      returns (r: TiXmlNode?, topOnly: bool)
      requires Linked() && node != this && node !in kids && IsChild(beforeThis, at)
      modifies `firstChild, `kids, kids`next, kids`prev, node`parent, node`prev, node`next
      ensures Linked() && topOnly == (old(Mine(beforeThis)) && addType == Document)
      ensures r == if old(Mine(beforeThis)) && addType != Document then node else null
      ensures kids == if r != null then Inserted(old(kids), at, node) else old(kids)
    {
      r, topOnly := null, false;
      if beforeThis == null || beforeThis.parent != this {
        return;
      }
      if addType == Document {
        topOnly := true;
        return;
      }
      LinkBefore(beforeThis, node, at);
      r := node;
    }

    method InsertAfterChild(afterThis: TiXmlNode?, addType: NodeType, node: TiXmlNode, ghost at: nat)
      returns (r: TiXmlNode?, topOnly: bool)
      requires Linked() && node != this && node !in kids && IsChild(afterThis, at)
      modifies `lastChild, `kids, kids`next, kids`prev, node`parent, node`prev, node`next
      ensures Linked() && topOnly == (old(Mine(afterThis)) && addType == Document)
      ensures r == if old(Mine(afterThis)) && addType != Document then node else null
      ensures kids == if r != null then Inserted(old(kids), at + 1, node) else old(kids)
    {
      r, topOnly := null, false;
      if afterThis == null || afterThis.parent != this {
        return;
      }
      if addType == Document {
        topOnly := true;
        return;
      }
      LinkAfter(afterThis, node, at);
      r := node;
    }

    method ReplaceChild(replaceThis: TiXmlNode?, withType: NodeType, node: TiXmlNode, ghost at: nat)
      returns (r: TiXmlNode?, topOnly: bool)
      requires Linked() && node != this && node !in kids && IsChild(replaceThis, at)
      modifies `firstChild, `lastChild, `kids, kids`next, kids`prev, node`parent, node`prev, node`next
      ensures Linked() && topOnly == (old(Mine(replaceThis)) && withType == Document)
      ensures r == if old(Mine(replaceThis)) && withType != Document then node else null
      ensures kids == if r != null then old(kids)[at := node] else old(kids)
    {
      r, topOnly := null, false;
      if replaceThis == null || replaceThis.parent != this {
        return;
      }
      if withType == Document {
        topOnly := true;
        return;
      }
      LinkInstead(replaceThis, node, at);
      r := node;
    }

    method RemoveChild(removeThis: TiXmlNode?, ghost at: nat) returns (removed: bool)
      requires Linked() && IsChild(removeThis, at)
      modifies `firstChild, `lastChild, `kids, kids`next, kids`prev
      ensures Linked() && removed == old(Mine(removeThis))
      ensures kids == if removed then Removed(old(kids), at) else old(kids)
    {
      removed := false;
      if removeThis == null || removeThis.parent != this {
        return;
      }
      Unlink(removeThis, at);
      removed := true;
    }

    // ---------- walking the list ----------

    /** The first child with a value, by the next links. */
    method FirstChildNamed(name: string) returns (r: TiXmlNode?, ghost i: nat)
      requires Linked()
      ensures i <= |kids| && r == At(kids, i) && (r != null ==> r.value == name)
      ensures forall j :: 0 <= j < i ==> kids[j].value != name
    {
      r, i := firstChild, 0;
      while r != null
        invariant 0 <= i <= |kids| && r == At(kids, i)
        invariant forall j :: 0 <= j < i ==> kids[j].value != name
        decreases |kids| - i
      {
        if r.value == name {
          return;
        }
        assert Placed(this, kids, Snapshot(), i) && Snapshot()[i] == r.MyLinks();
        r := r.next;
        i := i + 1;
      }
    }

    /** The last child with a value, by the prev links. */
    method LastChildNamed(name: string) returns (r: TiXmlNode?, ghost i: int)
      requires Linked()
      ensures -1 <= i < |kids| && r == At(kids, i) && (r != null ==> r.value == name)
      ensures forall j :: i < j < |kids| ==> kids[j].value != name
    {
      r, i := lastChild, |kids| - 1;
      while r != null
        invariant -1 <= i < |kids| && r == At(kids, i)
        invariant forall j :: i < j < |kids| ==> kids[j].value != name
        decreases i + 1
      {
        if r.value == name {
          return;
        }
        assert Placed(this, kids, Snapshot(), i) && Snapshot()[i] == r.MyLinks();
        r := r.prev;
        i := i - 1;
      }
    }
  }
}
