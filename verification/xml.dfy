/**
 * The part of LINQ to XML the client uses, on an abstract element tree:
 * namespace-qualified names, `Descendants` in document order, `Element` and
 * `Elements` lookups among the children, and `Value`. Parsing and
 * serialisation belong to the XML library and are not modelled; what the
 * library's parser returns is the `Parsed` value below.
 */
module Xml {
  import opened Wrappers

  /** An `XName`: namespace URI and local name. */
  datatype Name = Name(ns: string, local: string)

  datatype Attribute = Attribute(name: Name, value: string)

  /** An element with its attributes and child nodes, or a run of character data. */
  datatype Node =
    | Element(name: Name, attrs: seq<Attribute>, children: seq<Node>)
    | Text(text: string)

  /** What the XML library makes of a document: its root element, or the
      message of the exception it throws. */
  datatype Parsed = Parsed(root: Node) | Malformed(message: string)

  predicate IsNamed(n: Node, name: Name)
  {
    n.Element? && n.name == name
  }

  predicate HasLocalName(n: Node, local: string)
  {
    n.Element? && n.name.local == local
  }

  /** The elements of a forest in document order (pre-order). The document's
      `Descendants()` is `Descendants([root])`: it includes the root. */
  function Descendants(ns: seq<Node>): (r: seq<Node>)
    ensures forall i :: 0 <= i < |r| ==> r[i].Element?
  {
    if ns == [] then []
    else match ns[0]
      case Text(_) => Descendants(ns[1..])
      case Element(_, _, cs) => [ns[0]] + Descendants(cs) + Descendants(ns[1..])
  }

  lemma {:induction false} DescendantsAppend(a: seq<Node>, b: seq<Node>)
    ensures Descendants(a + b) == Descendants(a) + Descendants(b)
  {
    if a == [] {
      assert a + b == b;
    } else {
      assert (a + b)[0] == a[0] && (a + b)[1..] == a[1..] + b;
      DescendantsAppend(a[1..], b);
    }
  }

  /** The descendants of one element: itself, then those of its children. */
  lemma DescendantsOfElement(x: Node)
    requires x.Element?
    ensures Descendants([x]) == [x] + Descendants(x.children)
  {
    assert [x][1..] == [];
  }

  /** Every descendant of a forest lies under one of its trees. */
  lemma {:induction false} DescendantsOwner(xs: seq<Node>, e: Node)
    requires e in Descendants(xs)
    ensures exists x :: x in xs && e in Descendants([x])
  {
    assert xs != [];
    assert xs == [xs[0]] + xs[1..];
    DescendantsAppend([xs[0]], xs[1..]);
    if e !in Descendants([xs[0]]) {
      DescendantsOwner(xs[1..], e);
      var x :| x in xs[1..] && e in Descendants([x]);
      assert x in xs;
    }
  }

  /** The descendants of a tree of a forest are descendants of the forest. */
  lemma DescendantsOfMember(ys: seq<Node>, x: Node)
    requires x in ys
    ensures forall e :: e in Descendants([x]) ==> e in Descendants(ys)
  {
    var i :| 0 <= i < |ys| && ys[i] == x;
    assert ys == ys[..i] + [x] + ys[i + 1..];
    DescendantsAppend(ys[..i] + [x], ys[i + 1..]);
    DescendantsAppend(ys[..i], [x]);
  }

  /** The elements of `es` with the given name, in order (`Descendants(name)`
      when `es` is a descendant list). */
  function OnlyNamed(es: seq<Node>, name: Name): (r: seq<Node>)
    ensures |r| <= |es|
    ensures forall i :: 0 <= i < |r| ==> IsNamed(r[i], name)
    ensures forall x :: x in es && IsNamed(x, name) ==> x in r
    ensures forall x :: x in r ==> x in es
  {
    if es == [] then []
    else (if IsNamed(es[0], name) then [es[0]] else []) + OnlyNamed(es[1..], name)
  }

  /** No element of the name is the same as an empty selection. */
  lemma OnlyNamedEmpty(es: seq<Node>, name: Name)
    ensures OnlyNamed(es, name) == [] <==> forall x :: x in es ==> !IsNamed(x, name)
  {
    var r := OnlyNamed(es, name);
    if r != [] {
      assert r[0] in es && IsNamed(r[0], name);
    }
  }

  lemma {:induction false} OnlyNamedAppend(a: seq<Node>, b: seq<Node>, name: Name)
    ensures OnlyNamed(a + b, name) == OnlyNamed(a, name) + OnlyNamed(b, name)
  {
    if a == [] {
      assert a + b == b;
    } else {
      assert (a + b)[0] == a[0] && (a + b)[1..] == a[1..] + b;
      OnlyNamedAppend(a[1..], b, name);
    }
  }

  /** Index of the first node of `cs` that is an element with the given name, or |cs|. */
  function FirstNamed(cs: seq<Node>, name: Name): (k: nat)
    ensures k <= |cs|
    ensures k < |cs| ==> IsNamed(cs[k], name)
    ensures forall j :: 0 <= j < k ==> !IsNamed(cs[j], name)
  {
    if cs == [] then 0
    else if IsNamed(cs[0], name) then 0
    else 1 + FirstNamed(cs[1..], name)
  }

  /** `XContainer.Element(name)`: the first child element with that name, or null. */
  function ChildElement(e: Node, name: Name): Option<Node>
    requires e.Element?
  {
    var k := FirstNamed(e.children, name);
    if k < |e.children| then Some(e.children[k]) else None
  }

  /** The child found is a child of that name, and none is found exactly when
      no child has the name. */
  lemma ChildElementFound(e: Node, name: Name)
    requires e.Element?
    ensures var r := ChildElement(e, name);
      && (r.Some? ==> r.value in e.children && IsNamed(r.value, name))
      && (r.None? <==> forall c :: c in e.children ==> !IsNamed(c, name))
  {
    var k := FirstNamed(e.children, name);
    if k == |e.children| {
      forall c | c in e.children ensures !IsNamed(c, name) {
        var j :| 0 <= j < |e.children| && e.children[j] == c;
      }
    }
  }

  /** `XElement.Value`: the text of all descendant text nodes, concatenated in order. */
  function Value(n: Node): string
  {
    match n
    case Text(t) => t
    case Element(_, _, cs) => ValueOfAll(cs)
  }

  function ValueOfAll(ns: seq<Node>): string
  {
    if ns == [] then [] else Value(ns[0]) + ValueOfAll(ns[1..])
  }

  /** An element holding nothing but the text `t` has the value `t`. */
  lemma ValueOfTextElement(name: Name, t: string)
    ensures Value(Element(name, [], [Text(t)])) == t
  {
    assert ValueOfAll([Text(t)]) == t + ValueOfAll([]);
  }

  /** Index of the first element of `es` with the given local name, or |es|. */
  function FirstWithLocalName(es: seq<Node>, local: string): (k: nat)
    ensures k <= |es|
    ensures k < |es| ==> HasLocalName(es[k], local)
    ensures forall j :: 0 <= j < k ==> !HasLocalName(es[j], local)
  {
    if es == [] then 0
    else if HasLocalName(es[0], local) then 0
    else 1 + FirstWithLocalName(es[1..], local)
  }

  /** `doc.Descendants().FirstOrDefault(e => e.Name.LocalName == local)`: the
      first element in document order with that local name, in any namespace. */
  function FindByLocalName(root: Node, local: string): Option<Node>
  {
    var es := Descendants([root]);
    var k := FirstWithLocalName(es, local);
    if k < |es| then Some(es[k]) else None
  }

  /** Nothing is found exactly when no element has the local name; what is
      found is the first element with it, in document order. */
  lemma FindByLocalNameIsFirst(root: Node, local: string)
    ensures var r := FindByLocalName(root, local);
      && (r.None? <==> forall e :: e in Descendants([root]) ==> !HasLocalName(e, local))
      && (r.Some? ==>
            exists k :: 0 <= k < |Descendants([root])| && Descendants([root])[k] == r.value
              && HasLocalName(r.value, local)
              && forall j :: 0 <= j < k ==> !HasLocalName(Descendants([root])[j], local))
  {
    var es := Descendants([root]);
    var k := FirstWithLocalName(es, local);
    if k == |es| {
      forall e | e in es ensures !HasLocalName(e, local) {
        var j :| 0 <= j < |es| && es[j] == e;
      }
    }
  }
}
