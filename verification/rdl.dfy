/**
 * The document rewriter `ReplaceRdlDataSource`: in a report definition, every
 * `DataSource` element in the root element's namespace loses all its
 * `ConnectionProperties` children and its first `DataSourceReference` child,
 * and gains a new last child `DataSourceReference` holding the shared data
 * source path.
 *
 * The source mutates the tree in place, one `DataSource` at a time, in
 * document order. Each step changes only the direct children of one
 * `DataSource` element, so the outcome is the structural rewrite `Rebound`
 * below; `RebindTree` performs the steps in the source's order (a
 * `DataSource` before the ones nested in it) and is proved to compute it.
 */
module Rdl {
  import opened Wrappers
  import opened Xml
  import opened Soap
  import Base64

  function DataSourceName(ns: string): Name { Name(ns, "DataSource") }
  function ConnectionPropertiesName(ns: string): Name { Name(ns, "ConnectionProperties") }
  function ReferenceName(ns: string): Name { Name(ns, "DataSourceReference") }

  /** `new XElement(ns + "DataSourceReference", path)`. */
  function NewReference(ns: string, path: string): (r: Node)
    ensures IsNamed(r, ReferenceName(ns)) && Value(r) == path
  {
    ValueOfTextElement(ReferenceName(ns), path);
    Element(ReferenceName(ns), [], [Text(path)])
  }

  /** `ds.Elements(name).Remove()`: the children without every element of that name. */
  function WithoutAll(cs: seq<Node>, name: Name): (r: seq<Node>)
    ensures |r| <= |cs|
    ensures forall x :: x in r ==> x in cs && !IsNamed(x, name)
    ensures forall x :: x in cs && !IsNamed(x, name) ==> x in r
  {
    if cs == [] then []
    else WithoutAll(cs[..|cs| - 1], name) + (if IsNamed(cs[|cs| - 1], name) then [] else [cs[|cs| - 1]])
  }

  /** `ds.Element(name)?.Remove()`: the children without the first element of that name. */
  function WithoutFirst(cs: seq<Node>, name: Name): (r: seq<Node>)
    ensures forall x :: x in r ==> x in cs
    ensures FirstNamed(cs, name) == |cs| ==> r == cs
    ensures FirstNamed(cs, name) < |cs| ==> |r| == |cs| - 1
    ensures var k := FirstNamed(cs, name);
      k < |cs| ==> r[..k] == cs[..k] && r[k..] == cs[k + 1..]
  {
    var k := FirstNamed(cs, name);
    if k < |cs| then cs[..k] + cs[k + 1..] else cs
  }

  /** The children a `DataSource` keeps. */
  function Kept(cs: seq<Node>, ns: string): seq<Node>
  {
    WithoutFirst(WithoutAll(cs, ConnectionPropertiesName(ns)), ReferenceName(ns))
  }

  /** The rewritten tree. Names, attributes and text are kept everywhere; only
      the children lists of `DataSource` elements change. */
  function Rebound(n: Node, ns: string, path: string): (r: Node)
    ensures n.Text? ==> r == n
    ensures n.Element? ==> r.Element? && r.name == n.name && r.attrs == n.attrs
    ensures n.Element? && n.name != DataSourceName(ns) ==> |r.children| == |n.children|
    decreases n, 1
  {
    match n
    case Text(_) => n
    case Element(name, attrs, cs) =>
      var rs := ReboundAll(cs, ns, path);
      if name == DataSourceName(ns) then Element(name, attrs, Kept(rs, ns) + [NewReference(ns, path)])
      else Element(name, attrs, rs)
  }

  function ReboundAll(cs: seq<Node>, ns: string, path: string): (rs: seq<Node>)
    ensures |rs| == |cs|
    decreases cs, 0
  {
    seq(|cs|, i requires 0 <= i < |cs| => Rebound(cs[i], ns, path))
  }

  /** The rewrite applied to a whole report definition, in the root's namespace. */
  function RebindDocument(root: Node, path: string): Node
  {
    var ns := if root.Element? then root.name.ns else "";
    Rebound(root, ns, path)
  }

  /** A rewritten node has the name it had. */
  lemma NameKept(x: Node, name: Name, ns: string, path: string)
    ensures IsNamed(Rebound(x, ns, path), name) <==> IsNamed(x, name)
  {
  }

  lemma ReboundAllAppend(a: seq<Node>, b: seq<Node>, ns: string, path: string)
    ensures ReboundAll(a + b, ns, path) == ReboundAll(a, ns, path) + ReboundAll(b, ns, path)
  {
  }

  /** Removing every element of a name commutes with the rewrite. */
  lemma {:induction false} WithoutAllCommutes(cs: seq<Node>, name: Name, ns: string, path: string)
    ensures WithoutAll(ReboundAll(cs, ns, path), name) == ReboundAll(WithoutAll(cs, name), ns, path)
  {
    if cs != [] {
      var init, last := cs[..|cs| - 1], cs[|cs| - 1];
      var rs := ReboundAll(cs, ns, path);
      var tail: seq<Node> := if IsNamed(last, name) then [] else [last];
      assert rs[..|rs| - 1] == ReboundAll(init, ns, path);
      assert rs[|rs| - 1] == Rebound(last, ns, path);
      NameKept(last, name, ns, path);
      assert ReboundAll(tail, ns, path) == if IsNamed(rs[|rs| - 1], name) then [] else [rs[|rs| - 1]];
      calc {
        WithoutAll(rs, name);
        WithoutAll(ReboundAll(init, ns, path), name) + ReboundAll(tail, ns, path);
        { WithoutAllCommutes(init, name, ns, path); }
        ReboundAll(WithoutAll(init, name), ns, path) + ReboundAll(tail, ns, path);
        { ReboundAllAppend(WithoutAll(init, name), tail, ns, path); }
        ReboundAll(WithoutAll(init, name) + tail, ns, path);
      }
    }
  }

  /** Removing the first element of a name commutes with the rewrite. */
  lemma WithoutFirstCommutes(cs: seq<Node>, name: Name, ns: string, path: string)
    ensures WithoutFirst(ReboundAll(cs, ns, path), name) == ReboundAll(WithoutFirst(cs, name), ns, path)
  {
    var rs := ReboundAll(cs, ns, path);
    var k, k' := FirstNamed(cs, name), FirstNamed(rs, name);
    forall j | 0 <= j < |cs| ensures IsNamed(rs[j], name) <==> IsNamed(cs[j], name) {
      NameKept(cs[j], name, ns, path);
    }
    assert k == k';
    if k < |cs| {
      ReboundAllAppend(cs[..k], cs[k + 1..], ns, path);
      assert rs[..k] == ReboundAll(cs[..k], ns, path);
      assert rs[k + 1..] == ReboundAll(cs[k + 1..], ns, path);
    }
  }

  lemma KeptCommutes(cs: seq<Node>, ns: string, path: string)
    ensures Kept(ReboundAll(cs, ns, path), ns) == ReboundAll(Kept(cs, ns), ns, path)
  {
    WithoutAllCommutes(cs, ConnectionPropertiesName(ns), ns, path);
    WithoutFirstCommutes(WithoutAll(cs, ConnectionPropertiesName(ns)), ReferenceName(ns), ns, path);
  }

  /** `ds.Elements(name).Remove()` on a list of children. */
  method RemoveAll(cs: seq<Node>, name: Name) returns (r: seq<Node>)
    ensures r == WithoutAll(cs, name)
  {
    r := [];
    var i := 0;
    while i < |cs|
      invariant 0 <= i <= |cs|
      invariant r == WithoutAll(cs[..i], name)
    {
      assert cs[..i + 1][..i] == cs[..i];
      if !IsNamed(cs[i], name) {
        r := r + [cs[i]];
      }
      i := i + 1;
    }
    assert cs[..|cs|] == cs;
  }

  /** `ds.Element(name)?.Remove()` on a list of children. */
  method RemoveFirst(cs: seq<Node>, name: Name) returns (r: seq<Node>)
    ensures r == WithoutFirst(cs, name)
  {
    var j := 0;
    while j < |cs| && !IsNamed(cs[j], name)
      invariant 0 <= j <= |cs|
      invariant forall k :: 0 <= k < j ==> !IsNamed(cs[k], name)
    {
      j := j + 1;
    }
    assert j == FirstNamed(cs, name);
    if j < |cs| {
      r := cs[..j] + cs[j + 1..];
    } else {
      r := cs;
    }
  }

  /** Walks the tree in document order; at each `DataSource` it removes the
      connection properties and the first reference, then goes on with the
      remaining children, then appends the new reference. */
  method RebindTree(n: Node, ns: string, path: string) returns (r: Node)
    ensures r == Rebound(n, ns, path)
    decreases n, 1
  {
    match n
    case Text(_) =>
      r := n;
    case Element(name, attrs, cs) =>
      var isDataSource := name == DataSourceName(ns);
      var children := cs;
      if isDataSource {
        children := RemoveAll(children, ConnectionPropertiesName(ns));
        children := RemoveFirst(children, ReferenceName(ns));
      }
      assert children == if isDataSource then Kept(cs, ns) else cs;
      var out := RebindChildren(children, ns, path, n);
      if isDataSource {
        KeptCommutes(cs, ns, path);
        out := out + [NewReference(ns, path)];
      }
      r := Element(name, attrs, out);
  }

  /** The walk over the remaining children of `parent`, one child after another. */
  method RebindChildren(children: seq<Node>, ns: string, path: string, ghost parent: Node) returns (out: seq<Node>)
    requires parent.Element?
    requires forall x :: x in children ==> x in parent.children
    ensures out == ReboundAll(children, ns, path)
    decreases parent, 0
  {
    out := [];
    var i := 0;
    while i < |children|
      invariant 0 <= i <= |children|
      invariant |out| == i
      invariant forall k :: 0 <= k < i ==> out[k] == Rebound(children[k], ns, path)
    {
      assert children[i] in parent.children;
      var c := RebindTree(children[i], ns, path);
      out := out + [c];
      i := i + 1;
    }
  }

  /** What `ReplaceRdlDataSource` returns: the definition loaded, rewritten in
      the root element's namespace and saved; a definition the library cannot
      load fails with `Error while updating RDL data source: <message>`. */
  function Replaced(w: World, rdl: seq<Base64.byte>, newDataSourcePath: string): (r: Result<seq<Base64.byte>>)
    ensures r.Success? <==> w.load(rdl).Parsed?
    ensures r.Failure? ==> r.error == "Error while updating RDL data source: " + w.load(rdl).message
  {
    match w.load(rdl)
    case Malformed(m) => Failure("Error while updating RDL data source: " + m)
    case Parsed(root) => Success(w.save(RebindDocument(root, newDataSourcePath)))
  }

  /** `ReplaceRdlDataSource`, walking the loaded tree with `RebindTree`. */
  method ReplaceRdlDataSource(w: World, rdl: seq<Base64.byte>, newDataSourcePath: string) returns (r: Result<seq<Base64.byte>>)
    ensures r == Replaced(w, rdl, newDataSourcePath)
  {
    match w.load(rdl)
    case Malformed(m) =>
      r := Failure("Error while updating RDL data source: " + m);
    case Parsed(root) =>
      var ns := if root.Element? then root.name.ns else "";
      var doc := RebindTree(root, ns, newDataSourcePath);
      r := Success(w.save(doc));
  }

  /** Dropping the elements of a name changes nothing when there are none. */
  lemma {:induction false} WithoutAllNoop(cs: seq<Node>, name: Name)
    requires forall x :: x in cs ==> !IsNamed(x, name)
    ensures WithoutAll(cs, name) == cs
  {
    if cs != [] {
      WithoutAllNoop(cs[..|cs| - 1], name);
      assert cs[..|cs| - 1] + [cs[|cs| - 1]] == cs;
    }
  }

  lemma WithoutAllSnoc(init: seq<Node>, last: Node, name: Name)
    ensures WithoutAll(init + [last], name) == WithoutAll(init, name) + if IsNamed(last, name) then [] else [last]
  {
    assert (init + [last])[..|init|] == init;
  }

  lemma OnlyNamedOne(x: Node, name: Name)
    ensures OnlyNamed([x], name) == if IsNamed(x, name) then [x] else []
  {
    assert [x][1..] == [];
  }

  /** Dropping the elements of a name works on each part of a list separately,
      so the children kept stay in their order. */
  lemma {:induction false} WithoutAllAppend(a: seq<Node>, b: seq<Node>, name: Name)
    ensures WithoutAll(a + b, name) == WithoutAll(a, name) + WithoutAll(b, name)
    decreases |b|
  {
    if b == [] {
      assert a + b == a;
    } else {
      var init, last := b[..|b| - 1], b[|b| - 1];
      var tail := if IsNamed(last, name) then [] else [last];
      assert a + b == (a + init) + [last];
      assert init + [last] == b;
      calc {
        WithoutAll(a + b, name);
        { WithoutAllSnoc(a + init, last, name); }
        WithoutAll(a + init, name) + tail;
        { WithoutAllAppend(a, init, name); }
        (WithoutAll(a, name) + WithoutAll(init, name)) + tail;
        WithoutAll(a, name) + (WithoutAll(init, name) + tail);
        { WithoutAllSnoc(init, last, name); }
        WithoutAll(a, name) + WithoutAll(b, name);
      }
    }
  }

  /** A single child is dropped exactly when it has the name. */
  lemma WithoutAllOne(x: Node, name: Name)
    ensures WithoutAll([x], name) == if IsNamed(x, name) then [] else [x]
  {
    WithoutAllSnoc([], x, name);
  }

  /** Dropping every element of a name after dropping the first one is dropping every one. */
  lemma WithoutAllAfterFirst(cs: seq<Node>, name: Name)
    ensures WithoutAll(WithoutFirst(cs, name), name) == WithoutAll(cs, name)
  {
    var k := FirstNamed(cs, name);
    if k < |cs| {
      var before, x, after := cs[..k], cs[k], cs[k + 1..];
      assert cs == before + ([x] + after);
      assert WithoutFirst(cs, name) == before + after;
      calc {
        WithoutAll(cs, name);
        { WithoutAllAppend(before, [x] + after, name); }
        WithoutAll(before, name) + WithoutAll([x] + after, name);
        { WithoutAllAppend([x], after, name); WithoutAllOne(x, name); }
        WithoutAll(before, name) + ([] + WithoutAll(after, name));
        { assert [] + WithoutAll(after, name) == WithoutAll(after, name); }
        WithoutAll(before, name) + WithoutAll(after, name);
        { WithoutAllAppend(before, after, name); }
        WithoutAll(before + after, name);
      }
    }
  }

  /** Dropping every element of one name keeps the elements of any other name. */
  lemma {:induction false} WithoutAllKeepsOthers(cs: seq<Node>, name: Name, other: Name)
    requires name != other
    ensures OnlyNamed(WithoutAll(cs, name), other) == OnlyNamed(cs, other)
  {
    if cs != [] {
      var init, last := cs[..|cs| - 1], cs[|cs| - 1];
      var tail := if IsNamed(last, name) then [] else [last];
      assert init + [last] == cs;
      WithoutAllSnoc(init, last, name);
      OnlyNamedOne(last, other);
      assert OnlyNamed(tail, other) == OnlyNamed([last], other);
      calc {
        OnlyNamed(WithoutAll(cs, name), other);
        { OnlyNamedAppend(WithoutAll(init, name), tail, other); }
        OnlyNamed(WithoutAll(init, name), other) + OnlyNamed(tail, other);
        { WithoutAllKeepsOthers(init, name, other); }
        OnlyNamed(init, other) + OnlyNamed([last], other);
        { OnlyNamedAppend(init, [last], other); }
        OnlyNamed(cs, other);
      }
    }
  }

  /** Dropping the first element of a name leaves one fewer of them, if there was one. */
  lemma WithoutFirstCount(cs: seq<Node>, name: Name)
    ensures var k := |OnlyNamed(cs, name)|;
            |OnlyNamed(WithoutFirst(cs, name), name)| == if k > 0 then k - 1 else 0
  {
    var k := FirstNamed(cs, name);
    if k < |cs| {
      OnlyNamedEmpty(cs[..k], name);
      assert cs == cs[..k] + ([cs[k]] + cs[k + 1..]);
      OnlyNamedAppend(cs[..k], [cs[k]] + cs[k + 1..], name);
      OnlyNamedAppend([cs[k]], cs[k + 1..], name);
      OnlyNamedAppend(cs[..k], cs[k + 1..], name);
    } else {
      OnlyNamedEmpty(cs, name);
    }
  }

  /** The rewrite keeps, among the rewritten children, as many of each name. */
  lemma {:induction false} ReboundAllKeepsNamed(cs: seq<Node>, name: Name, ns: string, path: string)
    ensures |OnlyNamed(ReboundAll(cs, ns, path), name)| == |OnlyNamed(cs, name)|
  {
    if cs != [] {
      var rs := ReboundAll(cs, ns, path);
      assert rs[0] == Rebound(cs[0], ns, path);
      assert rs[1..] == ReboundAll(cs[1..], ns, path);
      NameKept(cs[0], name, ns, path);
      ReboundAllKeepsNamed(cs[1..], name, ns, path);
    }
  }

  /** The direct children of a rewritten `DataSource`: no connection properties
      remain, the new reference comes last, and before it there is one
      reference fewer than there was (none, if there was none). */
  lemma DataSourceChildren(n: Node, ns: string, path: string)
    requires IsNamed(n, DataSourceName(ns))
    ensures var cs := Rebound(n, ns, path).children;
            var k := |OnlyNamed(n.children, ReferenceName(ns))|;
            && cs != []
            && cs[|cs| - 1] == NewReference(ns, path)
            && Value(cs[|cs| - 1]) == path
            && (forall c :: c in cs ==> !IsNamed(c, ConnectionPropertiesName(ns)))
            && |OnlyNamed(cs[..|cs| - 1], ReferenceName(ns))| == (if k > 0 then k - 1 else 0)
  {
    var rs := ReboundAll(n.children, ns, path);
    var cp, ref := ConnectionPropertiesName(ns), ReferenceName(ns);
    var kept := Kept(rs, ns);
    var cs := Rebound(n, ns, path).children;
    assert cs == kept + [NewReference(ns, path)];
    assert cs[..|cs| - 1] == kept;
    ReboundAllKeepsNamed(n.children, ref, ns, path);
    WithoutAllKeepsOthers(rs, cp, ref);
    WithoutFirstCount(WithoutAll(rs, cp), ref);
  }

  /** Apart from references, a rewritten `DataSource` keeps its rewritten
      children in their order, without the connection properties. */
  lemma DataSourceKeepsOthers(n: Node, ns: string, path: string)
    requires IsNamed(n, DataSourceName(ns))
    ensures var cs := Rebound(n, ns, path).children;
            var cp, ref := ConnectionPropertiesName(ns), ReferenceName(ns);
            && cs != []
            && WithoutAll(cs[..|cs| - 1], ref) == WithoutAll(WithoutAll(ReboundAll(n.children, ns, path), cp), ref)
  {
    var cp, ref := ConnectionPropertiesName(ns), ReferenceName(ns);
    var x := WithoutAll(ReboundAll(n.children, ns, path), cp);
    var cs := Rebound(n, ns, path).children;
    assert cs == Kept(ReboundAll(n.children, ns, path), ns) + [NewReference(ns, path)];
    assert cs[..|cs| - 1] == WithoutFirst(x, ref);
    WithoutAllAfterFirst(x, ref);
  }

  /** Every `DataSource` of the rewritten tree, at any depth, has no connection
      properties and ends with the new reference. */
  predicate Rebinds(e: Node, ns: string, path: string)
  {
    && e.Element?
    && e.children != []
    && e.children[|e.children| - 1] == NewReference(ns, path)
    && forall c :: c in e.children ==> !IsNamed(c, ConnectionPropertiesName(ns))
  }

  lemma {:induction false} EveryDataSourceRebound(n: Node, ns: string, path: string)
    ensures forall e :: e in Descendants([Rebound(n, ns, path)]) && IsNamed(e, DataSourceName(ns)) ==> Rebinds(e, ns, path)
    decreases n
  {
    match n
    case Text(_) =>
      assert Descendants([n]) == [];
    case Element(name, attrs, cs) =>
      var rs := ReboundAll(cs, ns, path);
      var r := Rebound(n, ns, path);
      forall y | y in rs
        ensures forall e :: e in Descendants([y]) && IsNamed(e, DataSourceName(ns)) ==> Rebinds(e, ns, path)
      {
        var i :| 0 <= i < |rs| && rs[i] == y;
        EveryDataSourceRebound(cs[i], ns, path);
      }
      DescendantsOfElement(r);
      forall e | e in Descendants(r.children) && IsNamed(e, DataSourceName(ns))
        ensures Rebinds(e, ns, path)
      {
        DescendantsOwner(r.children, e);
        var y :| y in r.children && e in Descendants([y]);
        if y == NewReference(ns, path) {
          DescendantsOfElement(y);
          assert Descendants([Text(path)]) == [];
        }
      }
      if name == DataSourceName(ns) {
        DataSourceChildren(n, ns, path);
      }
  }

  /** How many elements of a name a forest holds, at any depth. */
  function Occurrences(xs: seq<Node>, name: Name): nat
  {
    |OnlyNamed(Descendants(xs), name)|
  }

  lemma OccurrencesAppend(a: seq<Node>, b: seq<Node>, name: Name)
    ensures Occurrences(a + b, name) == Occurrences(a, name) + Occurrences(b, name)
  {
    DescendantsAppend(a, b);
    OnlyNamedAppend(Descendants(a), Descendants(b), name);
  }

  lemma OccurrencesOfElement(x: Node, name: Name)
    requires x.Element?
    ensures Occurrences([x], name) == (if IsNamed(x, name) then 1 else 0) + Occurrences(x.children, name)
  {
    DescendantsOfElement(x);
    OnlyNamedAppend([x], Descendants(x.children), name);
  }

  lemma {:induction false} OccurrencesPointwise(xs: seq<Node>, ys: seq<Node>, name: Name)
    requires |xs| == |ys|
    requires forall i :: 0 <= i < |xs| ==> Occurrences([xs[i]], name) == Occurrences([ys[i]], name)
    ensures Occurrences(xs, name) == Occurrences(ys, name)
  {
    if xs != [] {
      forall i | 0 <= i < |xs| - 1
        ensures Occurrences([xs[1..][i]], name) == Occurrences([ys[1..][i]], name)
      {
        assert xs[1..][i] == xs[i + 1] && ys[1..][i] == ys[i + 1];
      }
      OccurrencesPointwise(xs[1..], ys[1..], name);
      assert xs == [xs[0]] + xs[1..];
      assert ys == [ys[0]] + ys[1..];
      OccurrencesAppend([xs[0]], xs[1..], name);
      OccurrencesAppend([ys[0]], ys[1..], name);
    }
  }

  lemma {:induction false} OccurrencesWithoutAll(cs: seq<Node>, name: Name, x: Name)
    requires forall c :: c in cs && IsNamed(c, name) ==> Occurrences([c], x) == 0
    ensures Occurrences(WithoutAll(cs, name), x) == Occurrences(cs, x)
  {
    if cs != [] {
      var init, last := cs[..|cs| - 1], cs[|cs| - 1];
      OccurrencesWithoutAll(init, name, x);
      assert init + [last] == cs;
      OccurrencesAppend(init, [last], x);
      OccurrencesAppend(WithoutAll(init, name), if IsNamed(last, name) then [] else [last], x);
    }
  }

  lemma OccurrencesWithoutFirst(cs: seq<Node>, name: Name, x: Name)
    requires forall c :: c in cs && IsNamed(c, name) ==> Occurrences([c], x) == 0
    ensures Occurrences(WithoutFirst(cs, name), x) == Occurrences(cs, x)
  {
    var k := FirstNamed(cs, name);
    if k < |cs| {
      assert cs == cs[..k] + [cs[k]] + cs[k + 1..];
      OccurrencesAppend(cs[..k] + [cs[k]], cs[k + 1..], x);
      OccurrencesAppend(cs[..k], [cs[k]], x);
      OccurrencesAppend(cs[..k], cs[k + 1..], x);
    }
  }

  /** Nothing named `x` lies inside a `ConnectionProperties` or
      `DataSourceReference` child of a `DataSource`, the subtrees the rewrite
      may drop. */
  predicate Untouched(n: Node, ns: string, x: Name)
    decreases n
  {
    match n
    case Text(_) => true
    case Element(name, _, cs) =>
      && (name == DataSourceName(ns) ==>
            forall c :: c in cs && (IsNamed(c, ConnectionPropertiesName(ns)) || IsNamed(c, ReferenceName(ns))) ==>
              Occurrences([c], x) == 0)
      && forall c :: c in cs ==> Untouched(c, ns, x)
  }

  /** A rewritten `DataSource`'s children hold as many `x` as before when
      what it drops holds none. */
  lemma DataSourceKeepsOccurrences(rs: seq<Node>, ns: string, path: string, x: Name)
    requires x != ReferenceName(ns)
    requires forall c :: c in rs && (IsNamed(c, ConnectionPropertiesName(ns)) || IsNamed(c, ReferenceName(ns))) ==>
               Occurrences([c], x) == 0
    ensures Occurrences(Kept(rs, ns) + [NewReference(ns, path)], x) == Occurrences(rs, x)
  {
    var cp, ref, r := ConnectionPropertiesName(ns), ReferenceName(ns), NewReference(ns, path);
    OccurrencesWithoutAll(rs, cp, x);
    OccurrencesWithoutFirst(WithoutAll(rs, cp), ref, x);
    OccurrencesAppend(Kept(rs, ns), [r], x);
    OccurrencesOfElement(r, x);
    assert Descendants([Text(path)]) == [];
  }

  /** The rewrite keeps the number of elements of every other name, at every
      depth: `DataSource` elements and everything around them stay. */
  lemma {:induction false} ReboundKeepsOccurrences(n: Node, ns: string, path: string, x: Name)
    requires x != ConnectionPropertiesName(ns) && x != ReferenceName(ns)
    requires Untouched(n, ns, x)
    ensures Occurrences([Rebound(n, ns, path)], x) == Occurrences([n], x)
    decreases n
  {
    if n.Element? {
      var cs := n.children;
      var rs := ReboundAll(cs, ns, path);
      var cp, ref := ConnectionPropertiesName(ns), ReferenceName(ns);
      forall i | 0 <= i < |cs| ensures Occurrences([rs[i]], x) == Occurrences([cs[i]], x) {
        assert cs[i] in cs;
        ReboundKeepsOccurrences(cs[i], ns, path, x);
      }
      OccurrencesPointwise(rs, cs, x);
      OccurrencesOfElement(n, x);
      OccurrencesOfElement(Rebound(n, ns, path), x);
      if n.name == DataSourceName(ns) {
        forall c | c in rs && (IsNamed(c, cp) || IsNamed(c, ref))
          ensures Occurrences([c], x) == 0
        {
          var i :| 0 <= i < |rs| && rs[i] == c;
          NameKept(cs[i], cp, ns, path);
          NameKept(cs[i], ref, ns, path);
          assert cs[i] in cs;
        }
        DataSourceKeepsOccurrences(rs, ns, path, x);
      }
    }
  }

  /** A definition without `DataSource` elements comes back unchanged. */
  lemma {:induction false} NoDataSourceUnchanged(n: Node, ns: string, path: string)
    requires Occurrences([n], DataSourceName(ns)) == 0
    ensures Rebound(n, ns, path) == n
    decreases n
  {
    match n
    case Text(_) =>
    case Element(name, attrs, cs) =>
      OccurrencesOfElement(n, DataSourceName(ns));
      forall i | 0 <= i < |cs| ensures Rebound(cs[i], ns, path) == cs[i] {
        assert cs == cs[..i] + [cs[i]] + cs[i + 1..];
        OccurrencesAppend(cs[..i] + [cs[i]], cs[i + 1..], DataSourceName(ns));
        OccurrencesAppend(cs[..i], [cs[i]], DataSourceName(ns));
        NoDataSourceUnchanged(cs[i], ns, path);
      }
      assert ReboundAll(cs, ns, path) == cs;
  }

  /** Every `DataSource` has at most one `DataSourceReference` child. */
  predicate SingleReference(n: Node, ns: string)
    decreases n
  {
    match n
    case Text(_) => true
    case Element(name, _, cs) =>
      && (name == DataSourceName(ns) ==> |OnlyNamed(cs, ReferenceName(ns))| <= 1)
      && forall c :: c in cs ==> SingleReference(c, ns)
  }

  lemma FirstNamedAfter(kept: seq<Node>, r: Node, name: Name)
    requires forall y :: y in kept ==> !IsNamed(y, name)
    requires IsNamed(r, name)
    ensures FirstNamed(kept + [r], name) == |kept|
  {
    var cs := kept + [r];
    assert cs[|kept|] == r;
  }

  /** Dropping the first reference from children whose only reference is the
      last one leaves the others. */
  lemma KeptOfRebound(kept: seq<Node>, ns: string, path: string)
    requires forall y :: y in kept ==> !IsNamed(y, ConnectionPropertiesName(ns)) && !IsNamed(y, ReferenceName(ns))
    ensures Kept(kept + [NewReference(ns, path)], ns) == kept
  {
    var cp, ref, r := ConnectionPropertiesName(ns), ReferenceName(ns), NewReference(ns, path);
    var cs := kept + [r];
    WithoutAllNoop(cs, cp);
    FirstNamedAfter(kept, r, ref);
    assert cs[..|kept|] == kept && cs[|kept| + 1..] == [];
    calc {
      Kept(cs, ns);
      WithoutFirst(cs, ref);
      cs[..|kept|] + cs[|kept| + 1..];
      kept;
    }
  }

  /** A `DataSource` whose children are already rewritten, hold neither
      connection properties nor references, and end with the new reference
      is left as it is. */
  lemma DataSourceFixed(attrs: seq<Attribute>, kept: seq<Node>, ns: string, path: string)
    requires ReboundAll(kept, ns, path) == kept
    requires forall y :: y in kept ==> !IsNamed(y, ConnectionPropertiesName(ns)) && !IsNamed(y, ReferenceName(ns))
    ensures var e := Element(DataSourceName(ns), attrs, kept + [NewReference(ns, path)]);
            Rebound(e, ns, path) == e
  {
    var r := NewReference(ns, path);
    var cs := kept + [r];
    assert ReboundAll([Text(path)], ns, path) == [Text(path)];
    assert Rebound(r, ns, path) == r;
    ReboundAllAppend(kept, [r], ns, path);
    assert ReboundAll(cs, ns, path) == cs;
    KeptOfRebound(kept, ns, path);
  }

  /** A list of fixed points is a fixed point. */
  lemma ReboundAllFixed(xs: seq<Node>, ns: string, path: string)
    requires forall y :: y in xs ==> Rebound(y, ns, path) == y
    ensures ReboundAll(xs, ns, path) == xs
  {
    forall i | 0 <= i < |xs| ensures ReboundAll(xs, ns, path)[i] == xs[i] {
      assert xs[i] in xs;
    }
  }

  /** A `DataSource` with at most one reference, whose rewritten children are
      fixed points, is rewritten to a fixed point. */
  lemma DataSourceIdempotent(n: Node, ns: string, path: string)
    requires IsNamed(n, DataSourceName(ns))
    requires |OnlyNamed(n.children, ReferenceName(ns))| <= 1
    requires forall y :: y in ReboundAll(n.children, ns, path) ==> Rebound(y, ns, path) == y
    ensures Rebound(Rebound(n, ns, path), ns, path) == Rebound(n, ns, path)
  {
    var rs := ReboundAll(n.children, ns, path);
    var kept := Kept(rs, ns);
    DataSourceChildren(n, ns, path);
    assert Rebound(n, ns, path).children == kept + [NewReference(ns, path)];
    OnlyNamedEmpty(kept, ReferenceName(ns));
    ReboundAllFixed(kept, ns, path);
    DataSourceFixed(n.attrs, kept, ns, path);
  }

  /** Rewriting twice with the same path is rewriting once, for definitions
      whose data sources hold at most one reference each. */
  lemma {:induction false} RebindIdempotent(n: Node, ns: string, path: string)
    requires SingleReference(n, ns)
    ensures Rebound(Rebound(n, ns, path), ns, path) == Rebound(n, ns, path)
    decreases n
  {
    if n.Element? {
      var cs := n.children;
      var rs := ReboundAll(cs, ns, path);
      forall y | y in rs ensures Rebound(y, ns, path) == y {
        var i :| 0 <= i < |rs| && rs[i] == y;
        assert cs[i] in cs;
        RebindIdempotent(cs[i], ns, path);
      }
      if n.name == DataSourceName(ns) {
        DataSourceIdempotent(n, ns, path);
      } else {
        ReboundAllFixed(rs, ns, path);
      }
    }
  }

  /** A reference element is left as it is. */
  lemma ReferenceFixed(ns: string, target: string, path: string)
    ensures Rebound(NewReference(ns, target), ns, path) == NewReference(ns, target)
  {
    assert ReboundAll([Text(target)], ns, path) == [Text(target)];
  }

  /** Of two references, a `DataSource` keeps the second. */
  lemma KeptOfTwoReferences(ns: string, a: string, b: string)
    ensures Kept([NewReference(ns, a), NewReference(ns, b)], ns) == [NewReference(ns, b)]
  {
    var xs := [NewReference(ns, a), NewReference(ns, b)];
    WithoutAllNoop(xs, ConnectionPropertiesName(ns));
    assert FirstNamed(xs, ReferenceName(ns)) == 0;
  }

  /** A `DataSource` holding two references keeps the second and adds the new one. */
  lemma RebindTwoReferences(ns: string, a: string, b: string, path: string)
    ensures var n := Element(DataSourceName(ns), [], [NewReference(ns, a), NewReference(ns, b)]);
            Rebound(n, ns, path) == Element(DataSourceName(ns), [], [NewReference(ns, b), NewReference(ns, path)])
  {
    var xs := [NewReference(ns, a), NewReference(ns, b)];
    var n := Element(DataSourceName(ns), [], xs);
    ReferenceFixed(ns, a, path);
    ReferenceFixed(ns, b, path);
    calc {
      Rebound(n, ns, path);
      Element(DataSourceName(ns), [], Kept(ReboundAll(xs, ns, path), ns) + [NewReference(ns, path)]);
      { ReboundAllFixed(xs, ns, path); }
      Element(DataSourceName(ns), [], Kept(xs, ns) + [NewReference(ns, path)]);
      { KeptOfTwoReferences(ns, a, b); }
      Element(DataSourceName(ns), [], [NewReference(ns, b)] + [NewReference(ns, path)]);
    }
  }

  /** A `DataSource` with two references is not a fixed point: the second
      rewrite removes the reference the first one added. */
  lemma TwoReferencesNotIdempotent()
    ensures var before := NewReference("", "/Old");
            var n := Element(DataSourceName(""), [], [before, before]);
            var once := Rebound(n, "", "/New");
            Rebound(once, "", "/New") != once
  {
    var before, after := NewReference("", "/Old"), NewReference("", "/New");
    RebindTwoReferences("", "/Old", "/Old", "/New");
    RebindTwoReferences("", "/Old", "/New", "/New");
    assert Value(before) != Value(after);
  }
}
