/** The centre resolver of the app's data load (src/app/app.js): each focus
    centre gets an absolute position from its one-level `relativeTo`
    reference, and its element trees are turned into the `elements` list the
    canvas receives. */
module Centers {
  import opened Base
  import opened Content
  import TreeLayout

  /** `relativeTo->{_id, title, x, y}`: the referenced centre's stored fields,
      dereferenced once. Its own `relativeTo` is not part of it. */
  datatype Reference = Reference(id: string, title: string, x: real, y: real)

  /** A focus centre as the content store returns it. */
  datatype FocusCenter = FocusCenter(
    id: string,
    title: string,
    x: real,
    y: real,
    color: Option<string>,
    relativeTo: Option<Reference>,
    elements: Option<seq<Element>>,
    connections: Option<seq<Connection>>)

  /** An entry of a resolved centre's `elements`: an element record with its
      absolute position added, or the nested list a child produced. */
  datatype Flat = Node(el: Element, absX: real, absY: real) | Group(items: seq<Flat>)

  /** The record the resolver produces for each centre. */
  datatype ResolvedCenter = ResolvedCenter(
    id: string,
    color: Option<string>,
    x: real,
    y: real,
    elements: seq<Flat>,
    connections: seq<Connection>)

  /** `absoluteX`/`absoluteY`: the referenced centre's stored position plus the
      centre's own, or the centre's own when it has no reference. */
  function AbsolutePosition(center: FocusCenter): (p: Point)
    ensures center.relativeTo.Some? ==>
      p == Point(center.relativeTo.value.x + center.x, center.relativeTo.value.y + center.y)
    ensures center.relativeTo.None? ==> p == Point(center.x, center.y)
  {
    match center.relativeTo
    case Some(ref) => Point(ref.x + center.x, ref.y + center.y)
    case None => Point(center.x, center.y)
  }

  /** The local `flattenElement(el, parentX, parentY)`: the element with its
      absolute position, followed by one nested list per child (children are
      mapped, not flat-mapped). */
  function FlattenElement(el: Element, parentX: real, parentY: real): (r: seq<Flat>)
    decreases el
    ensures |r| == 1 + |Children(el)|
    ensures r[0] == Node(el, parentX + el.x, parentY + el.y)
    ensures forall k :: 1 <= k < |r| ==> r[k].Group?
  {
    var base := Node(el, parentX + el.x, parentY + el.y);
    match el.childElements
    case Missing => [base]
    case Listed(cs) => [base] + FlattenChildren(cs, base.absX, base.absY)
  }

  /** `children.map(child => flattenElement(child, parentX, parentY))`. */
  function FlattenChildren(cs: seq<Element>, parentX: real, parentY: real): (r: seq<Flat>)
    decreases cs
    ensures |r| == |cs|
    ensures forall k :: 0 <= k < |r| ==> r[k].Group?
  {
    if cs == [] then []
    else [Group(FlattenElement(cs[0], parentX, parentY))] + FlattenChildren(cs[1..], parentX, parentY)
  }

  /** `elements.flatMap(el => flattenElement(el, x, y))`: only the top level
      of each root's result is spread. */
  function FlattenRoots(els: seq<Element>, x: real, y: real): (r: seq<Flat>)
    ensures r == [] <==> els == []
    ensures els != [] ==> r[0] == Node(els[0], x + els[0].x, y + els[0].y)
  {
    if els == [] then [] else FlattenElement(els[0], x, y) + FlattenRoots(els[1..], x, y)
  }

  /** The resolved record of one centre. The source reads `center.elements`
      unguarded, so this needs the centre to have an elements list. */
  function ResolveCenter(center: FocusCenter): (r: ResolvedCenter)
    requires center.elements.Some?
    ensures r.id == center.title && r.color == center.color
    ensures Point(r.x, r.y) == AbsolutePosition(center)
    ensures |r.elements| == TopLevelCount(center.elements.value)
    ensures center.connections.None? ==> r.connections == []
    ensures center.connections.Some? ==> r.connections == center.connections.value
  {
    var p := AbsolutePosition(center);
    RootsContribute(center.elements.value, p.x, p.y);
    ResolvedCenter(
      center.title,
      center.color,
      p.x,
      p.y,
      FlattenRoots(center.elements.value, p.x, p.y),
      match center.connections case Some(cs) => cs case None => [])
  }

  /** `data.map(...)`: every centre resolved, in data order. A centre without
      an elements list makes the whole mapping throw, and the load then sets
      no centres at all. */
  function ResolveCenters(data: seq<FocusCenter>): (r: Option<seq<ResolvedCenter>>)
    ensures r.None? <==> exists i :: 0 <= i < |data| && data[i].elements.None?
    ensures r.Some? ==>
              && |r.value| == |data|
              && forall i :: 0 <= i < |data| ==> data[i].elements.Some? && r.value[i] == ResolveCenter(data[i])
  {
    if data == [] then Some([])
    else if data[0].elements.None? then None
    else
      match ResolveCenters(data[1..])
      case None => None
      case Some(rest) => Some([ResolveCenter(data[0])] + rest)
  }

  /** Number of entries each root contributes: itself plus one per child. */
  function TopLevelCount(els: seq<Element>): nat
  {
    if els == [] then 0 else 1 + |Children(els[0])| + TopLevelCount(els[1..])
  }

  /** A resolved centre lists, for each root element in declaration order,
      the root's record followed by one nested list per direct child; its
      length is the sum of `1 + children` over the roots. */
  lemma {:induction false} RootsContribute(els: seq<Element>, x: real, y: real)
    ensures |FlattenRoots(els, x, y)| == TopLevelCount(els)
    ensures forall k :: 0 <= k < |els| ==>
              && TopLevelCount(els[..k]) < TopLevelCount(els)
              && FlattenRoots(els, x, y)[TopLevelCount(els[..k])] == Node(els[k], x + els[k].x, y + els[k].y)
  {
    if els != [] {
      RootsContribute(els[1..], x, y);
      var head := FlattenElement(els[0], x, y);
      var rest := FlattenRoots(els[1..], x, y);
      assert FlattenRoots(els, x, y) == head + rest;
      forall k | 0 <= k < |els|
        ensures && TopLevelCount(els[..k]) < TopLevelCount(els)
                && FlattenRoots(els, x, y)[TopLevelCount(els[..k])] == Node(els[k], x + els[k].x, y + els[k].y)
      {
        if k == 0 {
          assert els[..0] == [];
        } else {
          assert els[..k][0] == els[0] && els[..k][1..] == els[1..][..k - 1];
          assert TopLevelCount(els[..k]) == |head| + TopLevelCount(els[1..][..k - 1]);
        }
      }
    }
  }

  /** All element records of a resolved list, nested lists opened up, in
      order. */
  function Unnest(fs: seq<Flat>): seq<Flat>
    decreases fs
  {
    if fs == [] then []
    else
      match fs[0]
      case Node(_, _, _) => [fs[0]] + Unnest(fs[1..])
      case Group(items) => Unnest(items) + Unnest(fs[1..])
  }

  lemma {:induction false} UnnestAppend(a: seq<Flat>, b: seq<Flat>)
    ensures Unnest(a + b) == Unnest(a) + Unnest(b)
    decreases a
  {
    if a == [] {
      assert a + b == b;
    } else {
      assert (a + b)[0] == a[0] && (a + b)[1..] == a[1..] + b;
      UnnestAppend(a[1..], b);
      match a[0]
      case Node(_, _, _) =>
        assert Unnest(a + b) == [a[0]] + Unnest(a[1..] + b);
      case Group(items) =>
        assert Unnest(a + b) == Unnest(items) + Unnest(a[1..] + b);
    }
  }

  /** The canvas' flattened entries as element records with their absolute
      positions. */
  function Positions(r: seq<TreeLayout.FlatElement>): (p: seq<Flat>)
    ensures |p| == |r|
  {
    if r == [] then [] else [Node(r[0].el, r[0].absX, r[0].absY)] + Positions(r[1..])
  }

  lemma {:induction false} PositionsAppend(a: seq<TreeLayout.FlatElement>, b: seq<TreeLayout.FlatElement>)
    ensures Positions(a + b) == Positions(a) + Positions(b)
  {
    if a == [] {
      assert a + b == b;
    } else {
      assert (a + b)[0] == a[0] && (a + b)[1..] == a[1..] + b;
      PositionsAppend(a[1..], b);
    }
  }

  /** Opening up the nested lists of `flattenElement` gives exactly the
      canvas' pre-order flattening of the same tree from the same parent
      position: the same elements in the same order at the same absolute
      positions. The nesting is the only difference. */
  lemma {:induction false} NestedMatchesPreorder(el: Element, parent: TreeLayout.Parent, windowWidth: real, isMobile: bool)
    ensures Unnest(FlattenElement(el, parent.x, parent.y)) == Positions(TreeLayout.FlattenTree(el, parent, windowWidth, isMobile))
    decreases el, 1
  {
    var base := Node(el, parent.x + el.x, parent.y + el.y);
    var t := TreeLayout.FlattenTree(el, parent, windowWidth, isMobile);
    match el.childElements
    case Missing =>
      assert FlattenElement(el, parent.x, parent.y) == [base];
      assert Unnest([base]) == [base] + Unnest([]);
      assert t == [t[0]];
      assert Positions(t) == [Node(t[0].el, t[0].absX, t[0].absY)] + Positions([]);
    case Listed(cs) =>
      var ctx := TreeLayout.Parent(t[0].absX, t[0].absY, Some(t[0].color), parent.id);
      var kids := FlattenChildren(cs, base.absX, base.absY);
      var forest := TreeLayout.FlattenForest(cs, ctx, windowWidth, isMobile);
      assert FlattenElement(el, parent.x, parent.y) == [base] + kids;
      assert t == [t[0]] + forest;
      ChildrenMatchForest(cs, ctx, windowWidth, isMobile);
      UnnestAppend([base], kids);
      assert Unnest([base]) == [base] + Unnest([]);
      PositionsAppend([t[0]], forest);
      assert Positions([t[0]]) == [Node(t[0].el, t[0].absX, t[0].absY)] + Positions([]);
  }

  lemma {:induction false} ChildrenMatchForest(cs: seq<Element>, parent: TreeLayout.Parent, windowWidth: real, isMobile: bool)
    ensures Unnest(FlattenChildren(cs, parent.x, parent.y)) == Positions(TreeLayout.FlattenForest(cs, parent, windowWidth, isMobile))
    decreases cs, 0
  {
    if cs != [] {
      var head := FlattenElement(cs[0], parent.x, parent.y);
      var rest := FlattenChildren(cs[1..], parent.x, parent.y);
      assert FlattenChildren(cs, parent.x, parent.y) == [Group(head)] + rest;
      UnnestAppend([Group(head)], rest);
      assert Unnest([Group(head)]) == Unnest(head) + Unnest([]);
      NestedMatchesPreorder(cs[0], parent, windowWidth, isMobile);
      ChildrenMatchForest(cs[1..], parent, windowWidth, isMobile);
      PositionsAppend(TreeLayout.FlattenTree(cs[0], parent, windowWidth, isMobile),
                      TreeLayout.FlattenForest(cs[1..], parent, windowWidth, isMobile));
    }
  }

  /** Only one level of `relativeTo` is followed: a centre placed relative to
      a centre that is itself relative lands at the stored (not the resolved)
      position of its reference plus its own offset. */
  lemma OneLevelOnly(a: FocusCenter, b: FocusCenter, c: FocusCenter)
    requires a.relativeTo.None? && b.relativeTo == Some(Reference(a.id, a.title, a.x, a.y))
    requires c.relativeTo == Some(Reference(b.id, b.title, b.x, b.y))
    ensures AbsolutePosition(b) == Point(a.x + b.x, a.y + b.y)
    ensures AbsolutePosition(c) == Point(b.x + c.x, b.y + c.y)
    ensures a.x != 0.0 ==> AbsolutePosition(c).x != AbsolutePosition(b).x + c.x
  {
  }

  /** Centre A at (0, 0), centre B relative to A at offset (50, 50), and an
      element of B at offset (10, 10): B resolves to (50, 50) and the element
      to (60, 60). */
  lemma EndToEnd(a: FocusCenter, b: FocusCenter, e: Element)
    requires a.x == 0.0 && a.y == 0.0 && a.relativeTo.None?
    requires b.relativeTo == Some(Reference(a.id, a.title, a.x, a.y)) && b.x == 50.0 && b.y == 50.0
    requires b.elements == Some([e]) && e.x == 10.0 && e.y == 10.0
    ensures ResolveCenter(b).x == 50.0 && ResolveCenter(b).y == 50.0
    ensures ResolveCenter(b).elements[0] == Node(e, 60.0, 60.0)
  {
    assert FlattenRoots([e], 50.0, 50.0) == FlattenElement(e, 50.0, 50.0) + FlattenRoots([], 50.0, 50.0);
  }
}
