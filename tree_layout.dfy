/** The canvas' layout of element trees (`Canvas` in src/app/threeCanvas.js):
    the pre-order flattening that turns relative offsets into absolute
    positions, inherits colours and sizes images, the pinning of the first
    centre to the viewport midpoint, and the box each element is drawn in. */
module TreeLayout {
  import opened Base
  import opened Content

  /** The `parent` argument of `flattenElementTree`: the position children are
      offset from, the colour they inherit and the id of the owning centre. */
  datatype Parent = Parent(x: real, y: real, color: Option<string>, id: string)

  /** One entry of the flattened list: the element with every field kept, its
      absolute and relative position, its resolved size and colour, and the
      id of the centre it belongs to. */
  datatype FlatElement = FlatElement(
    el: Element,
    absX: real,
    absY: real,
    relX: real,
    relY: real,
    width: Option<real>,
    height: Option<real>,
    color: string,
    centerId: string)

  /** A focus centre as the canvas receives it. */
  datatype Center = Center(
    id: string,
    color: Option<string>,
    x: real,
    y: real,
    elements: seq<Element>,
    connections: seq<Connection>)

  const DefaultColor: string := "black"
  const MobileBreakpoint: real := 700.0
  const MobileMargin: real := 50.0
  const DesktopImageWidth: real := 400.0

  /** `isMobile` as the canvas sets it whenever the viewport width changes. */
  predicate IsMobile(viewportWidth: real)
  {
    !(viewportWidth > MobileBreakpoint)
  }

  /** `el.color || parent.color || "black"`: the result is never empty. */
  function InheritedColor(own: Option<string>, inherited: Option<string>): (c: string)
    ensures c != ""
    ensures TruthyString(own) ==> c == own.value
    ensures !TruthyString(own) && TruthyString(inherited) ==> c == inherited.value
    ensures !TruthyString(own) && !TruthyString(inherited) ==> c == DefaultColor
  {
    if TruthyString(own) then own.value
    else if TruthyString(inherited) then inherited.value
    else DefaultColor
  }

  /** An image element whose asset reports its natural dimensions. */
  predicate HasNaturalSize(el: Element)
  {
    el.kind == ImageElement && el.src.Some? && el.src.value.dimensions.Some?
  }

  function NaturalSize(el: Element): Dimensions
    requires HasNaturalSize(el)
  {
    el.src.value.dimensions.value
  }

  /** The width an image gets when none is set. */
  function TargetImageWidth(windowWidth: real, isMobile: bool): real
  {
    if isMobile then windowWidth - MobileMargin else DesktopImageWidth
  }

  /** The resolved `(width, height)` of an element: an image with natural
      dimensions keeps its width (or gets the target width) and its height is
      always recomputed from the natural aspect ratio; everything else keeps
      its own width and height. */
  function ResolvedSize(el: Element, windowWidth: real, isMobile: bool): (size: (Option<real>, Option<real>))
    ensures !HasNaturalSize(el) ==> size == (el.width, el.height)
    ensures HasNaturalSize(el) && el.width.Some? ==> size.0 == el.width
    ensures HasNaturalSize(el) && el.width.None? ==> size.0 == Some(TargetImageWidth(windowWidth, isMobile))
    ensures HasNaturalSize(el) ==>
              size.0.Some? && size.1.Some? &&
              size.1.value * NaturalSize(el).width == size.0.value * NaturalSize(el).height
  {
    if HasNaturalSize(el) then
      var dims := NaturalSize(el);
      var aspectRatio := dims.height / dims.width;
      var width := if el.width.Some? then el.width.value else TargetImageWidth(windowWidth, isMobile);
      assert width * aspectRatio * dims.width == width * dims.height;
      (Some(width), Some(width * aspectRatio))
    else
      (el.width, el.height)
  }

  /** The `base` record `flattenElementTree` builds for one element. */
  function Resolve(el: Element, parent: Parent, windowWidth: real, isMobile: bool): (e: FlatElement)
    ensures e.el == el && PlacedAt(e, parent)
    ensures WellResolved(e, parent.id, windowWidth, isMobile)
  {
    var size := ResolvedSize(el, windowWidth, isMobile);
    FlatElement(el, parent.x + el.x, parent.y + el.y, el.x, el.y, size.0, size.1,
                InheritedColor(el.color, parent.color), parent.id)
  }

  /** What every entry of a flattened list satisfies on its own: its offsets
      are its element's, its size follows the sizing rule, and it belongs to
      the centre `centerId`. */
  predicate WellResolved(e: FlatElement, centerId: string, windowWidth: real, isMobile: bool)
  {
    && e.relX == e.el.x && e.relY == e.el.y
    && (e.width, e.height) == ResolvedSize(e.el, windowWidth, isMobile)
    && e.centerId == centerId
  }

  /** `flattenElementTree(el, parent, windowWidth)`: the element first, then the
      flattening of each child, in declaration order, with this element's
      absolute position and resolved colour as the child's parent. */
  function FlattenTree(el: Element, parent: Parent, windowWidth: real, isMobile: bool): (r: seq<FlatElement>)
    decreases el
    ensures |r| == Size(el)
    ensures r[0] == Resolve(el, parent, windowWidth, isMobile)
    ensures forall i :: 0 <= i < |r| ==> WellResolved(r[i], parent.id, windowWidth, isMobile)
  {
    var base := Resolve(el, parent, windowWidth, isMobile);
    match el.childElements
    case Missing => [base]
    case Listed(cs) =>
      [base] + FlattenForest(cs, Parent(base.absX, base.absY, Some(base.color), parent.id), windowWidth, isMobile)
  }

  /** `children.flatMap(child => flattenElementTree(child, parent, windowWidth))`. */
  function FlattenForest(cs: seq<Element>, parent: Parent, windowWidth: real, isMobile: bool): (r: seq<FlatElement>)
    decreases cs
    ensures |r| == ForestSize(cs)
    ensures forall i :: 0 <= i < |r| ==> WellResolved(r[i], parent.id, windowWidth, isMobile)
  {
    if cs == [] then []
    else FlattenTree(cs[0], parent, windowWidth, isMobile) + FlattenForest(cs[1..], parent, windowWidth, isMobile)
  }

  /** Entry `i` sits under entry `j`: its element is one of `j`'s children, its
      absolute position is `j`'s plus its own offset, and its colour is
      inherited from `j`'s resolved colour. */
  predicate PlacedUnder(r: seq<FlatElement>, i: int, j: int)
    requires 0 <= i < |r| && 0 <= j < |r|
  {
    && r[i].el in Children(r[j].el)
    && r[i].absX == r[j].absX + r[i].relX
    && r[i].absY == r[j].absY + r[i].relY
    && r[i].color == InheritedColor(r[i].el.color, Some(r[j].color))
  }

  /** Entry `e` sits directly under the context it was flattened in. */
  predicate PlacedAt(e: FlatElement, parent: Parent)
  {
    && e.absX == parent.x + e.relX
    && e.absY == parent.y + e.relY
    && e.color == InheritedColor(e.el.color, parent.color)
  }

  /** Entry `i` sits under some earlier entry. */
  predicate HasParentBefore(r: seq<FlatElement>, i: int)
    requires 0 <= i < |r|
  {
    exists j :: 0 <= j < i && PlacedUnder(r, i, j)
  }

  /** Entry `i` of a flattened forest is a root of the forest placed
      directly under the context, or sits under an earlier entry. */
  predicate Linked(r: seq<FlatElement>, i: int, roots: seq<Element>, parent: Parent)
    requires 0 <= i < |r|
  {
    (r[i].el in roots && PlacedAt(r[i], parent)) || HasParentBefore(r, i)
  }

  predicate ForestLinked(r: seq<FlatElement>, roots: seq<Element>, parent: Parent)
  {
    forall i :: 0 <= i < |r| ==> Linked(r, i, roots, parent)
  }

  /** A flattened tree: the root sits under the context and every later entry
      under an earlier one. */
  predicate TreeLinkedUnder(r: seq<FlatElement>, parent: Parent)
  {
    |r| > 0 && PlacedAt(r[0], parent) && forall i :: 0 < i < |r| ==> HasParentBefore(r, i)
  }

  /** In a flattened tree, the root sits under the context and every later
      entry sits under an earlier one: positions and colours compose along
      parent links to any depth. */
  lemma {:induction false} TreeLinked(el: Element, parent: Parent, windowWidth: real, isMobile: bool)
    ensures TreeLinkedUnder(FlattenTree(el, parent, windowWidth, isMobile), parent)
    decreases el, 1
  {
    var r := FlattenTree(el, parent, windowWidth, isMobile);
    match el.childElements
    case Missing =>
    case Listed(cs) =>
      var base := r[0];
      var ctx := Parent(base.absX, base.absY, Some(base.color), parent.id);
      var f := FlattenForest(cs, ctx, windowWidth, isMobile);
      assert r == [base] + f;
      ForestLinkedLemma(cs, ctx, windowWidth, isMobile);
      forall i | 0 < i < |r|
        ensures HasParentBefore(r, i)
      {
        ShiftedUnder(f, i - 1, cs, ctx, base, el);
      }
  }

  /** One step of `TreeLinked`: an entry of the children's forest, once the
      parent's own entry is put in front, sits under an earlier entry. */
  lemma ShiftedUnder(f: seq<FlatElement>, k: int, cs: seq<Element>, ctx: Parent, base: FlatElement, el: Element)
    requires 0 <= k < |f| && Linked(f, k, cs, ctx)
    requires base.el == el && Children(el) == cs
    requires ctx == Parent(base.absX, base.absY, Some(base.color), ctx.id)
    ensures HasParentBefore([base] + f, k + 1)
  {
    var r := [base] + f;
    assert r[k + 1] == f[k];
    if f[k].el in cs && PlacedAt(f[k], ctx) {
      assert PlacedUnder(r, k + 1, 0);
    } else {
      var j :| 0 <= j < k && PlacedUnder(f, k, j);
      assert r[j + 1] == f[j];
      assert PlacedUnder(r, k + 1, j + 1);
    }
  }

  lemma {:induction false} ForestLinkedLemma(cs: seq<Element>, parent: Parent, windowWidth: real, isMobile: bool)
    ensures ForestLinked(FlattenForest(cs, parent, windowWidth, isMobile), cs, parent)
    decreases cs, 0
  {
    var r := FlattenForest(cs, parent, windowWidth, isMobile);
    if cs != [] {
      var t := FlattenTree(cs[0], parent, windowWidth, isMobile);
      var rest := FlattenForest(cs[1..], parent, windowWidth, isMobile);
      assert r == t + rest;
      TreeLinked(cs[0], parent, windowWidth, isMobile);
      ForestLinkedLemma(cs[1..], parent, windowWidth, isMobile);
      forall i | 0 <= i < |r|
        ensures Linked(r, i, cs, parent)
      {
        if i < |t| {
          AppendedUnder(t, rest, i, cs, parent);
        } else {
          PrependedUnder(t, rest, i - |t|, cs, parent);
        }
      }
    }
  }

  /** An entry of the first tree keeps its link when the rest of the forest
      follows it. */
  lemma AppendedUnder(t: seq<FlatElement>, rest: seq<FlatElement>, i: int, cs: seq<Element>, parent: Parent)
    requires cs != [] && TreeLinkedUnder(t, parent) && t[0].el == cs[0]
    requires 0 <= i < |t|
    ensures Linked(t + rest, i, cs, parent)
  {
    var r := t + rest;
    assert r[i] == t[i];
    if i > 0 {
      assert HasParentBefore(t, i);
      var j :| 0 <= j < i && PlacedUnder(t, i, j);
      assert r[j] == t[j];
      assert PlacedUnder(r, i, j);
    }
  }

  /** An entry of the later trees keeps its link when the first tree is put
      in front of it. */
  lemma PrependedUnder(t: seq<FlatElement>, rest: seq<FlatElement>, k: int, cs: seq<Element>, parent: Parent)
    requires cs != [] && 0 <= k < |rest| && Linked(rest, k, cs[1..], parent)
    ensures Linked(t + rest, k + |t|, cs, parent)
  {
    var r := t + rest;
    var i := k + |t|;
    assert r[i] == rest[k];
    if rest[k].el in cs[1..] && PlacedAt(rest[k], parent) {
      assert rest[k].el in cs;
    } else {
      var j :| 0 <= j < k && PlacedUnder(rest, k, j);
      assert r[j + |t|] == rest[j];
      assert PlacedUnder(r, i, j + |t|);
    }
  }

  /** `getCenterXY`: the first centre is pinned to the viewport midpoint, the
      others stay where their resolved coordinates put them. */
  function CenterOrigin(center: Center, index: nat, width: real, height: real): (p: Point)
    ensures index == 0 ==> p == Point(width / 2.0, height / 2.0)
    ensures index != 0 ==> p == Point(center.x, center.y)
  {
    if index == 0 then Point(width / 2.0, height / 2.0) else Point(center.x, center.y)
  }

  /** The parent context a centre's root elements are flattened in. */
  function CenterParent(center: Center, index: nat, width: real, height: real): Parent
  {
    var origin := CenterOrigin(center, index, width, height);
    Parent(origin.x, origin.y, center.color, center.id)
  }

  /** The flattened elements of one centre, at position `index` in the list. */
  function CenterElements(center: Center, index: nat, width: real, height: real, isMobile: bool): (r: seq<FlatElement>)
    ensures |r| == ForestSize(center.elements)
    ensures forall i :: 0 <= i < |r| ==> WellResolved(r[i], center.id, width, isMobile)
  {
    FlattenForest(center.elements, CenterParent(center, index, width, height), width, isMobile)
  }

  /** Every element of a centre's layout either is a root element of the
      centre, offset from the centre's origin (the viewport midpoint for the
      first centre, the centre's own position otherwise), or sits under an
      earlier entry; all of them carry the centre's id. */
  lemma CenterLayout(center: Center, index: nat, width: real, height: real, isMobile: bool)
    ensures var r := CenterElements(center, index, width, height, isMobile);
      && ForestLinked(r, center.elements, CenterParent(center, index, width, height))
      && (forall i :: 0 <= i < |r| ==> r[i].centerId == center.id)
      && (index == 0 ==> forall i :: 0 <= i < |r| && r[i].el in center.elements && PlacedAt(r[i], CenterParent(center, index, width, height)) ==>
                           r[i].absX == width / 2.0 + r[i].el.x && r[i].absY == height / 2.0 + r[i].el.y)
      && (index != 0 ==> forall i :: 0 <= i < |r| && r[i].el in center.elements && PlacedAt(r[i], CenterParent(center, index, width, height)) ==>
                           r[i].absX == center.x + r[i].el.x && r[i].absY == center.y + r[i].el.y)
  {
    ForestLinkedLemma(center.elements, CenterParent(center, index, width, height), width, isMobile);
  }

  /** `flattenedElements`: each centre's layout in centre order (the list of
      global items the source appends is always empty). */
  function FlattenedElements(centers: seq<Center>, width: real, height: real, isMobile: bool): (r: seq<FlatElement>)
    ensures forall i :: 0 <= i < |r| ==> exists c :: c in centers && r[i].centerId == c.id
  {
    FlattenedFrom(centers, 0, width, height, isMobile)
  }

  function FlattenedFrom(centers: seq<Center>, k: nat, width: real, height: real, isMobile: bool): (r: seq<FlatElement>)
    requires k <= |centers|
    decreases |centers| - k
    ensures forall i :: 0 <= i < |r| ==> exists c :: c in centers[k..] && r[i].centerId == c.id
  {
    if k == |centers| then []
    else
      var own := CenterElements(centers[k], k, width, height, isMobile);
      var rest := FlattenedFrom(centers, k + 1, width, height, isMobile);
      assert forall i :: 0 <= i < |own| ==> own[i].centerId == centers[k].id;
      assert forall c :: c in centers[k + 1..] ==> c in centers[k..];
      own + rest
  }

  /** An element's drawn box (its `foreignObject`). */
  datatype Box = Box(x: real, y: real, width: real, height: real)

  /** The width and height drawn for an element of each kind when its own are
      unset or zero; nothing is drawn for an unknown kind. */
  function FallbackSize(kind: Kind): (size: Option<(real, real)>)
    ensures size.None? <==> kind.OtherKind?
    ensures size.Some? ==> size.value.0 > 0.0 && size.value.1 > 0.0
  {
    match kind
    case ImageElement => Some((300.0, 300.0))
    case ButtonElement => Some((120.0, 50.0))
    case TitleElement => Some((300.0, 50.0))
    case DescriptionElement => Some((300.0, 200.0))
    case VideoElement => Some((320.0, 240.0))
    case OtherKind(_) => None
  }

  /** The box an entry of the sorted list is drawn in, if any: its top-left
      corner is the absolute position minus half the own size (unset counts
      as zero), its size is the own size or the kind's fallback. An image
      without an asset and an element of unknown kind are not drawn. */
  function RenderBox(e: FlatElement): (b: Option<Box>)
    ensures b.None? <==> e.el.kind.OtherKind? || (e.el.kind == ImageElement && e.el.src.None?)
    ensures b.Some? ==>
              && b.value.x == e.absX - NumberOr(e.width, 0.0) / 2.0
              && b.value.y == e.absY - NumberOr(e.height, 0.0) / 2.0
              && b.value.width == NumberOr(e.width, FallbackSize(e.el.kind).value.0)
              && b.value.height == NumberOr(e.height, FallbackSize(e.el.kind).value.1)
  {
    var x := e.absX - NumberOr(e.width, 0.0) / 2.0;
    var y := e.absY - NumberOr(e.height, 0.0) / 2.0;
    match FallbackSize(e.el.kind)
    case None => None
    case Some(fallback) =>
      if e.el.kind == ImageElement && e.el.src.None? then None
      else Some(Box(x, y, NumberOr(e.width, fallback.0), NumberOr(e.height, fallback.1)))
  }

  /** A drawn box is centred on the element's absolute position along each
      axis whose size is set, and starts at that position along an axis whose
      size is unset. */
  lemma RenderBoxAnchoring(e: FlatElement)
    requires RenderBox(e).Some?
    ensures var b := RenderBox(e).value;
      && (TruthyNumber(e.width) ==> b.x + b.width / 2.0 == e.absX)
      && (!TruthyNumber(e.width) ==> b.x == e.absX)
      && (TruthyNumber(e.height) ==> b.y + b.height / 2.0 == e.absY)
      && (!TruthyNumber(e.height) ==> b.y == e.absY)
  {
  }
}
