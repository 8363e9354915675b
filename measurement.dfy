/** The two-pass measurement latch of the canvas (src/app/threeCanvas.js):
    the first render lays elements out with the sizes the content store
    gives; a deferred pass then reads each rendered box back from the page
    and stores it on the root elements and their direct children, once,
    until the window is resized. The page is modelled by a `Measure` oracle. */
module Measurement {
  import opened Base
  import opened Content
  import opened TreeLayout
  import opened DrawOrder

  /** `document.getElementById(id)?.getBoundingClientRect()`: the width and
      height of the rendered node with that id, if there is one. */
  type Measure = string -> Option<(real, real)>

  /** A direct child: `{...child, width, height}` when its node is on the
      page, the child itself otherwise. Its own children are not touched. */
  function MeasureChild(child: Element, measure: Measure): (c: Element)
    ensures measure(child.id).Some? ==>
      c == child.(width := Some(measure(child.id).value.0), height := Some(measure(child.id).value.1))
    ensures measure(child.id).None? ==> c == child
  {
    match measure(child.id)
    case Some(box) => child.(width := Some(box.0), height := Some(box.1))
    case None => child
  }

  /** A root element: its width and height become the measured box (`??`
      keeps the old value when the node is missing), its direct children are
      measured the same way, and an absent child list becomes `[]`. */
  function MeasureRoot(el: Element, measure: Measure): (m: Element)
    ensures m.id == el.id && m.kind == el.kind && m.x == el.x && m.y == el.y
    ensures m.color == el.color && m.src == el.src
    ensures m.width == (if measure(el.id).Some? then Some(measure(el.id).value.0) else el.width)
    ensures m.height == (if measure(el.id).Some? then Some(measure(el.id).value.1) else el.height)
    ensures m.childElements.Listed? && |m.childElements.items| == |Children(el)|
    ensures forall j :: 0 <= j < |Children(el)| ==>
      m.childElements.items[j] == MeasureChild(Children(el)[j], measure)
  {
    var box := measure(el.id);
    var cs := Children(el);
    el.(childElements := Listed(seq(|cs|, j requires 0 <= j < |cs| => MeasureChild(cs[j], measure))),
        width := if box.Some? then Some(box.value.0) else el.width,
        height := if box.Some? then Some(box.value.1) else el.height)
  }

  /** One centre: every field kept, its root elements measured in order. */
  function MeasureCenter(center: Center, measure: Measure): (c: Center)
    ensures c.id == center.id && c.color == center.color && c.x == center.x && c.y == center.y
    ensures c.connections == center.connections
    ensures |c.elements| == |center.elements|
    ensures forall i :: 0 <= i < |c.elements| ==> c.elements[i] == MeasureRoot(center.elements[i], measure)
  {
    var els := center.elements;
    center.(elements := seq(|els|, i requires 0 <= i < |els| => MeasureRoot(els[i], measure)))
  }

  /** `_centers.map(...)`: the centres in order, each measured. */
  function MeasureCenters(centers: seq<Center>, measure: Measure): (r: seq<Center>)
    ensures |r| == |centers|
    ensures forall i :: 0 <= i < |r| ==> r[i] == MeasureCenter(centers[i], measure)
  {
    seq(|centers|, i requires 0 <= i < |centers| => MeasureCenter(centers[i], measure))
  }

  /** Reading the boxes back a second time from an unchanged page changes
      nothing: measured sizes are the page's, and child lists are already
      present. */
  lemma MeasureCentersIdempotent(centers: seq<Center>, measure: Measure)
    ensures MeasureCenters(MeasureCenters(centers, measure), measure) == MeasureCenters(centers, measure)
  {
    var once := MeasureCenters(centers, measure);
    forall i | 0 <= i < |centers|
      ensures MeasureCenter(once[i], measure) == once[i]
    {
      var c := once[i];
      forall k | 0 <= k < |c.elements|
        ensures MeasureRoot(c.elements[k], measure) == c.elements[k]
      {
        var el := c.elements[k];
        var again := MeasureRoot(el, measure);
        assert again.childElements.items == el.childElements.items;
      }
      assert MeasureCenter(c, measure).elements == c.elements;
    }
  }

  /** Two trees with the same ids, offsets and colours node by node (sizes may
      differ, and an absent child list matches an empty one). */
  predicate Congruent(a: Element, b: Element)
    decreases a, 1
  {
    && a.id == b.id && a.x == b.x && a.y == b.y && a.color == b.color
    && match a.childElements
       case Missing => Children(b) == []
       case Listed(cs) => CongruentForest(cs, Children(b))
  }

  predicate CongruentForest(cs: seq<Element>, ds: seq<Element>)
    decreases cs, 0
  {
    |cs| == |ds| && forall j :: 0 <= j < |cs| ==> Congruent(cs[j], ds[j])
  }

  /** What measurement must not change about a laid-out node: which element
      it is, its anchor position, its colour and its centre. */
  function Anchor(e: FlatElement): (string, real, real, string, string)
  {
    (e.el.id, e.absX, e.absY, e.color, e.centerId)
  }

  function Anchors(r: seq<FlatElement>): (a: seq<(string, real, real, string, string)>)
    ensures |a| == |r|
    ensures forall i :: 0 <= i < |r| ==> a[i] == Anchor(r[i])
  {
    if r == [] then [] else [Anchor(r[0])] + Anchors(r[1..])
  }

  lemma {:induction false} AnchorsAppend(a: seq<FlatElement>, b: seq<FlatElement>)
    ensures Anchors(a + b) == Anchors(a) + Anchors(b)
  {
    assert |Anchors(a + b)| == |Anchors(a) + Anchors(b)|;
    forall i | 0 <= i < |a + b|
      ensures Anchors(a + b)[i] == (Anchors(a) + Anchors(b))[i]
    {
      if i < |a| {
        assert (a + b)[i] == a[i];
      } else {
        assert (a + b)[i] == b[i - |a|];
      }
    }
  }

  /** A tree flattens to its resolved node followed by its children's
      flattening, an absent child list included. */
  lemma TreeUnfolds(el: Element, parent: Parent, windowWidth: real, isMobile: bool)
    ensures var base := Resolve(el, parent, windowWidth, isMobile);
      FlattenTree(el, parent, windowWidth, isMobile) ==
        [base] + FlattenForest(Children(el), Parent(base.absX, base.absY, Some(base.color), parent.id), windowWidth, isMobile)
  {
  }

  /** Congruent trees are drawn at the same places in the same colours,
      whatever their sizes. */
  lemma {:induction false} TreeAnchors(a: Element, b: Element, parent: Parent, windowWidth: real, isMobile: bool)
    requires Congruent(a, b)
    decreases a, 1
    ensures Anchors(FlattenTree(a, parent, windowWidth, isMobile)) == Anchors(FlattenTree(b, parent, windowWidth, isMobile))
  {
    var baseA := Resolve(a, parent, windowWidth, isMobile);
    var baseB := Resolve(b, parent, windowWidth, isMobile);
    assert Anchor(baseA) == Anchor(baseB);
    var ctx := Parent(baseA.absX, baseA.absY, Some(baseA.color), parent.id);
    assert ctx == Parent(baseB.absX, baseB.absY, Some(baseB.color), parent.id);
    TreeUnfolds(a, parent, windowWidth, isMobile);
    TreeUnfolds(b, parent, windowWidth, isMobile);
    match a.childElements
    case Missing =>
      assert Children(b) == [];
    case Listed(cs) =>
      ForestAnchors(cs, Children(b), ctx, windowWidth, isMobile);
    AnchorsAppend([baseA], FlattenForest(Children(a), ctx, windowWidth, isMobile));
    AnchorsAppend([baseB], FlattenForest(Children(b), ctx, windowWidth, isMobile));
  }

  lemma {:induction false} ForestAnchors(cs: seq<Element>, ds: seq<Element>, parent: Parent, windowWidth: real, isMobile: bool)
    requires CongruentForest(cs, ds)
    decreases cs, 0
    ensures Anchors(FlattenForest(cs, parent, windowWidth, isMobile)) == Anchors(FlattenForest(ds, parent, windowWidth, isMobile))
  {
    if cs != [] {
      TreeAnchors(cs[0], ds[0], parent, windowWidth, isMobile);
      assert CongruentForest(cs[1..], ds[1..]) by {
        forall j | 0 <= j < |cs[1..]|
          ensures Congruent(cs[1..][j], ds[1..][j])
        {
          assert cs[1..][j] == cs[j + 1] && ds[1..][j] == ds[j + 1];
        }
      }
      ForestAnchors(cs[1..], ds[1..], parent, windowWidth, isMobile);
      AnchorsAppend(FlattenTree(cs[0], parent, windowWidth, isMobile), FlattenForest(cs[1..], parent, windowWidth, isMobile));
      AnchorsAppend(FlattenTree(ds[0], parent, windowWidth, isMobile), FlattenForest(ds[1..], parent, windowWidth, isMobile));
    }
  }

  /** Every tree is congruent to itself. */
  lemma {:induction false} CongruentRefl(el: Element)
    decreases el, 1
    ensures Congruent(el, el)
  {
    match el.childElements
    case Missing =>
    case Listed(cs) =>
      CongruentForestRefl(cs);
  }

  lemma {:induction false} CongruentForestRefl(cs: seq<Element>)
    decreases cs, 0
    ensures CongruentForest(cs, cs)
  {
    forall j | 0 <= j < |cs|
      ensures Congruent(cs[j], cs[j])
    {
      CongruentRefl(cs[j]);
    }
  }

  /** A measured root is congruent to the element it was measured from:
      measurement only writes sizes. */
  lemma {:induction false} MeasuredRootCongruent(el: Element, measure: Measure)
    ensures Congruent(el, MeasureRoot(el, measure))
  {
    var m := MeasureRoot(el, measure);
    var cs := Children(el);
    forall j | 0 <= j < |cs|
      ensures Congruent(cs[j], m.childElements.items[j])
    {
      var c := cs[j];
      var mc := MeasureChild(c, measure);
      assert Children(mc) == Children(c);
      match c.childElements
      case Missing =>
      case Listed(gs) =>
        CongruentForestRefl(gs);
    }
    assert CongruentForest(cs, Children(m));
  }

  /** Measuring a centre never changes an element's id, anchor position
      (`absX`/`absY`), colour, centre or order in the centre's layout. Only
      sizes change, and with them the drawn box's corner, which
      `RenderBoxAnchoring` places relative to the same anchor. */
  lemma MeasurementKeepsLayout(center: Center, index: nat, width: real, height: real, isMobile: bool, measure: Measure)
    ensures Anchors(CenterElements(MeasureCenter(center, measure), index, width, height, isMobile)) ==
            Anchors(CenterElements(center, index, width, height, isMobile))
  {
    var m := MeasureCenter(center, measure);
    forall j | 0 <= j < |center.elements|
      ensures Congruent(center.elements[j], m.elements[j])
    {
      MeasuredRootCongruent(center.elements[j], measure);
    }
    assert CenterParent(m, index, width, height) == CenterParent(center, index, width, height);
    ForestAnchors(center.elements, m.elements, CenterParent(center, index, width, height), width, isMobile);
  }

  /** The canvas component's state. `props` is the `_centers` it was given;
      `centers` is what it draws. */
  class Canvas {
    const props: seq<Center>
    var centers: seq<Center>
    var hasMeasured: bool
    var width: real
    var height: real
    var isMobile: bool

    /** The first render with its mount effects: state starts from the props,
        nothing is measured yet, and the breakpoint is read from the
        viewport. */
    constructor(props: seq<Center>, width: real, height: real)
      ensures this.props == props && centers == props && !hasMeasured
      ensures this.width == width && this.height == height && isMobile == IsMobile(width)
    {
      this.props := props;
      centers := props;
      hasMeasured := false;
      this.width := width;
      this.height := height;
      isMobile := IsMobile(width);
    }

    /** A window resize: the viewport and breakpoint follow the window, and
        the latch opens so the next pass measures again. */
    method Resize(width: real, height: real)
      modifies this
      ensures this.width == width && this.height == height && isMobile == IsMobile(width)
      ensures !hasMeasured && centers == old(centers)
    {
      this.width := width;
      this.height := height;
      isMobile := IsMobile(width);
      hasMeasured := false;
    }

    /** The deferred measurement pass: nothing happens without centres or
        once measured; otherwise the props are measured into `centers` and
        the latch closes. */
    method MeasurePass(measure: Measure)
      modifies this
      ensures old(|props| == 0 || hasMeasured) ==> centers == old(centers) && hasMeasured == old(hasMeasured)
      ensures !old(|props| == 0 || hasMeasured) ==> centers == MeasureCenters(props, measure) && hasMeasured
      ensures width == old(width) && height == old(height) && isMobile == old(isMobile)
    {
      if |props| == 0 || hasMeasured {
        return;
      }
      centers := MeasureCenters(props, measure);
      hasMeasured := true;
    }

    /** `flattenedElements` for the current state. */
    function Flattened(): (r: seq<FlatElement>)
      reads this
      ensures forall i :: 0 <= i < |r| ==> exists c :: c in centers && r[i].centerId == c.id
    {
      FlattenedElements(centers, width, height, isMobile)
    }

    /** `sortedElements`: the draw order of the current state. */
    function SortedElements(): (r: seq<FlatElement>)
      reads this
      ensures Sorted(r)
      ensures multiset(r) == multiset(Flattened())
      ensures forall k :: WithKey(r, k) == WithKey(Flattened(), k)
    {
      SortByPriority(Flattened())
    }
  }
}
