/** Connection routing (`drawPipePath` in src/app/threeCanvas.js): two
    endpoints are looked up by id in a flattened element list and joined by
    an L-shaped path whose single corner is rounded. The d3 path builder is
    modelled by the list of commands it receives. */
module PipeRouter {
  import opened Base
  import opened Content
  import opened TreeLayout

  /** `RADIUS`: the largest corner radius. */
  const MaxRadius: real := 50.0

  /** The calls made on the d3 path builder. */
  datatype PathCommand =
    | MoveTo(to: Point)
    | LineTo(to: Point)
    | ArcTo(corner: Point, toward: Point, radius: real)

  /** `elements.find(el => el.id === id)`: the first element with that id. */
  function Find(elements: seq<FlatElement>, id: string): (r: Option<FlatElement>)
    ensures r.None? <==> forall k :: 0 <= k < |elements| ==> elements[k].el.id != id
    ensures r.Some? ==> r.value.el.id == id && r.value in elements
  {
    if elements == [] then None
    else if elements[0].el.id == id then Some(elements[0])
    else
      var r := Find(elements[1..], id);
      assert forall k :: 1 <= k < |elements| ==> elements[k] == elements[1..][k - 1];
      assert r.Some? ==> r.value in elements[1..];
      r
  }

  /** `Find` returns the element at the first index carrying the id. */
  lemma {:induction false} FindIsFirst(elements: seq<FlatElement>, id: string, k: nat)
    requires k < |elements| && elements[k].el.id == id
    ensures Find(elements, id) == Some(elements[FirstIndex(elements, id)])
  {
    if elements[0].el.id != id {
      assert elements[1..][k - 1].el.id == id;
      FindIsFirst(elements[1..], id, k - 1);
      assert elements[1..][FirstIndex(elements[1..], id)] == elements[1 + FirstIndex(elements[1..], id)];
    }
  }

  /** The index of the first element with the given id. */
  function FirstIndex(elements: seq<FlatElement>, id: string): (k: nat)
    requires exists k :: 0 <= k < |elements| && elements[k].el.id == id
    ensures k < |elements| && elements[k].el.id == id
    ensures forall m :: 0 <= m < k ==> elements[m].el.id != id
  {
    if elements[0].el.id == id then 0
    else
      var k :| 0 <= k < |elements| && elements[k].el.id == id;
      assert elements[1..][k - 1].el.id == id;
      1 + FirstIndex(elements[1..], id)
  }

  /** An id names an element with a position. (Flattened elements always
      carry numeric `absX`/`absY`, so the source's null check never fails.) */
  predicate Resolvable(elements: seq<FlatElement>, id: string)
  {
    Find(elements, id).Some?
  }

  function PositionOf(elements: seq<FlatElement>, id: string): Point
    requires Resolvable(elements, id)
  {
    var e := Find(elements, id).value;
    Point(e.absX, e.absY)
  }

  /** `points`: the positions of the ids that resolve, in id order. */
  function Points(elements: seq<FlatElement>, ids: seq<string>): (r: seq<Point>)
    ensures |r| <= |ids|
  {
    if ids == [] then []
    else if Resolvable(elements, ids[0]) then [PositionOf(elements, ids[0])] + Points(elements, ids[1..])
    else Points(elements, ids[1..])
  }

  /** The first index at or after `from` whose id resolves, or `|ids|`. */
  function NextResolvable(elements: seq<FlatElement>, ids: seq<string>, from: nat): (i: nat)
    requires from <= |ids|
    decreases |ids| - from
    ensures from <= i <= |ids|
    ensures i < |ids| ==> Resolvable(elements, ids[i])
    ensures forall m :: from <= m < i ==> !Resolvable(elements, ids[m])
  {
    if from == |ids| || Resolvable(elements, ids[from]) then from
    else NextResolvable(elements, ids, from + 1)
  }

  /** The points of a suffix of the ids start with the first id in it that
      resolves. */
  lemma {:induction false} PointsFrom(elements: seq<FlatElement>, ids: seq<string>, from: nat)
    requires from <= |ids|
    ensures var i := NextResolvable(elements, ids, from);
      Points(elements, ids[from..]) ==
        if i < |ids| then [PositionOf(elements, ids[i])] + Points(elements, ids[i + 1..]) else []
    decreases |ids| - from
  {
    if from < |ids| {
      assert ids[from..][0] == ids[from] && ids[from..][1..] == ids[from + 1..];
      if !Resolvable(elements, ids[from]) {
        PointsFrom(elements, ids, from + 1);
      }
    }
  }

  /** `const [start, end] = points`, or nothing when a path is not drawn. */
  function Endpoints(elements: seq<FlatElement>, ids: seq<string>): (r: Option<(Point, Point)>)
    ensures r.Some? ==> |ids| >= 2 && |Points(elements, ids)| >= 2
  {
    if |ids| < 2 then None
    else
      var points := Points(elements, ids);
      if |points| < 2 then None else Some((points[0], points[1]))
  }

  /** The endpoints are the positions of the first two ids that resolve, in
      list order; there are none exactly when fewer than two ids resolve. */
  lemma EndpointsAreFirstTwo(elements: seq<FlatElement>, ids: seq<string>)
    ensures var i := NextResolvable(elements, ids, 0);
      var j := if i < |ids| then NextResolvable(elements, ids, i + 1) else |ids|;
      Endpoints(elements, ids) ==
        if j < |ids| then Some((PositionOf(elements, ids[i]), PositionOf(elements, ids[j]))) else None
  {
    var i := NextResolvable(elements, ids, 0);
    PointsFrom(elements, ids, 0);
    assert ids[0..] == ids;
    if i < |ids| {
      PointsFrom(elements, ids, i + 1);
    }
  }

  /** The corner of the L: `(x2, y1)` when the horizontal distance is the
      larger one, `(x1, y2)` otherwise. */
  function Bend(start: Point, end: Point): (b: Point)
    ensures AxisAligned(start, b) && AxisAligned(b, end)
    ensures b == Point(end.x, start.y) || b == Point(start.x, end.y)
  {
    if Abs(end.x - start.x) > Abs(end.y - start.y) then Point(end.x, start.y) else Point(start.x, end.y)
  }

  /** Both legs of the L are axis-aligned. */
  predicate AxisAligned(a: Point, b: Point)
  {
    a.x == b.x || a.y == b.y
  }

  /** `Math.hypot(dx, dy)` on an axis-aligned leg. */
  function LegLength(a: Point, b: Point): (len: real)
    requires AxisAligned(a, b)
    ensures len >= 0.0 && (len == 0.0 <==> a == b)
    ensures len * len == (b.x - a.x) * (b.x - a.x) + (b.y - a.y) * (b.y - a.y)
  {
    Abs(b.x - a.x) + Abs(b.y - a.y)
  }

  /** A corner the loop can round: both legs axis-aligned and not empty. */
  predicate RoundableCorner(prev: Point, curr: Point, next: Point)
  {
    AxisAligned(prev, curr) && AxisAligned(curr, next) && prev != curr && curr != next
  }

  /** `Math.min(RADIUS, len1 / 2, len2 / 2)`. */
  function CornerRadius(prev: Point, curr: Point, next: Point): (r: real)
    requires RoundableCorner(prev, curr, next)
    ensures 0.0 < r <= MaxRadius
  {
    Min(Min(MaxRadius, LegLength(prev, curr) / 2.0), LegLength(curr, next) / 2.0)
  }

  function Sign(r: real): real
  {
    if r < 0.0 then -1.0 else if r == 0.0 then 0.0 else 1.0
  }

  /** A component of the unit vector of a leg, `d / len`. */
  function Unit(d: real, len: real): real
    requires len != 0.0
  {
    d / len
  }

  /** Along one axis, `d / |d|` is the sign of `d`. */
  lemma UnitAlong(d: real, len: real)
    requires len == Abs(d) && len != 0.0
    ensures Unit(d, len) == Sign(d)
  {
    if d < 0.0 {
      assert len == -d;
      assert d / len == -1.0;
    } else {
      assert len == d;
    }
  }

  /** On an axis-aligned leg the unit vector `(dx / len, dy / len)` of the
      source is the pair of signs of `dx` and `dy`. */
  lemma UnitDirection(dx: real, dy: real)
    requires dx == 0.0 || dy == 0.0
    requires Abs(dx) + Abs(dy) != 0.0
    ensures Unit(dx, Abs(dx) + Abs(dy)) == Sign(dx)
    ensures Unit(dy, Abs(dx) + Abs(dy)) == Sign(dy)
  {
    var len := Abs(dx) + Abs(dy);
    if dx == 0.0 {
      assert len == Abs(dy);
      UnitAlong(dy, len);
    } else {
      assert len == Abs(dx);
      UnitAlong(dx, len);
    }
  }

  /** The point `r` before `curr` on the leg from `prev`. */
  function Entry(prev: Point, curr: Point, next: Point): Point
    requires RoundableCorner(prev, curr, next)
  {
    var dx1, dy1 := curr.x - prev.x, curr.y - prev.y;
    var len1 := LegLength(prev, curr);
    var r := CornerRadius(prev, curr, next);
    Point(curr.x - Unit(dx1, len1) * r, curr.y - Unit(dy1, len1) * r)
  }

  /** The point `r` after `curr` on the leg to `next`. */
  function Exit(prev: Point, curr: Point, next: Point): Point
    requires RoundableCorner(prev, curr, next)
  {
    var dx2, dy2 := next.x - curr.x, next.y - curr.y;
    var len2 := LegLength(curr, next);
    var r := CornerRadius(prev, curr, next);
    Point(curr.x + Unit(dx2, len2) * r, curr.y + Unit(dy2, len2) * r)
  }

  /** What one iteration of the corner loop adds to the path. */
  function CornerCommands(prev: Point, curr: Point, next: Point): seq<PathCommand>
    requires RoundableCorner(prev, curr, next)
  {
    [LineTo(Entry(prev, curr, next)), ArcTo(curr, Exit(prev, curr, next), CornerRadius(prev, curr, next))]
  }

  predicate RoundableChain(segments: seq<Point>, n: nat)
    requires n < |segments|
  {
    forall k :: 1 <= k < n ==> RoundableCorner(segments[k - 1], segments[k], segments[k + 1])
  }

  /** The commands the loop has added once it has rounded the corners before
      index `n`. */
  function Corners(segments: seq<Point>, n: nat): seq<PathCommand>
    requires 1 <= n < |segments| && RoundableChain(segments, n)
  {
    if n == 1 then []
    else Corners(segments, n - 1) + CornerCommands(segments[n - 2], segments[n - 1], segments[n])
  }

  /** The two endpoints give legs with a length: they differ along both axes. */
  predicate NonDegenerate(start: Point, end: Point)
  {
    start.x != end.x && start.y != end.y
  }

  /** The path between two endpoints: move to the start, line to the entry
      of the corner, arc through the bend to its exit, line to the end. */
  function PipeCommands(start: Point, end: Point): (path: seq<PathCommand>)
    requires NonDegenerate(start, end)
    ensures |path| == 4 && path[0] == MoveTo(start) && path[3] == LineTo(end)
    ensures path[2].ArcTo? && path[2].corner == Bend(start, end)
  {
    var bend := Bend(start, end);
    [MoveTo(start)] + CornerCommands(start, bend, end) + [LineTo(end)]
  }

  /** A connection whose endpoints, if found, do not lie on one axis. */
  predicate Routable(elements: seq<FlatElement>, ids: seq<string>)
  {
    match Endpoints(elements, ids)
    case None => true
    case Some(pq) => NonDegenerate(pq.0, pq.1)
  }

  /** The path `drawPipePath` draws; the empty list stands for `""`. */
  function PipePath(elements: seq<FlatElement>, ids: seq<string>): (path: seq<PathCommand>)
    requires Routable(elements, ids)
    ensures path == [] <==> Endpoints(elements, ids).None?
    ensures path != [] ==>
      && path[0] == MoveTo(Endpoints(elements, ids).value.0)
      && path[|path| - 1] == LineTo(Endpoints(elements, ids).value.1)
  {
    match Endpoints(elements, ids)
    case None => []
    case Some(pq) => PipeCommands(pq.0, pq.1)
  }

  /** `drawPipePath(elements, ids)`: look up the endpoints, then build the
      rounded path between them. */
  method DrawPipePath(elements: seq<FlatElement>, ids: seq<string>) returns (path: seq<PathCommand>)
    requires Routable(elements, ids)
    ensures path == PipePath(elements, ids)
  {
    if |ids| < 2 {
      return [];
    }
    var points := Points(elements, ids);
    if |points| < 2 {
      return [];
    }
    path := BuildPipe(points[0], points[1]);
  }

  /** The path-builder half of `drawPipePath`: move to the start, round the
      interior corner of `segments` in a loop, line to the end. */
  method BuildPipe(start: Point, end: Point) returns (path: seq<PathCommand>)
    requires NonDegenerate(start, end)
    ensures path == PipeCommands(start, end)
  {
    path := [MoveTo(start)];
    var horizontalFirst := Abs(end.x - start.x) > Abs(end.y - start.y);
    var mid := if horizontalFirst then Point(end.x, start.y) else Point(start.x, end.y);
    var segments := [start, mid, end];
    var i := 1;
    while i < |segments| - 1
      invariant 1 <= i <= |segments| - 1
      invariant RoundableChain(segments, |segments| - 1)
      invariant path == [MoveTo(start)] + Corners(segments, i)
    {
      var prev, curr, next := segments[i - 1], segments[i], segments[i + 1];
      var r := CornerRadius(prev, curr, next);
      var entry := Entry(prev, curr, next);
      var exit := Exit(prev, curr, next);
      assert Corners(segments, i + 1) == Corners(segments, i) + CornerCommands(prev, curr, next);
      path := path + [LineTo(entry), ArcTo(curr, exit, r)];
      i := i + 1;
    }
    assert mid == Bend(start, end);
    assert Corners(segments, 2) == CornerCommands(start, mid, end);
    path := path + [LineTo(end)];
  }

  /** The bend is `(x2, y1)` exactly when the horizontal distance is the
      larger, and `(x1, y2)` otherwise; both legs of the L are axis-aligned,
      and they both have a length exactly when the endpoints differ along
      both axes. */
  lemma BendChoice(start: Point, end: Point)
    ensures AxisAligned(start, Bend(start, end)) && AxisAligned(Bend(start, end), end)
    ensures NonDegenerate(start, end) ==>
      (Bend(start, end) == Point(end.x, start.y) <==> Abs(end.x - start.x) > Abs(end.y - start.y))
    ensures RoundableCorner(start, Bend(start, end), end) <==> NonDegenerate(start, end)
  {
  }

  /** `r` is positive, at most `RADIUS`, at most half of either leg, and equal
      to one of the three. */
  lemma RadiusBounds(prev: Point, curr: Point, next: Point)
    requires RoundableCorner(prev, curr, next)
    ensures var r := CornerRadius(prev, curr, next);
      && 0.0 < r <= MaxRadius
      && r <= LegLength(prev, curr) / 2.0 && r <= LegLength(curr, next) / 2.0
      && (r == MaxRadius || r == LegLength(prev, curr) / 2.0 || r == LegLength(curr, next) / 2.0)
  {
  }

  /** Stepping `r` from `c` back towards `p`, along an axis-aligned leg at
      least `2r` long, lands on the leg, `r` from `c`. */
  lemma {:induction false} StepBack(p: Point, c: Point, r: real)
    requires AxisAligned(p, c) && 0.0 < r && 2.0 * r <= LegLength(p, c)
    ensures var e := Point(c.x - Sign(c.x - p.x) * r, c.y - Sign(c.y - p.y) * r);
      && AxisAligned(p, e) && AxisAligned(e, c)
      && LegLength(e, c) == r && LegLength(p, e) == LegLength(p, c) - r
  {
    var e := Point(c.x - Sign(c.x - p.x) * r, c.y - Sign(c.y - p.y) * r);
    if c.x == p.x {
      assert e.x == c.x;
      if c.y < p.y { assert e.y == c.y + r; } else { assert e.y == c.y - r; }
    } else {
      assert c.y == p.y && e.y == c.y;
      if c.x < p.x { assert e.x == c.x + r; } else { assert e.x == c.x - r; }
    }
  }

  /** Stepping `r` from `c` towards `n`, along an axis-aligned leg at least
      `2r` long, lands on the leg, `r` from `c`. */
  lemma {:induction false} StepForward(c: Point, n: Point, r: real)
    requires AxisAligned(c, n) && 0.0 < r && 2.0 * r <= LegLength(c, n)
    ensures var e := Point(c.x + Sign(n.x - c.x) * r, c.y + Sign(n.y - c.y) * r);
      && AxisAligned(c, e) && AxisAligned(e, n)
      && LegLength(c, e) == r && LegLength(e, n) == LegLength(c, n) - r
  {
    var e := Point(c.x + Sign(n.x - c.x) * r, c.y + Sign(n.y - c.y) * r);
    if c.x == n.x {
      assert e.x == c.x;
      if n.y < c.y { assert e.y == c.y - r; } else { assert e.y == c.y + r; }
    } else {
      assert c.y == n.y && e.y == c.y;
      if n.x < c.x { assert e.x == c.x - r; } else { assert e.x == c.x + r; }
    }
  }

  /** Entry in terms of the leg's direction: `(dx1 / len1, dy1 / len1)` is the
      pair of signs. */
  lemma EntryBySign(prev: Point, curr: Point, next: Point)
    requires RoundableCorner(prev, curr, next)
    ensures var r := CornerRadius(prev, curr, next);
      Entry(prev, curr, next) == Point(curr.x - Sign(curr.x - prev.x) * r, curr.y - Sign(curr.y - prev.y) * r)
  {
    var dx, dy := curr.x - prev.x, curr.y - prev.y;
    var len := LegLength(prev, curr);
    UnitDirection(dx, dy);
    assert Unit(dx, len) == Sign(dx) && Unit(dy, len) == Sign(dy);
  }

  /** Exit in terms of the leg's direction. */
  lemma ExitBySign(prev: Point, curr: Point, next: Point)
    requires RoundableCorner(prev, curr, next)
    ensures var r := CornerRadius(prev, curr, next);
      Exit(prev, curr, next) == Point(curr.x + Sign(next.x - curr.x) * r, curr.y + Sign(next.y - curr.y) * r)
  {
    var dx, dy := next.x - curr.x, next.y - curr.y;
    var len := LegLength(curr, next);
    UnitDirection(dx, dy);
    assert Unit(dx, len) == Sign(dx) && Unit(dy, len) == Sign(dy);
  }

  /** The entry point lies on the leg from `prev` to `curr`, `r` before the
      corner: it steps back from `curr` by `r` against the leg's direction. */
  lemma {:induction false} EntryOnLeg(prev: Point, curr: Point, next: Point)
    requires RoundableCorner(prev, curr, next)
    ensures var r, e := CornerRadius(prev, curr, next), Entry(prev, curr, next);
      && AxisAligned(prev, e) && AxisAligned(e, curr)
      && LegLength(e, curr) == r
      && LegLength(prev, e) == LegLength(prev, curr) - r
  {
    var r := CornerRadius(prev, curr, next);
    EntryBySign(prev, curr, next);
    RadiusBounds(prev, curr, next);
    StepBack(prev, curr, r);
  }

  /** The exit point lies on the leg from `curr` to `next`, `r` after the
      corner. */
  lemma {:induction false} ExitOnLeg(prev: Point, curr: Point, next: Point)
    requires RoundableCorner(prev, curr, next)
    ensures var r, e := CornerRadius(prev, curr, next), Exit(prev, curr, next);
      && AxisAligned(curr, e) && AxisAligned(e, next)
      && LegLength(curr, e) == r
      && LegLength(e, next) == LegLength(curr, next) - r
  {
    ExitBySign(prev, curr, next);
    RadiusBounds(prev, curr, next);
    StepForward(curr, next, CornerRadius(prev, curr, next));
  }

  /** The points a path visits: the targets of its moves and lines and the
      far tangent points of its arcs. */
  function Trace(path: seq<PathCommand>): (t: seq<Point>)
    ensures |t| == |path|
  {
    if path == [] then []
    else
      var p := match path[0]
        case MoveTo(to) => to
        case LineTo(to) => to
        case ArcTo(_, toward, _) => toward;
      [p] + Trace(path[1..])
  }

  /** A pipe starts at the first endpoint, runs straight along the first leg
      to `r` before the bend, turns through an arc of radius `r` at the bend,
      and runs straight along the second leg to the second endpoint. */
  lemma PipeShape(start: Point, end: Point)
    requires NonDegenerate(start, end)
    ensures var bend := Bend(start, end);
      && RoundableCorner(start, bend, end)
      && var path, r := PipeCommands(start, end), CornerRadius(start, bend, end);
      && |path| == 4
      && path[0] == MoveTo(start) && path[3] == LineTo(end)
      && path[2].ArcTo? && path[2].corner == bend && path[2].radius == r
      && 0.0 < r <= MaxRadius
      && var t := Trace(path);
      && t[0] == start && t[3] == end
      && AxisAligned(start, t[1]) && AxisAligned(t[1], bend) && LegLength(t[1], bend) == r
      && AxisAligned(bend, t[2]) && AxisAligned(t[2], end) && LegLength(bend, t[2]) == r
  {
    var bend := Bend(start, end);
    BendChoice(start, end);
    EntryOnLeg(start, bend, end);
    ExitOnLeg(start, bend, end);
    RadiusBounds(start, bend, end);
    var path := PipeCommands(start, end);
    assert Trace(path[3..]) == [end];
    assert Trace(path[2..]) == [Exit(start, bend, end)] + Trace(path[3..]);
    assert Trace(path[1..]) == [Entry(start, bend, end)] + Trace(path[2..]);
    assert Trace(path) == [start, Entry(start, bend, end), Exit(start, bend, end), end];
  }

  /** No id that resolves leaves no points. */
  lemma {:induction false} NoPointsWhenUnresolved(elements: seq<FlatElement>, ids: seq<string>)
    requires forall k :: 0 <= k < |ids| ==> !Resolvable(elements, ids[k])
    ensures Points(elements, ids) == []
  {
    if ids != [] {
      assert forall k :: 0 <= k < |ids[1..]| ==> ids[1..][k] == ids[k + 1];
      NoPointsWhenUnresolved(elements, ids[1..]);
    }
  }

  /** Fewer than two ids, or ids none of which name an element, draw nothing. */
  lemma NothingToDraw(elements: seq<FlatElement>, ids: seq<string>)
    requires |ids| < 2 || forall k :: 0 <= k < |ids| ==> !Resolvable(elements, ids[k])
    ensures Routable(elements, ids) && PipePath(elements, ids) == []
  {
    if |ids| >= 2 {
      NoPointsWhenUnresolved(elements, ids);
    }
  }

  /** Along a diagonal at least 100 long each way (from `(0, 0)` to
      `(100, 100)`, say) the distances tie, so the path goes vertically
      first, bends below the end with the full radius of 50, and runs to the
      end horizontally. */
  lemma DiagonalPipe(x: real, y: real, d: real)
    requires d >= 100.0
    ensures PipeCommands(Point(x, y), Point(x + d, y + d)) ==
      [ MoveTo(Point(x, y)),
        LineTo(Point(x, y + d - 50.0)),
        ArcTo(Point(x, y + d), Point(x + 50.0, y + d), 50.0),
        LineTo(Point(x + d, y + d)) ]
  {
    var start, bend, end := Point(x, y), Point(x, y + d), Point(x + d, y + d);
    assert Bend(start, end) == bend;
    assert CornerRadius(start, bend, end) == 50.0 by {
      assert LegLength(start, bend) == d && LegLength(bend, end) == d;
    }
    EntryBySign(start, bend, end);
    ExitBySign(start, bend, end);
    assert Sign(0.0) == 0.0 && Sign(d) == 1.0;
  }

  /** The path drawn for a connection of the centre at position `index`:
      ids are looked up in that centre's own layout only. */
  function CenterPipe(center: Center, index: nat, width: real, height: real, isMobile: bool, conn: Connection): (path: seq<PathCommand>)
    requires Routable(CenterElements(center, index, width, height, isMobile), conn.ids)
    ensures path == [] <==> Endpoints(CenterElements(center, index, width, height, isMobile), conn.ids).None?
  {
    PipePath(CenterElements(center, index, width, height, isMobile), conn.ids)
  }

  /** A centre's connection only ever ends at that centre's elements: each
      endpoint is the position of a laid-out element of the centre carrying
      the id. */
  lemma CenterPipeIsLocal(center: Center, index: nat, width: real, height: real, isMobile: bool, conn: Connection)
    ensures var els := CenterElements(center, index, width, height, isMobile);
      Endpoints(els, conn.ids).Some? ==>
        exists a, b :: a in els && b in els
          && a.centerId == center.id && b.centerId == center.id
          && a.el.id in conn.ids && b.el.id in conn.ids
          && Endpoints(els, conn.ids).value == (Point(a.absX, a.absY), Point(b.absX, b.absY))
  {
    var els := CenterElements(center, index, width, height, isMobile);
    if Endpoints(els, conn.ids).Some? {
      CenterLayout(center, index, width, height, isMobile);
      EndpointsAreFirstTwo(els, conn.ids);
      var i := NextResolvable(els, conn.ids, 0);
      var j := NextResolvable(els, conn.ids, i + 1);
      var a, b := Find(els, conn.ids[i]).value, Find(els, conn.ids[j]).value;
      assert a in els && b in els;
    }
  }
}
