# s22_map canvas layout, in Dafny

This project models the layout and routing engine of the s22_map canvas. The
canvas is an SVG map of "focus centres": content blocks (titles, buttons,
descriptions, images, videos) are attached to centres and to each other. It
also models the centre resolver of the app's data load and the sizing and
play state of the video element.

- `base.dfy`: optional values, points, and the JavaScript truthiness tests the code relies on.
- `content.dfy`: the content-store records. An element tree holds relative offsets, optional
  colour and size, an optional image asset and an optional child list. A connection is a
  list of ids.
- `centers.dfy` (src/app/app.js): the resolver.
  - Each centre's absolute position comes from its one-level `relativeTo` reference.
  - Its local `flattenElement` maps children instead of flat-mapping them, so the
    `elements` list it produces holds nested lists (`Flat = Node | Group`).
  - The model states how these nested lists relate to the canvas's flat pre-order.
- `tree_layout.dfy` (src/app/threeCanvas.js): `flattenElementTree`, centre placement
  (`getCenterXY`), `flattenedElements`, and the per-type box each element is drawn in.
  - Flattening gives absolute positions, inherited colours, image sizes from the aspect
    ratio, and the centre id.
- `draw_order.dfy`: the type-priority table and the stable sort that gives the draw order.
- `pipe_router.dfy`: `drawPipePath`, as a method with a loop over the bend's segments,
  proved against a specification function.
  - The method picks the endpoints, chooses the L-shaped bend, clamps the corner radius
    and emits the path-builder commands.
  - Lemmas cover the bend choice, the radius bounds, where the entry and exit points lie,
    and which elements a centre's connection can reach.
- `measurement.dfy`: the canvas state as a class (`Canvas`) with the `hasMeasured` latch,
  the deferred measurement pass and the resize handler.
  - The page's `getBoundingClientRect` is an oracle parameter.
  - Lemmas: measuring twice from an unchanged page changes nothing. Measuring never
    changes an element's id, anchor position, colour, centre or order. Only sizes change,
    and with them the drawn box's corner.
- `video_player.dfy`: the video box (aspect ratio, width, capped height) and the `Player`
  class with its `playing` flag.

Coordinates, sizes and ratios are exact reals. The legs of a pipe are
axis-aligned, so `Math.hypot` on a leg is a sum of absolute values and every
path computation is exact.

Where the code behaves differently from what its names and structure suggest, the model follows the code:

- A connection with more than two ids is drawn between the first two ids that resolve,
  not between the first and the last (src/app/threeCanvas.js:212-224). `EndpointsAreFirstTwo`
  states this.
- `relativeTo` is dereferenced once: a centre placed relative to a relative centre lands
  at the stored position of its reference (src/app/app.js:62-67). `OneLevelOnly` states this.
- A measurement pass always starts again from the component's props (`_centers`), not from
  the centres already measured (src/app/threeCanvas.js:86).
- If one centre has no `elements` list, the resolver's `map` throws and no centre is set
  (src/app/app.js:83). `ResolveCenters` returns `None` in that case.

## Model

| member | source | states |
|---|---|---|
| Base.NumberOr | src/app/threeCanvas.js:400-401 | `n || fallback` on a number: the number when it is present and non-zero, else the fallback |
| Content.Size | src/app/threeCanvas.js:162-170 | every element tree has at least one node |
| Content.KindOf | src/app/threeCanvas.js:40-46 | reading a `_type` string gives one of the five known kinds exactly for the five known tags, keeps any other tag as an unknown kind, and never makes a known tag unknown |
| Content.Tag | src/app/threeCanvas.js:40-46 | a known kind's tag is one of the five table keys, and an unknown kind keeps its own tag |
| Content.TagRoundTrip | src/app/threeCanvas.js:40-46 | reading back the tag of a well-tagged kind gives that kind |
| TreeLayout.InheritedColor | src/app/threeCanvas.js:131 | `el.color || parent.color || "black"`: the own colour when it is a non-empty string, else the parent's, else black; never empty |
| TreeLayout.ResolvedSize | src/app/threeCanvas.js:133-148 | an image with known dimensions keeps a set width, or gets `windowWidth - 50` on mobile and 400 otherwise, and its height is always `width * imgH / imgW`, overriding a given height; other nodes keep their width and height |
| TreeLayout.Resolve | src/app/threeCanvas.js:150-160 | the resolved node is the element at parent + offset, keeps its offsets as `relX`/`relY`, and carries the inherited colour, the sizing rule's size and the parent's id |
| TreeLayout.FlattenTree | src/app/threeCanvas.js:130-171 | the output has one entry per node of the tree, the resolved element first, and every entry has its element's offsets, the sizing rule's size and the root call's centre id |
| TreeLayout.FlattenForest | src/app/threeCanvas.js:162-168 | the children's flattenings together have one entry per node and each entry is well resolved |
| TreeLayout.TreeLinked | src/app/threeCanvas.js:150-170 | in a tree's flattening the first entry sits at parent + offset with the parent's colour inherited, and every later entry is a child of an earlier entry, at that entry's absolute position + its own offset, inheriting that entry's resolved colour |
| TreeLayout.ForestLinkedLemma | src/app/threeCanvas.js:162-168 | in the flattening of a list of children every entry is either one of those children placed under the shared parent or a child of an earlier entry |
| TreeLayout.CenterLayout | src/app/threeCanvas.js:173-184 | a centre's layout is linked as above under the centre's parent, every entry carries the centre's id, and root elements sit at the viewport midpoint + offset for centre 0 and at the centre's own position + offset for the others |
| TreeLayout.CenterOrigin | src/app/threeCanvas.js:35-38 | the first centre is placed at the viewport midpoint, every other one at its own `x`, `y` |
| TreeLayout.CenterElements | src/app/threeCanvas.js:173-184 | a centre's layout has one entry per node of its element trees, each well resolved and carrying the centre's id |
| TreeLayout.FlattenedElements | src/app/threeCanvas.js:173-194 | every entry of the canvas's element list belongs to one of the centres |
| TreeLayout.FlattenedFrom | src/app/threeCanvas.js:173-185 | every entry of `flattenedElements` belongs to one of the centres |
| TreeLayout.RenderBox | src/app/threeCanvas.js:399-531 | nothing is drawn for an unknown type or for an image without `src`; otherwise the box's corner is the absolute position minus half the size (unset or zero counts as 0) and its size is the own size or the type's fallback (image 300×300, button 120×50, title 300×50, description 300×200, video 320×240) |
| TreeLayout.FallbackSize | src/app/threeCanvas.js:411-523 | every known type has a positive fallback size, and an unknown type has none |
| TreeLayout.RenderBoxAnchoring | src/app/threeCanvas.js:400-401 | a drawn box is centred on the element's position along each axis whose size is set, and starts at the position along an axis whose size is unset |
| Centers.FlattenElement | src/app/app.js:69-80 | the result is the element with `absX = parentX + el.x`, `absY = parentY + el.y`, followed by exactly one nested list per direct child |
| Centers.FlattenChildren | src/app/app.js:76-78 | children are mapped, not spread: one nested list per child |
| Centers.AbsolutePosition | src/app/app.js:62-67 | a centre with a reference sits at the reference's stored `x`, `y` plus its own; one without sits at its own `x`, `y` |
| Centers.FlattenRoots | src/app/app.js:83-85 | the roots' records are empty exactly when there are no roots, and the first root's record comes first, at the centre + its offset |
| Centers.ResolveCenter | src/app/app.js:62-94 | the resolved record has `id = title`, the same colour, the absolute position, one top-level entry per root plus one per direct child, and `connections || []` |
| Centers.ResolveCenters | src/app/app.js:61-95 | centres are resolved in data order, one record each; a centre with no `elements` list makes the whole load fail |
| Centers.RootsContribute | src/app/app.js:83-85 | each root contributes `1 + children` entries in declaration order, and root `k`'s record sits right after the entries of the roots before it, positioned at the centre + its offset |
| Centers.NestedMatchesPreorder | src/app/app.js:69-80 | un-nesting the resolver's output for a tree gives exactly the positions of the canvas's pre-order flattening of that tree |
| Centers.ChildrenMatchForest | src/app/app.js:76-78 | the same for a list of children under one parent |
| Centers.OneLevelOnly | src/app/app.js:62-67 | a centre's absolute position is its reference's stored position plus its own offset, or its own position without a reference; a chain of references is not followed |
| Centers.EndToEnd | src/app/app.js:62-85 | centre A at (0, 0), centre B relative to A at (50, 50), an element of B at (10, 10): B resolves to (50, 50) and the element to (60, 60) |
| DrawOrder.Compare | src/app/threeCanvas.js:196-198 | the comparator is negative, zero or positive exactly as `a`'s key is below, equal to or above `b`'s |
| DrawOrder.PriorityOrder | src/app/threeCanvas.js:40-46 | image 4 < video 5 < description 7 < button 8 < title 9, and every unknown type (999) comes after every known one |
| DrawOrder.Priority | src/app/threeCanvas.js:40-46 | a known type has a priority between 4 and 9, and the fallback 999 is given exactly to unknown types |
| DrawOrder.TablePriority | src/app/threeCanvas.js:40-46 | a `_type` read through `KindOf` gets 9 for titles, 8 for buttons, 7 for descriptions, 4 for images, 5 for videos and 999 for any other tag |
| DrawOrder.Insert | src/app/threeCanvas.js:196-198 | inserting keeps every element |
| DrawOrder.InsertSorted | src/app/threeCanvas.js:196-198 | inserting into a list in key order keeps it in key order |
| DrawOrder.InsertWithKey | src/app/threeCanvas.js:196-198 | inserting an element puts it in front of the elements of its own key and leaves every other key's elements as they were; since the sort inserts each head in front of its sorted tail, each key keeps input order |
| DrawOrder.SortByPriority | src/app/threeCanvas.js:196-198 | the draw order is in ascending key order, is a permutation of the input, and keeps input order among elements of equal key |
| DrawOrder.InsertKeepsContents | src/app/threeCanvas.js:196-198 | inserting a list's head into a rearrangement of its tail with the same per-key order gives a rearrangement of the whole list with the same per-key order |
| DrawOrder.SortedIsFixed | src/app/threeCanvas.js:196-198 | a list already in key order is drawn in that order |
| DrawOrder.StableSortUnique | src/app/threeCanvas.js:196-198 | any two key-ordered lists with the same elements per key, in the same order, are equal, so every stable sort gives exactly this draw order |
| PipeRouter.Find | src/app/threeCanvas.js:214 | `elements.find` finds nothing exactly when no element has the id; otherwise the element it finds has the id and is in the list |
| PipeRouter.FindIsFirst | src/app/threeCanvas.js:214 | the element found is the first one with that id |
| PipeRouter.NextResolvable | src/app/threeCanvas.js:212-219 | the next id that resolves: every id skipped fails to resolve |
| PipeRouter.PointsFrom | src/app/threeCanvas.js:212-219 | the points list starts with the position of the first id that resolves, then the points of the ids after it |
| PipeRouter.Points | src/app/threeCanvas.js:212-218 | there are never more points than ids |
| PipeRouter.Endpoints | src/app/threeCanvas.js:220-221 | there are endpoints only when there are at least two ids and at least two of them resolve |
| PipeRouter.EndpointsAreFirstTwo | src/app/threeCanvas.js:201-224 | the endpoints are the positions of the first two ids that resolve, in list order, and there are none when fewer than two resolve |
| PipeRouter.LegLength | src/app/threeCanvas.js:247-248 | `Math.hypot` of an axis-aligned leg: non-negative, its square is `dx² + dy²`, and zero exactly when the leg is empty |
| PipeRouter.UnitDirection | src/app/threeCanvas.js:251-254 | on an axis-aligned leg, `(dx / len, dy / len)` is the pair of signs of `dx` and `dy` |
| PipeRouter.Bend | src/app/threeCanvas.js:227-229 | the bend shares `y` with the start and `x` with the end, or `x` with the start and `y` with the end, so both legs are axis-aligned |
| PipeRouter.CornerRadius | src/app/threeCanvas.js:249 | the corner radius is positive and at most 50 |
| PipeRouter.Entry | src/app/threeCanvas.js:251-252 | the point where the first leg meets the arc; `EntryOnLeg` places it on the first leg, `r` before the bend |
| PipeRouter.Exit | src/app/threeCanvas.js:253-254 | the point where the arc leaves onto the second leg; `ExitOnLeg` places it on the second leg, `r` after the bend |
| PipeRouter.PipeCommands | src/app/threeCanvas.js:219-261 | a pipe is four commands: a move to the start, a line, an arc whose corner is the bend, and a line to the end |
| PipeRouter.PipePath | src/app/threeCanvas.js:200-262 | the path is empty exactly when there are no endpoints; otherwise it starts with a move to the first endpoint and ends with a line to the second |
| PipeRouter.DrawPipePath | src/app/threeCanvas.js:200-262 | the path drawn is `PipePath`: nothing when there are fewer than two ids or fewer than two resolve, otherwise the pipe between the first two resolved points |
| PipeRouter.BuildPipe | src/app/threeCanvas.js:223-261 | the loop over the segments emits move to start, line to the corner's entry, arc through the bend to its exit with the clamped radius, and line to end |
| PipeRouter.BendChoice | src/app/threeCanvas.js:231-233 | both legs are axis-aligned; the bend is `(x2, y1)` exactly when the horizontal distance is strictly larger, else `(x1, y2)`; both legs have a length exactly when the endpoints differ along both axes |
| PipeRouter.RadiusBounds | src/app/threeCanvas.js:249 | the radius is positive, at most 50 and at most half of either leg, and equals one of the three |
| PipeRouter.EntryBySign | src/app/threeCanvas.js:251-252 | the entry point is the bend moved back by `r` against the first leg's direction |
| PipeRouter.ExitBySign | src/app/threeCanvas.js:253-254 | the exit point is the bend moved on by `r` along the second leg's direction |
| PipeRouter.StepBack | src/app/threeCanvas.js:251-252 | stepping back `r` from a leg's end, on a leg at least `2r` long, stays on the leg at distance `r` from the end |
| PipeRouter.StepForward | src/app/threeCanvas.js:253-254 | stepping on `r` from a leg's start, on a leg at least `2r` long, stays on the leg at distance `r` from the start |
| PipeRouter.EntryOnLeg | src/app/threeCanvas.js:244-252 | the entry point lies on the first leg, `r` before the bend |
| PipeRouter.ExitOnLeg | src/app/threeCanvas.js:244-254 | the exit point lies on the second leg, `r` after the bend |
| PipeRouter.PipeShape | src/app/threeCanvas.js:225-261 | a pipe is four commands: it starts at the first endpoint, runs along the first leg to `r` before the bend, arcs at the bend with a radius in (0, 50], and leaves `r` after the bend along the second leg to the second endpoint |
| PipeRouter.NoPointsWhenUnresolved | src/app/threeCanvas.js:212-219 | ids none of which resolve give no points |
| PipeRouter.NothingToDraw | src/app/threeCanvas.js:201-223 | fewer than two ids, or ids none of which resolve, draw the empty path |
| PipeRouter.DiagonalPipe | src/app/threeCanvas.js:225-261 | on a diagonal of 100 or more (such as (0, 0) to (100, 100)) the tie sends the pipe vertically first, with the full radius 50 and the exact commands listed |
| PipeRouter.CenterPipeIsLocal | src/app/threeCanvas.js:339-352 | a centre's connection can only end at elements of that centre's own layout that carry one of the connection's ids |
| PipeRouter.CenterPipe | src/app/threeCanvas.js:339-352 | a centre's connection draws nothing exactly when fewer than two of its ids resolve in that centre's own layout |
| Measurement.MeasureChild | src/app/threeCanvas.js:97-108 | a direct child takes its node's measured width and height when the node is on the page and is unchanged otherwise |
| Measurement.MeasureRoot | src/app/threeCanvas.js:94-117 | a root keeps every field but its size and children; its size becomes the measured box or stays as it was (`??`); its children list is present, the same length, each child measured |
| Measurement.MeasureCenter | src/app/threeCanvas.js:86-122 | a centre keeps its id, colour, position and connections, and its roots are measured in order |
| Measurement.MeasureCenters | src/app/threeCanvas.js:86-124 | the centres are measured in order, one each |
| Measurement.MeasureCentersIdempotent | src/app/threeCanvas.js:76-128 | measuring the measured centres again from an unchanged page gives the same centres |
| Measurement.TreeAnchors | src/app/threeCanvas.js:130-171 | trees equal in ids, offsets and colours node by node flatten to the same ids, positions, colours and centres, whatever their sizes |
| Measurement.MeasuredRootCongruent | src/app/threeCanvas.js:94-117 | measurement only writes sizes: the measured root has the same ids, offsets and colours node by node |
| Measurement.MeasurementKeepsLayout | src/app/threeCanvas.js:86-126 | after measurement the centre's layout has the same element ids, in the same order, at the same anchor positions (`absX`/`absY`), with the same colours and centre ids; only sizes may differ |
| Measurement.Canvas.constructor | src/app/threeCanvas.js:19-49 | the canvas starts from its props, unmeasured, with the breakpoint read from the viewport width |
| Measurement.Canvas.Resize | src/app/threeCanvas.js:48-80 | a resize records the new viewport and breakpoint and opens the latch, leaving the centres as they are |
| Measurement.Canvas.MeasurePass | src/app/threeCanvas.js:82-128 | nothing changes without centres or once measured; otherwise the centres become the measured props and the latch closes |
| Measurement.Canvas.Flattened | src/app/threeCanvas.js:173-194 | every element of the current state's layout belongs to one of the current centres |
| Measurement.Canvas.SortedElements | src/app/threeCanvas.js:196-198 | the draw order of the current state is in ascending key order, holds exactly the flattened elements, and keeps their order among elements of equal key |
| VideoPlayer.Includes | src/app/videoPlayer.js:9 | `url.includes(sub)` holds exactly when `sub` occurs at some index of the url |
| VideoPlayer.AspectRatio | src/app/videoPlayer.js:9-11 | the ratio is 4:3 exactly when the player can play the url and it contains "youtube", 16:9 exactly otherwise |
| VideoPlayer.VideoWidth | src/app/videoPlayer.js:13-16 | the width is the window width less 30 above 700, less 260 otherwise |
| VideoPlayer.VideoHeight | src/app/videoPlayer.js:18-21 | the height is the width over the ratio when that is below the window height less 200, and exactly the window height less 200 otherwise |
| VideoPlayer.VideoBox | src/app/videoPlayer.js:9-21 | the box is the video width wide; it is the width over the ratio high when that is below the window height less 200, and exactly the window height less 200 high otherwise |
| VideoPlayer.HeightIsCapped | src/app/videoPlayer.js:18-21 | the height never exceeds the window height less 200 or the width over the ratio; it is the width over the ratio exactly when that is below the cap, and equals the cap exactly when it is not |
| VideoPlayer.BoxProportions | src/app/videoPlayer.js:9-21 | the box is at most the cap high, never taller than the video's proportions, and has exactly the video's proportions when the width over the ratio fits |
| VideoPlayer.YouTubeExample | src/app/videoPlayer.js:9-21 | a YouTube url in a 1000 × 800 window gets a 970 × 600 box |
| VideoPlayer.Player.constructor | src/app/videoPlayer.js:6 | a new player is not playing |
| VideoPlayer.Player.HandlePlay | src/app/videoPlayer.js:23 | after a play event the player is playing, whatever it was before |
| VideoPlayer.Player.HandlePause | src/app/videoPlayer.js:24 | after a pause event the player is not playing, whatever it was before |

## Left out

- Data fetching, the query text and the client configuration (src/app/app.js, src/app/client.js)
  are network I/O. The model starts from the records the query returns.
- Image URL building (src/app/image.js), d3 zoom wiring and the jump-to-centre buttons are
  library calls and animations. They are not part of this model.
- d3's `arcTo` tangent construction and `path.toString()` are foreign. The path is the list
  of commands given to the path builder, and the empty list stands for `""`.
- PipeRouter.DrawPipePath, PipeRouter.PipePath, PipeRouter.CenterPipe (`Routable`),
  PipeRouter.PipeCommands, PipeRouter.BuildPipe (`NonDegenerate`), PipeRouter.CornerRadius,
  PipeRouter.Entry and PipeRouter.Exit (`RoundableCorner`): these require the two endpoints
  to differ along both axes. For endpoints that share an x or a y the bend is the end point,
  the radius is 0 and the exit point is `(0 / 0) * 0`, which is NaN. The zero-radius arc
  then adds nothing, so the straight segment from start to end is drawn. That straight path,
  and the NaN line drawn when the endpoints coincide, are not modelled.
- Content.Kind: the type does not exclude an unknown kind holding one of the five known
  tags; the model reads tags through `KindOf`, which never builds one (`TablePriority`).
- Content.Dimensions: an image's natural width is taken to be positive. A zero width makes
  the source's aspect ratio infinite or NaN.
- JavaScript truthiness is modelled only for the values these fields can hold: `""` for
  strings and `0` for numbers count as absent (`TruthyString`, `TruthyNumber`).
- Measurement.Canvas.constructor: models the first render together with its mount effect.
  The flag `isMobile` starts as `false` and becomes the breakpoint test as soon as the
  effect runs.
- Measurement: the 100 ms timer is left out, and the pass is an explicit method call. The
  unused `flat` computed inside the pass is left out. The page is the `Measure` oracle, and
  React's state and effect scheduling is not modelled.
- Measurement.Canvas: changes of the props after the first render are not modelled; the
  props are a constant field.
- The flat list app.js produces (with nested lists) is not fed into the canvas model. The
  canvas model takes element trees. `NestedMatchesPreorder` relates the two shapes.
  In the program each nested list passes through `flattenElementTree`
  (src/app/threeCanvas.js:178-184) and comes out as one entry with no `_type`, no `id`
  and NaN `absX`/`absY`. Such an entry gets priority 999, is never drawn and never matches
  a connection id. So the program's per-centre list has one more entry per direct child
  of a root than `CenterElements` counts.
- The source's `absX == null` check when drawing a pipe never fires, because every
  flattened element has numeric positions. `Resolvable` is therefore the `find` succeeding.
- Global items and global connections are always empty, because their setters are
  commented out, so their layout and paths are left out.
- Rendering markup, the rich-text serializer, the video player widget, the three.js ASCII
  scene, the window-size hook and the page layout are rendering and browser events. They
  are not part of this model.
- Centers.FocusCenter: a centre always has `x` and `y`, so the default parent (0, 0) of
  `flattenElement` (src/app/app.js:69) never applies and is not modelled.
- VideoPlayer: `ReactPlayer.canPlay(url)` and `window.innerWidth`/`innerHeight` are inputs.
