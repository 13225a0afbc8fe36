# Label declutter and track filters, modelled in Dafny

This project models the two pieces of original logic in an OpenLayers demo
application.

**Label declutter with leader lines.** Clicking the map creates a point
feature whose geometry is a group `[point, line]`, together with a label
overlay placed 90000 map units east of the point. The line runs from the
point to the label. A drag-box then selects every label whose extent meets
the box. `beginDeclutterMode` visits the selected labels in order. While a
label's extent meets a feature of the vector layer or another selected
label, it pushes the label one `generateCirclePixel` step along the label's
own direction. Once the label is clear, it commits the label through
`setOverlayPosition`, which moves the label and re-ends its leader line at
the label. A "Test reset" button commits every label back at its recorded
initial position.

**Track filters.** `generateTDAFilterItem` names six environment
checkboxes per identity. `TDA_FILTERS` lists eight identities. The tracks
tab shows a checkbox checked exactly when its name is in the list of
selected names. The checkbox handler appends a name, or removes every copy
of it. `showPoint` then gives each feature whose `mode` is in the list its
`generateStyle` style, and clears the own style of every other feature. A click adds a feature tagged with the
current mode.

Modules, one file each:

- `Wrappers` (`wrappers.dfy`): `Option` and `Result`.
- `Geometry` (`geometry.dfy`): coordinates, pixels and extents with the closed intersection test of `ol/extent`. It also holds the pixel/coordinate projection, which is a parameter of the model. An unrotated view is one instance of it, and it is shown to round-trip, keep x and flip y.
- `Labels` (`labels.dfy`): features, overlays and the map state. It covers `setOverlayPosition`, `getFeatureGeometry`, `getOverlayFeatureId`, `getFeatureById`, `getLabelExtent` and the non-DOM part of `createPoint`. It also defines the leader-line invariant `Valid`.
- `Declutter` (`declutter.dfy`): `generateCirclePixel`, both collision tests, the search loop, one label's turn and the whole pass.
- `Selection` (`selection.dfy`): the `boxend` handler.
- `Reset` (`reset.dfy`): `resetDeclutter`.
- `TdaFilters` (`filters.dfy`): `generateTDAFilterItem`, a parser that reads a checkbox name back, the `TDA_FILTERS` table and the rendered checkbox grid.
- `FeatureModify` (`featuremodify.dfy`): `generateStyle`, `showPoint`, the checkbox handler and the click handler.

Every library call the core makes is modelled as follows:

- The projection is a pair of functions that the map state carries.
- `getFeaturesInExtent` returns the features whose geometry group's bounding extent meets the query.
- `getFeatureById` is a lookup in a map from ids to features.
- `getUid` returns the next number above the last one handed out.
- The trigonometry of `generateCirclePixel` is a table of offsets, indexed by the label's position in the selection and the selection's length. The caller supplies it.

## Model

| member | source | states |
|---|---|---|
| Labels.SetOverlayPosition | src/hooks/utils.js:8-23 | It throws `FeatureNotFound` exactly when the overlay's feature is missing from the layer. On success, only the label's position changes, and it becomes the new coordinate. Only that label's feature changes: its group is rebuilt as `[point, line]`, with the first vertex kept and the second set to the coordinate. On a leader feature the commit cannot fail, keeps the anchor and leaves the label linked. |
| Labels.SetOverlayPositionIdempotent | src/hooks/utils.js:8-23 | Committing the same coordinate twice gives the same map as committing it once. |
| Labels.SetOverlayPositionInPlace | src/hooks/utils.js:14-22 | Committing a linked label at the position it already has changes nothing. |
| Labels.GetFeatureGeometry | src/hooks/utils.js:25-30 | The result, when there is one, is a member of the feature's group, and a kind other than "point" and "line" gives nothing. `Labels.GeometryKindsOfLeader` pins down both kinds on a leader feature. |
| Labels.GetOverlayFeatureId | src/hooks/utils.js:32-34 | The overlay's recorded feature id. `Labels.OnMapClickKeepsValid` shows that, for a clicked label, it is the fresh uid of the label's own feature. |
| Labels.GetFeatureById | src/hooks/utils.js:36-39 | A feature is found exactly when its id is in the layer's index, and it is then the indexed feature. |
| Labels.GeometryKindsOfLeader | src/hooks/utils.js:25-30 | On a `createPoint` feature, "point" selects the anchor and the default kind "line" selects the leader line. Any other kind selects nothing. |
| Labels.GetLabelExtent | src/hooks/utils.js:41-59 | The label's pixel box, with its corners taken back to map coordinates as `[tl.x, br.y, br.x, tl.y]`. `Labels.LabelExtentHoldsPosition` and `Labels.LabelExtentOnView` say what that extent is. |
| Labels.LabelExtentHoldsPosition | src/hooks/utils.js:41-59 | When the projection round-trips, keeps x and flips y, the label extent `[tl.x, br.y, br.x, tl.y]` is a well-formed min/max extent that contains the label's position. |
| Labels.LabelExtentOnView | src/hooks/utils.js:41-59 | On an unrotated view, the extent is centred on the label. It reaches half the label's pixel width and height, times the resolution, to each side. |
| Labels.CreatePoint | src/hooks/utils.js:63-112 | The label sits 90000 units east of the click, and its initial position is the same point. The line runs from the click to the label. The overlay records the feature's fresh uid and takes the next overlay id. The new feature is a leader feature. |
| Labels.AddFeature | src/hooks/useOpenLayersMap.jsx:91 | The id is in the layer afterwards, and only that id is added. A new id holds the given feature. Every feature already indexed keeps its value, since a duplicate id is refused. The overlays are untouched. |
| Labels.OnMapClick | src/hooks/useOpenLayersMap.jsx:87-92 | `createPoint` followed by `addFeature`. `Labels.OnMapClickKeepsValid` states what a click does to the map. |
| Labels.OnMapClickKeepsValid | src/hooks/useOpenLayersMap.jsx:87-92 | A click keeps the leader-line invariant. It appends one overlay, linked to a feature whose uid no earlier feature had, at the click plus 90000 in x. |
| Labels.SetOverlayPositionKeepsValid | src/hooks/utils.js:8-23 | Committing any coordinate for any label keeps the leader-line invariant. |
| Labels.CommitRestoresValid | src/hooks/utils.js:8-23 | When only one label is off the end of its line, committing that label makes the map valid again. |
| Labels.MoveKeepsValidExcept | src/hooks/useOpenLayersMap.jsx:42-48 | A provisional `setPosition` breaks the invariant for the moved label only. |
| Labels.LeaderRewriteKeepsAnchors | src/hooks/utils.js:14-20 | Rewriting a line's second vertex keeps the anchor of every leader feature. |
| Declutter.GenerateCirclePixel | src/hooks/useOpenLayersMap.jsx:8-15 | The next candidate is the pixel plus the table's offset for the label's index and the selection's length, with `r = 90` fixed. `Declutter.WalkIsRay` and `Declutter.WalkDistance` say where repeated steps lead. |
| Declutter.WalkDistance | src/hooks/useOpenLayersMap.jsx:8-15 | With every offset on the circle of radius 90, the `k`-th candidate lies `k` times 90 pixels from the start, so no two candidates of one label coincide. |
| Declutter.WalkIsRay | src/hooks/useOpenLayersMap.jsx:38-49 | After `k` turns of the loop, the pixel has moved by `k` times the label's fixed offset. |
| Declutter.SomeOtherOverlayFinds | src/hooks/useOpenLayersMap.jsx:18-26 | The `some` scan finds a hit exactly when another selected label's extent meets the given extent. |
| Declutter.IsIntersectingWithOtherOverlay | src/hooks/useOpenLayersMap.jsx:18-26 | The `some` scan over the selection, skipping the label itself. `Declutter.SomeOtherOverlayFinds` shows that it holds exactly when another selected label's extent meets this label's extent. |
| Declutter.FeaturesInExtent | src/hooks/useOpenLayersMap.jsx:30-31 | The features whose geometry group's bounding extent meets the query extent. `Declutter.FeaturesInExtentAwayFrom` shows that rewriting one feature changes no other feature's membership. `Declutter.OwnLeaderLineAlwaysHit` shows that a linked label's own feature is always found. |
| Declutter.IsIntersectingWithOtherPoint | src/hooks/useOpenLayersMap.jsx:28-32 | Some blocking feature lies under the label's extent. Under `AnyFeature` that includes the label's own feature, and under `OtherFeatures` it does not. `Declutter.CollidesMeans` states it in set terms. |
| Declutter.Collides | src/hooks/useOpenLayersMap.jsx:38-41 | The `while` condition: the point test or the overlay test. `Declutter.CollidesMeans` shows that it holds exactly when a feature blocks the label or another selected label meets it. |
| Declutter.MoveOverlay | src/hooks/useOpenLayersMap.jsx:47-48 | The provisional move changes only that label's position, to the given coordinate. Every feature, every other overlay, the view and the counters stay as they were. |
| Declutter.CollidesMeans | src/hooks/useOpenLayersMap.jsx:38-41 | The loop condition holds exactly when some feature lies under the label, or some other selected label's extent meets it. |
| Declutter.LabelDoesNotCollideWithItself | src/hooks/useOpenLayersMap.jsx:18-26 | A label's extent meets itself, yet a label that is the only one selected, with no feature under it, does not collide. |
| Declutter.OwnLeaderLineAlwaysHit | src/hooks/useOpenLayersMap.jsx:28-32 | As written, a linked label's own feature always lies under it, so the loop condition always holds on entry. |
| Declutter.LoneLabelCollidesAsWritten | src/hooks/useOpenLayersMap.jsx:28-32 | One click on an empty map, its label selected alone: the map holds only that label's own feature, yet the as-written test finds the label blocked, while the test that leaves out its own feature finds it clear. |
| Declutter.SearchLoop | src/hooks/useOpenLayersMap.jsx:36-49 | The loop stops at the first candidate that collides with nothing, and every earlier candidate collided. When it gives up, every candidate up to the fuel bound collides. |
| Declutter.ProcessLabel | src/hooks/useOpenLayersMap.jsx:34-52 | A finished turn moves only its own label, and only to its first clear candidate. It re-ends only that label's line there, and a map valid before the turn is valid after it. A label that is clear and linked on entry is not moved. A turn throws only for a broken map, and `FeatureNotFound` exactly when the feature is missing. |
| Declutter.TurnClearsLabel | src/hooks/useOpenLayersMap.jsx:38-52 | After the commit, the label meets no other selected label, and no feature other than its own lies under it. |
| Declutter.TurnMovesCollidingLabel | src/hooks/useOpenLayersMap.jsx:38-49 | A label that collides where it stands ends up somewhere else, on a view that keeps x and flips y. |
| Declutter.TurnExtendsPassFrame | src/hooks/useOpenLayersMap.jsx:33-53 | After each turn, only the positions of labels visited so far, and only their own features, differ from the map before the pass. Anchors are kept. |
| Declutter.TurnExtendsSeparation | src/hooks/useOpenLayersMap.jsx:33-53 | When a turn leaves its label clear of all other selected labels, the labels visited so far stay pairwise apart. |
| Declutter.TurnKeepsSeparation | src/hooks/useOpenLayersMap.jsx:33-53 | Each finished turn extends pairwise separation from the first `k` selected labels to the first `k + 1`. |
| Declutter.TurnMovesLabel | src/hooks/useOpenLayersMap.jsx:28-52 | Under the test as written, every turn on a valid map moves its label. |
| Declutter.TurnKeepsMoved | src/hooks/useOpenLayersMap.jsx:33-53 | Under the test as written, labels moved by earlier turns stay moved, and the current one is moved too. |
| Declutter.TurnKeepsClearMap | src/hooks/useOpenLayersMap.jsx:34-52 | Proof step of the pass: on a map where every label is clear under the corrected test, the fixed-point clause of `Declutter.ProcessLabel` applies, so the turn's map is the map it started on. |
| Declutter.TurnKeepsPassInvariant | src/hooks/useOpenLayersMap.jsx:33-53 | A finished turn carries the pass invariant (frame, validity, separation, moved labels, fixed point) from `k` labels to `k + 1`. |
| Declutter.TakeTurn | src/hooks/useOpenLayersMap.jsx:33-53 | One step of the `forEach`. A finished turn keeps the pass invariant, and it is a turn of the kind `ProcessLabel` promises: only this label and its own line change, and on a view that round-trips the label sits at its first clear candidate along its own ray. A turn that gives up names its own index, and none of the label's first `fuel + 1` candidates, from the map it started on, was the first clear one. It never throws on a valid map and always finishes on a clear map. |
| Declutter.PassTraceExtends | src/hooks/useOpenLayersMap.jsx:45-53 | Proof step: a finished turn of the next label lengthens the trace of the pass by the map it left. |
| Declutter.BeginDeclutterMode | src/hooks/useOpenLayersMap.jsx:17-54 | A finished pass is the end of a `PassTrace`: a sequence of maps from the starting map in which each selected label, once and in selection order, took a finished turn. On a view that round-trips, each label went to its own first clear candidate, from the map the turns before it left. A pass that gives up names a selected label and a trace of the turns before it, whose last map satisfies the pass invariant, and from that map the label's search found no clear candidate within `fuel` steps. On a valid map the pass never throws and keeps the map valid. Only selected labels move, and only their own lines change. A finished pass over distinct labels leaves no two of them meeting. As written, it moves every label of a valid map. With each label's own feature left out of the test, a map whose labels are all clear is left as it is. |
| Selection.MarkSelected | src/hooks/useOpenLayersMap.jsx:66-69 | Marking a label sets its `selected` flag and changes nothing else. |
| Selection.SelectIntersecting | src/hooks/useOpenLayersMap.jsx:64-72 | The selection holds exactly the overlays whose extent meets the box, in overlay order and without repeats. Those labels are marked, and nothing else changes. |
| Selection.MarksKeepExtents | src/hooks/useOpenLayersMap.jsx:64-73 | Marking changes no label's extent and does not change whether the map is valid. |
| Selection.MarksKeepCollides | src/hooks/useOpenLayersMap.jsx:64-73 | Marking does not change the outcome of the collision test. |
| Selection.MarkedPassFrame | src/hooks/useOpenLayersMap.jsx:61-74 | Compared with the map before the marking, a pass over the marked map changes only the selected labels' positions and flags and their own features' lines. The view, the counters, the feature ids and every anchor are kept. |
| Selection.OnBoxEnd | src/hooks/useOpenLayersMap.jsx:61-74 | The pass runs on exactly the labels in the box. Labels outside the box stay as they were. A finished pass keeps the view, the counters and the set of feature ids. It keeps every feature of an unselected label and every anchor. The pass runs on the map with exactly the boxed labels newly marked. A finished pass ends a `PassTrace` of turns from that map, one per selected label, in selection order. A pass that gives up does so on a selected label whose search, from the last map of the trace of the earlier turns, found no clear candidate within `fuel` steps. On a valid map nothing is thrown, the map stays valid and the selected labels end pairwise apart. A box over labels that are all clear, under the corrected test, only marks them. |
| Reset.ResetFrom | src/PointTest.jsx:47-51 | The walk of commits over the overlays, from a given index on, stopping at the first that throws. `Reset.ResetFromValid` and `Reset.ResetFromAtStart` say what it gives. |
| Reset.ResetFromValid | src/PointTest.jsx:47-51 | On a valid map, the `forEach` of commits never throws, keeps the map valid, and puts each visited label at its initial position. Each visited label's line then runs from its unchanged anchor to that position. |
| Reset.ResetFrameStep | src/PointTest.jsx:47-51 | One commit at the initial position, followed by the rest of the walk, is a reset from that label on. |
| Reset.ResetDeclutter | src/PointTest.jsx:45-52 | With no map instance, nothing happens. |
| Reset.ResetRestoresInitialPositions | src/PointTest.jsx:45-52 | After a reset, every label's position equals its initial position, which itself is unchanged. Each leader line ends there and still starts at its anchor, and only the labels' own features change. |
| Reset.ResetFromAtStart | src/PointTest.jsx:47-51 | A reset of labels that already sit at their initial positions changes nothing. |
| Reset.ResetIdempotent | src/PointTest.jsx:45-52 | Resetting twice gives the same map as resetting once. |
| Reset.ResetOverlaysAgree | src/PointTest.jsx:47-51 | Maps that differ only in where the labels sit reset to the same overlays. |
| Reset.ResetFeaturesAgree | src/PointTest.jsx:47-51 | Maps that differ only in where the leader lines end reset to the same features. |
| Reset.ResetForgetsPlacements | src/PointTest.jsx:45-52 | Maps that differ only in label placements reset to the same map. |
| Reset.ResetUndoesPass | src/PointTest.jsx:45-52 | Resetting after a finished declutter pass gives the same map as resetting before the pass. |
| TdaFilters.GenerateTDAFilterItem | src/utils/index.js:1-20 | It makes exactly six items. Item `j` is the identity, a dash, and the `j`-th of allenv, air, surface, subsurface1, land, unknown. |
| TdaFilters.SuffixesHaveNoSeparator | src/utils/index.js:3-17 | No environment name contains a dash. |
| TdaFilters.ParseFilterItem | src/utils/index.js:1-20 | Reads a checkbox name back as identity and environment index, splitting at the last dash. `TdaFilters.ParseGenerated` shows it inverts `generateTDAFilterItem`. |
| TdaFilters.ParseGenerated | src/utils/index.js:1-20 | Every generated name splits back, at its last dash, into the identity and environment it was made from. |
| TdaFilters.FilterItemsInjective | src/utils/index.js:1-20 | Two generated names are equal exactly when they have the same identity and the same environment. |
| TdaFilters.FilterItemsDistinct | src/utils/index.js:3-17 | The six names of one identity are pairwise distinct. |
| TdaFilters.FilterTableIds | src/components/tracks-tab.jsx:4-37 | The table has eight rows, and their identities are pairwise distinct. |
| TdaFilters.RenderTracksTab | src/components/tracks-tab.jsx:51-63 | One row per entry of `TDA_FILTERS`. `TdaFilters.TracksTabLayout` gives each row's title and checkboxes. |
| TdaFilters.TracksTabLayout | src/components/tracks-tab.jsx:51-63 | The tab renders eight rows of six checkboxes in table order. Each checkbox is named after its row's identity and its environment, and shows checked exactly when its name is selected. |
| TdaFilters.CheckboxNamesDistinct | src/components/tracks-tab.jsx:51-63 | No two of the 48 checkboxes share a name. |
| FeatureModify.GenerateStyle | src/FeatureModify.jsx:36-49 | The icon is the avatar exactly when the mode is "allid-allenv", and "/profile.jpg" otherwise. It is always 50 by 50. |
| FeatureModify.ShowPoint | src/FeatureModify.jsx:97-117 | Each feature of the layer, in order, is restyled on its own: given its mode's style when its mode is in the list, its own style cleared otherwise. `FeatureModify.ShowPointStylesSelected` states this in terms of the input features. |
| FeatureModify.GenerateStyleSeparatesModes | src/FeatureModify.jsx:36-49 | Two modes get the same style exactly when both are "allid-allenv" or neither is. |
| FeatureModify.ShowPointStylesSelected | src/FeatureModify.jsx:97-117 | `showPoint` adds, removes and moves no feature. A feature keeps a style of its own exactly when it has a mode that is in the list, and that style is its mode's. |
| FeatureModify.ShowPointReadsNameSet | src/FeatureModify.jsx:102-104 | The styles given depend only on which names are in the list, not on their order or repetition. |
| FeatureModify.ShowPointIdempotent | src/FeatureModify.jsx:97-117 | Applying the same list twice styles the features as applying it once does. |
| FeatureModify.ModelessTrackUnstyled | src/FeatureModify.jsx:102-111 | A feature without a mode, like the one the page starts with, has its own style cleared by every list. |
| FeatureModify.RemoveAll | src/FeatureModify.jsx:128 | The name is gone from the list, and every other name keeps its number of copies. |
| FeatureModify.RemoveAllKeepsOrder | src/FeatureModify.jsx:128 | Unchecking keeps the remaining names in their order. |
| FeatureModify.RemoveAllAbsent | src/FeatureModify.jsx:128 | Removing a name that is not in the list leaves the list unchanged. |
| FeatureModify.OnInputCheckboxChange | src/FeatureModify.jsx:119-133 | Checking appends the name at the end, keeps the earlier entries and removes no duplicate. Unchecking removes every copy of the name and keeps every copy of every other name, in order. No other name's membership changes, and `showPoint` is applied with the new list. |
| FeatureModify.CheckboxChangeStyles | src/FeatureModify.jsx:119-133 | After a change, the features of the changed name keep a style of their own exactly when the box is checked. Every other feature keeps one exactly when its mode was selected before. |
| FeatureModify.CheckThenUncheck | src/FeatureModify.jsx:119-133 | Checking and then unchecking a box that was not checked restores the list. |
| FeatureModify.OnMapClick | src/FeatureModify.jsx:85-92 | A click appends one feature at the clicked coordinate, tagged with the current mode and given that mode's `generateStyle` style, whether or not the mode is in the list. The earlier features are unchanged. |
| FeatureModify.ClickedTrackFollowsFilter | src/FeatureModify.jsx:85-112 | The clicked feature keeps its mode, and the next `showPoint` keeps its style exactly when that mode is in the list. |
| FeatureModify.ModesHaveCheckboxes | src/FeatureModify.jsx:143-158 | Both modes the buttons select are checkbox names in the table: "allid-allenv" is row 1, column 1, and "unknown-air" is row 2, column 2. |

## Left out

- The trigonometry of `generateCirclePixel` is left to a caller-supplied table of offsets. `OnCircle` states that every offset has length 90.
- Coordinates and pixels are exact reals, while JavaScript numbers are IEEE doubles. So the model's round trips hold exactly, while the program's hold only up to rounding. This covers `Geometry.RoundTrips` and `Geometry.ViewProjectionIsUnrotated`, `Labels.LabelExtentOnView`, the closed form of `Declutter.WalkIsRay`, the exact length 90 of `OnCircle` and `Declutter.WalkDistance`, and the fixed point of `Declutter.ProcessLabel`: a clear label committed at the coordinate of its own pixel. In the program, "not moved" and "on the circle" hold up to float rounding.
- Rendering is left out. `showPoint` sets a `null` style on a feature whose mode is not in the list, and the model records that as a cleared style. In OpenLayers a feature without a style of its own is drawn with its layer's style. The vector layer of `FeatureModify.jsx` is built without a style, so such a feature is still drawn, with the default style. The comment in `showPoint` speaks of visibility, so the authors probably meant to hide these features. The model promises only which features keep their own style, not which are visible.
- Rotated views are left out. The projection is a parameter, and the claims about moved labels assume a view that round-trips, keeps x and flips y. The unrotated view of `Geometry` is shown to be such a view.
- The `while` loop of `beginDeclutterMode` is unbounded and may never end. Each search is cut off after `fuel` steps, and the pass then reports the label as `Unsettled`.
- Declutter.SearchLoop: it states results only for searches that end within the fuel bound.
- Declutter.BeginDeclutterMode: pairwise separation is promised only for a projection that round-trips. "Every label moves" is promised only for a view that keeps x and flips y, with offsets on the circle.
- When `setOverlayPosition` throws partway through a pass or a reset, the JavaScript keeps the commits already made, and the current label stays at its last candidate. The model reports `Thrown(error)` without that partly changed map. On a valid map nothing throws.
- Labels.SetOverlayPosition: the JavaScript throws a `TypeError` when index 1 of the group is missing or is a line without vertices, and the model reports both as `NotALeaderLine`. When index 1 is a point, the JavaScript does not throw: it reads the point's x as a first vertex and writes a malformed point back. The model refuses that group with `NotALeaderLine` as well. No call site builds such a group, because `createPoint` always puts a line at index 1.
- A missing feature makes `setOverlayPosition` throw before the label moves, so no overlay is moved in that case.
- The label test uses `getFeaturesInExtent`, which matches a feature by the bounding extent of its whole geometry group (point and leader line). It does not test the point's icon. The model follows the code.
- The circle-drawing interaction of `PointTest.jsx` is left out as an interaction. A circle it adds to the vector source has no id. Such a feature enters `features` as a group of the same bounding extent, under its uid, and no overlay records it. It then counts as an obstacle in `getFeaturesInExtent`.
- DOM work is left out: creating the label element, its text, the `label` and `selected` CSS classes and the feature's circle style. Each label's rendered size is a fixed field of the overlay, and marking a label is taken not to change it.
- The DragBox modifier-key condition, React state and hooks, and `console.log` are left out. The current mode of `FeatureModify.jsx` is a parameter of the click handler.
- `Icon` anchor units are left out of `generateStyle`. Only the source and size are modelled.
- A map click in `FeatureModify.jsx` styles the new feature by the current mode even when that mode is not in the list. It keeps that style until the next `showPoint`. The model keeps this behaviour: `FeatureModify.OnMapClick` states the style, and `FeatureModify.ClickedTrackFollowsFilter` states that the next `showPoint` clears it when the mode is not listed.

## Findings

| source | as written | input that shows it | evidently intended | confidence | as-written member | corrected member |
|---|---|---|---|---|---|---|
| src/hooks/useOpenLayersMap.jsx:28-32 | `isIntersectingWithOtherPoint` asks the layer for every feature under the label's extent, including the label's own feature, whose leader line ends at the label. | A single clicked point whose label is box-selected, with nothing else on the map. The label's own line ends inside its extent, so the loop pushes the label at least one step, although nothing else is near. | Only other points should block a label, as the name says. A label that is already clear should stay where it is. | medium; not executed | Declutter.LoneLabelCollidesAsWritten | Declutter.BeginDeclutterMode |

The as-written test is `PointRule.AnyFeature`. `Declutter.OwnLeaderLineAlwaysHit` proves that under this test every linked label collides on entry. `Declutter.LoneLabelCollidesAsWritten` gives the smallest such map: one label and nothing else, blocked all the same. `Declutter.BeginDeclutterMode` then proves that a finished pass moves every selected label of a valid map. The corrected test is `PointRule.OtherFeatures`, which leaves the label's own feature out. Under it, `Declutter.BeginDeclutterMode` and `Selection.OnBoxEnd` prove that a map whose selected labels are all clear is left as it was. Both tests are parameters of the same pass.
