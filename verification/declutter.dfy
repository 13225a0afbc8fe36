/** The declutter pass of `src/hooks/useOpenLayersMap.jsx`: the candidate
    step `generateCirclePixel`, the two collision tests, the search loop that
    pushes one label until it is clear, the commit through
    `setOverlayPosition`, and the pass over the selected labels in order. */
module Declutter {
  import opened Wrappers
  import opened Geometry
  import opened Labels

  /** The fixed radius of `generateCirclePixel`, in pixels. */
  const CircleRadius: real := 90.0

  /** The pixel offset `generateCirclePixel` adds for label `i` of `n`,
      (r cos(2 pi i / n), r sin(2 pi i / n)). The trigonometry is not
      modelled: the caller supplies the table of offsets. */
  type StepTable = (nat, nat) -> Pixel

  function SquaredLength(p: Pixel): real {
    p.x * p.x + p.y * p.y
  }

  /** Every offset of the table lies on the circle of radius 90. */
  ghost predicate OnCircle(step: StepTable) {
    forall i: nat, n: nat :: SquaredLength(step(i, n)) == CircleRadius * CircleRadius
  }

  /** `generateCirclePixel`: the next candidate pixel for label `i` of `n`,
      the table's offset added to `p`. */
  function GenerateCirclePixel(p: Pixel, i: nat, n: nat, step: StepTable): Pixel {
    Pixel(p.x + step(i, n).x, p.y + step(i, n).y)
  }

  /** The candidate pixel after `k` steps from `p`. */
  function Walk(p: Pixel, i: nat, n: nat, step: StepTable, k: nat): Pixel
    decreases k
  {
    if k == 0 then p else GenerateCirclePixel(Walk(p, i, n, step, k - 1), i, n, step)
  }

  /** The candidates of one label lie on a ray: `k` steps move the pixel by
      `k` times the label's fixed offset. */
  lemma {:induction false} WalkIsRay(p: Pixel, i: nat, n: nat, step: StepTable, k: nat)
    ensures Walk(p, i, n, step, k) == Pixel(p.x + k as real * step(i, n).x, p.y + k as real * step(i, n).y)
    decreases k
  {
    if k > 0 {
      WalkIsRay(p, i, n, step, k - 1);
      assert (k - 1) as real * step(i, n).x + step(i, n).x == k as real * step(i, n).x;
      assert (k - 1) as real * step(i, n).y + step(i, n).y == k as real * step(i, n).y;
    }
  }

  /** Scaling a pixel by `a` scales its squared length by `a * a`. */
  lemma ScaledSquaredLength(a: real, q: Pixel)
    ensures SquaredLength(Pixel(a * q.x, a * q.y)) == (a * a) * SquaredLength(q)
  {
    assert (a * q.x) * (a * q.x) == (a * a) * (q.x * q.x);
    assert (a * q.y) * (a * q.y) == (a * a) * (q.y * q.y);
  }

  /** With the table on the circle, the `k`-th candidate lies `k` times 90
      pixels from the pixel the search started at, so no two candidates of
      one label coincide. */
  lemma WalkDistance(p: Pixel, i: nat, n: nat, step: StepTable, k: nat)
    requires OnCircle(step)
    ensures var w := Walk(p, i, n, step, k);
      SquaredLength(Pixel(w.x - p.x, w.y - p.y)) == (k as real * k as real) * (CircleRadius * CircleRadius)
  {
    WalkIsRay(p, i, n, step, k);
    var w := Walk(p, i, n, step, k);
    var s := step(i, n);
    var d := Pixel(w.x - p.x, w.y - p.y);
    assert d == Pixel(k as real * s.x, k as real * s.y);
    assert SquaredLength(s) == CircleRadius * CircleRadius;
    ScaledSquaredLength(k as real, s);
  }

  /** Every member of the selection names an overlay of the map. */
  predicate ValidSelection(st: MapState, sel: seq<nat>) {
    forall j :: 0 <= j < |sel| ==> sel[j] < |st.overlays|
  }

  /** No overlay is selected twice. */
  predicate Distinct(sel: seq<nat>) {
    forall a, b :: 0 <= a < b < |sel| ==> sel[a] != sel[b]
  }

  /** The scan of `isIntersectingWithOtherOverlay` from position `j` of the
      selection, in the order of `Array.prototype.some`. */
  function SomeOtherOverlay(st: MapState, sel: seq<nat>, cur: nat, ext: Extent, j: nat): bool
    requires ValidSelection(st, sel) && j <= |sel|
    decreases |sel| - j
  {
    if j == |sel| then false
    else (sel[j] != cur && Intersects(ext, LabelExtent(st, sel[j]))) || SomeOtherOverlay(st, sel, cur, ext, j + 1)
  }

  /** The scan finds a hit exactly when some selected overlay from position
      `j` on, other than `cur`, has an extent that meets `ext`. */
  lemma {:induction false} SomeOtherOverlayFinds(st: MapState, sel: seq<nat>, cur: nat, ext: Extent, j: nat)
    requires ValidSelection(st, sel) && j <= |sel|
    ensures SomeOtherOverlay(st, sel, cur, ext, j) <==>
      exists m :: j <= m < |sel| && sel[m] != cur && Intersects(ext, LabelExtent(st, sel[m]))
    decreases |sel| - j
  {
    if j < |sel| {
      SomeOtherOverlayFinds(st, sel, cur, ext, j + 1);
    }
  }

  /** `isIntersectingWithOtherOverlay` for the `k`-th selected label. */
  predicate IsIntersectingWithOtherOverlay(st: MapState, sel: seq<nat>, k: nat)
    requires ValidSelection(st, sel) && k < |sel|
  {
    SomeOtherOverlay(st, sel, sel[k], LabelExtent(st, sel[k]), 0)
  }

  /** `getFeaturesInExtent`: the features whose geometry group's bounding
      extent meets `ext`. */
  function FeaturesInExtent(st: MapState, ext: Extent): set<FeatureId> {
    set id | id in st.features && FeatureExtent(st.features[id].geometries).Some?
      && Intersects(FeatureExtent(st.features[id].geometries).value, ext)
  }

  /** Rewriting one feature changes which other features meet an extent
      not at all. */
  lemma FeaturesInExtentAwayFrom(st: MapState, st': MapState, fid: FeatureId, ext: Extent)
    requires st'.features.Keys == st.features.Keys
    requires forall id :: id in st.features && id != fid ==> st'.features[id] == st.features[id]
    ensures FeaturesInExtent(st', ext) - {fid} == FeaturesInExtent(st, ext) - {fid}
  {
  }

  /** Which features count as obstacles for a label. `AnyFeature` is the
      source as written: every feature of the layer, the label's own
      included. `OtherFeatures` leaves out the label's own feature. */
  datatype PointRule = AnyFeature | OtherFeatures

  /** The features that block label `i` under `rule`. */
  function BlockingFeatures(st: MapState, i: nat, rule: PointRule): set<FeatureId>
    requires i < |st.overlays|
  {
    var hits := FeaturesInExtent(st, LabelExtent(st, i));
    match rule
    case AnyFeature => hits
    case OtherFeatures => hits - {st.overlays[i].pointFeature}
  }

  /** `isIntersectingWithOtherPoint` for the `k`-th selected label. */
  predicate IsIntersectingWithOtherPoint(st: MapState, sel: seq<nat>, k: nat, rule: PointRule)
    requires ValidSelection(st, sel) && k < |sel|
  {
    |BlockingFeatures(st, sel[k], rule)| > 0
  }

  /** The condition of the `while` loop. */
  predicate Collides(st: MapState, sel: seq<nat>, k: nat, rule: PointRule)
    requires ValidSelection(st, sel) && k < |sel|
  {
    IsIntersectingWithOtherPoint(st, sel, k, rule) || IsIntersectingWithOtherOverlay(st, sel, k)
  }

  /** The loop condition in set terms: some feature blocks the label, or
      some other selected label's extent meets its own. */
  lemma CollidesMeans(st: MapState, sel: seq<nat>, k: nat, rule: PointRule)
    requires ValidSelection(st, sel) && k < |sel|
    ensures Collides(st, sel, k, rule) <==>
      || BlockingFeatures(st, sel[k], rule) != {}
      || exists m :: 0 <= m < |sel| && sel[m] != sel[k] && Intersects(LabelExtent(st, sel[k]), LabelExtent(st, sel[m]))
  {
    SomeOtherOverlayFinds(st, sel, sel[k], LabelExtent(st, sel[k]), 0);
  }

  /** A label never blocks itself: with no other label selected and no
      feature in the way it does not collide, although its extent meets
      itself. */
  lemma LabelDoesNotCollideWithItself(st: MapState, sel: seq<nat>, k: nat, rule: PointRule)
    requires ValidSelection(st, sel) && k < |sel| && Unrotated(st.view)
    requires forall m :: 0 <= m < |sel| ==> sel[m] == sel[k]
    requires BlockingFeatures(st, sel[k], rule) == {}
    ensures Intersects(LabelExtent(st, sel[k]), LabelExtent(st, sel[k]))
    ensures !Collides(st, sel, k, rule)
  {
    LabelExtentHoldsPosition(st.view, st.overlays[sel[k]]);
    CollidesMeans(st, sel, k, rule);
  }

  /** With the map valid, the label's own leader line ends inside the
      label, so the source's test always finds a feature under it. */
  lemma OwnLeaderLineAlwaysHit(st: MapState, sel: seq<nat>, k: nat)
    requires ValidSelection(st, sel) && k < |sel|
    requires ValidExcept(st, sel[k]) && Unrotated(st.view)
    requires Linked(st, sel[k])
    ensures st.overlays[sel[k]].pointFeature in BlockingFeatures(st, sel[k], AnyFeature)
    ensures Collides(st, sel, k, AnyFeature)
  {
    var i := sel[k];
    var f := st.features[st.overlays[i].pointFeature];
    LeaderFeatureExtentHoldsEnds(f);
    LabelExtentHoldsPosition(st.view, st.overlays[i]);
    SharedCoordIntersects(FeatureExtent(f.geometries).value, LabelExtent(st, i), st.overlays[i].position);
  }

  /** The smallest map that shows it: one click on an empty map, its label
      box-selected alone. Nothing else is near the label, yet the source's
      test finds its own feature under it; the test that leaves the label's
      own feature out finds the label clear. */
  lemma LoneLabelCollidesAsWritten(view: Projection, coordinate: Coord, width: nat, height: nat)
    requires Unrotated(view)
    ensures var st := OnMapClick(MapState(view, map[], [], 0, 0), coordinate, width, height);
      && Valid(st) && |st.overlays| == 1 && st.features.Keys == {st.overlays[0].pointFeature}
      && ValidSelection(st, [0])
      && Collides(st, [0], 0, AnyFeature)
      && !Collides(st, [0], 0, OtherFeatures)
  {
    var empty := MapState(view, map[], [], 0, 0);
    OnMapClickKeepsValid(empty, coordinate, width, height);
    var st := OnMapClick(empty, coordinate, width, height);
    var fid := st.overlays[0].pointFeature;
    assert st.features.Keys == {fid};
    ValidIsValidExcept(st, 0);
    OwnLeaderLineAlwaysHit(st, [0], 0);
    assert BlockingFeatures(st, 0, OtherFeatures) == {} by {
      assert FeaturesInExtent(st, LabelExtent(st, 0)) <= {fid};
    }
    LabelDoesNotCollideWithItself(st, [0], 0, OtherFeatures);
  }

  /** `labelOverlay.setPosition`: the provisional move inside the loop. */
  function MoveOverlay(st: MapState, i: nat, c: Coord): (r: MapState)
    requires i < |st.overlays|
    ensures OnlyLabelMoved(st, r, i, c) && r.features == st.features
  {
    st.(overlays := st.overlays[i := st.overlays[i].(position := c)])
  }


  /** The pixel the `k`-th selected label's search starts from. */
  function StartPixel(st: MapState, sel: seq<nat>, k: nat): Pixel
    requires ValidSelection(st, sel) && k < |sel|
  {
    st.view.toPixel(st.overlays[sel[k]].position)
  }

  /** The map as the search loop of the `k`-th selected label holds it after
      `j` steps: untouched before the first step, afterwards with the label
      at the coordinate of the `j`-th candidate pixel. */
  function Candidate(st: MapState, sel: seq<nat>, k: nat, step: StepTable, j: nat): (r: MapState)
    requires ValidSelection(st, sel) && k < |sel|
    ensures |r.overlays| == |st.overlays| && r.features == st.features
    ensures OnlyLabelMoved(st, r, sel[k], r.overlays[sel[k]].position)
  {
    if j == 0 then st
    else MoveOverlay(st, sel[k], st.view.toCoordinate(Walk(StartPixel(st, sel, k), k, |sel|, step, j)))
  }

  /** One more step of the loop takes the map after `j` steps to the map
      after `j + 1`. */
  lemma CandidateStep(st: MapState, sel: seq<nat>, k: nat, step: StepTable, j: nat)
    requires ValidSelection(st, sel) && k < |sel|
    ensures var cur := Candidate(st, sel, k, step, j);
      var next := Walk(StartPixel(st, sel, k), k, |sel|, step, j + 1);
      MoveOverlay(cur, sel[k], cur.view.toCoordinate(next)) == Candidate(st, sel, k, step, j + 1)
  {
    var cur := Candidate(st, sel, k, step, j);
    var c := st.view.toCoordinate(Walk(StartPixel(st, sel, k), k, |sel|, step, j + 1));
    assert MoveOverlay(cur, sel[k], c).overlays == MoveOverlay(st, sel[k], c).overlays;
  }

  /** Where the search loop stopped: the map with the label at its last
      candidate, that candidate's pixel, and the number of steps taken. */
  datatype Settled = Settled(state: MapState, pixel: Pixel, steps: nat)

  /** Every candidate before the `n`-th collides. */
  ghost predicate CollidesBefore(st: MapState, sel: seq<nat>, k: nat, step: StepTable, rule: PointRule, n: nat)
    requires ValidSelection(st, sel) && k < |sel|
  {
    forall j :: 0 <= j < n ==> Collides(Candidate(st, sel, k, step, j), sel, k, rule)
  }

  /** One step of the search loop: the next pixel on the label's ray, and
      the label provisionally moved to its coordinate. */
  method Advance(st: MapState, sel: seq<nat>, k: nat, step: StepTable, steps: nat, cur: MapState, pixel: Pixel)
    returns (cur': MapState, pixel': Pixel)
    requires ValidSelection(st, sel) && k < |sel|
    requires cur == Candidate(st, sel, k, step, steps)
    requires pixel == Walk(StartPixel(st, sel, k), k, |sel|, step, steps)
    ensures cur' == Candidate(st, sel, k, step, steps + 1)
    ensures pixel' == Walk(StartPixel(st, sel, k), k, |sel|, step, steps + 1)
  {
    pixel' := GenerateCirclePixel(pixel, k, |sel|, step);
    CandidateStep(st, sel, k, step, steps);
    cur' := MoveOverlay(cur, sel[k], cur.view.toCoordinate(pixel'));
  }

  /** The `while` loop of `beginDeclutterMode` for the `k`-th selected label,
      allowed at most `fuel` steps. It stops at the first candidate that is
      clear, and gives `None` when the label still collides at every
      candidate up to the `fuel`-th. */
  method SearchLoop(st: MapState, sel: seq<nat>, k: nat, fuel: nat, step: StepTable, rule: PointRule) returns (r: Option<Settled>)
    requires ValidSelection(st, sel) && k < |sel|
    ensures r.Some? ==>
      && r.value.steps <= fuel
      && r.value.state == Candidate(st, sel, k, step, r.value.steps)
      && r.value.pixel == Walk(StartPixel(st, sel, k), k, |sel|, step, r.value.steps)
    ensures r.Some? ==> !Collides(Candidate(st, sel, k, step, r.value.steps), sel, k, rule)
    ensures r.Some? ==> CollidesBefore(st, sel, k, step, rule, r.value.steps)
    ensures r.None? ==> CollidesBefore(st, sel, k, step, rule, fuel + 1)
  {
    var cur := st;
    var pixel := StartPixel(st, sel, k);
    var steps := 0;
    while Collides(cur, sel, k, rule)
      invariant steps <= fuel
      invariant cur == Candidate(st, sel, k, step, steps)
      invariant pixel == Walk(StartPixel(st, sel, k), k, |sel|, step, steps)
      invariant CollidesBefore(st, sel, k, step, rule, steps)
      decreases fuel - steps
    {
      if steps == fuel {
        return None;
      }
      cur, pixel := Advance(st, sel, k, step, steps, cur, pixel);
      steps := steps + 1;
    }
    r := Some(Settled(cur, pixel, steps));
  }

  /** After `j` steps the `k`-th selected label is clear for the first
      time: every earlier candidate collided. */
  ghost predicate FirstClearAt(st: MapState, sel: seq<nat>, k: nat, step: StepTable, rule: PointRule, j: nat)
    requires ValidSelection(st, sel) && k < |sel|
  {
    && !Collides(Candidate(st, sel, k, step, j), sel, k, rule)
    && forall j' :: 0 <= j' < j ==> Collides(Candidate(st, sel, k, step, j'), sel, k, rule)
  }

  /** What a pass, or one label's turn in it, comes to: the map after it,
      the position in the selection of the label still colliding when its
      steps ran out, or the error `setOverlayPosition` threw. */
  datatype Outcome = Done(state: MapState) | Unsettled(index: nat) | Thrown(error: Error)

  /** What a finished turn of the `k`-th selected label promises: only
      that label's position and its own feature's line change; a map valid
      but for that label is valid again; and, under a projection that
      round-trips, the label sits at its first clear candidate. */
  ghost predicate TurnDone(st: MapState, st': MapState, sel: seq<nat>, k: nat, fuel: nat, step: StepTable, rule: PointRule)
    requires ValidSelection(st, sel) && k < |sel|
  {
    && |st'.overlays| == |st.overlays|
    && st.overlays[sel[k]].pointFeature in st.features
    && OnlyLabelMoved(st, st', sel[k], st'.overlays[sel[k]].position)
    && OnlyLeaderRewritten(st, st', st.overlays[sel[k]].pointFeature, st'.overlays[sel[k]].position)
    && (ValidExcept(st, sel[k]) ==> Valid(st'))
    && (RoundTrips(st.view) ==>
          exists j :: 0 <= j <= fuel && FirstClearAt(st, sel, k, step, rule, j) &&
            st'.overlays[sel[k]].position == Candidate(st, sel, k, step, j).overlays[sel[k]].position)
  }

  /** One turn of the `forEach` in `beginDeclutterMode`: read the label's
      pixel, search until it is clear, then commit the coordinate of the
      final pixel through `setOverlayPosition`. */
  method ProcessLabel(st: MapState, sel: seq<nat>, k: nat, fuel: nat, step: StepTable, rule: PointRule) returns (r: Outcome)
    requires ValidSelection(st, sel) && k < |sel|
    ensures r.Unsettled? ==> r.index == k && forall j :: 0 <= j <= fuel ==> !FirstClearAt(st, sel, k, step, rule, j)
    ensures r.Thrown? ==> (r.error == FeatureNotFound <==> st.overlays[sel[k]].pointFeature !in st.features)
    ensures ValidExcept(st, sel[k]) ==> !r.Thrown?
    ensures r.Done? ==> TurnDone(st, r.state, sel, k, fuel, step, rule)
    ensures !Collides(st, sel, k, rule) && Linked(st, sel[k]) && RoundTrips(st.view) ==> r == Done(st)
  {
    var i := sel[k];
    var found := SearchLoop(st, sel, k, fuel, step, rule);
    assert Candidate(st, sel, k, step, 0) == st;
    if found.None? {
      assert Collides(Candidate(st, sel, k, step, 0), sel, k, rule);
      return Unsettled(k);
    }
    var s := found.value;
    var c := st.view.toCoordinate(s.pixel);
    var committed := SetOverlayPosition(s.state, i, c);
    if ValidExcept(st, i) {
      MoveKeepsValidExcept(st, s.state, i, s.state.overlays[i].position);
      CommitRestoresValid(s.state, i, c);
    }
    if committed.Failure? {
      return Thrown(committed.error);
    }
    r := Done(committed.value);
    if RoundTrips(st.view) {
      assert c == s.state.overlays[i].position by {
        if s.steps == 0 {
          assert s.pixel == StartPixel(st, sel, k);
        }
      }
      assert FirstClearAt(st, sel, k, step, rule, s.steps);
      if !Collides(st, sel, k, rule) && Linked(st, i) {
        assert !Collides(Candidate(st, sel, k, step, 0), sel, k, rule);
        assert s.steps == 0;
        SetOverlayPositionInPlace(st, i);
      }
    }
  }

  /** A label committed at its first clear candidate is clear of the other
      selected labels, and no feature but its own lies under it; when the
      label's own feature does not count, the label no longer collides. */
  lemma TurnClearsLabel(st: MapState, st': MapState, sel: seq<nat>, k: nat, step: StepTable, rule: PointRule, j: nat, c: Coord)
    requires ValidSelection(st, sel) && k < |sel|
    requires FirstClearAt(st, sel, k, step, rule, j)
    requires st.overlays[sel[k]].pointFeature in st.features
    requires OnlyLabelMoved(st, st', sel[k], Candidate(st, sel, k, step, j).overlays[sel[k]].position)
    requires OnlyLeaderRewritten(st, st', st.overlays[sel[k]].pointFeature, c)
    ensures ValidSelection(st', sel)
    ensures forall m :: 0 <= m < |sel| && sel[m] != sel[k] ==> !Intersects(LabelExtent(st', sel[k]), LabelExtent(st', sel[m]))
    ensures FeaturesInExtent(st', LabelExtent(st', sel[k])) <= {st.overlays[sel[k]].pointFeature}
    ensures rule == OtherFeatures ==> !Collides(st', sel, k, rule)
  {
    var i := sel[k];
    var fid := st.overlays[i].pointFeature;
    var cand := Candidate(st, sel, k, step, j);
    assert st'.overlays == cand.overlays;
    assert forall m :: 0 <= m < |sel| ==> LabelExtent(st', sel[m]) == LabelExtent(cand, sel[m]);
    CollidesMeans(cand, sel, k, rule);
    CollidesMeans(st', sel, k, rule);
    var ext := LabelExtent(st', i);
    FeaturesInExtentAwayFrom(cand, st', fid, ext);
    assert BlockingFeatures(cand, i, rule) == {};
  }

  /** A label that collides where it stands is moved by its turn: under a
      projection that keeps x and flips y, every candidate after the first
      step lies off the label's position, as the steps are on a circle of
      radius 90. */
  lemma TurnMovesCollidingLabel(st: MapState, sel: seq<nat>, k: nat, step: StepTable, rule: PointRule, j: nat)
    requires ValidSelection(st, sel) && k < |sel|
    requires Unrotated(st.view) && OnCircle(step)
    requires Collides(st, sel, k, rule)
    requires FirstClearAt(st, sel, k, step, rule, j)
    ensures Candidate(st, sel, k, step, j).overlays[sel[k]].position != st.overlays[sel[k]].position
  {
    var i := sel[k];
    var pos := st.overlays[i].position;
    var p0 := StartPixel(st, sel, k);
    var d := step(k, |sel|);
    assert Candidate(st, sel, k, step, 0) == st;
    assert j > 0;
    var w := Walk(p0, k, |sel|, step, j);
    WalkIsRay(p0, k, |sel|, step, j);
    assert SquaredLength(d) == 8100.0;
    assert st.view.toCoordinate(p0) == pos;
    if d.x != 0.0 {
      assert j as real * d.x != 0.0;
      assert w.x != p0.x;
      if w.x < p0.x {
        assert !(p0.x <= w.x);
        assert st.view.toCoordinate(w).x < st.view.toCoordinate(p0).x;
      } else {
        assert !(w.x <= p0.x);
        assert st.view.toCoordinate(p0).x < st.view.toCoordinate(w).x;
      }
    } else {
      assert d.y != 0.0 by {
        assert d.x * d.x == 0.0;
      }
      assert j as real * d.y != 0.0;
      assert w.y != p0.y;
      if w.y < p0.y {
        assert !(p0.y <= w.y);
        assert st.view.toCoordinate(w).y > st.view.toCoordinate(p0).y;
      } else {
        assert !(w.y <= p0.y);
        assert st.view.toCoordinate(p0).y > st.view.toCoordinate(w).y;
      }
    }
  }

  /** What a pass over the labels `done` may change: of an overlay only
      its position, and only if it is one of `done`; of the features only
      those of the labels in `done`. The view and the counters stay. */
  ghost predicate PassFrame(st: MapState, st': MapState, done: seq<nat>)
    requires ValidSelection(st, done)
  {
    && st'.view == st.view
    && st'.nextOverlayId == st.nextOverlayId
    && st'.lastUid == st.lastUid
    && |st'.overlays| == |st.overlays|
    && (forall i :: 0 <= i < |st.overlays| ==> st'.overlays[i] == st.overlays[i].(position := st'.overlays[i].position))
    && (forall i :: 0 <= i < |st.overlays| && i !in done ==> st'.overlays[i] == st.overlays[i])
    && st'.features.Keys == st.features.Keys
    && (forall id :: id in st.features && (forall m :: 0 <= m < |done| ==> st.overlays[done[m]].pointFeature != id) ==>
          st'.features[id] == st.features[id])
    && AnchorsKept(st, st')
  }

  /** A turn of the `k`-th label extends the frame of the labels before it
      to the frame of the first `k + 1`. */
  lemma TurnExtendsPassFrame(st: MapState, cur: MapState, cur': MapState, sel: seq<nat>, k: nat, c: Coord)
    requires ValidSelection(st, sel) && k < |sel|
    requires PassFrame(st, cur, sel[..k])
    requires OnlyLabelMoved(cur, cur', sel[k], c)
    requires cur.overlays[sel[k]].pointFeature in cur.features
    requires OnlyLeaderRewritten(cur, cur', cur.overlays[sel[k]].pointFeature, c)
    ensures PassFrame(st, cur', sel[..k + 1])
  {
    var prev, done := sel[..k], sel[..k + 1];
    assert done == prev + [sel[k]];
    var fid := cur.overlays[sel[k]].pointFeature;
    assert fid == st.overlays[sel[k]].pointFeature;
    forall id | id in st.features && (forall m :: 0 <= m < |done| ==> st.overlays[done[m]].pointFeature != id)
      ensures cur'.features[id] == st.features[id]
    {
      assert forall m :: 0 <= m < |prev| ==> st.overlays[prev[m]].pointFeature != id by {
        forall m | 0 <= m < |prev|
          ensures st.overlays[prev[m]].pointFeature != id
        {
          assert prev[m] == done[m];
        }
      }
      assert st.overlays[done[k]].pointFeature != id;
    }
    LeaderRewriteKeepsAnchors(cur, cur', fid, c);
    AnchorsKeptTransitive(st, cur, cur');
  }

  /** No two of the first `k` selected labels have meeting extents. */
  predicate SeparatedUpTo(st: MapState, sel: seq<nat>, k: nat)
    requires ValidSelection(st, sel) && k <= |sel|
  {
    forall a, b :: 0 <= a < b < k ==> !Intersects(LabelExtent(st, sel[a]), LabelExtent(st, sel[b]))
  }

  /** A turn that moves only the `k`-th of distinct labels, and leaves it
      clear of every other selected label, keeps the labels before it apart
      and puts it apart from all of them. */
  lemma TurnExtendsSeparation(cur: MapState, cur': MapState, sel: seq<nat>, k: nat, c: Coord)
    requires ValidSelection(cur, sel) && k < |sel| && Distinct(sel)
    requires SeparatedUpTo(cur, sel, k)
    requires OnlyLabelMoved(cur, cur', sel[k], c)
    requires forall m :: 0 <= m < |sel| && sel[m] != sel[k] ==> !Intersects(LabelExtent(cur', sel[k]), LabelExtent(cur', sel[m]))
    ensures ValidSelection(cur', sel)
    ensures SeparatedUpTo(cur', sel, k + 1)
  {
    forall a, b | 0 <= a < b < k + 1
      ensures !Intersects(LabelExtent(cur', sel[a]), LabelExtent(cur', sel[b]))
    {
      if b < k {
        assert cur'.overlays[sel[a]] == cur.overlays[sel[a]];
        assert cur'.overlays[sel[b]] == cur.overlays[sel[b]];
      } else {
        IntersectsSymmetric(LabelExtent(cur', sel[a]), LabelExtent(cur', sel[k]));
      }
    }
  }

  /** The pass conditions under which every label of a valid map is
      moved: the source's test, steps on the circle, distinct labels. */
  ghost predicate MovesEveryLabel(st: MapState, sel: seq<nat>, step: StepTable, rule: PointRule) {
    rule == AnyFeature && Valid(st) && Unrotated(st.view) && OnCircle(step) && Distinct(sel)
  }

  /** A valid map, a round-tripping projection and no selected label
      colliding, under the test that leaves each label's own feature out. */
  ghost predicate AllClear(st: MapState, sel: seq<nat>, rule: PointRule)
    requires ValidSelection(st, sel)
  {
    rule == OtherFeatures && Valid(st) && RoundTrips(st.view) &&
    forall m :: 0 <= m < |sel| ==> !Collides(st, sel, m, rule)
  }

  /** What holds of the map `cur` after the first `k` turns of a pass
      started from `st`. */
  ghost predicate PassInvariant(st: MapState, cur: MapState, sel: seq<nat>, step: StepTable, rule: PointRule, k: nat)
    requires ValidSelection(st, sel) && k <= |sel|
  {
    && ValidSelection(cur, sel)
    && PassFrame(st, cur, sel[..k])
    && (Valid(st) ==> Valid(cur))
    && (Distinct(sel) && RoundTrips(st.view) ==> SeparatedUpTo(cur, sel, k))
    && (MovesEveryLabel(st, sel, step, rule) ==>
          forall m :: 0 <= m < k ==> cur.overlays[sel[m]].position != st.overlays[sel[m]].position)
    && (AllClear(st, sel, rule) ==> cur == st)
  }

  /** A finished turn of the `k`-th of distinct labels keeps the labels
      before it apart and puts it apart from all of them. */
  lemma TurnKeepsSeparation(cur: MapState, next: MapState, sel: seq<nat>, k: nat, fuel: nat, step: StepTable, rule: PointRule)
    requires ValidSelection(cur, sel) && k < |sel| && Distinct(sel) && RoundTrips(cur.view)
    requires SeparatedUpTo(cur, sel, k)
    requires TurnDone(cur, next, sel, k, fuel, step, rule)
    ensures ValidSelection(next, sel) && SeparatedUpTo(next, sel, k + 1)
  {
    var c := next.overlays[sel[k]].position;
    var j :| 0 <= j <= fuel && FirstClearAt(cur, sel, k, step, rule, j) &&
      c == Candidate(cur, sel, k, step, j).overlays[sel[k]].position;
    TurnClearsLabel(cur, next, sel, k, step, rule, j, c);
    TurnExtendsSeparation(cur, next, sel, k, c);
  }

  /** Under the source's test, a finished turn of a label still at its
      place on a valid map moves it. */
  lemma TurnMovesLabel(cur: MapState, next: MapState, sel: seq<nat>, k: nat, fuel: nat, step: StepTable)
    requires ValidSelection(cur, sel) && k < |sel|
    requires Valid(cur) && Unrotated(cur.view) && OnCircle(step)
    requires TurnDone(cur, next, sel, k, fuel, step, AnyFeature)
    ensures next.overlays[sel[k]].position != cur.overlays[sel[k]].position
  {
    var c := next.overlays[sel[k]].position;
    var j :| 0 <= j <= fuel && FirstClearAt(cur, sel, k, step, AnyFeature, j) &&
      c == Candidate(cur, sel, k, step, j).overlays[sel[k]].position;
    ValidIsValidExcept(cur, sel[k]);
    OwnLeaderLineAlwaysHit(cur, sel, k);
    TurnMovesCollidingLabel(cur, sel, k, step, AnyFeature, j);
  }

  /** Under the source's test, the labels moved so far stay moved, and the
      `k`-th label is moved too. */
  lemma TurnKeepsMoved(st: MapState, cur: MapState, next: MapState, sel: seq<nat>, k: nat, fuel: nat, step: StepTable)
    requires ValidSelection(st, sel) && k < |sel| && ValidSelection(cur, sel)
    requires MovesEveryLabel(st, sel, step, AnyFeature) && Valid(cur) && cur.view == st.view
    requires PassFrame(st, cur, sel[..k])
    requires forall m :: 0 <= m < k ==> cur.overlays[sel[m]].position != st.overlays[sel[m]].position
    requires TurnDone(cur, next, sel, k, fuel, step, AnyFeature)
    ensures forall m :: 0 <= m < k + 1 ==> next.overlays[sel[m]].position != st.overlays[sel[m]].position
  {
    assert sel[k] !in sel[..k];
    assert cur.overlays[sel[k]] == st.overlays[sel[k]];
    TurnMovesLabel(cur, next, sel, k, fuel, step);
    forall m | 0 <= m < k
      ensures next.overlays[sel[m]] == cur.overlays[sel[m]]
    {
    }
  }

  /** With every label clear under the test that leaves each label's own
      feature out, a turn leaves the map as it was. */
  lemma TurnKeepsClearMap(st: MapState, next: MapState, sel: seq<nat>, k: nat, fuel: nat, step: StepTable, rule: PointRule)
    requires ValidSelection(st, sel) && k < |sel|
    requires AllClear(st, sel, rule)
    requires !Collides(st, sel, k, rule) && Linked(st, sel[k]) && RoundTrips(st.view) ==> next == st
    ensures next == st
  {
    assert !Collides(st, sel, k, rule);
    assert Linked(st, sel[k]);
  }

  /** A finished turn of the `k`-th label carries the pass invariant from
      the first `k` labels to the first `k + 1`. */
  lemma TurnKeepsPassInvariant(st: MapState, cur: MapState, next: MapState, sel: seq<nat>, k: nat, fuel: nat, step: StepTable, rule: PointRule)
    requires ValidSelection(st, sel) && k < |sel|
    requires PassInvariant(st, cur, sel, step, rule, k)
    requires TurnDone(cur, next, sel, k, fuel, step, rule)
    requires !Collides(cur, sel, k, rule) && Linked(cur, sel[k]) && RoundTrips(cur.view) ==> next == cur
    ensures PassInvariant(st, next, sel, step, rule, k + 1)
  {
    TurnExtendsPassFrame(st, cur, next, sel, k, next.overlays[sel[k]].position);
    if Valid(st) {
      ValidIsValidExcept(cur, sel[k]);
    }
    if Distinct(sel) && RoundTrips(st.view) {
      TurnKeepsSeparation(cur, next, sel, k, fuel, step, rule);
    }
    if MovesEveryLabel(st, sel, step, rule) {
      TurnKeepsMoved(st, cur, next, sel, k, fuel, step);
    }
    if AllClear(st, sel, rule) {
      TurnKeepsClearMap(st, next, sel, k, fuel, step, rule);
    }
  }

  /** The turns a pass started from `st` has taken when it reaches the
      `k`-th label: `ms[t]` is the map the `t`-th turn started from, and
      each of the first `k` turns finished as `TurnDone` says, so each label
      went, in selection order, to its own first clear candidate. */
  ghost predicate PassTrace(st: MapState, ms: seq<MapState>, sel: seq<nat>, k: nat, fuel: nat, step: StepTable, rule: PointRule)
    requires k <= |sel|
  {
    && |ms| == k + 1
    && ms[0] == st
    && forall t :: 0 <= t < k ==> ValidSelection(ms[t], sel) && TurnDone(ms[t], ms[t + 1], sel, t, fuel, step, rule)
  }

  /** A finished turn lengthens the trace by the map it left. */
  lemma PassTraceExtends(st: MapState, ms: seq<MapState>, next: MapState, sel: seq<nat>, k: nat, fuel: nat, step: StepTable, rule: PointRule)
    requires k < |sel|
    requires PassTrace(st, ms, sel, k, fuel, step, rule)
    requires ValidSelection(ms[k], sel) && TurnDone(ms[k], next, sel, k, fuel, step, rule)
    ensures PassTrace(st, ms + [next], sel, k + 1, fuel, step, rule)
    ensures (ms + [next])[k + 1] == next
  {
    var ms' := ms + [next];
    forall t | 0 <= t < k + 1
      ensures ValidSelection(ms'[t], sel) && TurnDone(ms'[t], ms'[t + 1], sel, t, fuel, step, rule)
    {
      assert ms'[t] == ms[t];
      if t < k {
        assert ms'[t + 1] == ms[t + 1];
      }
    }
  }

  /** The `k`-th turn of the pass, seen from the pass: it carries the pass
      invariant on when it finishes, and then the turn is one `TurnDone`
      describes; it names its own label when that label
      stays unsettled because none of its first `fuel + 1` candidates is
      clear, never throws on a map kept valid, and always finishes
      on a clear map. */
  method TakeTurn(st: MapState, cur: MapState, sel: seq<nat>, k: nat, fuel: nat, step: StepTable, rule: PointRule) returns (o: Outcome)
    requires ValidSelection(st, sel) && k < |sel|
    requires PassInvariant(st, cur, sel, step, rule, k)
    ensures o.Done? ==> PassInvariant(st, o.state, sel, step, rule, k + 1)
    ensures o.Done? ==> ValidSelection(cur, sel) && TurnDone(cur, o.state, sel, k, fuel, step, rule)
    ensures o.Unsettled? ==>
      && o.index == k
      && ValidSelection(cur, sel)
      && forall j :: 0 <= j <= fuel ==> !FirstClearAt(cur, sel, k, step, rule, j)
    ensures Valid(st) ==> !o.Thrown?
    ensures AllClear(st, sel, rule) ==> o.Done?
  {
    if Valid(cur) {
      ValidIsValidExcept(cur, sel[k]);
    }
    o := ProcessLabel(cur, sel, k, fuel, step, rule);
    if AllClear(st, sel, rule) {
      assert !Collides(cur, sel, k, rule);
    }
    if o.Done? {
      TurnKeepsPassInvariant(st, cur, o.state, sel, k, fuel, step, rule);
    }
  }

  /** `beginDeclutterMode`: each selected label takes its turn once, in
      selection order, each search allowed at most `fuel` steps; the first
      label left colliding, or the first thrown error, ends the pass. The
      turns a pass took form a `PassTrace`: a finished pass is the last map
      of a trace through every selected label, and a pass that ends on an
      unsettled label has run that label's search, from the last map of the
      trace of the turns before it, through `fuel` steps without a clear
      candidate.

      On a valid map nothing is thrown and validity is kept; only selected
      labels move, and only their own features change; a finished pass over
      distinct labels leaves no two of them meeting. As written, a linked
      label always collides with its own leader line, so every label of a
      valid map is moved off its place. With the label's own feature left
      out of the test, a map whose labels are all clear is left unchanged. */
  method BeginDeclutterMode(st: MapState, sel: seq<nat>, fuel: nat, step: StepTable, rule: PointRule) returns (r: Outcome)
    requires ValidSelection(st, sel)
    ensures r.Unsettled? ==> r.index < |sel|
    ensures r.Unsettled? ==> exists ms ::
      && PassTrace(st, ms, sel, r.index, fuel, step, rule)
      && PassInvariant(st, ms[r.index], sel, step, rule, r.index)
      && forall j :: 0 <= j <= fuel ==> !FirstClearAt(ms[r.index], sel, r.index, step, rule, j)
    ensures r.Done? ==> exists ms :: PassTrace(st, ms, sel, |sel|, fuel, step, rule) && ms[|sel|] == r.state
    ensures Valid(st) ==> !r.Thrown?
    ensures r.Done? ==> PassFrame(st, r.state, sel)
    ensures r.Done? && Valid(st) ==> Valid(r.state)
    ensures r.Done? && Distinct(sel) && RoundTrips(st.view) ==> ValidSelection(r.state, sel) && SeparatedUpTo(r.state, sel, |sel|)
    ensures r.Done? && MovesEveryLabel(st, sel, step, rule) ==>
      forall m :: 0 <= m < |sel| ==> r.state.overlays[sel[m]].position != st.overlays[sel[m]].position
    ensures AllClear(st, sel, rule) ==> r == Done(st)
  {
    var cur := st;
    var k := 0;
    ghost var ms := [st];
    assert sel[..0] == [];
    while k < |sel|
      invariant k <= |sel|
      invariant PassInvariant(st, cur, sel, step, rule, k)
      invariant PassTrace(st, ms, sel, k, fuel, step, rule) && ms[k] == cur
    {
      var o := TakeTurn(st, cur, sel, k, fuel, step, rule);
      if !o.Done? {
        return o;
      }
      PassTraceExtends(st, ms, o.state, sel, k, fuel, step, rule);
      ms := ms + [o.state];
      cur := o.state;
      k := k + 1;
    }
    assert sel[..k] == sel;
    r := Done(cur);
  }
}
