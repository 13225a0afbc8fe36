/** The drag-box selection of `src/hooks/useOpenLayersMap.jsx`: on
    `boxend` every label whose extent meets the box is marked selected and
    collected, in overlay order, and the collected labels are decluttered. */
module Selection {
  import opened Wrappers
  import opened Geometry
  import opened Labels
  import opened Declutter

  /** Each index of the selection is larger than the one before it. */
  predicate StrictlyIncreasing(sel: seq<nat>) {
    forall a, b :: 0 <= a < b < |sel| ==> sel[a] < sel[b]
  }

  /** `st'` differs from `st` at most in the overlays' `selected` flags. */
  ghost predicate OnlyMarksChanged(st: MapState, st': MapState) {
    && st'.view == st.view
    && st'.features == st.features
    && st'.nextOverlayId == st.nextOverlayId
    && st'.lastUid == st.lastUid
    && |st'.overlays| == |st.overlays|
    && (forall i :: 0 <= i < |st.overlays| ==> st'.overlays[i].(selected := st.overlays[i].selected) == st.overlays[i])
  }

  /** The selected style: the overlay's element gets the `selected` class. */
  function MarkSelected(st: MapState, i: nat): (r: MapState)
    requires i < |st.overlays|
    ensures OnlyMarksChanged(st, r)
    ensures r.overlays[i].selected
    ensures forall j :: 0 <= j < |st.overlays| && j != i ==> r.overlays[j] == st.overlays[j]
  {
    st.(overlays := st.overlays[i := st.overlays[i].(selected := true)])
  }

  /** The `boxend` scan: walk the overlays in order, mark and collect every
      one whose label extent meets `box`. */
  method SelectIntersecting(st: MapState, box: Extent) returns (st': MapState, sel: seq<nat>)
    ensures StrictlyIncreasing(sel)
    ensures ValidSelection(st, sel)
    ensures forall i :: 0 <= i < |st.overlays| ==> (i in sel <==> Intersects(box, LabelExtent(st, i)))
    ensures OnlyMarksChanged(st, st')
    ensures forall i :: 0 <= i < |st.overlays| ==>
      st'.overlays[i].selected == (st.overlays[i].selected || i in sel)
  {
    st' := st;
    sel := [];
    var i := 0;
    while i < |st.overlays|
      invariant i <= |st.overlays|
      invariant OnlyMarksChanged(st, st')
      invariant forall m :: 0 <= m < |sel| ==> sel[m] < i
      invariant StrictlyIncreasing(sel)
      invariant forall j :: 0 <= j < i ==> (j in sel <==> Intersects(box, LabelExtent(st, j)))
      invariant forall j :: 0 <= j < |st.overlays| ==>
        st'.overlays[j].selected == (st.overlays[j].selected || j in sel)
    {
      assert LabelExtent(st', i) == LabelExtent(st, i) by {
        assert st'.overlays[i].position == st.overlays[i].position;
        assert st'.overlays[i].width == st.overlays[i].width;
        assert st'.overlays[i].height == st.overlays[i].height;
      }
      if Intersects(box, LabelExtent(st', i)) {
        st' := MarkSelected(st', i);
        sel := sel + [i];
      }
      i := i + 1;
    }
  }

  /** Marking labels leaves every label's extent, and so the map's
      validity and the declutter loop's collision test, as they were. */
  lemma MarksKeepExtents(st: MapState, st': MapState)
    requires OnlyMarksChanged(st, st')
    ensures forall i :: 0 <= i < |st.overlays| ==> LabelExtent(st', i) == LabelExtent(st, i)
    ensures Valid(st) <==> Valid(st')
  {
    forall i | 0 <= i < |st.overlays|
      ensures LabelExtent(st', i) == LabelExtent(st, i)
      ensures Linked(st', i) <==> Linked(st, i)
    {
      assert st'.overlays[i].position == st.overlays[i].position;
      assert st'.overlays[i].width == st.overlays[i].width;
      assert st'.overlays[i].height == st.overlays[i].height;
      assert st'.overlays[i].pointFeature == st.overlays[i].pointFeature;
    }
    assert forall i :: 0 <= i < |st.overlays| ==> st'.overlays[i].id == st.overlays[i].id by {
      forall i | 0 <= i < |st.overlays|
        ensures st'.overlays[i].id == st.overlays[i].id
      {
        assert st'.overlays[i].(selected := st.overlays[i].selected) == st.overlays[i];
      }
    }
    assert forall i :: 0 <= i < |st.overlays| ==> st'.overlays[i].pointFeature == st.overlays[i].pointFeature by {
      forall i | 0 <= i < |st.overlays|
        ensures st'.overlays[i].pointFeature == st.overlays[i].pointFeature
      {
        assert st'.overlays[i].(selected := st.overlays[i].selected) == st.overlays[i];
      }
    }
  }

  /** The collision test of the `k`-th selected label reads no flag. */
  lemma MarksKeepCollides(st: MapState, st': MapState, sel: seq<nat>, k: nat, rule: PointRule)
    requires OnlyMarksChanged(st, st')
    requires ValidSelection(st, sel) && k < |sel|
    ensures ValidSelection(st', sel)
    ensures Collides(st', sel, k, rule) <==> Collides(st, sel, k, rule)
  {
    MarksKeepExtents(st, st');
    assert st'.overlays[sel[k]].pointFeature == st.overlays[sel[k]].pointFeature by {
      assert st'.overlays[sel[k]].(selected := st.overlays[sel[k]].selected) == st.overlays[sel[k]];
    }
    assert BlockingFeatures(st', sel[k], rule) == BlockingFeatures(st, sel[k], rule);
    CollidesMeans(st, sel, k, rule);
    CollidesMeans(st', sel, k, rule);
    if exists m :: 0 <= m < |sel| && sel[m] != sel[k] && Intersects(LabelExtent(st, sel[k]), LabelExtent(st, sel[m])) {
      var m :| 0 <= m < |sel| && sel[m] != sel[k] && Intersects(LabelExtent(st, sel[k]), LabelExtent(st, sel[m]));
      assert Intersects(LabelExtent(st', sel[k]), LabelExtent(st', sel[m]));
    }
    if exists m :: 0 <= m < |sel| && sel[m] != sel[k] && Intersects(LabelExtent(st', sel[k]), LabelExtent(st', sel[m])) {
      var m :| 0 <= m < |sel| && sel[m] != sel[k] && Intersects(LabelExtent(st', sel[k]), LabelExtent(st', sel[m]));
      assert Intersects(LabelExtent(st, sel[k]), LabelExtent(st, sel[m]));
    }
  }

  /** `marked` is `st` with the labels of `sel`, and only those, newly
      flagged as selected. */
  ghost predicate MarkedBy(st: MapState, marked: MapState, sel: seq<nat>)
  {
    && OnlyMarksChanged(st, marked)
    && ValidSelection(marked, sel)
    && forall i :: 0 <= i < |st.overlays| ==> (marked.overlays[i].selected <==> st.overlays[i].selected || i in sel)
  }

  /** The `boxend` handler: select, then declutter the selection.

      On a valid map nothing is thrown; a finished pass leaves every label
      outside the box as it was, keeps the map valid and, on a view that
      round-trips, leaves no two selected labels meeting. With each label's
      own feature left out of the test, a box over labels that are all
      clear only marks them. The pass runs on the marked map, and its turns
      form a `PassTrace` from it. */
  method OnBoxEnd(st: MapState, box: Extent, fuel: nat, step: StepTable, rule: PointRule) returns (sel: seq<nat>, r: Outcome)
    ensures forall i :: 0 <= i < |st.overlays| ==> (i in sel <==> Intersects(box, LabelExtent(st, i)))
    ensures ValidSelection(st, sel) && Distinct(sel)
    ensures r.Unsettled? ==> r.index < |sel|
    ensures r.Unsettled? ==> exists marked, ms ::
      && MarkedBy(st, marked, sel)
      && PassTrace(marked, ms, sel, r.index, fuel, step, rule)
      && PassInvariant(marked, ms[r.index], sel, step, rule, r.index)
      && forall j :: 0 <= j <= fuel ==> !FirstClearAt(ms[r.index], sel, r.index, step, rule, j)
    ensures r.Done? ==> exists marked, ms ::
      && MarkedBy(st, marked, sel)
      && PassTrace(marked, ms, sel, |sel|, fuel, step, rule)
      && ms[|sel|] == r.state
    ensures Valid(st) ==> !r.Thrown?
    ensures r.Done? ==> |r.state.overlays| == |st.overlays|
    ensures r.Done? ==>
      && r.state.view == st.view
      && r.state.nextOverlayId == st.nextOverlayId
      && r.state.lastUid == st.lastUid
      && r.state.features.Keys == st.features.Keys
      && (forall id :: id in st.features && (forall m :: 0 <= m < |sel| ==> st.overlays[sel[m]].pointFeature != id) ==>
            r.state.features[id] == st.features[id])
      && AnchorsKept(st, r.state)
    ensures r.Done? ==> forall i :: 0 <= i < |st.overlays| && i !in sel ==> r.state.overlays[i] == st.overlays[i]
    ensures r.Done? ==> forall i :: 0 <= i < |st.overlays| && i in sel ==> r.state.overlays[i].selected
    ensures r.Done? && Valid(st) ==> Valid(r.state)
    ensures r.Done? && RoundTrips(st.view) ==> ValidSelection(r.state, sel) && SeparatedUpTo(r.state, sel, |sel|)
    ensures rule == OtherFeatures && Valid(st) && RoundTrips(st.view) &&
            (forall m :: 0 <= m < |sel| ==> !Collides(st, sel, m, rule)) ==>
      r.Done? && forall i :: 0 <= i < |st.overlays| ==> r.state.overlays[i] == st.overlays[i].(selected := st.overlays[i].selected || i in sel)
  {
    var marked;
    marked, sel := SelectIntersecting(st, box);
    MarksKeepExtents(st, marked);
    assert ValidSelection(marked, sel);
    if rule == OtherFeatures && Valid(st) && RoundTrips(st.view) &&
       (forall m :: 0 <= m < |sel| ==> !Collides(st, sel, m, rule)) {
      forall m | 0 <= m < |sel|
        ensures !Collides(marked, sel, m, rule)
      {
        MarksKeepCollides(st, marked, sel, m, rule);
      }
      assert AllClear(marked, sel, rule);
    }
    r := BeginDeclutterMode(marked, sel, fuel, step, rule);
    assert MarkedBy(st, marked, sel);
    if r.Done? {
      MarkedPassFrame(st, marked, r.state, sel);
    }
  }

  /** A pass run on the marked map changes, compared with the map before
      the marking, only the selected labels' positions and flags and their
      own features' lines. */
  lemma MarkedPassFrame(st: MapState, marked: MapState, st': MapState, sel: seq<nat>)
    requires OnlyMarksChanged(st, marked) && ValidSelection(marked, sel)
    requires forall i :: 0 <= i < |st.overlays| ==> (marked.overlays[i].selected <==> st.overlays[i].selected || i in sel)
    requires PassFrame(marked, st', sel)
    ensures |st'.overlays| == |st.overlays|
    ensures st'.view == st.view && st'.nextOverlayId == st.nextOverlayId && st'.lastUid == st.lastUid
    ensures st'.features.Keys == st.features.Keys
    ensures forall id :: id in st.features && (forall m :: 0 <= m < |sel| ==> st.overlays[sel[m]].pointFeature != id) ==>
      st'.features[id] == st.features[id]
    ensures AnchorsKept(st, st')
    ensures forall i :: 0 <= i < |st.overlays| && i !in sel ==> st'.overlays[i] == st.overlays[i]
    ensures forall i :: 0 <= i < |st.overlays| && i in sel ==> st'.overlays[i].selected
  {
    forall id | id in st.features && (forall m :: 0 <= m < |sel| ==> st.overlays[sel[m]].pointFeature != id)
      ensures st'.features[id] == st.features[id]
    {
      forall m | 0 <= m < |sel|
        ensures marked.overlays[sel[m]].pointFeature != id
      {
        assert marked.overlays[sel[m]].(selected := st.overlays[sel[m]].selected) == st.overlays[sel[m]];
      }
    }
    forall i | 0 <= i < |st.overlays| && i !in sel
      ensures st'.overlays[i] == st.overlays[i]
    {
      assert marked.overlays[i].(selected := st.overlays[i].selected) == st.overlays[i];
    }
    forall i | 0 <= i < |st.overlays| && i in sel
      ensures st'.overlays[i].selected
    {
      assert st'.overlays[i] == marked.overlays[i].(position := st'.overlays[i].position);
    }
  }
}
