/** The "Test reset" button of `src/PointTest.jsx`: every label overlay of
    the map, in map order, is committed back at the initial position
    `createPoint` recorded for it, leader line included. */
module Reset {
  import opened Wrappers
  import opened Geometry
  import opened Labels
  import Declutter

  /** The walk of `resetDeclutter` from overlay `i` on: commit each label at
      its initial position; the first commit that throws ends the walk. */
  function ResetFrom(st: MapState, i: nat): Result<MapState, Error>
    decreases |st.overlays| - i
  {
    if i >= |st.overlays| then Success(st)
    else
      match SetOverlayPosition(st, i, st.overlays[i].initialPosition)
      case Failure(e) => Failure(e)
      case Success(s) => ResetFrom(s, i + 1)
  }

  /** What a reset from overlay `i` on makes of a valid map `st`: each
      label from `i` on sits at its initial position, its feature's line
      runs from the unchanged anchor to that position, and nothing else
      differs. */
  ghost predicate ResetFrame(st: MapState, r: MapState, i: nat)
    requires Valid(st) && i <= |st.overlays|
  {
    && r.view == st.view
    && r.nextOverlayId == st.nextOverlayId
    && r.lastUid == st.lastUid
    && |r.overlays| == |st.overlays|
    && (forall j :: 0 <= j < i ==> r.overlays[j] == st.overlays[j])
    && (forall j :: i <= j < |st.overlays| ==>
          r.overlays[j] == st.overlays[j].(position := st.overlays[j].initialPosition))
    && r.features.Keys == st.features.Keys
    && (forall j :: i <= j < |st.overlays| ==>
          && Linked(st, j)
          && r.features[st.overlays[j].pointFeature] ==
             LeaderFeature(Anchor(st.features[st.overlays[j].pointFeature]), st.overlays[j].initialPosition))
    && (forall id :: id in st.features && (forall j :: i <= j < |st.overlays| ==> st.overlays[j].pointFeature != id) ==>
          r.features[id] == st.features[id])
  }

  /** On a valid map the walk never throws, keeps the map valid and puts
      every label it visits back where it started. */
  lemma {:induction false} ResetFromValid(st: MapState, i: nat)
    requires Valid(st) && i <= |st.overlays|
    ensures ResetFrom(st, i).Success?
    ensures Valid(ResetFrom(st, i).value)
    ensures ResetFrame(st, ResetFrom(st, i).value, i)
    decreases |st.overlays| - i
  {
    if i < |st.overlays| {
      var s := ResetFirstCommit(st, i);
      ResetFromValid(s, i + 1);
      ResetFromStep(st, i, s, ResetFrom(s, i + 1).value);
    }
  }

  /** On a valid map the first commit of the walk succeeds and keeps the
      map valid. */
  lemma ResetFirstCommit(st: MapState, i: nat) returns (s: MapState)
    requires Valid(st) && i < |st.overlays|
    ensures SetOverlayPosition(st, i, st.overlays[i].initialPosition) == Success(s)
    ensures Valid(s) && i + 1 <= |s.overlays|
  {
    SetOverlayPositionKeepsValid(st, i, st.overlays[i].initialPosition);
    s := SetOverlayPosition(st, i, st.overlays[i].initialPosition).value;
  }

  /** A walk whose first commit gives `s`, and whose rest gives a valid
      reset `r` of `s`, gives a valid reset `r` of `st`. */
  lemma ResetFromStep(st: MapState, i: nat, s: MapState, r: MapState)
    requires Valid(st) && i < |st.overlays|
    requires SetOverlayPosition(st, i, st.overlays[i].initialPosition) == Success(s)
    requires Valid(s) && ResetFrom(s, i + 1) == Success(r)
    requires Valid(r) && ResetFrame(s, r, i + 1)
    ensures ResetFrom(st, i) == Success(r) && ResetFrame(st, r, i)
  {
    ResetFrameStep(st, s, r, i);
  }

  /** Committing label `i` at its initial position, then resetting from
      `i + 1` on, is a reset from `i` on. */
  lemma ResetFrameStep(st: MapState, s: MapState, r: MapState, i: nat)
    requires Valid(st) && i < |st.overlays|
    requires SetOverlayPosition(st, i, st.overlays[i].initialPosition) == Success(s)
    requires Valid(s) && ResetFrame(s, r, i + 1)
    ensures ResetFrame(st, r, i)
  {
    var init := st.overlays[i].initialPosition;
    var fid := st.overlays[i].pointFeature;
    assert Linked(st, i);
    forall j | i < j < |st.overlays|
      ensures s.overlays[j] == st.overlays[j]
      ensures st.overlays[j].pointFeature != fid
      ensures Linked(st, j)
      ensures s.features[st.overlays[j].pointFeature] == st.features[st.overlays[j].pointFeature]
    {
      assert Linked(st, j);
    }
    assert r.features[fid] == s.features[fid];
    var f := st.features[fid];
    assert s.features[fid] == Feature([f.geometries[0], LineString([f.geometries[1].coords[0], init])]);
    assert f.geometries[0] == Point(Anchor(f));
  }

  /** `resetDeclutter`: with no map yet, nothing happens; otherwise the
      walk over all the map's overlays. */
  function ResetDeclutter(m: Option<MapState>): (r: Option<Result<MapState, Error>>)
    ensures m.None? <==> r.None?
  {
    match m
    case None => None
    case Some(st) => Some(ResetFrom(st, 0))
  }

  /** A reset of a valid map succeeds and keeps it valid; every label is
      at its initial position, at the end of a leader line that still
      starts at its anchor, and only the labels' own features change. */
  lemma ResetRestoresInitialPositions(st: MapState)
    requires Valid(st)
    ensures ResetDeclutter(Some(st)).Some? && ResetDeclutter(Some(st)).value.Success?
    ensures var r := ResetDeclutter(Some(st)).value.value;
      && Valid(r)
      && r.view == st.view
      && |r.overlays| == |st.overlays|
      && (forall j :: 0 <= j < |st.overlays| ==>
            && r.overlays[j] == st.overlays[j].(position := st.overlays[j].initialPosition)
            && Linked(st, j)
            && Linked(r, j)
            && LeaderEnd(r.features[st.overlays[j].pointFeature]) == st.overlays[j].initialPosition
            && Anchor(r.features[st.overlays[j].pointFeature]) == Anchor(st.features[st.overlays[j].pointFeature]))
      && r.features.Keys == st.features.Keys
      && (forall id :: id in st.features && (forall j :: 0 <= j < |st.overlays| ==> st.overlays[j].pointFeature != id) ==>
            r.features[id] == st.features[id])
  {
    ResetFromValid(st, 0);
    var r := ResetFrom(st, 0).value;
    forall j | 0 <= j < |st.overlays|
      ensures Linked(st, j) && Linked(r, j)
      ensures r.overlays[j].pointFeature == st.overlays[j].pointFeature
    {
      assert Linked(st, j);
      assert Linked(r, j);
    }
  }

  /** A walk over labels that already sit at their initial positions on a
      valid map changes nothing. */
  lemma {:induction false} ResetFromAtStart(st: MapState, i: nat)
    requires Valid(st) && i <= |st.overlays|
    requires forall j :: i <= j < |st.overlays| ==> st.overlays[j].position == st.overlays[j].initialPosition
    ensures ResetFrom(st, i) == Success(st)
    decreases |st.overlays| - i
  {
    if i < |st.overlays| {
      assert Linked(st, i);
      SetOverlayPositionInPlace(st, i);
      ResetFromAtStart(st, i + 1);
    }
  }

  /** Pressing "Test reset" twice does what pressing it once does. */
  lemma ResetIdempotent(st: MapState)
    requires Valid(st)
    ensures ResetDeclutter(Some(st)).value.Success?
    ensures ResetDeclutter(Some(ResetDeclutter(Some(st)).value.value)) == ResetDeclutter(Some(st))
  {
    ResetRestoresInitialPositions(st);
    var r := ResetDeclutter(Some(st)).value.value;
    ResetFromAtStart(r, 0);
  }

  /** `st'` is `st` with labels moved and lines re-ended: the overlays
      agree but for their positions, every feature that belongs to no label
      is unchanged, and every anchor is kept. */
  ghost predicate OnlyPlacementsDiffer(st: MapState, st': MapState) {
    && st'.view == st.view
    && st'.nextOverlayId == st.nextOverlayId
    && st'.lastUid == st.lastUid
    && |st'.overlays| == |st.overlays|
    && (forall j :: 0 <= j < |st.overlays| ==> st'.overlays[j] == st.overlays[j].(position := st'.overlays[j].position))
    && st'.features.Keys == st.features.Keys
    && (forall id :: id in st.features && (forall j :: 0 <= j < |st.overlays| ==> st.overlays[j].pointFeature != id) ==>
          st'.features[id] == st.features[id])
    && AnchorsKept(st, st')
  }

  lemma ResetOverlaysAgree(st: MapState, st': MapState, r: MapState, r': MapState)
    requires Valid(st) && Valid(st') && OnlyPlacementsDiffer(st, st')
    requires ResetFrame(st, r, 0) && ResetFrame(st', r', 0)
    ensures r'.overlays == r.overlays
  {
    forall j | 0 <= j < |st.overlays|
      ensures r'.overlays[j] == r.overlays[j]
    {
      assert st'.overlays[j] == st.overlays[j].(position := st'.overlays[j].position);
    }
  }

  lemma ResetFeaturesAgree(st: MapState, st': MapState, r: MapState, r': MapState)
    requires Valid(st) && Valid(st') && OnlyPlacementsDiffer(st, st')
    requires ResetFrame(st, r, 0) && ResetFrame(st', r', 0)
    ensures r'.features == r.features
  {
    forall id | id in r.features
      ensures r'.features[id] == r.features[id]
    {
      if j :| 0 <= j < |st.overlays| && st.overlays[j].pointFeature == id {
        ResetLabelFeatureAgrees(st, st', r, r', j);
      } else {
        ResetOtherFeatureAgrees(st, st', r, r', id);
      }
    }
  }

  /** A feature of no label is left alone by both resets. */
  lemma ResetOtherFeatureAgrees(st: MapState, st': MapState, r: MapState, r': MapState, id: FeatureId)
    requires Valid(st) && Valid(st') && OnlyPlacementsDiffer(st, st')
    requires ResetFrame(st, r, 0) && ResetFrame(st', r', 0)
    requires id in st.features && forall j :: 0 <= j < |st.overlays| ==> st.overlays[j].pointFeature != id
    ensures r'.features[id] == r.features[id]
  {
    forall j | 0 <= j < |st'.overlays|
      ensures st'.overlays[j].pointFeature != id
    {
      assert st'.overlays[j] == st.overlays[j].(position := st'.overlays[j].position);
    }
  }

  /** The feature of label `j` resets to the same line in both maps. */
  lemma ResetLabelFeatureAgrees(st: MapState, st': MapState, r: MapState, r': MapState, j: nat)
    requires Valid(st) && Valid(st') && OnlyPlacementsDiffer(st, st')
    requires ResetFrame(st, r, 0) && ResetFrame(st', r', 0)
    requires j < |st.overlays|
    ensures r'.features[st.overlays[j].pointFeature] == r.features[st.overlays[j].pointFeature]
  {
    assert Linked(st, j);
    assert st'.overlays[j] == st.overlays[j].(position := st'.overlays[j].position);
  }

  /** A reset forgets where the labels were: maps that differ only in
      their placements reset to the same map. */
  lemma ResetForgetsPlacements(st: MapState, st': MapState)
    requires Valid(st) && Valid(st') && OnlyPlacementsDiffer(st, st')
    ensures ResetDeclutter(Some(st')) == ResetDeclutter(Some(st))
  {
    ResetFromValid(st, 0);
    ResetFromValid(st', 0);
    var r, r' := ResetFrom(st, 0).value, ResetFrom(st', 0).value;
    ResetOverlaysAgree(st, st', r, r');
    ResetFeaturesAgree(st, st', r, r');
  }

  /** "Test reset" after a finished declutter pass over a valid map gives
      the map a reset before the pass would have given: the pass moves
      labels and the ends of their lines, and the reset puts back both. */
  lemma ResetUndoesPass(st: MapState, st': MapState, sel: seq<nat>)
    requires Declutter.ValidSelection(st, sel)
    requires Valid(st) && Valid(st') && Declutter.PassFrame(st, st', sel)
    ensures ResetDeclutter(Some(st')) == ResetDeclutter(Some(st))
  {
    forall id | id in st.features && (forall j :: 0 <= j < |st.overlays| ==> st.overlays[j].pointFeature != id)
      ensures st'.features[id] == st.features[id]
    {
      assert forall m :: 0 <= m < |sel| ==> st.overlays[sel[m]].pointFeature != id;
    }
    ResetForgetsPlacements(st, st');
  }
}
