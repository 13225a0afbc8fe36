/** The label utilities of `src/hooks/utils.js`: point features carrying a
    geometry group `[point, line]`, label overlays tied to them, the label's
    extent, the position commit that keeps the leader line on the label, and
    the creation of a point with its label. */
module Labels {
  import opened Wrappers
  import opened Geometry

  /** A feature id as handed out by OpenLayers' `getUid`. */
  type FeatureId = nat

  /** A member of a feature's geometry collection. */
  datatype SimpleGeometry = Point(coord: Coord) | LineString(coords: seq<Coord>)

  /** A vector feature: the geometries of its geometry collection, in order. */
  datatype Feature = Feature(geometries: seq<SimpleGeometry>)

  /** A label overlay. `width` and `height` are the rendered size of its
      element in whole pixels (`offsetWidth`, `offsetHeight`). */
  datatype Overlay = Overlay(
    id: nat,
    position: Coord,
    initialPosition: Coord,
    pointFeature: FeatureId,
    width: nat,
    height: nat,
    selected: bool)

  /** What the declutter code reads and writes: the view, the vector layer's
      features by id, the map's overlays in insertion order, the module's
      overlay id counter and the last uid OpenLayers handed out. */
  datatype MapState = MapState(
    view: Projection,
    features: map<FeatureId, Feature>,
    overlays: seq<Overlay>,
    nextOverlayId: nat,
    lastUid: nat)

  /** Why `setOverlayPosition` throws: the overlay's feature is not in the
      layer, or its geometry group has no leader line at index 1. */
  datatype Error = FeatureNotFound | NotALeaderLine

  /** Distance, in map units, from a clicked point to its label. */
  const LabelOffset: real := 90000.0

  /** The feature `createPoint` builds: the anchor, then the leader line
      from the anchor to the label. */
  function LeaderFeature(anchor: Coord, end: Coord): Feature {
    Feature([Point(anchor), LineString([anchor, end])])
  }

  /** A feature shaped as `createPoint` shapes it: a point, then a
      two-vertex line starting at that point. */
  predicate IsLeaderFeature(f: Feature) {
    && |f.geometries| == 2
    && f.geometries[0].Point?
    && f.geometries[1].LineString?
    && |f.geometries[1].coords| == 2
    && f.geometries[1].coords[0] == f.geometries[0].coord
  }

  function Anchor(f: Feature): Coord
    requires IsLeaderFeature(f)
  {
    f.geometries[0].coord
  }

  function LeaderEnd(f: Feature): Coord
    requires IsLeaderFeature(f)
  {
    f.geometries[1].coords[1]
  }

  /** `getFeatureGeometry`: "point" selects the first geometry of the group,
      "line" (the default) the second, any other kind nothing. An index past
      the end of the group is `undefined`, also nothing. */
  function GetFeatureGeometry(f: Feature, kind: string := "line"): (r: Option<SimpleGeometry>)
    ensures r.Some? ==> r.value in f.geometries
    ensures kind != "point" && kind != "line" ==> r.None?
  {
    if kind == "point" then (if |f.geometries| > 0 then Some(f.geometries[0]) else None)
    else if kind == "line" then (if |f.geometries| > 1 then Some(f.geometries[1]) else None)
    else None
  }

  /** On a feature built by `createPoint`, the "point" kind is the anchor,
      the default kind is the leader line, and every other kind is nothing. */
  lemma GeometryKindsOfLeader(f: Feature, kind: string)
    requires IsLeaderFeature(f)
    ensures GetFeatureGeometry(f, "point") == Some(Point(Anchor(f)))
    ensures GetFeatureGeometry(f) == Some(LineString([Anchor(f), LeaderEnd(f)]))
    ensures kind != "point" && kind != "line" ==> GetFeatureGeometry(f, kind) == None
  {
    assert f.geometries[1].coords == [Anchor(f), LeaderEnd(f)];
  }

  /** `getOverlayFeatureId`. */
  function GetOverlayFeatureId(o: Overlay): FeatureId {
    o.pointFeature
  }

  /** `getFeatureById`, as a lookup in the vector layer's id index. */
  function GetFeatureById(st: MapState, id: FeatureId): (r: Option<Feature>)
    ensures r.Some? <==> id in st.features
    ensures r.Some? ==> r.value == st.features[id]
  {
    if id in st.features then Some(st.features[id]) else None
  }

  /** The overlay `i` shows its label at `c`, and nothing else about the
      overlays, the view or the counters differs between `st` and `st'`. */
  ghost predicate OnlyLabelMoved(st: MapState, st': MapState, i: nat, c: Coord)
    requires i < |st.overlays|
  {
    && st'.view == st.view
    && st'.nextOverlayId == st.nextOverlayId
    && st'.lastUid == st.lastUid
    && |st'.overlays| == |st.overlays|
    && st'.overlays[i] == st.overlays[i].(position := c)
    && (forall j :: 0 <= j < |st.overlays| && j != i ==> st'.overlays[j] == st.overlays[j])
  }

  /** The feature `fid` keeps the first member of its geometry group and
      the first vertex of its line, its line now ends at `c`, and every
      other feature is as before. */
  predicate OnlyLeaderRewritten(st: MapState, st': MapState, fid: FeatureId, c: Coord)
    requires fid in st.features
  {
    var f := st.features[fid];
    && st'.features.Keys == st.features.Keys
    && |f.geometries| >= 2
    && f.geometries[1].LineString?
    && |f.geometries[1].coords| >= 1
    && st'.features[fid] == Feature([f.geometries[0], LineString([f.geometries[1].coords[0], c])])
    && (forall id :: id in st.features && id != fid ==> st'.features[id] == st.features[id])
  }

  /** Every feature of `st` shaped as `createPoint` shapes it is still so
      shaped in `st'`, with the same anchor. */
  predicate AnchorsKept(st: MapState, st': MapState) {
    forall id :: id in st.features && IsLeaderFeature(st.features[id]) ==>
      id in st'.features && IsLeaderFeature(st'.features[id]) && Anchor(st'.features[id]) == Anchor(st.features[id])
  }

  lemma AnchorsKeptTransitive(a: MapState, b: MapState, c: MapState)
    requires AnchorsKept(a, b) && AnchorsKept(b, c)
    ensures AnchorsKept(a, c)
  {
  }

  /** Rewriting the end of a leader line keeps every anchor. */
  lemma LeaderRewriteKeepsAnchors(st: MapState, st': MapState, fid: FeatureId, c: Coord)
    requires fid in st.features && OnlyLeaderRewritten(st, st', fid, c)
    ensures AnchorsKept(st, st')
  {
    var f := st.features[fid];
    if IsLeaderFeature(f) {
      assert st'.features[fid] == LeaderFeature(Anchor(f), c);
    }
  }

  /** The leader-line invariant for overlay `i`: its feature is in the layer,
      is shaped by `createPoint`, and its line ends at the label. */
  predicate Linked(st: MapState, i: nat)
    requires i < |st.overlays|
  {
    var fid := st.overlays[i].pointFeature;
    && fid in st.features
    && IsLeaderFeature(st.features[fid])
    && LeaderEnd(st.features[fid]) == st.overlays[i].position
  }

  /** `setOverlayPosition`: rewrite the second vertex of the feature's line
      to the new coordinate, put the group back as `[point, line]`, and move
      the label there. A missing feature, or a group whose index 1 is
      missing or is a line without vertices, makes the JavaScript throw
      before anything changes. A group with a point at index 1 is refused
      here too, although the JavaScript would write a malformed point. */
  function SetOverlayPosition(st: MapState, i: nat, c: Coord): (r: Result<MapState, Error>)
    requires i < |st.overlays|
    ensures st.overlays[i].pointFeature !in st.features <==> r == Failure(FeatureNotFound)
    ensures r.Success? ==> OnlyLabelMoved(st, r.value, i, c)
    ensures r.Success? ==> OnlyLeaderRewritten(st, r.value, st.overlays[i].pointFeature, c)
    ensures r.Success? && IsLeaderFeature(st.features[st.overlays[i].pointFeature]) ==>
      var f := st.features[st.overlays[i].pointFeature];
      var f' := r.value.features[st.overlays[i].pointFeature];
      IsLeaderFeature(f') && Anchor(f') == Anchor(f) && LeaderEnd(f') == c && Linked(r.value, i)
    ensures st.overlays[i].pointFeature in st.features && IsLeaderFeature(st.features[st.overlays[i].pointFeature]) ==>
      r.Success?
  {
    var fid := GetOverlayFeatureId(st.overlays[i]);
    match GetFeatureById(st, fid)
    case None => Failure(FeatureNotFound)
    case Some(feature) =>
      match GetFeatureGeometry(feature, "line")
      case Some(LineString(coords)) =>
        if |coords| == 0 then Failure(NotALeaderLine)
        else
          var line := LineString([coords[0], c]);
          var point := feature.geometries[0];
          Success(st.(
            features := st.features[fid := Feature([point, line])],
            overlays := st.overlays[i := st.overlays[i].(position := c)]))
      case _ => Failure(NotALeaderLine)
  }

  /** Committing a label where it already is, a second time, changes nothing. */
  lemma SetOverlayPositionIdempotent(st: MapState, i: nat, c: Coord)
    requires i < |st.overlays|
    requires SetOverlayPosition(st, i, c).Success?
    ensures SetOverlayPosition(SetOverlayPosition(st, i, c).value, i, c) == SetOverlayPosition(st, i, c)
  {
    var st1 := SetOverlayPosition(st, i, c).value;
    var st2 := SetOverlayPosition(st1, i, c).value;
    var fid := st.overlays[i].pointFeature;
    assert st2.features == st1.features by {
      assert st2.features.Keys == st1.features.Keys;
      forall id | id in st1.features
        ensures st2.features[id] == st1.features[id]
      {
      }
    }
    assert st2.overlays == st1.overlays;
  }

  /** Committing a linked label at the position it already has changes
      nothing at all. */
  lemma SetOverlayPositionInPlace(st: MapState, i: nat)
    requires i < |st.overlays| && Linked(st, i)
    ensures SetOverlayPosition(st, i, st.overlays[i].position) == Success(st)
  {
    var fid := st.overlays[i].pointFeature;
    var f := st.features[fid];
    var st' := SetOverlayPosition(st, i, st.overlays[i].position).value;
    assert f.geometries == [f.geometries[0], LineString([f.geometries[1].coords[0], st.overlays[i].position])] by {
      assert f.geometries[1].coords == [f.geometries[1].coords[0], LeaderEnd(f)];
    }
    assert st'.features == st.features;
    assert st'.overlays == st.overlays;
  }

  /** `getLabelExtent`: the label's element, `width` by `height` pixels,
      centred on the label's pixel, with its top-left and bottom-right
      corners taken back to map coordinates. As pixel y runs against map y,
      the top-left corner gives min x and max y. */
  function GetLabelExtent(proj: Projection, o: Overlay): Extent {
    var pixel := proj.toPixel(o.position);
    var halfW := o.width as real / 2.0;
    var halfH := o.height as real / 2.0;
    var topLeftCoord := proj.toCoordinate(Pixel(pixel.x - halfW, pixel.y - halfH));
    var bottomRightCoord := proj.toCoordinate(Pixel(pixel.x + halfW, pixel.y + halfH));
    Extent(topLeftCoord.x, bottomRightCoord.y, bottomRightCoord.x, topLeftCoord.y)
  }

  /** Under a projection that round-trips, keeps x and flips y, a label's
      extent is well formed and holds the label's position. */
  lemma LabelExtentHoldsPosition(proj: Projection, o: Overlay)
    requires Unrotated(proj)
    ensures WellFormed(GetLabelExtent(proj, o))
    ensures Contains(GetLabelExtent(proj, o), o.position)
  {
    var pixel := proj.toPixel(o.position);
    var halfW := o.width as real / 2.0;
    var halfH := o.height as real / 2.0;
    var tl := Pixel(pixel.x - halfW, pixel.y - halfH);
    var br := Pixel(pixel.x + halfW, pixel.y + halfH);
    assert proj.toCoordinate(pixel) == o.position;
    assert proj.toCoordinate(tl).x <= proj.toCoordinate(pixel).x <= proj.toCoordinate(br).x;
    assert proj.toCoordinate(br).y <= proj.toCoordinate(pixel).y <= proj.toCoordinate(tl).y;
  }

  /** On an unrotated view the label's extent is centred on its position,
      half its pixel size times the resolution to each side. */
  lemma LabelExtentOnView(v: MapView, o: Overlay)
    ensures var e := GetLabelExtent(ViewProjection(v), o);
      && e.minX == o.position.x - (o.width as real / 2.0) * v.resolution
      && e.maxX == o.position.x + (o.width as real / 2.0) * v.resolution
      && e.minY == o.position.y - (o.height as real / 2.0) * v.resolution
      && e.maxY == o.position.y + (o.height as real / 2.0) * v.resolution
  {
    CoordinateRoundTrip(v, o.position);
  }

  /** The extent of overlay `i` in `st`. */
  function LabelExtent(st: MapState, i: nat): Extent
    requires i < |st.overlays|
  {
    GetLabelExtent(st.view, st.overlays[i])
  }

  /** The extent of one member of a geometry group; an empty line has none. */
  function GeometryExtent(g: SimpleGeometry): Option<Extent> {
    match g
    case Point(c) => Some(PointExtent(c))
    case LineString(cs) => BoundingExtent(cs)
  }

  /** The extent of a feature's whole geometry group. */
  function FeatureExtent(gs: seq<SimpleGeometry>): (r: Option<Extent>)
    ensures forall j :: 0 <= j < |gs| && GeometryExtent(gs[j]).Some? ==>
      r.Some? && Within(GeometryExtent(gs[j]).value, r.value)
  {
    if |gs| == 0 then None
    else
      var init := gs[..|gs| - 1];
      assert forall j :: 0 <= j < |init| ==> init[j] == gs[j];
      Extend(FeatureExtent(init), GeometryExtent(gs[|gs| - 1]))
  }

  /** A feature built by `createPoint` spans its anchor and the end of its
      leader line. */
  lemma LeaderFeatureExtentHoldsEnds(f: Feature)
    requires IsLeaderFeature(f)
    ensures FeatureExtent(f.geometries).Some?
    ensures Contains(FeatureExtent(f.geometries).value, Anchor(f))
    ensures Contains(FeatureExtent(f.geometries).value, LeaderEnd(f))
  {
    var line := f.geometries[1];
    assert Contains(GeometryExtent(line).value, line.coords[1]);
    assert Contains(GeometryExtent(f.geometries[0]).value, Anchor(f));
  }

  /** The result of `createPoint`: the map with the new label overlay added,
      and the new feature with the uid it was given. */
  datatype Created = Created(state: MapState, uid: FeatureId, feature: Feature)

  /** `createPoint` without its DOM work: the label sits `LabelOffset` map
      units east of the clicked coordinate, the line runs from the coordinate
      to the label, the label's initial position is that same point, and the
      overlay records the feature's fresh uid and the next overlay id. The
      rendered size of the new label is a parameter. */
  function CreatePoint(st: MapState, coordinate: Coord, width: nat, height: nat): (r: Created)
    ensures IsLeaderFeature(r.feature)
    ensures Anchor(r.feature) == coordinate
    ensures LeaderEnd(r.feature) == Coord(coordinate.x + LabelOffset, coordinate.y)
    ensures |r.state.overlays| == |st.overlays| + 1
    ensures r.state.overlays[..|st.overlays|] == st.overlays
    ensures var o := r.state.overlays[|st.overlays|];
      && o.position == LeaderEnd(r.feature)
      && o.initialPosition == o.position
      && o.pointFeature == r.uid
      && o.id == st.nextOverlayId
      && !o.selected
    ensures r.uid > st.lastUid && r.state.lastUid == r.uid
    ensures r.state.nextOverlayId == st.nextOverlayId + 1
    ensures r.state.features == st.features && r.state.view == st.view
  {
    var newCoordinate := Coord(coordinate.x + LabelOffset, coordinate.y);
    var pointGeom := Point(coordinate);
    var lineGeom := LineString([coordinate, newCoordinate]);
    var pointFeature := Feature([pointGeom, lineGeom]);
    var uid := st.lastUid + 1;
    var labelOverlay := Overlay(st.nextOverlayId, newCoordinate, newCoordinate, uid, width, height, false);
    Created(
      st.(overlays := st.overlays + [labelOverlay], nextOverlayId := st.nextOverlayId + 1, lastUid := uid),
      uid,
      pointFeature)
  }

  /** `VectorSource.addFeature`: a feature whose id is already indexed is
      refused and the layer is left as it was. */
  function AddFeature(st: MapState, id: FeatureId, f: Feature): (r: MapState)
    ensures id in r.features && r.features.Keys == st.features.Keys + {id}
    ensures id !in st.features ==> r.features[id] == f
    ensures forall k :: k in st.features ==> r.features[k] == st.features[k]
    ensures r.overlays == st.overlays
  {
    if id in st.features then st else st.(features := st.features[id := f])
  }

  /** The map-click handler: create the point and its label, then add the
      feature to the vector layer. */
  function OnMapClick(st: MapState, coordinate: Coord, width: nat, height: nat): MapState {
    var created := CreatePoint(st, coordinate, width, height);
    AddFeature(created.state, created.uid, created.feature)
  }

  /** The state every map reaches from an empty one by clicks and commits:
      every overlay is linked to its own feature by a leader line, no two
      overlays share a feature, every feature id has been handed out, and
      overlay ids strictly increase in overlay order below the counter. */
  predicate Valid(st: MapState) {
    && (forall i :: 0 <= i < |st.overlays| ==> Linked(st, i))
    && (forall i, j :: 0 <= i < j < |st.overlays| ==> st.overlays[i].pointFeature != st.overlays[j].pointFeature)
    && (forall id :: id in st.features ==> id <= st.lastUid)
    && (forall i, j :: 0 <= i < j < |st.overlays| ==> st.overlays[i].id < st.overlays[j].id)
    && (forall i :: 0 <= i < |st.overlays| ==> st.overlays[i].id < st.nextOverlayId)
  }

  /** A click keeps the map valid; the new label is linked to the new
      feature, whose uid no earlier feature had. */
  lemma OnMapClickKeepsValid(st: MapState, coordinate: Coord, width: nat, height: nat)
    requires Valid(st)
    ensures var st' := OnMapClick(st, coordinate, width, height);
      && Valid(st')
      && |st'.overlays| == |st.overlays| + 1
      && st'.overlays[..|st.overlays|] == st.overlays
      && st'.overlays[|st.overlays|].pointFeature !in st.features
      && st'.overlays[|st.overlays|].position == Coord(coordinate.x + LabelOffset, coordinate.y)
      && Linked(st', |st.overlays|)
  {
    var created := CreatePoint(st, coordinate, width, height);
    var st' := OnMapClick(st, coordinate, width, height);
    var n := |st.overlays|;
    assert created.uid !in st.features;
    forall i | 0 <= i < |st'.overlays|
      ensures Linked(st', i)
    {
      if i < n {
        assert st'.overlays[i] == st.overlays[i];
        assert Linked(st, i);
      }
    }
    forall i | 0 <= i < n
      ensures st'.overlays[i].pointFeature != created.uid
    {
      assert Linked(st, i);
    }
  }

  /** `Valid` except that label `i` may have been moved away from the end
      of its leader line, as happens while the declutter loop searches. */
  predicate ValidExcept(st: MapState, i: nat)
    requires i < |st.overlays|
  {
    var fid := st.overlays[i].pointFeature;
    && fid in st.features
    && IsLeaderFeature(st.features[fid])
    && (forall j :: 0 <= j < |st.overlays| && j != i ==> Linked(st, j))
    && (forall a, b :: 0 <= a < b < |st.overlays| ==> st.overlays[a].pointFeature != st.overlays[b].pointFeature)
    && (forall id :: id in st.features ==> id <= st.lastUid)
    && (forall a, b :: 0 <= a < b < |st.overlays| ==> st.overlays[a].id < st.overlays[b].id)
    && (forall a :: 0 <= a < |st.overlays| ==> st.overlays[a].id < st.nextOverlayId)
  }

  lemma ValidIsValidExcept(st: MapState, i: nat)
    requires Valid(st) && i < |st.overlays|
    ensures ValidExcept(st, i)
  {
    assert Linked(st, i);
  }

  /** Moving only label `i`, with the features left alone, keeps the map
      valid except for label `i`. */
  lemma MoveKeepsValidExcept(st: MapState, st': MapState, i: nat, c: Coord)
    requires i < |st.overlays| && ValidExcept(st, i)
    requires OnlyLabelMoved(st, st', i, c) && st'.features == st.features
    ensures ValidExcept(st', i)
  {
    forall j | 0 <= j < |st'.overlays| && j != i
      ensures Linked(st', j)
    {
      assert Linked(st, j);
    }
  }

  /** Committing a coordinate for a label whose line is the only thing out
      of place makes the map valid again: only that label's own feature is
      rewritten, and its line now ends at the label. */
  lemma CommitRestoresValid(st: MapState, i: nat, c: Coord)
    requires i < |st.overlays| && ValidExcept(st, i)
    ensures SetOverlayPosition(st, i, c).Success?
    ensures Valid(SetOverlayPosition(st, i, c).value)
  {
    var st' := SetOverlayPosition(st, i, c).value;
    forall j | 0 <= j < |st'.overlays|
      ensures Linked(st', j)
    {
      if j != i {
        assert Linked(st, j);
        assert st.overlays[j].pointFeature != st.overlays[i].pointFeature;
      }
    }
  }

  /** Committing a coordinate for a label keeps the map valid. */
  lemma SetOverlayPositionKeepsValid(st: MapState, i: nat, c: Coord)
    requires Valid(st) && i < |st.overlays|
    ensures SetOverlayPosition(st, i, c).Success?
    ensures Valid(SetOverlayPosition(st, i, c).value)
  {
    ValidIsValidExcept(st, i);
    CommitRestoresValid(st, i, c);
  }
}
