/** Plane geometry shared by the label-declutter model: map coordinates,
    screen pixels, axis-aligned extents, and the unrotated map view that
    converts between pixels and coordinates. */
module Geometry {
  import opened Wrappers

  /** A position in map (projected) coordinates. */
  datatype Coord = Coord(x: real, y: real)

  /** A position on screen, in pixels; pixel y grows downwards. */
  datatype Pixel = Pixel(x: real, y: real)

  /** An axis-aligned box `[minX, minY, maxX, maxY]` in map coordinates. */
  datatype Extent = Extent(minX: real, minY: real, maxX: real, maxY: real)

  predicate WellFormed(e: Extent) {
    e.minX <= e.maxX && e.minY <= e.maxY
  }

  predicate Contains(e: Extent, c: Coord) {
    e.minX <= c.x <= e.maxX && e.minY <= c.y <= e.maxY
  }

  /** Every coordinate of `inner` lies in `outer`. */
  predicate Within(inner: Extent, outer: Extent) {
    outer.minX <= inner.minX && inner.maxX <= outer.maxX && outer.minY <= inner.minY && inner.maxY <= outer.maxY
  }

  /** The overlap test of OpenLayers' `intersects`: closed intervals on both
      axes, so boxes that only touch along an edge or a corner intersect. */
  predicate Intersects(a: Extent, b: Extent) {
    a.minX <= b.maxX && a.maxX >= b.minX && a.minY <= b.maxY && a.maxY >= b.minY
  }

  lemma IntersectsSymmetric(a: Extent, b: Extent)
    ensures Intersects(a, b) == Intersects(b, a)
  {
  }

  /** Two extents that share a coordinate intersect. */
  lemma SharedCoordIntersects(a: Extent, b: Extent, c: Coord)
    requires Contains(a, c) && Contains(b, c)
    ensures Intersects(a, b)
  {
  }

  /** The extent of a single coordinate. */
  function PointExtent(c: Coord): (r: Extent)
    ensures WellFormed(r) && Contains(r, c)
  {
    Extent(c.x, c.y, c.x, c.y)
  }

  /** OpenLayers' `extend`: the smallest extent holding both; an absent
      extent stands for the empty extent, which extending leaves alone. */
  function Extend(a: Option<Extent>, b: Option<Extent>): (r: Option<Extent>)
    ensures r.None? <==> a.None? && b.None?
    ensures a.Some? ==> r.Some? && Within(a.value, r.value)
    ensures b.Some? ==> r.Some? && Within(b.value, r.value)
  {
    match (a, b)
    case (None, _) => b
    case (_, None) => a
    case (Some(x), Some(y)) =>
      Some(Extent(Min(x.minX, y.minX), Min(x.minY, y.minY), Max(x.maxX, y.maxX), Max(x.maxY, y.maxY)))
  }

  function Min(a: real, b: real): real { if a <= b then a else b }

  function Max(a: real, b: real): real { if a <= b then b else a }

  /** The bounding extent of a list of coordinates; absent when the list is empty. */
  function BoundingExtent(cs: seq<Coord>): (r: Option<Extent>)
    ensures r.None? <==> |cs| == 0
    ensures forall i :: 0 <= i < |cs| ==> r.Some? && Contains(r.value, cs[i])
  {
    if |cs| == 0 then None
    else Extend(BoundingExtent(cs[..|cs| - 1]), Some(PointExtent(cs[|cs| - 1])))
  }

  /** The map's conversions between pixels and coordinates,
      `map.getPixelFromCoordinate` and `map.getCoordinateFromPixel`. */
  datatype Projection = Projection(toPixel: Coord -> Pixel, toCoordinate: Pixel -> Coord)

  /** Taking a coordinate to its pixel and back gives the coordinate again. */
  ghost predicate RoundTrips(p: Projection) {
    forall c :: p.toCoordinate(p.toPixel(c)) == c
  }

  /** Map x grows exactly when pixel x does, and map y falls exactly when
      pixel y grows. */
  ghost predicate KeepsXFlipsY(p: Projection) {
    forall a: Pixel, b: Pixel {:trigger p.toCoordinate(a), p.toCoordinate(b)} ::
      && (a.x <= b.x <==> p.toCoordinate(a).x <= p.toCoordinate(b).x)
      && (a.y <= b.y <==> p.toCoordinate(a).y >= p.toCoordinate(b).y)
  }

  /** What the declutter code relies on of the map's projection. */
  ghost predicate Unrotated(p: Projection) {
    RoundTrips(p) && KeepsXFlipsY(p)
  }

  /** An unrotated view of the map. Pixel (0, 0), the viewport's top-left
      corner, shows map coordinate (originX, originY); one pixel spans
      `resolution` map units, and pixel y runs against map y. */
  datatype View = View(originX: real, originY: real, resolution: real)

  type MapView = v: View | v.resolution > 0.0 witness View(0.0, 0.0, 1.0)

  function CoordinateFromPixel(v: MapView, p: Pixel): Coord {
    Coord(v.originX + p.x * v.resolution, v.originY - p.y * v.resolution)
  }

  function PixelFromCoordinate(v: MapView, c: Coord): Pixel {
    Pixel((c.x - v.originX) / v.resolution, (v.originY - c.y) / v.resolution)
  }

  /** The projection of an unrotated view. */
  function ViewProjection(v: MapView): Projection {
    Projection(c => PixelFromCoordinate(v, c), p => CoordinateFromPixel(v, p))
  }

  /** Dividing by a nonzero factor undoes multiplying by it, and back. */
  lemma DivideUndoesScale(a: real, f: real)
    requires f != 0.0
    ensures (a * f) / f == a
    ensures (a / f) * f == a
  {
  }

  lemma CoordinateRoundTrip(v: MapView, c: Coord)
    ensures CoordinateFromPixel(v, PixelFromCoordinate(v, c)) == c
  {
    var p := PixelFromCoordinate(v, c);
    DivideUndoesScale(c.x - v.originX, v.resolution);
    DivideUndoesScale(v.originY - c.y, v.resolution);
    assert p.x * v.resolution == c.x - v.originX;
    assert p.y * v.resolution == v.originY - c.y;
  }

  /** Scaling by a positive factor keeps the order of two reals. */
  lemma ScaleKeepsOrder(a: real, b: real, f: real)
    requires f > 0.0
    ensures a <= b <==> a * f <= b * f
  {
    if a <= b {
      assert (b - a) * f >= 0.0;
    } else {
      assert (a - b) * f > 0.0;
    }
  }

  /** Map x grows exactly with pixel x, map y falls exactly as pixel y grows. */
  lemma CoordinateFromPixelOrder(v: MapView, a: Pixel, b: Pixel)
    ensures a.x <= b.x <==> CoordinateFromPixel(v, a).x <= CoordinateFromPixel(v, b).x
    ensures a.y <= b.y <==> CoordinateFromPixel(v, a).y >= CoordinateFromPixel(v, b).y
  {
    ScaleKeepsOrder(a.x, b.x, v.resolution);
    ScaleKeepsOrder(a.y, b.y, v.resolution);
    assert CoordinateFromPixel(v, a).x == v.originX + a.x * v.resolution;
    assert CoordinateFromPixel(v, b).x == v.originX + b.x * v.resolution;
    assert CoordinateFromPixel(v, a).y == v.originY - a.y * v.resolution;
    assert CoordinateFromPixel(v, b).y == v.originY - b.y * v.resolution;
  }

  /** An unrotated view round-trips and keeps x while flipping y. */
  lemma ViewProjectionIsUnrotated(v: MapView)
    ensures Unrotated(ViewProjection(v))
  {
    var p := ViewProjection(v);
    forall c
      ensures p.toCoordinate(p.toPixel(c)) == c
    {
      CoordinateRoundTrip(v, c);
    }
    forall a: Pixel, b: Pixel
      ensures a.x <= b.x <==> p.toCoordinate(a).x <= p.toCoordinate(b).x
      ensures a.y <= b.y <==> p.toCoordinate(a).y >= p.toCoordinate(b).y
    {
      assert p.toCoordinate(a) == CoordinateFromPixel(v, a);
      assert p.toCoordinate(b) == CoordinateFromPixel(v, b);
      CoordinateFromPixelOrder(v, a, b);
    }
  }
}
