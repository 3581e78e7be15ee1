/** Oil parcels on the sea surface and the extent of the verification grid.

    The simulator reports, for every particle at a snapshot, its position,
    its evaporative and non-evaporative volume (in barrels) and a status
    code. Only floating particles (status 1 or 2) take part in the
    comparison; the grid is first fitted to their extent and, in the service
    pipeline, widened by the bounds of the observed slick. */
module Parcels {
  import opened Base

  datatype Particle = Particle(lon: real, lat: real, evap: real, nonEvap: real, status: int)

  /** A floating parcel: its position and its volume in tonnes. */
  datatype Parcel = Parcel(lon: real, lat: real, vol: real)

  /** An axis-aligned extent, in the order (lonmin, latmin, lonmax, latmax). */
  datatype Box = Box(xmin: real, ymin: real, xmax: real, ymax: real)

  // ---------------------------------------------------------------------
  // Floating filter
  // ---------------------------------------------------------------------

  /** Status 1 and 2 are the parcels still floating; 0 (not yet released)
      and the higher codes (beached, dispersed, sunk) are not. */
  predicate Floating(status: int) {
    0 < status <= 2
  }

  predicate Increasing(idx: seq<nat>) {
    forall i, j :: 0 <= i < j < |idx| ==> idx[i] < idx[j]
  }

  /** `logical_and(status > 0, status <= 2).nonzero()[0]` restricted to the
      positions from `from` on: the floating positions in increasing order. */
  function FloatingFrom(ps: seq<Particle>, from: nat): (idx: seq<nat>)
    requires from <= |ps|
    ensures Increasing(idx)
    ensures forall i :: 0 <= i < |idx| ==> from <= idx[i] < |ps| && Floating(ps[idx[i]].status)
    ensures forall k :: from <= k < |ps| && Floating(ps[k].status) ==> k in idx
    decreases |ps| - from
  {
    if from == |ps| then []
    else
      var rest := FloatingFrom(ps, from + 1);
      if Floating(ps[from].status) then [from] + rest else rest
  }

  /** The positions of the floating particles, in their original order. */
  function FloatingIndices(ps: seq<Particle>): (idx: seq<nat>)
    ensures Increasing(idx)
    ensures forall i :: 0 <= i < |idx| ==> idx[i] < |ps| && Floating(ps[idx[i]].status)
    ensures forall k :: 0 <= k < |ps| && Floating(ps[k].status) ==> k in idx
  {
    FloatingFrom(ps, 0)
  }

  const Rbm3 := 0.158987

  /** `barrelToTonnes(density)` is 1 / (Rbm3 * density / 1000); dividing a
      volume by it multiplies by Rbm3 * density / 1000. */
  function Tonnes(barrels: real, density: real): real {
    barrels * (Rbm3 * (density / 1000.0))
  }

  /** `get_surface_parcels`: longitude, latitude and total volume of the
      floating particles, kept aligned and in order. */
  function SurfaceParcels(ps: seq<Particle>, density: real): (r: seq<Parcel>)
    ensures |r| == |FloatingIndices(ps)|
    ensures forall i :: 0 <= i < |r| ==>
              var p := ps[FloatingIndices(ps)[i]];
              r[i] == Parcel(p.lon, p.lat, Tonnes(p.evap + p.nonEvap, density))
  {
    var idx := FloatingIndices(ps);
    seq(|idx|, i requires 0 <= i < |idx| => Parcel(ps[idx[i]].lon, ps[idx[i]].lat,
                                                   Tonnes(ps[idx[i]].evap + ps[idx[i]].nonEvap, density)))
  }

  /** Every surface parcel is a floating particle, each floating particle
      gives exactly one parcel, and the order is kept: the floating filter
      loses and invents nothing. */
  lemma SurfaceParcelsAreFloating(ps: seq<Particle>, density: real)
    ensures forall i, j :: 0 <= i < j < |SurfaceParcels(ps, density)| ==> FloatingIndices(ps)[i] < FloatingIndices(ps)[j]
    ensures forall k :: 0 <= k < |ps| && Floating(ps[k].status) ==>
              exists i :: 0 <= i < |SurfaceParcels(ps, density)| && SurfaceParcels(ps, density)[i].lon == ps[k].lon
                                                                 && SurfaceParcels(ps, density)[i].lat == ps[k].lat
    ensures |SurfaceParcels(ps, density)| <= |ps|
  {
    var idx := FloatingIndices(ps);
    var r := SurfaceParcels(ps, density);
    forall k | 0 <= k < |ps| && Floating(ps[k].status)
      ensures exists i :: 0 <= i < |r| && r[i].lon == ps[k].lon && r[i].lat == ps[k].lat
    {
      var i :| 0 <= i < |idx| && idx[i] == k;
      assert r[i].lon == ps[k].lon;
    }
    IncreasingBounded(idx, |ps|);
  }

  /** A strictly increasing run of positions below n has at most n entries. */
  lemma {:induction false} IncreasingBounded(idx: seq<nat>, n: nat)
    requires Increasing(idx)
    requires forall i :: 0 <= i < |idx| ==> idx[i] < n
    ensures |idx| <= n
    decreases n
  {
    if |idx| > 0 {
      var last := idx[|idx| - 1];
      var front := idx[..|idx| - 1];
      assert forall i :: 0 <= i < |front| ==> front[i] < last;
      IncreasingBounded(front, last);
    }
  }

  // ---------------------------------------------------------------------
  // Extent
  // ---------------------------------------------------------------------

  predicate InBox(b: Box, x: real, y: real) {
    b.xmin <= x <= b.xmax && b.ymin <= y <= b.ymax
  }

  /** Box a lies within box b. */
  predicate Within(a: Box, b: Box) {
    b.xmin <= a.xmin && a.xmax <= b.xmax && b.ymin <= a.ymin && a.ymax <= b.ymax
  }

  function Min(a: real, b: real): real {
    if a <= b then a else b
  }

  function Max(a: real, b: real): real {
    if a >= b then a else b
  }

  /** The bounding box of a non-empty run of parcels. */
  function Hull(ps: seq<Parcel>): (b: Box)
    requires |ps| > 0
    ensures forall i :: 0 <= i < |ps| ==> InBox(b, ps[i].lon, ps[i].lat)
    ensures exists i :: 0 <= i < |ps| && ps[i].lon == b.xmin
    ensures exists i :: 0 <= i < |ps| && ps[i].lon == b.xmax
    ensures exists i :: 0 <= i < |ps| && ps[i].lat == b.ymin
    ensures exists i :: 0 <= i < |ps| && ps[i].lat == b.ymax
  {
    if |ps| == 1 then Box(ps[0].lon, ps[0].lat, ps[0].lon, ps[0].lat)
    else
      var h := Hull(ps[1..]);
      var b := Box(Min(ps[0].lon, h.xmin), Min(ps[0].lat, h.ymin), Max(ps[0].lon, h.xmax), Max(ps[0].lat, h.ymax));
      assert forall i :: 1 <= i < |ps| ==> ps[i] == ps[1..][i - 1];
      b
  }

  const EmptyReduction := "zero-size array to reduction operation minimum which has no identity"

  /** `get_lonlat_minmax` (and the same four lines of the service): the
      least box holding every parcel; numpy's min raises on no parcels. */
  function ParcelExtent(ps: seq<Parcel>): (r: Result<Box>)
    ensures r.Raise? <==> |ps| == 0
    ensures r.Ok? ==> forall i :: 0 <= i < |ps| ==> InBox(r.value, ps[i].lon, ps[i].lat)
    ensures r.Ok? ==> forall b :: (forall i :: 0 <= i < |ps| ==> InBox(b, ps[i].lon, ps[i].lat)) ==> Within(r.value, b)
  {
    if |ps| == 0 then Raise(ValueError(EmptyReduction))
    else
      var h := Hull(ps);
      assert forall b :: (forall i :: 0 <= i < |ps| ==> InBox(b, ps[i].lon, ps[i].lat)) ==> Within(h, b) by {
        forall b | forall i :: 0 <= i < |ps| ==> InBox(b, ps[i].lon, ps[i].lat)
          ensures Within(h, b)
        {
          var i1 :| 0 <= i1 < |ps| && ps[i1].lon == h.xmin;
          var i2 :| 0 <= i2 < |ps| && ps[i2].lon == h.xmax;
          var i3 :| 0 <= i3 < |ps| && ps[i3].lat == h.ymin;
          var i4 :| 0 <= i4 < |ps| && ps[i4].lat == h.ymax;
          assert InBox(b, ps[i1].lon, ps[i1].lat) && InBox(b, ps[i2].lon, ps[i2].lat);
          assert InBox(b, ps[i3].lon, ps[i3].lat) && InBox(b, ps[i4].lon, ps[i4].lat);
        }
      }
      Ok(h)
  }

  /** `observation_gdf.bounds` row 0: only the first observed feature is
      used; a slick with no features fails the label lookup. */
  function FirstBounds(features: seq<Box>): (r: Result<Box>)
    ensures r.Raise? <==> |features| == 0
    ensures r.Ok? ==> r.value == features[0]
  {
    if |features| == 0 then Raise(KeyError("0")) else Ok(features[0])
  }

  /** The four comparisons that widen the grid box by the observation's
      bounds, one side at a time. */
  function Widen(b: Box, o: Box): (w: Box)
    ensures Within(b, w) && Within(o, w)
    ensures forall c :: Within(b, c) && Within(o, c) ==> Within(w, c)
  {
    var xmin := if o.xmin < b.xmin then o.xmin else b.xmin;
    var xmax := if o.xmax > b.xmax then o.xmax else b.xmax;
    var ymin := if o.ymin < b.ymin then o.ymin else b.ymin;
    var ymax := if o.ymax > b.ymax then o.ymax else b.ymax;
    Box(xmin, ymin, xmax, ymax)
  }

  /** Widening by a box already inside changes nothing, and widening twice
      by the same bounds is widening once. */
  lemma WidenIdempotent(b: Box, o: Box)
    ensures Within(o, b) ==> Widen(b, o) == b
    ensures Widen(Widen(b, o), o) == Widen(b, o)
  {
  }
}
