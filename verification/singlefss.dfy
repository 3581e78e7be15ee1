/** One model-against-observation comparison: pick the snapshot nearest the
    observation, grid the floating parcels and the observed slick, and score
    the two presence arrays at the 75 window sizes 1, 3, ..., 149.

    Two variants exist. The service (`compute_sin_fss`) lays the grid over
    the parcels' extent widened by the first observed feature's bounds. The
    stand-alone script (`compute_single_fss`) lays it over the parcels'
    extent only and widens the box afterwards, for the plot frame alone. */
module SingleFss {
  import opened Base
  import opened Text
  import opened Dates
  import opened Parcels
  import opened Grid
  import Fss

  /** `range(1, 150, 2)`. */
  const ScaleCount := 75

  function ScaleAt(k: nat): int {
    2 * k + 1
  }

  lemma ScalesAreTheOddWindows(w: int)
    ensures (exists k :: 0 <= k < ScaleCount && ScaleAt(k) == w) <==> 1 <= w < 150 && w % 2 == 1
  {
    if 1 <= w < 150 && w % 2 == 1 {
      assert ScaleAt((w - 1) / 2) == w;
    }
  }

  /** One row of the saved score table: window size and score. */
  datatype FssRow = FssRow(scale: int, fss: Num)

  /** An observation as the comparison reads it: per feature its
      `IDENTIFIER` and bounds, and which grid squares the slick's geometry
      intersects (the spatial join with the default predicate). */
  datatype ObsRow = ObsRow(identifier: string, bounds: Box)
  datatype Observation = Observation(rows: seq<ObsRow>, hit: Square -> bool)

  function Bounds(obs: Observation): (b: seq<Box>)
    ensures |b| == |obs.rows| && forall i :: 0 <= i < |b| ==> b[i] == obs.rows[i].bounds
  {
    seq(|obs.rows|, i requires 0 <= i < |obs.rows| => obs.rows[i].bounds)
  }

  /** `get_obs_date`: the date in row 0's identifier; a slick without rows
      fails the label lookup. */
  function ObservationDate(obs: Observation): (r: Result<real>)
    ensures |obs.rows| == 0 ==> r == Raise(KeyError("0"))
    ensures |obs.rows| > 0 ==> r == ObsDate(obs.rows[0].identifier)
  {
    if |obs.rows| == 0 then Raise(KeyError("0")) else ObsDate(obs.rows[0].identifier)
  }

  /** The model mark: a cell holds oil when a floating parcel falls in its
      square. `strict` is the left spatial join with `within`, which leaves
      out a parcel on the square's edge; otherwise the square is closed.
      Every cell the strict test marks the closed one marks too. */
  function ModelAt(ps: seq<Parcel>, strict: bool): (m: Square -> bool)
    ensures strict ==> forall s :: m(s) <==> HasParcelWithin(ps, s)
    ensures !strict ==> forall s :: m(s) <==> HasParcelOn(ps, s)
    ensures forall s :: m(s) ==> HasParcelOn(ps, s)
  {
    if strict then s => HasParcelWithin(ps, s) else s => HasParcelOn(ps, s)
  }

  /** The score of two presence arrays of the grid's shape at one window. */
  function ScoreAt(m: seq<seq<real>>, o: seq<seq<real>>, g: Lattice, scale: int): (r: Num)
    requires |m| == g.ny && forall j :: 0 <= j < g.ny ==> |m[j]| == g.nx
    requires |o| == g.ny && forall j :: 0 <= j < g.ny ==> |o[j]| == g.nx
    ensures r.Num? ==> 0.0 <= r.v <= 1.0
  {
    Fss.Score(AsField(m, g.ny, g.nx), AsField(o, g.ny, g.nx), 1.0, scale).value
  }

  /** The loop over the window sizes. */
  function Table(m: seq<seq<real>>, o: seq<seq<real>>, g: Lattice): (t: seq<FssRow>)
    requires |m| == g.ny && forall j :: 0 <= j < g.ny ==> |m[j]| == g.nx
    requires |o| == g.ny && forall j :: 0 <= j < g.ny ==> |o[j]| == g.nx
    ensures |t| == ScaleCount
    ensures forall k :: 0 <= k < ScaleCount ==> t[k].scale == ScaleAt(k)
    ensures forall k :: 0 <= k < ScaleCount && t[k].fss.Num? ==> 0.0 <= t[k].fss.v <= 1.0
  {
    seq(ScaleCount, k requires 0 <= k < ScaleCount => FssRow(ScaleAt(k), ScoreAt(m, o, g, ScaleAt(k))))
  }

  /** The event set, the two presence arrays and the score table of one
      grid. */
  datatype Scored = Scored(events: seq<seq<Num>>, model: seq<seq<real>>, observed: seq<seq<real>>,
                           table: seq<FssRow>)

  predicate GridShaped(a: seq<seq<real>>, g: Lattice) {
    |a| == g.ny && forall j :: 0 <= j < g.ny ==> |a[j]| == g.nx
  }

  /** From the grid on: fill the event set, read the model and observation
      columns onto the grid, zero the NaNs and score the two arrays. */
  function Evaluate(g: Lattice, model: Square -> bool, hit: Square -> bool): (r: Result<Scored>)
    ensures r.Raise? <==> g.Size() == 0
    ensures r.Raise? ==> r.exc == ValueError(NoPoints)
    ensures r.Ok? ==> IsEventSet(r.value.events, g, model, hit)
    ensures r.Ok? ==> GridShaped(r.value.model, g) && GridShaped(r.value.observed, g)
    ensures r.Ok? ==> |r.value.table| == ScaleCount
    ensures r.Ok? ==> forall k :: 0 <= k < ScaleCount ==> r.value.table[k].scale == ScaleAt(k)
  {
    var es := EventSet(g, model, hit);
    var dm :- Densify(es, g, ColModel);
    var dobs := Densify(es, g, ColObs).value;
    var m, o := ZeroNaN(dm), ZeroNaN(dobs);
    Ok(Scored(es, m, o, Table(m, o, g)))
  }

  /** Entry [j][i] of the presence arrays is 1 exactly when cell (i, j)
      carries the mark, and 0 otherwise. */
  lemma EvaluateArrays(g: Lattice, model: Square -> bool, hit: Square -> bool, i: nat, j: nat)
    requires i < g.nx && j < g.ny
    ensures Evaluate(g, model, hit).Ok?
    ensures Evaluate(g, model, hit).value.model[j][i] == if model(SquareOf(g, Cell(i, j))) then 1.0 else 0.0
    ensures Evaluate(g, model, hit).value.observed[j][i] == if hit(SquareOf(g, Cell(i, j))) then 1.0 else 0.0
  {
    PresenceArray(EventSet(g, model, hit), g, model, hit, i, j);
  }

  /** Both presence arrays are 0/1 arrays, and the table scores them. */
  lemma EvaluateBinary(g: Lattice, model: Square -> bool, hit: Square -> bool)
    requires g.Size() > 0
    ensures var sc := Evaluate(g, model, hit).value;
            IsBinary(sc.model) && IsBinary(sc.observed) && sc.table == Table(sc.model, sc.observed, g)
  {
    var sc := Evaluate(g, model, hit).value;
    forall j, i | 0 <= j < |sc.model| && 0 <= i < |sc.model[j]|
      ensures sc.model[j][i] == 0.0 || sc.model[j][i] == 1.0
    {
      EvaluateArrays(g, model, hit, i, j);
    }
    forall j, i | 0 <= j < |sc.observed| && 0 <= i < |sc.observed[j]|
      ensures sc.observed[j][i] == 0.0 || sc.observed[j][i] == 1.0
    {
      EvaluateArrays(g, model, hit, i, j);
    }
  }

  /** A presence array shows no event at threshold 1 exactly when it is 0
      everywhere. */
  lemma NoEventIffZero(a: seq<seq<real>>, g: Lattice)
    requires GridShaped(a, g) && IsBinary(a)
    ensures Fss.NoEvent(AsField(a, g.ny, g.nx), 1.0) <==>
            forall j, i :: 0 <= j < g.ny && 0 <= i < g.nx ==> a[j][i] == 0.0
  {
  }

  /** A presence array is 0 everywhere exactly when no cell of the grid
      carries its mark. */
  lemma ZeroIffUnmarked(a: seq<seq<real>>, g: Lattice, mark: Square -> bool)
    requires GridShaped(a, g)
    requires forall j, i :: 0 <= j < g.ny && 0 <= i < g.nx ==>
               a[j][i] == if mark(SquareOf(g, Cell(i, j))) then 1.0 else 0.0
    ensures (forall j, i :: 0 <= j < g.ny && 0 <= i < g.nx ==> a[j][i] == 0.0)
            <==> forall c :: OnGrid(g, c) ==> !mark(SquareOf(g, c))
  {
    if forall j, i :: 0 <= j < g.ny && 0 <= i < g.nx ==> a[j][i] == 0.0 {
      forall c | OnGrid(g, c)
        ensures !mark(SquareOf(g, c))
      {
        assert c == Cell(c.i, c.j);
        assert a[c.j][c.i] == 0.0;
      }
    }
  }

  /** Both presence arrays of a grid with cells, entry by entry. */
  lemma EvaluateMarks(g: Lattice, model: Square -> bool, hit: Square -> bool)
    requires g.Size() > 0
    ensures var sc := Evaluate(g, model, hit).value;
            && (forall j, i :: 0 <= j < g.ny && 0 <= i < g.nx ==>
                  sc.model[j][i] == if model(SquareOf(g, Cell(i, j))) then 1.0 else 0.0)
            && (forall j, i :: 0 <= j < g.ny && 0 <= i < g.nx ==>
                  sc.observed[j][i] == if hit(SquareOf(g, Cell(i, j))) then 1.0 else 0.0)
  {
    forall j, i | 0 <= j < g.ny && 0 <= i < g.nx {
      EvaluateArrays(g, model, hit, i, j);
    }
  }

  /** A score is NaN exactly when neither the model nor the observation
      marks any cell of the grid: the score is undefined only for two empty
      fields. */
  lemma ScoreNaNIffNothing(g: Lattice, model: Square -> bool, hit: Square -> bool, k: nat)
    requires g.Size() > 0 && k < ScaleCount
    ensures Evaluate(g, model, hit).value.table[k].fss.NaN? <==>
            forall c :: OnGrid(g, c) ==> !model(SquareOf(g, c)) && !hit(SquareOf(g, c))
  {
    var sc := Evaluate(g, model, hit).value;
    EvaluateBinary(g, model, hit);
    var fm, fo := AsField(sc.model, g.ny, g.nx), AsField(sc.observed, g.ny, g.nx);
    Fss.ScoreNaNIff(fm, fo, 1.0, ScaleAt(k));
    NoEventIffZero(sc.model, g);
    NoEventIffZero(sc.observed, g);
    EvaluateMarks(g, model, hit);
    ZeroIffUnmarked(sc.model, g, model);
    ZeroIffUnmarked(sc.observed, g, hit);
  }

  /** When the model marks exactly the cells the observation marks, and
      there is at least one, every window scores 1. */
  lemma ScorePerfectWhenAgreeing(g: Lattice, model: Square -> bool, hit: Square -> bool, k: nat)
    requires g.Size() > 0 && k < ScaleCount
    requires forall c :: OnGrid(g, c) ==> model(SquareOf(g, c)) == hit(SquareOf(g, c))
    requires exists c :: OnGrid(g, c) && hit(SquareOf(g, c))
    ensures Evaluate(g, model, hit).value.table[k].fss == Num(1.0)
  {
    var sc := Evaluate(g, model, hit).value;
    EvaluateBinary(g, model, hit);
    assert sc.model == sc.observed by {
      forall j | 0 <= j < g.ny
        ensures sc.model[j] == sc.observed[j]
      {
        forall i | 0 <= i < g.nx
          ensures sc.model[j][i] == sc.observed[j][i]
        {
          EvaluateArrays(g, model, hit, i, j);
        }
      }
    }
    var c :| OnGrid(g, c) && hit(SquareOf(g, c));
    EvaluateArrays(g, model, hit, c.i, c.j);
    var f := AsField(sc.model, g.ny, g.nx);
    assert !Fss.NoEvent(f, 1.0) by {
      assert !Fss.IsEvent(f.cells[c.j][c.i], 1.0) ==> false;
    }
    Fss.ScoreIdentical(f, 1.0, ScaleAt(k));
  }

  /** With the closed test, every parcel inside the box the grid was laid
      over marks the cell it lies on. */
  lemma EveryParcelMarks(b: Box, ps: seq<Parcel>, hit: Square -> bool, p: Parcel)
    requires p in ps && InBox(b, p.lon, p.lat)
    requires MakeGrid(b).Size() > 0
    ensures var g := MakeGrid(b);
            exists c :: OnGrid(g, c) && Evaluate(g, ModelAt(ps, false), hit).value.events[Index(g, c)][ColModel] == Num(1.0)
  {
    var g := MakeGrid(b);
    ParcelOnSomeCell(b, p);
    var c :| OnGrid(g, c) && OnSquare(p.lon, p.lat, SquareOf(g, c));
    var k := Index(g, c);
    IndexRoundTrip(g, c, k);
    EvaluateEvents(g, ModelAt(ps, false), hit, k);
  }

  /** Row k of the scored event set is the event row of cell k. */
  lemma EvaluateEvents(g: Lattice, model: Square -> bool, hit: Square -> bool, k: nat)
    requires k < g.Size()
    ensures Evaluate(g, model, hit).Ok?
    ensures Evaluate(g, model, hit).value.events[k] == EventRow(g, k, model, hit)
  {
  }

  // ---------------------------------------------------------------------
  // One comparison
  // ---------------------------------------------------------------------

  /** What one comparison produces: the experiment identifier, the chosen
      snapshot, the plot frame, the grid and what was scored on it. */
  datatype Outcome = Outcome(xp: string, timeIndex: nat, frame: Box, grid: Lattice, scored: Scored)

  /** The plot frame and the grid of one comparison. */
  datatype Layout = Layout(frame: Box, grid: Lattice)

  /** Extent of the parcels, widened by the first observed feature's bounds
      into the frame; the grid is laid over the frame (service) or over the
      parcels' extent (script). Numpy's minimum fails first on no parcels,
      then the bounds lookup on no feature. */
  function LayOut(ps: seq<Parcel>, obs: Observation, widened: bool): (r: Result<Layout>)
    ensures |ps| == 0 ==> r == Raise(ValueError(EmptyReduction))
    ensures |ps| > 0 && |obs.rows| == 0 ==> r == Raise(KeyError("0"))
    ensures r.Ok? <==> |ps| > 0 && |obs.rows| > 0
    ensures r.Ok? ==> (forall i :: 0 <= i < |ps| ==> InBox(r.value.frame, ps[i].lon, ps[i].lat))
    ensures r.Ok? ==> Within(obs.rows[0].bounds, r.value.frame)
    ensures r.Ok? ==> r.value.grid == MakeGrid(if widened then r.value.frame else ParcelExtent(ps).value)
  {
    var ext :- ParcelExtent(ps);
    var first :- FirstBounds(Bounds(obs));
    var frame := Widen(ext, first);
    Ok(Layout(frame, MakeGrid(if widened then frame else ext)))
  }

  /** The frame is the least box holding every parcel and the first feature. */
  lemma LayOutLeast(ps: seq<Parcel>, obs: Observation, widened: bool, b: Box)
    requires LayOut(ps, obs, widened).Ok?
    requires forall i :: 0 <= i < |ps| ==> InBox(b, ps[i].lon, ps[i].lat)
    requires Within(obs.rows[0].bounds, b)
    ensures Within(LayOut(ps, obs, widened).value.frame, b)
  {
    var ext := ParcelExtent(ps).value;
    assert Within(ext, b);
  }

  /** The comparison once the snapshot times and the observation date are
      known. `snapshot(t)` stands for the particle arrays read at time index
      t, `density` for the oil density stored with them. `widened` selects
      the service's grid (over the widened box) rather than the script's
      (over the parcels alone); `strict` selects the cell test (see
      ModelAt). */
  function Compare(times: seq<real>, obsDate: real, simStr: string, snapshot: nat -> seq<Particle>,
                   density: real, obs: Observation, widened: bool, strict: bool): (r: Result<Outcome>)
    ensures |times| == 0 ==> r.Raise?
    ensures r.Ok? ==> Nearest(times, obsDate) == Ok(r.value.timeIndex)
    ensures r.Ok? ==> r.value.xp == XpIdentifier(simStr, r.value.timeIndex)
    ensures r.Ok? ==> r.value.grid.Size() > 0
    ensures r.Ok? ==> |r.value.scored.table| == ScaleCount && r.value.scored.table[0].scale == 1
  {
    var t :- Nearest(times, obsDate);
    var ps := SurfaceParcels(snapshot(t), density);
    var lay :- LayOut(ps, obs, widened);
    var sc :- Evaluate(lay.grid, ModelAt(ps, strict), obs.hit);
    Ok(Outcome(XpIdentifier(simStr, t), t, lay.frame, lay.grid, sc))
  }

  /** The failures of a comparison, in the order they arise: no snapshot,
      no floating parcel, no observed feature, a grid without cells. */
  lemma CompareFails(times: seq<real>, obsDate: real, simStr: string, snapshot: nat -> seq<Particle>,
                     density: real, obs: Observation, widened: bool, strict: bool)
    requires |times| > 0
    ensures var t := Nearest(times, obsDate).value;
            var ps := SurfaceParcels(snapshot(t), density);
            var r := Compare(times, obsDate, simStr, snapshot, density, obs, widened, strict);
            && (|ps| == 0 ==> r == Raise(ValueError(EmptyReduction)))
            && (|ps| > 0 && |obs.rows| == 0 ==> r == Raise(KeyError("0")))
            && (|ps| > 0 && |obs.rows| > 0 ==>
                  var box := if widened then Widen(ParcelExtent(ps).value, obs.rows[0].bounds) else ParcelExtent(ps).value;
                  (r.Raise? <==> MakeGrid(box).Size() == 0))
  {
  }

  /** A successful comparison, in terms of its parts: the layout of the
      nearest snapshot's floating parcels, and the scores on its grid of the
      cells the chosen test marks. */
  lemma CompareParts(times: seq<real>, obsDate: real, simStr: string, snapshot: nat -> seq<Particle>,
                     density: real, obs: Observation, widened: bool, strict: bool)
    requires Compare(times, obsDate, simStr, snapshot, density, obs, widened, strict).Ok?
    ensures var o := Compare(times, obsDate, simStr, snapshot, density, obs, widened, strict).value;
            var ps := SurfaceParcels(snapshot(o.timeIndex), density);
            && LayOut(ps, obs, widened) == Ok(Layout(o.frame, o.grid))
            && Evaluate(o.grid, ModelAt(ps, strict), obs.hit) == Ok(o.scored)
  {
  }

  /** The strict cell test only drops model cells: where it succeeds the
      closed test succeeds on the same snapshot and grid, with the same
      observed array, and a model array at least as large entry by entry. */
  lemma StrictMarksFewer(times: seq<real>, obsDate: real, simStr: string, snapshot: nat -> seq<Particle>,
                         density: real, obs: Observation, widened: bool)
    requires Compare(times, obsDate, simStr, snapshot, density, obs, widened, true).Ok?
    ensures var a := Compare(times, obsDate, simStr, snapshot, density, obs, widened, true).value;
            var b := Compare(times, obsDate, simStr, snapshot, density, obs, widened, false);
            && b.Ok? && b.value.timeIndex == a.timeIndex && b.value.grid == a.grid
            && b.value.scored.observed == a.scored.observed
            && forall j, i :: 0 <= j < a.grid.ny && 0 <= i < a.grid.nx ==>
                 a.scored.model[j][i] <= b.value.scored.model[j][i]
  {
    var a := Compare(times, obsDate, simStr, snapshot, density, obs, widened, true).value;
    var ps := SurfaceParcels(snapshot(a.timeIndex), density);
    CompareParts(times, obsDate, simStr, snapshot, density, obs, widened, true);
    assert Compare(times, obsDate, simStr, snapshot, density, obs, widened, false)
        == Ok(Outcome(a.xp, a.timeIndex, a.frame, a.grid, Evaluate(a.grid, ModelAt(ps, false), obs.hit).value));
    StrictEvaluatesFewer(a.grid, ps, obs.hit);
  }

  /** On one grid, the strict test's arrays against the closed test's: the
      same observed array, and no model entry larger. */
  lemma StrictEvaluatesFewer(g: Lattice, ps: seq<Parcel>, hit: Square -> bool)
    requires g.Size() > 0
    ensures var sa := Evaluate(g, ModelAt(ps, true), hit).value;
            var sb := Evaluate(g, ModelAt(ps, false), hit).value;
            && sb.observed == sa.observed
            && forall j, i :: 0 <= j < g.ny && 0 <= i < g.nx ==> sa.model[j][i] <= sb.model[j][i]
  {
    var sa := Evaluate(g, ModelAt(ps, true), hit).value;
    var sb := Evaluate(g, ModelAt(ps, false), hit).value;
    EvaluateMarks(g, ModelAt(ps, true), hit);
    EvaluateMarks(g, ModelAt(ps, false), hit);
    forall j | 0 <= j < g.ny
      ensures sb.observed[j] == sa.observed[j]
    {
    }
  }

  /** When the first observed feature lies inside the parcels' extent the
      two variants lay the same grid and so produce the same outcome. */
  lemma VariantsAgree(times: seq<real>, obsDate: real, simStr: string, snapshot: nat -> seq<Particle>,
                      density: real, obs: Observation, strict: bool)
    requires |times| > 0 && |obs.rows| > 0
    requires var ps := SurfaceParcels(snapshot(Nearest(times, obsDate).value), density);
             |ps| > 0 && Within(obs.rows[0].bounds, ParcelExtent(ps).value)
    ensures Compare(times, obsDate, simStr, snapshot, density, obs, true, strict)
         == Compare(times, obsDate, simStr, snapshot, density, obs, false, strict)
  {
    var ps := SurfaceParcels(snapshot(Nearest(times, obsDate).value), density);
    LayOutsAgree(ps, obs);
  }

  /** A first feature inside the parcels' extent widens nothing, so both
      variants lay the same grid over the same frame. */
  lemma LayOutsAgree(ps: seq<Parcel>, obs: Observation)
    requires |ps| > 0 && |obs.rows| > 0 && Within(obs.rows[0].bounds, ParcelExtent(ps).value)
    ensures LayOut(ps, obs, true) == LayOut(ps, obs, false)
  {
    WidenIdempotent(ParcelExtent(ps).value, obs.rows[0].bounds);
  }

  // ---------------------------------------------------------------------
  // The two entry points
  // ---------------------------------------------------------------------

  /** The simulation's start and length as the configuration holds them
      (two-digit year), and the simulation string of the run: the
      `get_sim_str` text that names its folder (Paths.SimStr) and prefixes
      every experiment identifier and saved table. */
  datatype SimSetup = SimSetup(year: string, month: string, day: string, hour: string, minutes: string,
                               simLength: string, simStr: string)

  /** `compute_sin_fss` of the service AS WRITTEN: the snapshot times come
      from the setup with the two-digit year taken as the year itself, the
      observation date from the slick, and the comparison runs on the
      widened grid with the strict `within` cell test. */
  function ServiceFssAsWritten(sim: SimSetup, obs: Observation, snapshot: nat -> seq<Particle>, density: real)
    : (r: Result<Outcome>)
    ensures MdkSimDateAsWritten(sim.year, sim.month, sim.day, sim.hour, sim.minutes, sim.simLength).Raise? ==>
              r == MdkSimDateAsWritten(sim.year, sim.month, sim.day, sim.hour, sim.minutes, sim.simLength).PropagateFailure()
    ensures MdkSimDateAsWritten(sim.year, sim.month, sim.day, sim.hour, sim.minutes, sim.simLength).Ok? && |obs.rows| == 0 ==>
              r == Raise(KeyError("0"))
    ensures r.Ok? ==> (ObservationDate(obs).Ok? &&
              r == Compare(MdkSimDateAsWritten(sim.year, sim.month, sim.day, sim.hour, sim.minutes, sim.simLength).value,
                           ObservationDate(obs).value, sim.simStr, snapshot, density, obs, true, true))
  {
    var times :- MdkSimDateAsWritten(sim.year, sim.month, sim.day, sim.hour, sim.minutes, sim.simLength);
    var obsDate :- ObservationDate(obs);
    Compare(times, obsDate, sim.simStr, snapshot, density, obs, true, true)
  }

  /** `compute_sin_fss` with both defects corrected: the run starts in year
      2000 + yy, and a parcel on a square's edge marks the square. */
  function ServiceFss(sim: SimSetup, obs: Observation, snapshot: nat -> seq<Particle>, density: real)
    : (r: Result<Outcome>)
    ensures MdkSimDate(sim.year, sim.month, sim.day, sim.hour, sim.minutes, sim.simLength).Raise? ==>
              r == MdkSimDate(sim.year, sim.month, sim.day, sim.hour, sim.minutes, sim.simLength).PropagateFailure()
    ensures MdkSimDate(sim.year, sim.month, sim.day, sim.hour, sim.minutes, sim.simLength).Ok? && |obs.rows| == 0 ==>
              r == Raise(KeyError("0"))
    ensures r.Ok? ==> (ObservationDate(obs).Ok? &&
              r == Compare(MdkSimDate(sim.year, sim.month, sim.day, sim.hour, sim.minutes, sim.simLength).value,
                           ObservationDate(obs).value, sim.simStr, snapshot, density, obs, true, false))
  {
    var times :- MdkSimDate(sim.year, sim.month, sim.day, sim.hour, sim.minutes, sim.simLength);
    var obsDate :- ObservationDate(obs);
    Compare(times, obsDate, sim.simStr, snapshot, density, obs, true, false)
  }

  /** The service as written or corrected, for the callers that are
      modelled both ways. */
  function ServiceFssOf(asWritten: bool, sim: SimSetup, obs: Observation, snapshot: nat -> seq<Particle>,
                        density: real): Result<Outcome>
  {
    if asWritten then ServiceFssAsWritten(sim, obs, snapshot, density) else ServiceFss(sim, obs, snapshot, density)
  }

  /** The two-digit-year defect at the level of the service: for a run
      whose fields read well and whose length stays below 1900 years of
      hours, every observation from the year 2000 on is compared, as
      written, with the LAST snapshot of the run, whatever its date. */
  lemma ServiceAsWrittenMatchesLast(sim: SimSetup, obs: Observation, snapshot: nat -> seq<Particle>, density: real)
    requires ParseInt(sim.year).Ok? && ParseInt(sim.year).value < 100
    requires ParseInt(sim.hour).Ok? && ParseInt(sim.simLength).Ok?
    requires ParseInt(sim.hour).value + ParseInt(sim.simLength).value < 24 * 693900
    requires ObservationDate(obs).Ok? && ObservationDate(obs).value >= 730120.0
    requires ServiceFssAsWritten(sim, obs, snapshot, density).Ok?
    ensures MdkSimDateAsWritten(sim.year, sim.month, sim.day, sim.hour, sim.minutes, sim.simLength).Ok?
    ensures ServiceFssAsWritten(sim, obs, snapshot, density).value.timeIndex
         == |MdkSimDateAsWritten(sim.year, sim.month, sim.day, sim.hour, sim.minutes, sim.simLength).value| - 1
  {
    var times := MdkSimDateAsWritten(sim.year, sim.month, sim.day, sim.hour, sim.minutes, sim.simLength);
    AsWrittenMatchesLast(sim.year, sim.month, sim.day, sim.hour, sim.minutes, sim.simLength, ObservationDate(obs).value);
  }

  /** `compute_single_fss` of the stand-alone script: snapshot times and
      simulation name from the lines of `config1.txt`, then the comparison on
      the grid over the parcels alone, with the strict `within` cell test. */
  function ScriptFss(lines: seq<string>, obs: Observation, snapshot: nat -> seq<Particle>, density: real)
    : (r: Result<Outcome>)
    ensures MdkSimDateFromConfig(lines).Raise? ==> r == MdkSimDateFromConfig(lines).PropagateFailure()
    ensures r.Ok? ==> (ObservationDate(obs).Ok? && SimId(lines).Ok? &&
              r == Compare(MdkSimDateFromConfig(lines).value, ObservationDate(obs).value, SimId(lines).value,
                           snapshot, density, obs, false, true))
  {
    var times :- MdkSimDateFromConfig(lines);
    var obsDate :- ObservationDate(obs);
    var name :- SimId(lines);
    Compare(times, obsDate, name, snapshot, density, obs, false, true)
  }
}
