/** The verification grid: square cells of 0.15/110 degrees laid over a
    box, the event set that records for every cell whether the model and the
    observation put oil there, and the two 0/1 arrays the skill score is
    computed on.

    Cells are numbered column-major, as the nested loops build them: the
    outer loop runs over the columns (longitude), the inner over the rows
    (latitude), so cell (i, j) has number i * ny + j. */
module Grid {
  import opened Base
  import opened Parcels
  import Text
  import Fss

  /** `np.longdouble(.15) / 110.`: the cell edge in degrees. */
  const CellSize: real := 0.15 / 110.0

  /** The smallest integer not below x. */
  function Ceil(x: real): (n: int)
    ensures x <= n as real < x + 1.0
  {
    if x == x.Floor as real then x.Floor else x.Floor + 1
  }

  /** `len(np.arange(lo, hi + c, c)[:-1])`: the number of cell edges
      before the last one, that is, the number of cells along an axis. */
  function AxisCount(lo: real, hi: real): (n: nat)
    ensures n == 0 <==> hi <= lo
    ensures n > 0 ==> lo + (n - 1) as real * CellSize < hi <= lo + n as real * CellSize
  {
    if hi <= lo then 0 else Ceil((hi - lo) / CellSize)
  }

  /** The grid `make_poly_grid` lays over a box: its lower-left corner and
      the number of columns and rows. */
  datatype Lattice = Lattice(x0: real, y0: real, nx: nat, ny: nat)
  {
    function Size(): nat {
      nx * ny
    }
  }

  function MakeGrid(b: Box): (g: Lattice)
    ensures g.x0 == b.xmin && g.y0 == b.ymin
    ensures g.nx == 0 <==> b.xmax <= b.xmin
    ensures g.ny == 0 <==> b.ymax <= b.ymin
    ensures g.nx > 0 ==> b.xmax <= b.xmin + g.nx as real * CellSize
    ensures g.ny > 0 ==> b.ymax <= b.ymin + g.ny as real * CellSize
  {
    Lattice(b.xmin, b.ymin, AxisCount(b.xmin, b.xmax), AxisCount(b.ymin, b.ymax))
  }

  /** A grid cell by column and row. */
  datatype Cell = Cell(i: nat, j: nat)

  predicate OnGrid(g: Lattice, c: Cell) {
    c.i < g.nx && c.j < g.ny
  }

  /** The position of a cell in the grid's polygon list. */
  function Index(g: Lattice, c: Cell): (k: nat)
    requires OnGrid(g, c)
    ensures k < g.Size()
  {
    CellBelowSize(g, c);
    c.i * g.ny + c.j
  }

  lemma CellBelowSize(g: Lattice, c: Cell)
    requires OnGrid(g, c)
    ensures c.i * g.ny + c.j < g.nx * g.ny
  {
    assert c.i * g.ny <= (g.nx - 1) * g.ny;
  }

  /** The cell at a position of the polygon list. */
  function CellAt(g: Lattice, k: nat): (c: Cell)
    requires k < g.Size()
    ensures OnGrid(g, c)
  {
    PositionOnGrid(g, k);
    Cell(k / g.ny, k % g.ny)
  }

  lemma PositionOnGrid(g: Lattice, k: nat)
    requires k < g.Size()
    ensures k / g.ny < g.nx && k % g.ny < g.ny
  {
    assert g.ny > 0;
  }

  /** Numbering and position are inverse to each other: each cell has one
      number and each number one cell. */
  lemma IndexRoundTrip(g: Lattice, c: Cell, k: nat)
    ensures OnGrid(g, c) ==> CellAt(g, Index(g, c)) == c
    ensures k < g.Size() ==> Index(g, CellAt(g, k)) == k
  {
    if OnGrid(g, c) {
      Text.ModUnique(c.i * g.ny + c.j, g.ny, c.i, c.j);
    }
  }

  // ---------------------------------------------------------------------
  // Cell squares and containment
  // ---------------------------------------------------------------------

  /** The square of a cell, by its lower-left corner; every square has the
      edge CellSize. */
  datatype Square = Square(left: real, bottom: real)

  function SquareOf(g: Lattice, c: Cell): Square {
    Square(g.x0 + c.i as real * CellSize, g.y0 + c.j as real * CellSize)
  }

  /** The centre of a cell's square. */
  function CentreX(s: Square): real {
    s.left + CellSize / 2.0
  }

  function CentreY(s: Square): real {
    s.bottom + CellSize / 2.0
  }

  /** shapely's `within` for a point and a square: the point lies in the
      open interior; a point on an edge is not within. */
  predicate StrictlyInside(x: real, y: real, s: Square) {
    s.left < x < s.left + CellSize && s.bottom < y < s.bottom + CellSize
  }

  /** The closed square: interior and edges. */
  predicate OnSquare(x: real, y: real, s: Square) {
    s.left <= x <= s.left + CellSize && s.bottom <= y <= s.bottom + CellSize
  }

  lemma StepApart(a: nat, b: nat)
    requires a < b
    ensures a as real * CellSize + CellSize <= b as real * CellSize
  {
  }

  /** A point lies strictly inside the square of at most one cell, so the
      left spatial join gives every parcel at most one cell. */
  lemma InsideOneCell(g: Lattice, c: Cell, d: Cell, x: real, y: real)
    requires StrictlyInside(x, y, SquareOf(g, c)) && StrictlyInside(x, y, SquareOf(g, d))
    ensures c == d
  {
    if c.i < d.i { StepApart(c.i, d.i); }
    if d.i < c.i { StepApart(d.i, c.i); }
    if c.j < d.j { StepApart(c.j, d.j); }
    if d.j < c.j { StepApart(d.j, c.j); }
  }

  /** Some parcel strictly inside the square: the cell the left spatial
      join with `within` gives a parcel count. */
  predicate HasParcelWithin(ps: seq<Parcel>, s: Square) {
    exists p :: p in ps && StrictlyInside(p.lon, p.lat, s)
  }

  /** Some parcel on the closed square. */
  predicate HasParcelOn(ps: seq<Parcel>, s: Square) {
    exists p :: p in ps && OnSquare(p.lon, p.lat, s)
  }

  /** Every cell's square lies in the grid's box, to the right of and above
      its lower-left corner. */
  lemma SquareFromCorner(g: Lattice, c: Cell)
    ensures SquareOf(g, c).left >= g.x0 && SquareOf(g, c).bottom >= g.y0
  {
  }

  /** The grid's box is covered by the closed squares: a point of the box
      lies on the square of the cell found by flooring its offsets. */
  function CellOfPoint(g: Lattice, x: real, y: real): (c: Cell)
    requires g.nx > 0 && g.ny > 0
    requires g.x0 <= x <= g.x0 + g.nx as real * CellSize
    requires g.y0 <= y <= g.y0 + g.ny as real * CellSize
    ensures OnGrid(g, c) && OnSquare(x, y, SquareOf(g, c))
  {
    Cell(AxisCell(g.x0, x, g.nx), AxisCell(g.y0, y, g.ny))
  }

  function AxisCell(lo: real, x: real, n: nat): (i: nat)
    requires n > 0 && lo <= x <= lo + n as real * CellSize
    ensures i < n && lo + i as real * CellSize <= x <= lo + i as real * CellSize + CellSize
  {
    var f := ((x - lo) / CellSize).Floor;
    if f >= n then n - 1 else f
  }

  /** A parcel strictly inside a square is on it: the closed test only
      adds cells to those the strict one marks. */
  lemma WithinIsOn(ps: seq<Parcel>, s: Square)
    ensures HasParcelWithin(ps, s) ==> HasParcelOn(ps, s)
  {
  }

  /** As written, a parcel on the left or bottom edge of the grid's box is
      inside no cell: when the box is the parcels' own extent (or the
      observation does not reach further) the westernmost and southernmost
      parcels are never counted. */
  lemma EdgeParcelInNoCell(g: Lattice, p: Parcel, c: Cell)
    requires p.lon == g.x0 || p.lat == g.y0
    ensures !StrictlyInside(p.lon, p.lat, SquareOf(g, c))
  {
  }

  /** With the closed test every parcel inside the box the grid was laid
      over lies on some cell of the grid, as long as the grid has cells. */
  lemma ParcelOnSomeCell(b: Box, p: Parcel)
    requires InBox(b, p.lon, p.lat)
    requires MakeGrid(b).Size() > 0
    ensures exists c :: OnGrid(MakeGrid(b), c) && OnSquare(p.lon, p.lat, SquareOf(MakeGrid(b), c))
  {
    var g := MakeGrid(b);
    var c := CellOfPoint(g, p.lon, p.lat);
  }

  // ---------------------------------------------------------------------
  // The event set
  // ---------------------------------------------------------------------

  /** Column numbers of the event set. */
  const ColIndex := 0
  const ColLon := 1
  const ColLat := 2
  const ColModel := 3
  const ColObs := 4
  const ColBoth := 5

  /** `np.zeros((n, 6)) * np.nan`. */
  function FreshEventSet(n: nat): (es: seq<seq<Num>>)
    ensures |es| == n
    ensures forall k, col :: 0 <= k < n && 0 <= col < 6 ==> |es[k]| == 6 && es[k][col] == NaN
  {
    seq(n, k => seq(6, col => NaN))
  }

  /** A presence mark: 1 where the condition holds, NaN (never written)
      elsewhere. */
  function Mark(b: bool): Num {
    if b then Num(1.0) else NaN
  }

  /** What one row of the finished event set holds, cell by cell: its
      number, the centre of its square, and the three presence marks. The
      model mark is given to cells holding a parcel, the observation mark to
      cells the observed slick touches (`hit`), the intersection mark to
      cells that have both. */
  function EventRow(g: Lattice, k: nat, model: Square -> bool, hit: Square -> bool): (row: seq<Num>)
    requires k < g.Size()
    ensures |row| == 6 && row[0] == Num(k as real)
    ensures row[1].Num? && row[2].Num? &&
            StrictlyInside(row[1].v, row[2].v, SquareOf(g, CellAt(g, k)))
    ensures forall m :: 3 <= m < 6 ==> row[m] == Num(1.0) || row[m] == NaN
    ensures row[3] == Num(1.0) <==> model(SquareOf(g, CellAt(g, k)))
    ensures row[4] == Num(1.0) <==> hit(SquareOf(g, CellAt(g, k)))
    ensures row[5] == Num(1.0) <==> row[3] == Num(1.0) && row[4] == Num(1.0)
  {
    var s := SquareOf(g, CellAt(g, k));
    [Num(k as real), Num(CentreX(s)), Num(CentreY(s)), Mark(model(s)), Mark(hit(s)), Mark(model(s) && hit(s))]
  }

  predicate IsEventSet(es: seq<seq<Num>>, g: Lattice, model: Square -> bool, hit: Square -> bool) {
    |es| == g.Size() && forall k :: 0 <= k < |es| ==> es[k] == EventRow(g, k, model, hit)
  }

  /** The finished event set, row by row. */
  function EventSet(g: Lattice, model: Square -> bool, hit: Square -> bool): (es: seq<seq<Num>>)
    ensures IsEventSet(es, g, model, hit)
  {
    seq(g.Size(), k requires 0 <= k < g.Size() => EventRow(g, k, model, hit))
  }

  /** The loops of `compute_sin_fss` that fill the event set: one pass for
      index and centroid, then the model, observation and intersection
      marks, each overwriting a NaN with 1. */
  method FillEventSet(g: Lattice, model: Square -> bool, hit: Square -> bool) returns (es: seq<seq<Num>>)
    ensures IsEventSet(es, g, model, hit)
    ensures es == EventSet(g, model, hit)
  {
    var n := g.Size();
    es := FreshEventSet(n);
    var counter := 0;
    while counter < n
      invariant 0 <= counter <= n && |es| == n
      invariant forall k :: 0 <= k < n ==> |es[k]| == 6
      invariant forall k :: 0 <= k < counter ==>
                  var s := SquareOf(g, CellAt(g, k));
                  es[k][..3] == [Num(k as real), Num(CentreX(s)), Num(CentreY(s))]
      invariant forall k, col :: 0 <= k < n && 3 <= col < 6 ==> es[k][col] == NaN
      invariant forall k, col :: counter <= k < n && 0 <= col < 6 ==> es[k][col] == NaN
    {
      var s := SquareOf(g, CellAt(g, counter));
      es := es[counter := [Num(counter as real), Num(CentreX(s)), Num(CentreY(s))] + es[counter][3..]];
      counter := counter + 1;
    }
    es := MarkColumn(es, g, ColModel, (s: Square) => model(s));
    es := MarkColumn(es, g, ColObs, (s: Square) => hit(s));
    es := MarkColumn(es, g, ColBoth, (s: Square) => model(s) && hit(s));
    forall k | 0 <= k < n
      ensures es[k] == EventRow(g, k, model, hit)
    {
      assert es[k][..3] == EventRow(g, k, model, hit)[..3];
      assert es[k] == es[k][..3] + es[k][3..];
    }
  }

  /** One marking loop: every cell the condition selects gets 1 in the
      column; nothing else changes. */
  method MarkColumn(es0: seq<seq<Num>>, g: Lattice, col: nat, cond: Square -> bool) returns (es: seq<seq<Num>>)
    requires |es0| == g.Size() && col < 6
    requires forall k :: 0 <= k < |es0| ==> |es0[k]| == 6 && es0[k][col] == NaN
    ensures |es| == |es0|
    ensures forall k :: 0 <= k < |es| ==>
              |es[k]| == 6 && es[k][col] == Mark(cond(SquareOf(g, CellAt(g, k))))
    ensures forall k, c :: 0 <= k < |es| && 0 <= c < 6 && c != col ==> es[k][c] == es0[k][c]
  {
    es := es0;
    var counter := 0;
    while counter < |es0|
      invariant 0 <= counter <= |es0| && |es| == |es0|
      invariant forall k :: 0 <= k < |es| ==> |es[k]| == 6
      invariant forall k :: 0 <= k < counter ==> es[k][col] == Mark(cond(SquareOf(g, CellAt(g, k))))
      invariant forall k :: counter <= k < |es| ==> es[k] == es0[k]
      invariant forall k, c :: 0 <= k < |es| && 0 <= c < 6 && c != col ==> es[k][c] == es0[k][c]
    {
      if cond(SquareOf(g, CellAt(g, counter))) {
        es := es[counter := es[counter][col := Num(1.0)]];
      }
      counter := counter + 1;
    }
  }

  // ---------------------------------------------------------------------
  // From the event set to the arrays the score is computed on
  // ---------------------------------------------------------------------

  const NoPoints := "the interpolator needs at least one data point"

  /** The regular arrays the nearest-neighbour interpolation gives at the
      grid's own centres: row j (latitude) and column i (longitude) read
      the sample of cell (i, j), so entry [j][i] is row i * ny + j of the
      event set. With no cells there is nothing to interpolate from. */
  function Densify(es: seq<seq<Num>>, g: Lattice, col: nat): (r: Result<seq<seq<Num>>>)
    requires |es| == g.Size() && col < 6
    requires forall k :: 0 <= k < |es| ==> |es[k]| == 6
    ensures r.Raise? <==> g.Size() == 0
    ensures r.Ok? ==> |r.value| == g.ny && forall j :: 0 <= j < g.ny ==> |r.value[j]| == g.nx
  {
    if g.Size() == 0 then Raise(ValueError(NoPoints))
    else
      Ok(seq(g.ny, j requires 0 <= j < g.ny =>
        seq(g.nx, i requires 0 <= i < g.nx => es[Index(g, Cell(i, j))][col])))
  }

  /** `array[np.isnan(array)] = 0`. */
  function ZeroNaN(a: seq<seq<Num>>): (z: seq<seq<real>>)
    ensures |z| == |a| && forall j :: 0 <= j < |a| ==> |z[j]| == |a[j]|
    ensures forall j, i :: 0 <= j < |a| && 0 <= i < |a[j]| ==>
              z[j][i] == (if a[j][i].NaN? then 0.0 else a[j][i].v)
  {
    seq(|a|, j requires 0 <= j < |a| =>
      seq(|a[j]|, i requires 0 <= i < |a[j]| => if a[j][i].NaN? then 0.0 else a[j][i].v))
  }

  /** The presence array of one column of a finished event set: 1 at
      [j][i] exactly when the condition holds for cell (i, j), 0 elsewhere. */
  lemma {:induction false} PresenceArray(es: seq<seq<Num>>, g: Lattice, model: Square -> bool, hit: Square -> bool,
                                         i: nat, j: nat)
    requires IsEventSet(es, g, model, hit)
    requires i < g.nx && j < g.ny
    ensures Densify(es, g, ColModel).Ok? && Densify(es, g, ColObs).Ok?
    ensures ZeroNaN(Densify(es, g, ColModel).value)[j][i] == if model(SquareOf(g, Cell(i, j))) then 1.0 else 0.0
    ensures ZeroNaN(Densify(es, g, ColObs).value)[j][i] == if hit(SquareOf(g, Cell(i, j))) then 1.0 else 0.0
  {
    var c := Cell(i, j);
    var k := Index(g, c);
    IndexRoundTrip(g, c, k);
    assert es[k] == EventRow(g, k, model, hit);
  }

  /** The sampled centre of entry [j][i] is the centre of cell (i, j): the
      lookup reads each cell at its own centroid. */
  lemma {:induction false} DensifyCentres(es: seq<seq<Num>>, g: Lattice, model: Square -> bool, hit: Square -> bool,
                                          i: nat, j: nat)
    requires IsEventSet(es, g, model, hit)
    requires i < g.nx && j < g.ny
    ensures Densify(es, g, ColLon).Ok? && Densify(es, g, ColLat).Ok?
    ensures Densify(es, g, ColLon).value[j][i] == Num(CentreX(SquareOf(g, Cell(i, j))))
    ensures Densify(es, g, ColLat).value[j][i] == Num(CentreY(SquareOf(g, Cell(i, j))))
  {
    var c := Cell(i, j);
    var k := Index(g, c);
    IndexRoundTrip(g, c, k);
    assert es[k] == EventRow(g, k, model, hit);
  }

  /** A 0/1 array as the score's input field. */
  function AsField(a: seq<seq<real>>, rows: nat, cols: nat): (f: Fss.Field)
    requires |a| == rows && forall j :: 0 <= j < rows ==> |a[j]| == cols
    ensures f.Matrix? && f.Valid() && f.rows == rows && f.cols == cols
    ensures forall j, i :: 0 <= j < rows && 0 <= i < cols ==> f.cells[j][i] == Fss.Finite(a[j][i])
  {
    Fss.Matrix(rows, cols, seq(rows, j requires 0 <= j < rows =>
      seq(cols, i requires 0 <= i < cols => Fss.Finite(a[j][i]))))
  }

  // ---------------------------------------------------------------------
  // The overlay array
  // ---------------------------------------------------------------------

  predicate IsBinary(a: seq<seq<real>>) {
    forall j, i :: 0 <= j < |a| && 0 <= i < |a[j]| ==> a[j][i] == 0.0 || a[j][i] == 1.0
  }

  /** `model + 2 * observation` with 0 replaced by NaN. */
  function Union(m: seq<seq<real>>, o: seq<seq<real>>): (u: seq<seq<Num>>)
    requires |m| == |o| && forall j :: 0 <= j < |m| ==> |m[j]| == |o[j]|
    ensures |u| == |m| && forall j :: 0 <= j < |m| ==> |u[j]| == |m[j]|
  {
    seq(|m|, j requires 0 <= j < |m| =>
      seq(|m[j]|, i requires 0 <= i < |m[j]| =>
        var v := m[j][i] + 2.0 * o[j][i];
        if v == 0.0 then NaN else Num(v)))
  }

  /** On 0/1 arrays the overlay codes each cell uniquely: NaN for neither,
      1 for model only, 2 for observation only, 3 for both; each array can
      be read back from it. */
  lemma UnionCodes(m: seq<seq<real>>, o: seq<seq<real>>, j: nat, i: nat)
    requires |m| == |o| && forall j :: 0 <= j < |m| ==> |m[j]| == |o[j]|
    requires IsBinary(m) && IsBinary(o)
    requires j < |m| && i < |m[j]|
    ensures Union(m, o)[j][i].NaN? <==> m[j][i] == 0.0 && o[j][i] == 0.0
    ensures Union(m, o)[j][i] == Num(1.0) <==> m[j][i] == 1.0 && o[j][i] == 0.0
    ensures Union(m, o)[j][i] == Num(2.0) <==> m[j][i] == 0.0 && o[j][i] == 1.0
    ensures Union(m, o)[j][i] == Num(3.0) <==> m[j][i] == 1.0 && o[j][i] == 1.0
  {
  }
}
