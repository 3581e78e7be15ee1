/** The fractions skill score of Roberts & Lean (2008) as the metrics library
    computes it: both fields are thresholded into 0/1 event fields, each is
    smoothed by an s-by-s zero-padded moving average, three sums are
    accumulated and the score is 1 - (Sff - 2 Sfo + Soo) / (Sff + Soo).

    Arithmetic is exact. Each fraction is a window count divided by the
    window area A (s * s for scale > 1, otherwise 1), so each of the three
    sums is a whole number divided by A * A. The verification object keeps
    those whole numbers; the common factor A * A cancels in the score. */
module Fss {
  import opened Base

  // ---------------------------------------------------------------------
  // Fields
  // ---------------------------------------------------------------------

  /** One entry of an input array: an ordinary number, or NaN / an infinity. */
  datatype Value = Finite(x: real) | NonFinite

  /** An input array as the shape check sees it: a 2-D matrix, or an array
      of some other rank. */
  datatype Field =
    | Matrix(rows: nat, cols: nat, cells: seq<seq<Value>>)
    | OtherRank(rank: nat)
  {
    /** A numpy array is rectangular, and "other rank" means not 2. */
    predicate Valid() {
      match this
      case Matrix(m, n, c) => |c| == m && forall i :: 0 <= i < m ==> |c[i]| == n
      case OtherRank(k) => k != 2
    }
  }

  /** The shape test that guards accumulation. */
  predicate SameShape2D(xf: Field, xo: Field) {
    xf.Matrix? && xo.Matrix? && xf.rows == xo.rows && xf.cols == xo.cols
  }

  const ShapeMessage := "X_f and X_o must be two-dimensional arrays having the same shape"

  /** An integer matrix of m rows of n entries. */
  predicate Shaped(a: seq<seq<int>>, m: nat, n: nat) {
    |a| == m && forall i :: 0 <= i < m ==> |a[i]| == n
  }

  predicate Congruent(a: seq<seq<int>>, b: seq<seq<int>>) {
    |a| == |b| && forall i :: 0 <= i < |a| ==> |a[i]| == |b[i]|
  }

  predicate Binary(a: seq<seq<int>>) {
    forall i, j :: 0 <= i < |a| && 0 <= j < |a[i]| ==> 0 <= a[i][j] <= 1
  }

  predicate NonNegative(a: seq<seq<int>>) {
    forall i, j :: 0 <= i < |a| && 0 <= j < |a[i]| ==> a[i][j] >= 0
  }

  predicate AllZero(a: seq<seq<int>>) {
    forall i, j :: 0 <= i < |a| && 0 <= j < |a[i]| ==> a[i][j] == 0
  }

  // ---------------------------------------------------------------------
  // Thresholding
  // ---------------------------------------------------------------------

  /** An entry counts as an event when it is finite and reaches the threshold. */
  predicate IsEvent(v: Value, thr: real) {
    v.Finite? && v.x >= thr
  }

  /** A 2-D field none of whose entries is an event. */
  predicate NoEvent(f: Field, thr: real)
    requires f.Matrix? && f.Valid()
  {
    forall i, j :: 0 <= i < f.rows && 0 <= j < f.cols ==> !IsEvent(f.cells[i][j], thr)
  }

  /** The copy step: a non-finite entry is overwritten with thr - 1. */
  function Sanitize(v: Value, thr: real): real {
    match v
    case Finite(x) => x
    case NonFinite => thr - 1.0
  }

  function Indicator(x: real, thr: real): int {
    if x >= thr then 1 else 0
  }

  /** The 0/1 field `(X >= thr).astype(float)` of the sanitised copy. The
      input itself is a value and so is never changed. */
  function Binarize(f: Field, thr: real): (b: seq<seq<int>>)
    requires f.Matrix? && f.Valid()
    ensures Shaped(b, f.rows, f.cols)
    ensures forall i, j :: 0 <= i < f.rows && 0 <= j < f.cols ==>
              b[i][j] == if IsEvent(f.cells[i][j], thr) then 1 else 0
  {
    seq(f.rows, i requires 0 <= i < f.rows =>
      seq(f.cols, j requires 0 <= j < f.cols => Indicator(Sanitize(f.cells[i][j], thr), thr)))
  }

  // ---------------------------------------------------------------------
  // Moving average (uniform_filter with mode="constant", cval=0)
  // ---------------------------------------------------------------------

  /** Entry (i, j), or the padding value 0 outside the field. */
  function At(a: seq<seq<int>>, i: int, j: int): int {
    if 0 <= i < |a| && 0 <= j < |a[i]| then a[i][j] else 0
  }

  /** Sum of w consecutive entries of row i starting at column j. */
  function RowRun(a: seq<seq<int>>, i: int, j: int, w: nat): int
    decreases w
  {
    if w == 0 then 0 else RowRun(a, i, j, w - 1) + At(a, i, j + w - 1)
  }

  /** Sum of the h-by-w block whose top-left corner is (i, j). */
  function Box(a: seq<seq<int>>, i: int, j: int, h: nat, w: nat): int
    decreases h
  {
    if h == 0 then 0 else Box(a, i, j, h - 1, w) + RowRun(a, i + h - 1, j, w)
  }

  /** The window of size s around (i, j) covers rows i - s/2 .. i - s/2 + s - 1
      and the same columns; this is the number of events inside it. */
  function WindowCount(a: seq<seq<int>>, s: nat, i: int, j: int): int {
    Box(a, i - s / 2, j - s / 2, s, s)
  }

  /** The divisor of the moving average: s * s cells, padding included. */
  function Area(scale: int): (n: nat)
    ensures n >= 1
  {
    if scale > 1 then scale * scale else 1
  }

  /** Numerators of the fractions field: window counts for scale > 1,
      otherwise the binary field itself. */
  function Counts(a: seq<seq<int>>, scale: int): (r: seq<seq<int>>)
    ensures Congruent(r, a)
    ensures scale <= 1 ==> r == a
  {
    if scale > 1 then
      seq(|a|, i requires 0 <= i < |a| =>
        seq(|a[i]|, j requires 0 <= j < |a[i]| => WindowCount(a, scale, i, j)))
    else a
  }

  function Scaled(c: seq<seq<int>>, n: nat): (r: seq<seq<real>>)
    requires n >= 1
    ensures |r| == |c| && forall i :: 0 <= i < |c| ==> |r[i]| == |c[i]|
  {
    seq(|c|, i requires 0 <= i < |c| =>
      seq(|c[i]|, j requires 0 <= j < |c[i]| => (c[i][j] as real) / (n as real)))
  }

  /** The fractions field S: each count over the window area. */
  function Fractions(a: seq<seq<int>>, scale: int): seq<seq<real>> {
    Scaled(Counts(a, scale), Area(scale))
  }

  // ---------------------------------------------------------------------
  // Sums
  // ---------------------------------------------------------------------

  function RowDot(a: seq<int>, b: seq<int>): int
    requires |a| == |b|
    decreases |a|
  {
    if |a| == 0 then 0 else a[0] * b[0] + RowDot(a[1..], b[1..])
  }

  /** Sum over all cells of a[i][j] * b[i][j]. */
  function Dot(a: seq<seq<int>>, b: seq<seq<int>>): int
    requires Congruent(a, b)
    decreases |a|
  {
    if |a| == 0 then 0 else RowDot(a[0], b[0]) + Dot(a[1..], b[1..])
  }

  // ---------------------------------------------------------------------
  // The verification object
  // ---------------------------------------------------------------------

  /** The three running sums, forecast squared, product and observation
      squared, each multiplied by the square of the window area. */
  datatype Sums = Sums(ff: int, fo: int, oo: int)

  function AddSums(x: Sums, y: Sums): Sums {
    Sums(x.ff + y.ff, x.fo + y.fo, x.oo + y.oo)
  }

  /** The dict built by fss_init and updated by fss_accum. `npSums` records
      whether the sums have become numpy scalars (they do at the first
      accumulation): a numpy 0/0 is NaN, a Python 0.0/0.0 raises. */
  datatype FssState = FssState(thr: real, scale: int, sums: Sums, npSums: bool)

  /** Sums that some sequence of accumulations can produce: non-negative,
      with 2 Sfo <= Sff + Soo, and all zero before the first one. */
  predicate Consistent(st: FssState) {
    var s := st.sums;
    && s.ff >= 0 && s.fo >= 0 && s.oo >= 0
    && 2 * s.fo <= s.ff + s.oo
    && (!st.npSums ==> s == Sums(0, 0, 0))
  }

  function Init(thr: real, scale: int): (st: FssState)
    ensures Consistent(st) && st.thr == thr && st.scale == scale
  {
    FssState(thr, scale, Sums(0, 0, 0), false)
  }

  /** The sums one pair of fields adds to the verification object. */
  function Contribution(thr: real, scale: int, xf: Field, xo: Field): Sums
    requires xf.Valid() && xo.Valid() && SameShape2D(xf, xo)
  {
    var cf := Counts(Binarize(xf, thr), scale);
    var co := Counts(Binarize(xo, thr), scale);
    Sums(Dot(cf, cf), Dot(cf, co), Dot(co, co))
  }

  /** fss_accum: ValueError unless both fields are 2-D of the same shape,
      otherwise the object with this pair's sums added. */
  function Accumulate(st: FssState, xf: Field, xo: Field): (r: Result<FssState>)
    requires xf.Valid() && xo.Valid()
    ensures r.Raise? <==> !SameShape2D(xf, xo)
    ensures r.Raise? ==> r.exc == ValueError(ShapeMessage)
    ensures r.Ok? ==> r.value.thr == st.thr && r.value.scale == st.scale && r.value.npSums
    ensures r.Ok? && Consistent(st) ==> Consistent(r.value)
    ensures r.Ok? && Consistent(st) ==>
              r.value.sums.ff >= st.sums.ff && r.value.sums.fo >= st.sums.fo && r.value.sums.oo >= st.sums.oo
  {
    if !SameShape2D(xf, xo) then Raise(ValueError(ShapeMessage))
    else
      ContributionConsistent(st.thr, st.scale, xf, xo);
      Ok(FssState(st.thr, st.scale, AddSums(st.sums, Contribution(st.thr, st.scale, xf, xo)), true))
  }

  /** fss_compute: 1 - (Sff - 2 Sfo + Soo) / (Sff + Soo). On consistent sums
      this is 2 Sfo / (Sff + Soo), a value in [0, 1]; a zero denominator gives
      NaN once the sums are numpy scalars and ZeroDivisionError before. */
  function Compute(st: FssState): (r: Result<Num>)
    ensures r.Raise? <==> !st.npSums && st.sums.ff + st.sums.oo == 0
    ensures r.Raise? ==> r.exc == ZeroDivisionError
    ensures r.Ok? ==> (r.value.NaN? <==> st.sums.ff + st.sums.oo == 0)
    ensures r.Ok? && r.value.Num? && Consistent(st) ==>
              0.0 <= r.value.v <= 1.0
              && r.value.v == (2 * st.sums.fo) as real / (st.sums.ff + st.sums.oo) as real
  {
    var s := st.sums;
    var numer := (s.ff - 2 * s.fo + s.oo) as real;
    var denom := (s.ff + s.oo) as real;
    if s.ff + s.oo == 0 then
      if st.npSums then Ok(NaN) else Raise(ZeroDivisionError)
    else
      ScoreAlgebra(s.ff, s.fo, s.oo, Consistent(st));
      Ok(Num(1.0 - numer / denom))
  }

  /** fss: init, one accumulation, compute. */
  function Score(xf: Field, xo: Field, thr: real, scale: int): (r: Result<Num>)
    requires xf.Valid() && xo.Valid()
    ensures r.Raise? <==> !SameShape2D(xf, xo)
    ensures r.Raise? ==> r.exc == ValueError(ShapeMessage)
    ensures r.Ok? && r.value.Num? ==> 0.0 <= r.value.v <= 1.0
  {
    var st :- Accumulate(Init(thr, scale), xf, xo);
    Compute(st)
  }

  // ---------------------------------------------------------------------
  // Lemmas: algebra of the sums
  // ---------------------------------------------------------------------

  lemma Distribute(a: real, b: real, c: real)
    ensures (a + b) * c == a * c + b * c
  {
  }

  /** Multiplication by a positive number can be cancelled. */
  lemma Cancel(r: real, t: real, d: real)
    requires d > 0.0 && r * d == t * d
    ensures r == t
  {
  }

  lemma ScoreAlgebra(ff: int, fo: int, oo: int, consistent: bool)
    requires ff + oo != 0
    requires consistent ==> ff >= 0 && fo >= 0 && oo >= 0 && 2 * fo <= ff + oo
    ensures consistent ==>
              1.0 - (ff - 2 * fo + oo) as real / (ff + oo) as real == (2 * fo) as real / (ff + oo) as real
    ensures consistent ==> 0.0 <= (2 * fo) as real / (ff + oo) as real <= 1.0
  {
    if consistent {
      var d, e := (ff + oo) as real, (2 * fo) as real;
      assert (ff - 2 * fo + oo) as real == d - e;
      QuotientSplit(d, e);
      UnitQuotient(2 * fo, ff + oo);
    }
  }

  lemma Unit(d: real)
    ensures 1.0 * d == d
  {
  }

  lemma AddUp(x: real, y: real, d: real, e: real)
    requires x == d - e && y == e
    ensures x + y == d
  {
  }

  lemma Times(q: real, e: real, d: real)
    requires d > 0.0 && q == e / d
    ensures q * d == e
  {
  }

  /** (d - e) / d = 1 - e / d, one step at a time. */
  lemma QuotientSplit(d: real, e: real)
    requires d > 0.0
    ensures (d - e) / d == 1.0 - e / d
  {
    var q, r := e / d, (d - e) / d;
    Times(q, e, d);
    Times(r, d - e, d);
    AddUp(r * d, q * d, d, e);
    Distribute(r, q, d);
    Unit(d);
    Cancel(r + q, 1.0, d);
  }

  lemma {:induction false} RowDotSymmetric(a: seq<int>, b: seq<int>)
    requires |a| == |b|
    ensures RowDot(a, b) == RowDot(b, a)
    decreases |a|
  {
    if |a| > 0 {
      RowDotSymmetric(a[1..], b[1..]);
    }
  }

  lemma {:induction false} DotSymmetric(a: seq<seq<int>>, b: seq<seq<int>>)
    requires Congruent(a, b)
    ensures Dot(a, b) == Dot(b, a)
    decreases |a|
  {
    if |a| > 0 {
      RowDotSymmetric(a[0], b[0]);
      DotSymmetric(a[1..], b[1..]);
    }
  }

  /** Saa - 2 Sab + Sbb is a sum of squares (a_k - b_k)^2: never negative,
      and zero exactly when the rows are equal. */
  lemma {:induction false} RowGap(a: seq<int>, b: seq<int>)
    requires |a| == |b|
    ensures RowDot(a, a) - 2 * RowDot(a, b) + RowDot(b, b) >= 0
    ensures RowDot(a, a) - 2 * RowDot(a, b) + RowDot(b, b) == 0 <==> a == b
    decreases |a|
  {
    if |a| > 0 {
      RowGap(a[1..], b[1..]);
      var x, y := a[0], b[0];
      SquareGap(x, y);
      assert a == [x] + a[1..] && b == [y] + b[1..];
    }
  }

  lemma SquareGap(x: int, y: int)
    ensures x * x - 2 * (x * y) + y * y >= 0
    ensures x * x - 2 * (x * y) + y * y == 0 <==> x == y
  {
    assert x * x - 2 * (x * y) + y * y == (x - y) * (x - y);
    if x != y {
      assert (x - y) * (x - y) > 0;
    }
  }

  lemma {:induction false} Gap(a: seq<seq<int>>, b: seq<seq<int>>)
    requires Congruent(a, b)
    ensures Dot(a, a) - 2 * Dot(a, b) + Dot(b, b) >= 0
    ensures Dot(a, a) - 2 * Dot(a, b) + Dot(b, b) == 0 <==> a == b
    decreases |a|
  {
    if |a| > 0 {
      RowGap(a[0], b[0]);
      Gap(a[1..], b[1..]);
      if a == b {
        assert a[1..] == b[1..];
      }
      if Dot(a, a) - 2 * Dot(a, b) + Dot(b, b) == 0 {
        assert a[0] == b[0] && a[1..] == b[1..];
        assert a == [a[0]] + a[1..] && b == [b[0]] + b[1..];
      }
    }
  }

  lemma {:induction false} RowDotNonNeg(a: seq<int>, b: seq<int>)
    requires |a| == |b|
    requires forall k :: 0 <= k < |a| ==> a[k] >= 0 && b[k] >= 0
    ensures RowDot(a, b) >= 0
    decreases |a|
  {
    if |a| > 0 {
      RowDotNonNeg(a[1..], b[1..]);
    }
  }

  lemma {:induction false} DotNonNeg(a: seq<seq<int>>, b: seq<seq<int>>)
    requires Congruent(a, b) && NonNegative(a) && NonNegative(b)
    ensures Dot(a, b) >= 0
    decreases |a|
  {
    if |a| > 0 {
      RowDotNonNeg(a[0], b[0]);
      DotNonNeg(a[1..], b[1..]);
    }
  }

  /** A row's sum of squares is zero exactly when the row is all zero. */
  lemma {:induction false} RowSelfZero(a: seq<int>)
    ensures RowDot(a, a) >= 0
    ensures RowDot(a, a) == 0 <==> forall k :: 0 <= k < |a| ==> a[k] == 0
    decreases |a|
  {
    if |a| > 0 {
      RowSelfZero(a[1..]);
      if forall k :: 0 <= k < |a| ==> a[k] == 0 {
        assert forall k :: 0 <= k < |a[1..]| ==> a[1..][k] == 0 by {
          forall k | 0 <= k < |a[1..]|
            ensures a[1..][k] == 0
          {
            assert a[1..][k] == a[k + 1];
          }
        }
      }
      if RowDot(a, a) == 0 {
        forall k | 0 <= k < |a|
          ensures a[k] == 0
        {
          if k > 0 {
            assert a[k] == a[1..][k - 1];
          }
        }
      }
    }
  }

  lemma {:induction false} SelfZero(a: seq<seq<int>>)
    ensures Congruent(a, a)
    ensures Dot(a, a) >= 0
    ensures Dot(a, a) == 0 <==> AllZero(a)
    decreases |a|
  {
    if |a| > 0 {
      RowSelfZero(a[0]);
      SelfZero(a[1..]);
      if AllZero(a) {
        assert AllZero(a[1..]) by {
          forall i, j | 0 <= i < |a[1..]| && 0 <= j < |a[1..][i]|
            ensures a[1..][i][j] == 0
          {
            assert a[1..][i] == a[i + 1];
          }
        }
      }
      if Dot(a, a) == 0 {
        forall i, j | 0 <= i < |a| && 0 <= j < |a[i]|
          ensures a[i][j] == 0
        {
          if i > 0 {
            assert a[i] == a[1..][i - 1];
          }
        }
      }
    }
  }

  // ---------------------------------------------------------------------
  // Lemmas: the moving average
  // ---------------------------------------------------------------------

  lemma {:induction false} RowRunBounds(a: seq<seq<int>>, i: int, j: int, w: nat)
    requires Binary(a)
    ensures 0 <= RowRun(a, i, j, w) <= w
    decreases w
  {
    if w > 0 {
      RowRunBounds(a, i, j, w - 1);
    }
  }

  lemma {:induction false} BoxBounds(a: seq<seq<int>>, i: int, j: int, h: nat, w: nat)
    requires Binary(a)
    ensures 0 <= Box(a, i, j, h, w) <= h * w
    decreases h
  {
    if h > 0 {
      BoxBounds(a, i, j, h - 1, w);
      RowRunBounds(a, i + h - 1, j, w);
      assert (h - 1) * w + w == h * w;
    }
  }

  /** A run includes each entry it covers, so on a binary field it is at
      least that entry. */
  lemma {:induction false} RowRunCovers(a: seq<seq<int>>, i: int, j: int, w: nat, k: int)
    requires Binary(a)
    requires j <= k < j + w
    ensures RowRun(a, i, j, w) >= At(a, i, k)
    decreases w
  {
    if k < j + w - 1 {
      RowRunCovers(a, i, j, w - 1, k);
    } else {
      RowRunBounds(a, i, j, w - 1);
    }
  }

  lemma {:induction false} BoxCovers(a: seq<seq<int>>, i: int, j: int, h: nat, w: nat, p: int, q: int)
    requires Binary(a)
    requires i <= p < i + h && j <= q < j + w
    ensures Box(a, i, j, h, w) >= At(a, p, q)
    decreases h
  {
    RowRunBounds(a, i + h - 1, j, w);
    if p < i + h - 1 {
      BoxCovers(a, i, j, h - 1, w, p, q);
    } else {
      BoxBounds(a, i, j, h - 1, w);
      RowRunCovers(a, i + h - 1, j, w, q);
    }
  }

  lemma {:induction false} RowRunZero(a: seq<seq<int>>, i: int, j: int, w: nat)
    requires AllZero(a)
    ensures RowRun(a, i, j, w) == 0
    decreases w
  {
    if w > 0 {
      RowRunZero(a, i, j, w - 1);
    }
  }

  lemma {:induction false} BoxZero(a: seq<seq<int>>, i: int, j: int, h: nat, w: nat)
    requires AllZero(a)
    ensures Box(a, i, j, h, w) == 0
    decreases h
  {
    if h > 0 {
      BoxZero(a, i, j, h - 1, w);
      RowRunZero(a, i + h - 1, j, w);
    }
  }

  lemma CountAt(a: seq<seq<int>>, scale: int, i: int, j: int)
    requires scale > 1 && 0 <= i < |a| && 0 <= j < |a[i]|
    ensures Counts(a, scale)[i][j] == WindowCount(a, scale, i, j)
  {
  }

  /** On a binary field every count lies between 0 and the window area. */
  lemma CountsBounded(a: seq<seq<int>>, scale: int)
    requires Binary(a)
    ensures NonNegative(Counts(a, scale))
    ensures forall i, j :: 0 <= i < |a| && 0 <= j < |a[i]| ==> Counts(a, scale)[i][j] <= Area(scale)
  {
    if scale > 1 {
      var r := Counts(a, scale);
      forall i, j | 0 <= i < |a| && 0 <= j < |a[i]|
        ensures 0 <= r[i][j] <= Area(scale)
      {
        CountAt(a, scale, i, j);
        BoxBounds(a, i - scale / 2, j - scale / 2, scale, scale);
      }
    }
  }

  /** On a binary field every fraction lies in [0, 1]. */
  lemma FractionsInUnit(a: seq<seq<int>>, scale: int)
    requires Binary(a)
    ensures var s := Fractions(a, scale);
            forall i, j :: 0 <= i < |s| && 0 <= j < |s[i]| ==> 0.0 <= s[i][j] <= 1.0
  {
    CountsBounded(a, scale);
    var c, n := Counts(a, scale), Area(scale);
    forall i, j | 0 <= i < |c| && 0 <= j < |c[i]|
      ensures 0.0 <= Scaled(c, n)[i][j] <= 1.0
    {
      UnitQuotient(c[i][j], n);
    }
  }

  lemma UnitQuotient(c: int, n: nat)
    requires 0 <= c <= n && n >= 1
    ensures 0.0 <= (c as real) / (n as real) <= 1.0
  {
  }

  /** With scale 1 or less the fractions are the binary field itself. */
  lemma FractionsSmallScale(a: seq<seq<int>>, scale: int)
    requires scale <= 1
    ensures var s := Fractions(a, scale);
            forall i, j :: 0 <= i < |a| && 0 <= j < |a[i]| ==> s[i][j] == a[i][j] as real
  {
  }

  /** Equal fractions fields have equal counts, and conversely. */
  lemma FractionsEqual(a: seq<seq<int>>, b: seq<seq<int>>, scale: int)
    requires Congruent(a, b)
    ensures Fractions(a, scale) == Fractions(b, scale) <==> Counts(a, scale) == Counts(b, scale)
  {
    var ca, cb := Counts(a, scale), Counts(b, scale);
    var n := Area(scale);
    if Fractions(a, scale) == Fractions(b, scale) {
      forall i | 0 <= i < |ca|
        ensures ca[i] == cb[i]
      {
        forall j | 0 <= j < |ca[i]|
          ensures ca[i][j] == cb[i][j]
        {
          assert Scaled(ca, n)[i][j] == Scaled(cb, n)[i][j];
        }
      }
    }
  }

  /** The counts vanish everywhere exactly when the field does: each
      window of size s around (i, j) contains (i, j) itself. */
  lemma CountsZero(a: seq<seq<int>>, scale: int)
    requires Binary(a)
    ensures AllZero(Counts(a, scale)) <==> AllZero(a)
  {
    if scale > 1 {
      if AllZero(a) {
        ZeroCounts(a, scale);
      } else {
        var i, j :| 0 <= i < |a| && 0 <= j < |a[i]| && a[i][j] != 0;
        EventCounts(a, scale, i, j);
      }
    }
  }

  /** A field without events has no events in any window. */
  lemma ZeroCounts(a: seq<seq<int>>, scale: int)
    requires scale > 1 && AllZero(a)
    ensures AllZero(Counts(a, scale))
  {
    var r := Counts(a, scale);
    forall i, j | 0 <= i < |r| && 0 <= j < |r[i]|
      ensures r[i][j] == 0
    {
      CountAt(a, scale, i, j);
      BoxZero(a, i - scale / 2, j - scale / 2, scale, scale);
    }
  }

  /** The window around an event counts it. */
  lemma EventCounts(a: seq<seq<int>>, scale: int, i: int, j: int)
    requires scale > 1 && Binary(a)
    requires 0 <= i < |a| && 0 <= j < |a[i]| && a[i][j] != 0
    ensures Counts(a, scale)[i][j] != 0
  {
    CountAt(a, scale, i, j);
    BoxCovers(a, i - scale / 2, j - scale / 2, scale, scale, i, j);
  }

  lemma BinarizeFacts(f: Field, thr: real)
    requires f.Matrix? && f.Valid()
    ensures Binary(Binarize(f, thr))
    ensures AllZero(Binarize(f, thr)) <==> NoEvent(f, thr)
  {
    var b := Binarize(f, thr);
    if !NoEvent(f, thr) {
      var i, j :| 0 <= i < f.rows && 0 <= j < f.cols && IsEvent(f.cells[i][j], thr);
      assert b[i][j] == 1;
    }
  }

  /** One accumulation adds consistent sums. */
  lemma ContributionConsistent(thr: real, scale: int, xf: Field, xo: Field)
    requires xf.Valid() && xo.Valid() && SameShape2D(xf, xo)
    ensures var c := Contribution(thr, scale, xf, xo);
            c.ff >= 0 && c.fo >= 0 && c.oo >= 0 && 2 * c.fo <= c.ff + c.oo
  {
    var bf, bo := Binarize(xf, thr), Binarize(xo, thr);
    var cf, co := Counts(bf, scale), Counts(bo, scale);
    BinarizeFacts(xf, thr);
    BinarizeFacts(xo, thr);
    CountsBounded(bf, scale);
    CountsBounded(bo, scale);
    DotNonNeg(cf, co);
    SelfZero(cf);
    SelfZero(co);
    Gap(cf, co);
  }

  // ---------------------------------------------------------------------
  // Lemmas: properties of the score
  // ---------------------------------------------------------------------

  /** Computing straight after init divides the Python float 0.0 by 0.0. */
  lemma ComputeAfterInit(thr: real, scale: int)
    ensures Compute(Init(thr, scale)) == Raise(ZeroDivisionError)
  {
  }

  /** Swapping forecast and observation leaves the score unchanged. */
  lemma ScoreSymmetric(xf: Field, xo: Field, thr: real, scale: int)
    requires xf.Valid() && xo.Valid()
    ensures Score(xf, xo, thr, scale) == Score(xo, xf, thr, scale)
  {
    if SameShape2D(xf, xo) {
      var cf := Counts(Binarize(xf, thr), scale);
      var co := Counts(Binarize(xo, thr), scale);
      DotSymmetric(cf, co);
      var c1, c2 := Contribution(thr, scale, xf, xo), Contribution(thr, scale, xo, xf);
      assert c2 == Sums(c1.oo, c1.fo, c1.ff);
      assert Accumulate(Init(thr, scale), xf, xo) == Ok(FssState(thr, scale, c1, true));
      assert Accumulate(Init(thr, scale), xo, xf) == Ok(FssState(thr, scale, c2, true));
      ComputeSwap(thr, scale, c1);
    }
  }

  /** The score reads the two self-sums only through their total. */
  lemma ComputeSwap(thr: real, scale: int, c: Sums)
    ensures Compute(FssState(thr, scale, c, true)) == Compute(FssState(thr, scale, Sums(c.oo, c.fo, c.ff), true))
  {
    assert c.ff + c.oo == c.oo + c.ff;
  }

  /** The score is NaN exactly when neither field has an event. */
  lemma ScoreNaNIff(xf: Field, xo: Field, thr: real, scale: int)
    requires xf.Valid() && xo.Valid() && SameShape2D(xf, xo)
    ensures Score(xf, xo, thr, scale).Ok?
    ensures Score(xf, xo, thr, scale).value.NaN? <==> NoEvent(xf, thr) && NoEvent(xo, thr)
  {
    var bf, bo := Binarize(xf, thr), Binarize(xo, thr);
    var cf, co := Counts(bf, scale), Counts(bo, scale);
    BinarizeFacts(xf, thr);
    BinarizeFacts(xo, thr);
    CountsZero(bf, scale);
    CountsZero(bo, scale);
    SelfZero(cf);
    SelfZero(co);
  }

  /** A defined score is 1 exactly when the two fractions fields coincide. */
  lemma ScorePerfectIff(xf: Field, xo: Field, thr: real, scale: int)
    requires xf.Valid() && xo.Valid() && SameShape2D(xf, xo)
    requires Score(xf, xo, thr, scale).value.Num?
    ensures Score(xf, xo, thr, scale).value.v == 1.0 <==>
            Fractions(Binarize(xf, thr), scale) == Fractions(Binarize(xo, thr), scale)
  {
    var bf, bo := Binarize(xf, thr), Binarize(xo, thr);
    var cf, co := Counts(bf, scale), Counts(bo, scale);
    var c := Contribution(thr, scale, xf, xo);
    ContributionConsistent(thr, scale, xf, xo);
    var st := Accumulate(Init(thr, scale), xf, xo).value;
    assert st.sums == c;
    var d := (c.ff + c.oo) as real;
    var numer := (c.ff - 2 * c.fo + c.oo) as real;
    assert Score(xf, xo, thr, scale).value.v == 1.0 - numer / d;
    ZeroQuotient(numer, d);
    FractionsEqual(bf, bo, scale);
    Gap(cf, co);
  }

  lemma ZeroQuotient(n: real, d: real)
    requires d > 0.0
    ensures n / d == 0.0 <==> n == 0.0
  {
    if n / d == 0.0 {
      assert n == (n / d) * d;
    }
  }

  /** Identical inputs score 1, or NaN when they hold no event. */
  lemma ScoreIdentical(x: Field, thr: real, scale: int)
    requires x.Matrix? && x.Valid()
    ensures Score(x, x, thr, scale) == if NoEvent(x, thr) then Ok(NaN) else Ok(Num(1.0))
  {
    ScoreNaNIff(x, x, thr, scale);
    if !NoEvent(x, thr) {
      ScorePerfectIff(x, x, thr, scale);
    }
  }

  /** A defined score is 0 exactly when the fractions fields do not overlap. */
  lemma ScoreZeroIff(xf: Field, xo: Field, thr: real, scale: int)
    requires xf.Valid() && xo.Valid() && SameShape2D(xf, xo)
    requires Score(xf, xo, thr, scale).value.Num?
    ensures Score(xf, xo, thr, scale).value.v == 0.0 <==> Contribution(thr, scale, xf, xo).fo == 0
  {
    var c := Contribution(thr, scale, xf, xo);
    ContributionConsistent(thr, scale, xf, xo);
    var d := (c.ff + c.oo) as real;
    var e := (2 * c.fo) as real;
    assert Score(xf, xo, thr, scale).value.v == e / d;
    if e / d == 0.0 {
      assert e == (e / d) * d;
    }
  }

  /** Accumulating two pairs in either order gives the same object, whose
      sums are those of the two pairs added to the starting sums. */
  lemma AccumulateTwice(st: FssState, a: Field, b: Field, c: Field, d: Field)
    requires a.Valid() && b.Valid() && c.Valid() && d.Valid()
    requires SameShape2D(a, b) && SameShape2D(c, d)
    ensures Accumulate(st, a, b).Ok? && Accumulate(st, c, d).Ok?
    ensures Accumulate(Accumulate(st, a, b).value, c, d) == Accumulate(Accumulate(st, c, d).value, a, b)
    ensures Accumulate(Accumulate(st, a, b).value, c, d).value.sums
            == AddSums(st.sums, AddSums(Contribution(st.thr, st.scale, a, b), Contribution(st.thr, st.scale, c, d)))
  {
    var ab, cd := Contribution(st.thr, st.scale, a, b), Contribution(st.thr, st.scale, c, d);
    AccumulateValue(st, a, b);
    AccumulateValue(st, c, d);
    var s1, s2 := Accumulate(st, a, b).value, Accumulate(st, c, d).value;
    AccumulateValue(s1, c, d);
    AccumulateValue(s2, a, b);
    AddSumsSwap(st.sums, ab, cd);
  }

  /** One successful accumulation adds the pair's contribution. */
  lemma AccumulateValue(st: FssState, a: Field, b: Field)
    requires a.Valid() && b.Valid() && SameShape2D(a, b)
    ensures Accumulate(st, a, b) == Ok(FssState(st.thr, st.scale, AddSums(st.sums, Contribution(st.thr, st.scale, a, b)), true))
  {
  }

  lemma AddSumsSwap(s: Sums, x: Sums, y: Sums)
    ensures AddSums(AddSums(s, x), y) == AddSums(AddSums(s, y), x) == AddSums(s, AddSums(x, y))
  {
  }
}
