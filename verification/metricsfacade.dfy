/** The contingency scores and the service layer in front of the metrics
    implementation. Every service method wraps one implementation method in
    `try: ... except Exception: print(...); return None`, which the model
    writes as `Swallow` of the implementation's Result; the print is output
    and is left out. */
module MetricsFacade {
  import opened Base
  import opened Dates
  import opened Parcels
  import opened SingleFss
  import opened MultiFss

  // ---------------------------------------------------------------------
  // Contingency scores (a hits, b misses, c false alarms, d correct
  // rejections); Python's `/` raises ZeroDivisionError on a zero divisor
  // ---------------------------------------------------------------------

  function Quotient(n: real, d: real): (r: Result<real>)
    ensures r.Raise? <==> d == 0.0
    ensures r.Raise? ==> r.exc == ZeroDivisionError
    ensures r.Ok? ==> r.value * d == n
  {
    if d == 0.0 then Raise(ZeroDivisionError) else Ok(n / d)
  }

  /** `erre_sbl_2021`: (a + b) / (a + b + c + d). */
  function Erre(a: real, b: real, c: real, d: real): Result<real> {
    Quotient(a + b, a + b + c + d)
  }

  /** `esse_sbl_2021`: (a + c) / (a + b + c + d). */
  function Esse(a: real, b: real, c: real, d: real): Result<real> {
    Quotient(a + c, a + b + c + d)
  }

  /** `fbias_sbl_2021`: (a + b) / (a + c). */
  function Fbias(a: real, b: real, c: real, d: real): Result<real> {
    Quotient(a + b, a + c)
  }

  /** With non-negative counts and at least one event, erre and esse are
      fractions of the total: both lie in [0, 1]. */
  lemma ScoresAreFractions(a: real, b: real, c: real, d: real)
    requires a >= 0.0 && b >= 0.0 && c >= 0.0 && d >= 0.0 && a + b + c + d > 0.0
    ensures Erre(a, b, c, d).Ok? && 0.0 <= Erre(a, b, c, d).value <= 1.0
    ensures Esse(a, b, c, d).Ok? && 0.0 <= Esse(a, b, c, d).value <= 1.0
  {
    Fraction(a + b, a + b + c + d);
    Fraction(a + c, a + b + c + d);
  }

  lemma Fraction(n: real, t: real)
    requires 0.0 <= n <= t && t > 0.0
    ensures 0.0 <= n / t <= 1.0
  {
  }

  /** The frequency bias is the ratio of the two fractions: erre over esse
      whenever all three are defined. */
  lemma FbiasIsRatio(a: real, b: real, c: real, d: real)
    requires a + b + c + d != 0.0 && a + c != 0.0
    ensures Erre(a, b, c, d).Ok? && Esse(a, b, c, d).Ok? && Fbias(a, b, c, d).Ok?
    ensures Esse(a, b, c, d).value != 0.0
    ensures Fbias(a, b, c, d).value == Erre(a, b, c, d).value / Esse(a, b, c, d).value
  {
    RatioOfFractions(a + b, a + c, a + b + c + d);
  }

  lemma RatioOfFractions(p: real, q: real, t: real)
    requires t != 0.0 && q != 0.0
    ensures q / t != 0.0
    ensures (p / t) / (q / t) == p / q
  {
  }

  /** erre and esse agree exactly when misses and false alarms are equal. */
  lemma ErreIsEsseIff(a: real, b: real, c: real, d: real)
    requires a + b + c + d != 0.0
    ensures Erre(a, b, c, d) == Esse(a, b, c, d) <==> b == c
  {
    SameQuotient(a + b, a + c, a + b + c + d);
  }

  lemma SameQuotient(p: real, q: real, t: real)
    requires t != 0.0
    ensures p / t == q / t <==> p == q
  {
    if p / t == q / t {
      assert p == (p / t) * t;
      assert q == (q / t) * t;
    }
  }

  // ---------------------------------------------------------------------
  // The score services
  // ---------------------------------------------------------------------

  /** `erre_sbl_2021_service` AS WRITTEN: it calls the esse implementation. */
  function ErreServiceAsWritten(a: real, b: real, c: real, d: real): (r: Option<real>)
    ensures r.Some? <==> a + b + c + d != 0.0
    ensures r.Some? ==> r.value * (a + b + c + d) == a + c
  {
    Swallow(Esse(a, b, c, d))
  }

  /** `erre_sbl_2021_service` routed to the erre formula, as its name says. */
  function ErreService(a: real, b: real, c: real, d: real): (r: Option<real>)
    ensures r.Some? <==> a + b + c + d != 0.0
    ensures r.Some? ==> r.value * (a + b + c + d) == a + b
  {
    Swallow(Erre(a, b, c, d))
  }

  /** The wrapper as written returns esse, so it differs from erre exactly
      when misses and false alarms differ; one miss and nothing else gives
      0 where erre is 1. */
  lemma ErreServiceReturnsEsse(a: real, b: real, c: real, d: real)
    requires a + b + c + d != 0.0
    ensures ErreServiceAsWritten(a, b, c, d) == Swallow(Esse(a, b, c, d))
    ensures ErreServiceAsWritten(a, b, c, d) == ErreService(a, b, c, d) <==> b == c
  {
    ErreIsEsseIff(a, b, c, d);
  }

  /** The concrete disagreement: a = 0, b = 1, c = 0, d = 0. */
  lemma ErreServiceOneMiss()
    ensures ErreServiceAsWritten(0.0, 1.0, 0.0, 0.0) == Some(0.0)
    ensures ErreService(0.0, 1.0, 0.0, 0.0) == Some(1.0)
  {
  }

  /** `fbias_sbl_2021_service`: the bias, or None when a + c is zero. */
  function FbiasService(a: real, b: real, c: real, d: real): (r: Option<real>)
    ensures r.Some? <==> a + c != 0.0
    ensures r.Some? ==> r.value * (a + c) == a + b
  {
    Swallow(Fbias(a, b, c, d))
  }

  // ---------------------------------------------------------------------
  // Volume conversion
  // ---------------------------------------------------------------------

  /** `barrelToTonnes(density)` on a Python float: 1 / (Rbm3 * density / 1000),
      ZeroDivisionError for a zero density. */
  function BarrelToTonnes(density: real): (r: Result<real>)
    ensures r.Raise? <==> density == 0.0
  {
    Quotient(1.0, Rbm3 * (density / 1000.0))
  }

  /** Dividing a volume by the factor is the conversion the surface
      parcels use: the tonnes figure times the factor is the barrels again. */
  lemma TonnesUndoesFactor(barrels: real, density: real)
    requires density != 0.0
    ensures BarrelToTonnes(density).Ok?
    ensures Tonnes(barrels, density) * BarrelToTonnes(density).value == barrels
  {
    var q := Rbm3 * (density / 1000.0);
    assert q != 0.0;
    Reciprocal(barrels, q);
  }

  lemma Reciprocal(x: real, q: real)
    requires q != 0.0
    ensures x * q * (1.0 / q) == x
  {
    assert q * (1.0 / q) == 1.0;
    assert x * q * (1.0 / q) == x * (q * (1.0 / q));
  }

  // ---------------------------------------------------------------------
  // Wrappers that turn exceptions into None
  // ---------------------------------------------------------------------

  /** `find_nearest_service`: the first nearest index, None on an empty timeline. */
  function NearestService(a: seq<real>, v: real): (r: Option<nat>)
    ensures r.None? <==> |a| == 0
    ensures r.Some? ==> r.value < |a| && forall j :: 0 <= j < |a| ==> Dist(a[r.value], v) <= Dist(a[j], v)
  {
    Swallow(Nearest(a, v))
  }

  /** `get_sim_date_service` and `get_slick_date_service`. */
  function SimDateService(yy: string, mm: string, dd: string, hh: string): (r: Option<real>)
    ensures r.Some? <==> SimDate(yy, mm, dd, hh).Ok?
  {
    Swallow(SimDate(yy, mm, dd, hh))
  }

  function SlickDateService(id: string): (r: Option<real>)
    ensures r.Some? <==> SlickDate(id).Ok?
  {
    Swallow(SlickDate(id))
  }

  /** A slick identifier with a valid date is always read by the service;
      the wrapper adds no failure of its own. */
  lemma SlickDateServiceReads(id: string, y: int, m: int, d: int, h: int)
    requires ReadsAs(id, y, m, d, h) && Calendar.ValidDate(y, m, d)
    ensures SlickDateService(id) == Some(Instant(Calendar.Ordinal(y, m, d).value, h as real))
  {
    SlickDateOfFields(id, y, m, d, h);
  }

  /** What `compute_sin_fss_service` leaves behind and what it returns: the
      implementation writes its table but returns nothing, so the service
      returns None whether or not the comparison succeeded. The comparison
      is the service's as written. */
  datatype SinFssEffect = SinFssEffect(written: Option<Outcome>, returned: Option<Outcome>)

  function SinFssService(sim: SimSetup, obs: Observation, snapshot: nat -> seq<Particle>, density: real)
    : (r: SinFssEffect)
    ensures r.returned == None
    ensures r.written.Some? <==> ServiceFssAsWritten(sim, obs, snapshot, density).Ok?
    ensures r.written.Some? ==> r.written.value == ServiceFssAsWritten(sim, obs, snapshot, density).value
  {
    SinFssEffect(Swallow(ServiceFssAsWritten(sim, obs, snapshot, density)), None)
  }

  /** `compute_multi_fss_service`: the maximum of the selector as written,
      or None when it raised. */
  function MultiFssService(sim: SimSetup, listing: nat -> seq<string>, observe: string -> Observation,
                           snapshot: nat -> seq<Particle>, density: real): (r: Option<Num>)
    ensures r.None? <==> SelectAsWritten(sim, listing, observe, snapshot, density).Raise?
    ensures r.Some? ==> r.value == SelectAsWritten(sim, listing, observe, snapshot, density).value
  {
    Swallow(SelectAsWritten(sim, listing, observe, snapshot, density))
  }

  /** When the listed days hold no candidate folder and the run length and
      start parse, the service answers NaN (not None). */
  lemma MultiFssServiceNoCandidates(sim: SimSetup, listing: nat -> seq<string>, observe: string -> Observation,
                                    snapshot: nat -> seq<Particle>, density: real)
    requires DayCountAsWritten(sim.simLength).Ok?
    requires |Candidates(listing, DayCountAsWritten(sim.simLength).value)| == 0
    requires SimDate(sim.year, sim.month, sim.day, sim.hour).Ok?
    ensures MultiFssService(sim, listing, observe, snapshot, density) == Some(NaN)
  {
  }
}
