/** The multi-observation selector (`compute_multi_fss`): list the observed
    slicks of the run's first days, keep those observed before the end of
    the run, score the run against each of them on the service's grid, and
    report the best finest-scale score. */
module MultiFss {
  import opened Base
  import opened Text
  import opened Dates
  import opened Parcels
  import opened SingleFss

  // ---------------------------------------------------------------------
  // How many days of observations are listed
  // ---------------------------------------------------------------------

  /** The text with every '0' removed. */
  function DropZeros(s: string): (r: string)
    ensures NoChar(r, '0') && |r| <= |s|
    ensures NoChar(s, '0') ==> r == s
  {
    if |s| == 0 then ""
    else (if s[0] == '0' then "" else [s[0]]) + DropZeros(s[1..])
  }

  /** Python's `int(n / 12)`: float division, then truncation toward zero. */
  function TwelfthsTruncated(n: int): (r: int)
    ensures n >= 0 ==> r * 12 <= n < (r + 1) * 12
    ensures n < 0 ==> r == -((-n) / 12)
  {
    if n >= 0 then n / 12 else -((-n) / 12)
  }

  /** The number of days listed AS WRITTEN: every '0' is dropped from the
      run length (in hours) before it is read, then divided by 12. */
  function DayCountAsWritten(simLength: string): Result<int> {
    var n :- ParseInt(DropZeros(simLength));
    Ok(TwelfthsTruncated(n))
  }

  /** The number of days listed with the run length read as it is. */
  function DayCount(simLength: string): Result<int> {
    var n :- ParseInt(simLength);
    Ok(TwelfthsTruncated(n))
  }

  /** A run length written in decimal gives a twelfth of its hours. */
  lemma DayCountOfLength(hours: nat)
    ensures DayCount(NatToString(hours)) == Ok(hours / 12)
  {
    ParseNatToString(hours);
  }

  /** As written, a run length without a '0' digit is read correctly. */
  lemma DayCountAsWrittenWithoutZeros(simLength: string)
    requires NoChar(simLength, '0')
    ensures DayCountAsWritten(simLength) == DayCount(simLength)
  {
  }

  /** A leading '0' does not change what `int()` reads from a digit run. */
  lemma ParseLeadingZero(s: string)
    requires |s| > 0 && AllDigits(s)
    ensures ParseInt("0" + s) == ParseInt(s)
  {
    LeadingZeroValue(s);
    ParseDigitRun(s);
    ParseDigitRun("0" + s);
  }

  lemma ParseDecimal(n: nat, s: string)
    requires NatToString(n) == s
    ensures ParseInt(s) == Ok(n) && |s| > 0 && AllDigits(s)
  {
    ParseNatToString(n);
  }

  /** `int()` reads a run length with one leading zero. */
  lemma ParsePaddedLength(n: nat, s: string)
    requires NatToString(n) == s
    ensures ParseInt("0" + s) == Ok(n)
  {
    ParseDecimal(n, s);
    ParseLeadingZero(s);
  }

  /** As written, a 120-hour run given as "0120" (the four columns of the
      configuration) lists observations of one day instead of ten. */
  lemma DayCountDropsZeros()
    ensures DayCountAsWritten("0120") == Ok(1) && DayCount("0120") == Ok(10)
  {
    assert DropZeros("0120") == "12" by {
      assert "0120"[1..] == "120" && "120"[1..] == "20" && "20"[1..] == "0" && "0"[1..] == "";
    }
    AsWrittenReads("0120", "12", 12);
    assert NatToString(120) == "120" by {
      assert NatToString(12) == "12";
    }
    CorrectedReads("0120", "120", 120);
  }

  /** As written, every run length written as one leading '0', a digit
      d from 1 to 9 and k zeros (d * 10^k hours) is read as d hours, so
      no day is listed however long the run. */
  lemma DayCountDropsAllDays(d: char, k: nat)
    requires '1' <= d <= '9'
    ensures DayCountAsWritten("0" + [d] + Repeat('0', k)) == Ok(0)
    ensures DayCount("0" + [d] + Repeat('0', k)) == Ok(DigitValue(d) * Pow10(k) / 12)
  {
    AsWrittenKeepsDigit(d, k);
    ReadsDigitTimesPower(d, k);
  }

  lemma AsWrittenKeepsDigit(d: char, k: nat)
    requires '1' <= d <= '9'
    ensures DayCountAsWritten("0" + [d] + Repeat('0', k)) == Ok(0)
  {
    var s := "0" + [d] + Repeat('0', k);
    KeptDigit(d, k);
    DigitText(d);
    AsWrittenReads(s, [d], DigitValue(d));
    assert TwelfthsTruncated(DigitValue(d)) == 0;
  }

  lemma KeptDigit(d: char, k: nat)
    requires d != '0'
    ensures DropZeros("0" + [d] + Repeat('0', k)) == [d]
  {
    DropZerosConcat("0" + [d], Repeat('0', k));
    DropZerosOfZeros(k);
    assert DropZeros("0" + [d]) == [d] by {
      assert ("0" + [d])[1..] == [d] && [d][1..] == "";
    }
  }

  lemma DigitText(d: char)
    requires IsDigit(d)
    ensures NatToString(DigitValue(d)) == [d]
  {
  }

  lemma ReadsDigitTimesPower(d: char, k: nat)
    requires '1' <= d <= '9'
    ensures DayCount("0" + [d] + Repeat('0', k)) == Ok(DigitValue(d) * Pow10(k) / 12)
  {
    var s := "0" + [d] + Repeat('0', k);
    assert DigitsValue([d]) == DigitValue(d) by {
      assert [d][..0] == "";
    }
    LeadingZeroValue([d]);
    ZerosValue(k);
    DigitsValueConcat("0" + [d], Repeat('0', k));
    ParseDigitRun(s);
    assert ParseInt(s) == Ok(DigitValue(d) * Pow10(k));
  }

  lemma {:induction false} DropZerosConcat(a: string, b: string)
    ensures DropZeros(a + b) == DropZeros(a) + DropZeros(b)
    decreases |a|
  {
    if |a| > 0 {
      var head := if a[0] == '0' then "" else [a[0]];
      assert (a + b)[0] == a[0] && (a + b)[1..] == a[1..] + b;
      assert DropZeros(a + b) == head + DropZeros(a[1..] + b);
      DropZerosConcat(a[1..], b);
      assert DropZeros(a) == head + DropZeros(a[1..]);
    } else {
      assert a + b == b;
    }
  }

  lemma {:induction false} DropZerosOfZeros(k: nat)
    ensures DropZeros(Repeat('0', k)) == ""
  {
    if k > 0 {
      assert Repeat('0', k)[1..] == Repeat('0', k - 1);
      DropZerosOfZeros(k - 1);
    }
  }

  lemma {:induction false} ZerosValue(k: nat)
    ensures AllDigits(Repeat('0', k)) && DigitsValue(Repeat('0', k)) == 0
  {
    if k > 0 {
      ZerosValue(k - 1);
      assert Repeat('0', k) == "0" + Repeat('0', k - 1);
      LeadingZeroValue(Repeat('0', k - 1));
    } else {
      assert DigitsValue("") == 0;
    }
  }

  lemma AsWrittenReads(s: string, kept: string, n: nat)
    requires DropZeros(s) == kept && NatToString(n) == kept
    ensures DayCountAsWritten(s) == Ok(TwelfthsTruncated(n))
  {
    ParseDecimal(n, kept);
  }

  lemma CorrectedReads(s: string, tail: string, n: nat)
    requires s == "0" + tail && NatToString(n) == tail
    ensures DayCount(s) == Ok(TwelfthsTruncated(n))
  {
    ParsePaddedLength(n, tail);
  }

  // ---------------------------------------------------------------------
  // Candidate slicks
  // ---------------------------------------------------------------------

  /** The listed slick folders of the first `days` days, day by day in
      listing order; `listing(d)` stands for the folders whose names start
      with the date d days after the run's start. No day for days <= 0. */
  function Candidates(listing: nat -> seq<string>, days: int): (r: seq<string>)
    decreases if days > 0 then days else 0
  {
    if days <= 0 then [] else Candidates(listing, days - 1) + listing(days - 1)
  }

  /** A folder is a candidate exactly when it is listed for one of the
      first `days` days. */
  lemma {:induction false} CandidatesListed(listing: nat -> seq<string>, days: int, x: string)
    ensures x in Candidates(listing, days) <==> exists d: nat :: d < days && x in listing(d)
    decreases if days > 0 then days else 0
  {
    if days > 0 {
      CandidatesListed(listing, days - 1, x);
      if x in listing(days - 1) {
        assert (days - 1) as nat < days;
      }
    }
  }

  // ---------------------------------------------------------------------
  // The scan over the candidates
  // ---------------------------------------------------------------------

  /** One scored detection: its directory name (`str(obs)`), the slick it
      compared against, and its finest-scale score. */
  datatype Detection = Detection(dir: string, slick: string, fss: Num)

  /** A slick observed before the run ends: its date (as `dateOf` reads
      it) is fewer than `hours / 24` days after the run's start. There is
      no lower bound. */
  predicate InHorizon(dateOf: string -> Result<real>, slick: string, simDate: real, hours: real) {
    dateOf(slick).Ok? && dateOf(slick).value - simDate < hours / 24.0
  }

  /** Reference definition: the candidates in the horizon, in order. */
  function Selected(dateOf: string -> Result<real>, cands: seq<string>, simDate: real, hours: real)
    : (r: seq<string>)
    ensures |r| <= |cands|
    ensures forall i :: 0 <= i < |r| ==> r[i] in cands && InHorizon(dateOf, r[i], simDate, hours)
  {
    if |cands| == 0 then []
    else (if InHorizon(dateOf, cands[0], simDate, hours) then [cands[0]] else [])
         + Selected(dateOf, cands[1..], simDate, hours)
  }

  /** The loop over the candidates: read each slick's date, compare it with
      the horizon (the run length in hours, read afresh each time, so a
      bad one fails only once there is a candidate), and score the ones
      inside in their own numbered directory. The first failure ends the
      scan. */
  function Scan(cands: seq<string>, dateOf: string -> Result<real>, simDate: real, hours: Result<real>,
                score: string -> Result<Num>, next: nat): (r: Result<seq<Detection>>)
    ensures r.Ok? ==> |r.value| <= |cands|
    ensures r.Ok? ==> forall i :: 0 <= i < |r.value| ==> r.value[i].dir == NatToString(next + i)
    decreases |cands|
  {
    if |cands| == 0 then Ok([])
    else
      var slick :- dateOf(cands[0]);
      var h :- hours;
      if slick - simDate < h / 24.0 then
        var f :- score(cands[0]);
        var rest :- Scan(cands[1..], dateOf, simDate, hours, score, next + 1);
        Ok([Detection(NatToString(next), cands[0], f)] + rest)
      else
        Scan(cands[1..], dateOf, simDate, hours, score, next)
  }

  function Slicks(ds: seq<Detection>): (r: seq<string>)
    ensures |r| == |ds| && forall i :: 0 <= i < |ds| ==> r[i] == ds[i].slick
  {
    seq(|ds|, i requires 0 <= i < |ds| => ds[i].slick)
  }

  function Scores(ds: seq<Detection>): (r: seq<Num>)
    ensures |r| == |ds| && forall i :: 0 <= i < |ds| ==> r[i] == ds[i].fss
  {
    seq(|ds|, i requires 0 <= i < |ds| => ds[i].fss)
  }

  /** A successful scan read every candidate's date, and the run length
      if there was a candidate. */
  lemma {:induction false} ScanReadsAll(cands: seq<string>, dateOf: string -> Result<real>, simDate: real,
                                        hours: Result<real>, score: string -> Result<Num>, next: nat)
    requires Scan(cands, dateOf, simDate, hours, score, next).Ok?
    ensures forall i :: 0 <= i < |cands| ==> dateOf(cands[i]).Ok?
    ensures |cands| > 0 ==> hours.Ok?
    decreases |cands|
  {
    if |cands| > 0 {
      var h := hours.value;
      var k := if dateOf(cands[0]).value - simDate < h / 24.0 then next + 1 else next;
      ScanReadsAll(cands[1..], dateOf, simDate, hours, score, k);
      assert forall i :: 1 <= i < |cands| ==> cands[i] == cands[1..][i - 1];
    }
  }

  /** A successful scan scores exactly the selected slicks, in order, each
      with its own score. */
  lemma {:induction false} ScanSelects(cands: seq<string>, dateOf: string -> Result<real>, simDate: real,
                                       hours: real, score: string -> Result<Num>, next: nat)
    requires Scan(cands, dateOf, simDate, Ok(hours), score, next).Ok?
    ensures var ds := Scan(cands, dateOf, simDate, Ok(hours), score, next).value;
            && Slicks(ds) == Selected(dateOf, cands, simDate, hours)
            && forall i :: 0 <= i < |ds| ==> score(ds[i].slick) == Ok(ds[i].fss)
    decreases |cands|
  {
    if |cands| > 0 {
      var inside := InHorizon(dateOf, cands[0], simDate, hours);
      ScanSelects(cands[1..], dateOf, simDate, hours, score, if inside then next + 1 else next);
      var ds := Scan(cands, dateOf, simDate, Ok(hours), score, next).value;
      var rest := Scan(cands[1..], dateOf, simDate, Ok(hours), score, if inside then next + 1 else next).value;
      if inside {
        assert ds == [Detection(NatToString(next), cands[0], score(cands[0]).value)] + rest;
        assert Slicks(ds) == [cands[0]] + Slicks(rest);
      } else {
        assert ds == rest;
      }
    }
  }

  /** Conversely, the scan succeeds when every candidate's date reads, the
      run length reads, and every selected slick scores. */
  lemma {:induction false} ScanSucceeds(cands: seq<string>, dateOf: string -> Result<real>, simDate: real,
                                        hours: real, score: string -> Result<Num>, next: nat)
    requires forall i :: 0 <= i < |cands| ==> dateOf(cands[i]).Ok?
    requires forall i :: 0 <= i < |cands| && InHorizon(dateOf, cands[i], simDate, hours) ==> score(cands[i]).Ok?
    ensures Scan(cands, dateOf, simDate, Ok(hours), score, next).Ok?
    decreases |cands|
  {
    if |cands| > 0 {
      assert forall i :: 0 <= i < |cands[1..]| ==> cands[1..][i] == cands[i + 1];
      var inside := InHorizon(dateOf, cands[0], simDate, hours);
      ScanSucceeds(cands[1..], dateOf, simDate, hours, score, if inside then next + 1 else next);
    }
  }

  /** Distinct detections go to distinct directories. */
  lemma DirectoriesDistinct(ds: seq<Detection>, next: nat, i: nat, j: nat)
    requires forall k :: 0 <= k < |ds| ==> ds[k].dir == NatToString(next + k)
    requires i < j < |ds|
    ensures ds[i].dir != ds[j].dir
  {
    NatToStringInjective(next + i, next + j);
  }

  // ---------------------------------------------------------------------
  // The maximum
  // ---------------------------------------------------------------------

  /** pandas' column maximum: NaN entries are skipped, and a column with
      no number (in particular an empty one) gives NaN. */
  function MaxSkipNaN(xs: seq<Num>): (r: Num)
    ensures r.NaN? <==> forall i :: 0 <= i < |xs| ==> xs[i].NaN?
    ensures r.Num? ==> exists i :: 0 <= i < |xs| && xs[i] == r
    ensures r.Num? ==> forall i :: 0 <= i < |xs| && xs[i].Num? ==> xs[i].v <= r.v
  {
    if |xs| == 0 then NaN
    else
      var m := MaxSkipNaN(xs[1..]);
      assert forall i :: 1 <= i < |xs| ==> xs[i] == xs[1..][i - 1];
      if xs[0].NaN? then m
      else if m.NaN? || xs[0].v >= m.v then xs[0]
      else m
  }

  /** The maximum does not depend on the order of the column. */
  lemma MaxSkipNaNOrderFree(xs: seq<Num>, ys: seq<Num>)
    requires multiset(xs) == multiset(ys)
    ensures MaxSkipNaN(xs) == MaxSkipNaN(ys)
  {
    var a, b := MaxSkipNaN(xs), MaxSkipNaN(ys);
    forall i | 0 <= i < |ys|
      ensures ys[i] in multiset(xs)
    {
      assert ys[i] in multiset(ys);
    }
    forall i | 0 <= i < |xs|
      ensures xs[i] in multiset(ys)
    {
      assert xs[i] in multiset(xs);
    }
    if a.Num? && b.Num? {
      assert a in multiset(ys);
      assert b in multiset(xs);
    }
  }

  // ---------------------------------------------------------------------
  // The selector
  // ---------------------------------------------------------------------

  /** The finest-scale score of one comparison on the service's grid: row 0
      of the saved table, read back. `asWritten` selects the service as
      written or corrected (see ServiceFssOf). */
  function FinestScore(asWritten: bool, sim: SimSetup, obs: Observation, snapshot: nat -> seq<Particle>,
                       density: real): (r: Result<Num>)
    ensures r.Ok? <==> ServiceFssOf(asWritten, sim, obs, snapshot, density).Ok?
    ensures r.Ok? ==> r.value == ServiceFssOf(asWritten, sim, obs, snapshot, density).value.scored.table[0].fss
                      && ServiceFssOf(asWritten, sim, obs, snapshot, density).value.scored.table[0].scale == 1
  {
    var o :- ServiceFssOf(asWritten, sim, obs, snapshot, density);
    Ok(o.scored.table[0].fss)
  }

  /** How the selector scores a slick folder: `observe(id)` stands for the
      slick read from folder id. */
  function Scorer(asWritten: bool, sim: SimSetup, observe: string -> Observation, snapshot: nat -> seq<Particle>,
                  density: real): string -> Result<Num>
  {
    id => FinestScore(asWritten, sim, observe(id), snapshot, density)
  }

  /** The selector once the day count is known: list the candidates, read
      the run's start, scan, and take the maximum. */
  function SelectWith(days: int, asWritten: bool, sim: SimSetup, listing: nat -> seq<string>,
                      observe: string -> Observation, snapshot: nat -> seq<Particle>, density: real): (r: Result<Num>)
    ensures SimDate(sim.year, sim.month, sim.day, sim.hour).Raise? ==> r.Raise?
    ensures |Candidates(listing, days)| == 0 && SimDate(sim.year, sim.month, sim.day, sim.hour).Ok? ==> r == Ok(NaN)
  {
    var cands := Candidates(listing, days);
    var simDate :- SimDate(sim.year, sim.month, sim.day, sim.hour);
    var found :- Scan(cands, SlickDate, simDate, ParseFloat(sim.simLength), Scorer(asWritten, sim, observe, snapshot, density), 0);
    Ok(MaxSkipNaN(Scores(found)))
  }

  /** `compute_multi_fss` AS WRITTEN: the zero-dropping day count, and every
      slick scored by the service as written. */
  function SelectAsWritten(sim: SimSetup, listing: nat -> seq<string>, observe: string -> Observation,
                           snapshot: nat -> seq<Particle>, density: real): (r: Result<Num>)
    ensures DayCountAsWritten(sim.simLength).Raise? ==> r.Raise?
    ensures DayCountAsWritten(sim.simLength).Ok? ==>
              r == SelectWith(DayCountAsWritten(sim.simLength).value, true, sim, listing, observe, snapshot, density)
  {
    var days :- DayCountAsWritten(sim.simLength);
    SelectWith(days, true, sim, listing, observe, snapshot, density)
  }

  /** `compute_multi_fss` with the run length read as written in the
      configuration and every slick scored by the corrected service. */
  function Select(sim: SimSetup, listing: nat -> seq<string>, observe: string -> Observation,
                  snapshot: nat -> seq<Particle>, density: real): (r: Result<Num>)
    ensures DayCount(sim.simLength).Raise? ==> r.Raise?
    ensures DayCount(sim.simLength).Ok? ==>
              r == SelectWith(DayCount(sim.simLength).value, false, sim, listing, observe, snapshot, density)
  {
    var days :- DayCount(sim.simLength);
    SelectWith(days, false, sim, listing, observe, snapshot, density)
  }

  /** r is the best score over the chosen slicks: every one of them scores,
      r is NaN exactly when all of them score NaN, and otherwise r is one of
      their scores and no numeric score exceeds it. */
  predicate BestOf(chosen: seq<string>, score: string -> Result<Num>, r: Num) {
    && (forall i :: 0 <= i < |chosen| ==> score(chosen[i]).Ok?)
    && (r.NaN? <==> forall i :: 0 <= i < |chosen| ==> score(chosen[i]) == Ok(NaN))
    && (r.Num? ==> exists i :: 0 <= i < |chosen| && score(chosen[i]) == Ok(r))
    && (r.Num? ==> forall i :: 0 <= i < |chosen| && score(chosen[i]).Ok? && score(chosen[i]).value.Num? ==>
                     score(chosen[i]).value.v <= r.v)
  }

  /** The best score of a successful scan is the best score of the
      selected slicks, NaN when none is selected or none scores a number. */
  lemma ScanBest(cands: seq<string>, dateOf: string -> Result<real>, simDate: real, hours: real,
                 score: string -> Result<Num>)
    requires Scan(cands, dateOf, simDate, Ok(hours), score, 0).Ok?
    ensures var chosen := Selected(dateOf, cands, simDate, hours);
            BestOf(chosen, score, MaxSkipNaN(Scores(Scan(cands, dateOf, simDate, Ok(hours), score, 0).value)))
  {
    var ds := Scan(cands, dateOf, simDate, Ok(hours), score, 0).value;
    ScanSelects(cands, dateOf, simDate, hours, score, 0);
    var chosen := Selected(dateOf, cands, simDate, hours);
    forall i | 0 <= i < |chosen|
      ensures score(chosen[i]) == Ok(Scores(ds)[i])
    {
      assert chosen[i] == Slicks(ds)[i] == ds[i].slick;
    }
  }

  /** The selector's value is the best finest-scale score over the selected
      slicks of the listed days, NaN when none is selected or none scores
      a number. */
  lemma SelectIsBestSelected(days: int, asWritten: bool, sim: SimSetup, listing: nat -> seq<string>,
                             observe: string -> Observation, snapshot: nat -> seq<Particle>, density: real,
                             hours: real)
    requires ParseFloat(sim.simLength) == Ok(hours)
    requires SelectWith(days, asWritten, sim, listing, observe, snapshot, density).Ok?
    ensures var simDate := SimDate(sim.year, sim.month, sim.day, sim.hour).value;
            var chosen := Selected(SlickDate, Candidates(listing, days), simDate, hours);
            BestOf(chosen, Scorer(asWritten, sim, observe, snapshot, density), SelectWith(days, asWritten, sim, listing, observe, snapshot, density).value)
  {
    var simDate := SimDate(sim.year, sim.month, sim.day, sim.hour).value;
    SelectWithValue(days, asWritten, sim, listing, observe, snapshot, density, hours);
    ScanBest(Candidates(listing, days), SlickDate, simDate, hours, Scorer(asWritten, sim, observe, snapshot, density));
  }

  /** A successful selection is the maximum of its scan. */
  lemma SelectWithValue(days: int, asWritten: bool, sim: SimSetup, listing: nat -> seq<string>,
                        observe: string -> Observation, snapshot: nat -> seq<Particle>, density: real,
                        hours: real)
    requires ParseFloat(sim.simLength) == Ok(hours)
    requires SelectWith(days, asWritten, sim, listing, observe, snapshot, density).Ok?
    ensures SimDate(sim.year, sim.month, sim.day, sim.hour).Ok?
    ensures var simDate := SimDate(sim.year, sim.month, sim.day, sim.hour).value;
            var scan := Scan(Candidates(listing, days), SlickDate, simDate, Ok(hours), Scorer(asWritten, sim, observe, snapshot, density), 0);
            scan.Ok? && SelectWith(days, asWritten, sim, listing, observe, snapshot, density).value == MaxSkipNaN(Scores(scan.value))
  {
  }

  /** With no '0' in the run length the day count as written is the
      corrected one: the selector as written then differs from the
      corrected one only in how it scores each slick. */
  lemma SelectAsWrittenWithoutZeros(sim: SimSetup, listing: nat -> seq<string>, observe: string -> Observation,
                                    snapshot: nat -> seq<Particle>, density: real)
    requires NoChar(sim.simLength, '0')
    ensures DayCount(sim.simLength).Raise? ==> SelectAsWritten(sim, listing, observe, snapshot, density).Raise?
    ensures DayCount(sim.simLength).Ok? ==>
              SelectAsWritten(sim, listing, observe, snapshot, density)
              == SelectWith(DayCount(sim.simLength).value, true, sim, listing, observe, snapshot, density)
  {
    DayCountAsWrittenWithoutZeros(sim.simLength);
  }
}
