/** Dates and time alignment of the verification pipeline.

    An instant is a real number of days: the proleptic Gregorian ordinal of
    the calendar day plus hours / 24. Observation and slick identifiers start
    with `YYYYMMDD_HHMM`; the simulation start comes either from the five
    date fields of the run configuration (two-digit year) or from the lines
    of the simulator's `config1.txt`. The simulator writes one snapshot per
    hour, the first one hour after the start. */
module Dates {
  import opened Base
  import opened Text
  import opened Calendar

  // ---------------------------------------------------------------------
  // Identifier dates
  // ---------------------------------------------------------------------

  /** The instant `hour` hours into the day with proleptic ordinal `day`,
      in days. */
  function Instant(day: int, hour: real): real {
    day as real + hour / 24.0
  }

  /** Python `float(s)` on decimal text: surrounding whitespace is ignored,
      then one optional sign, a mantissa of digits with at most one '.' and
      at least one digit, and an optional exponent: 'e' or 'E', an optional
      sign and at least one digit. Anything else raises ValueError. */
  function ParseFloat(s: string): Result<real> {
    var t := Strip(s);
    var neg := |t| > 0 && t[0] == '-';
    var body := if |t| > 0 && (t[0] == '-' || t[0] == '+') then t[1..] else t;
    match Decimal(body)
    case Some(v) => Ok(if neg then -v else v)
    case None => Raise(ValueError("could not convert string to float: '" + s + "'"))
  }

  /** Where the reader of an unsigned decimal stands: in the whole part, in
      the fraction, just after the exponent mark, or in the exponent. */
  datatype Phase = InWhole | InFrac | AfterMark | InExp

  /** What has been read so far: the mantissa's digits as one number, how
      many there are and how many follow the '.', and the exponent. */
  datatype FloatScan = FloatScan(phase: Phase, mant: nat, digits: nat, fracDigits: nat,
                                 expNeg: bool, exp: nat, expDigits: nat)

  const ScanStart := FloatScan(InWhole, 0, 0, 0, false, 0, 0)

  /** One character of an unsigned decimal; None where the text stops being
      one. */
  function ScanStep(st: FloatScan, c: char): Option<FloatScan> {
    match st.phase
    case InWhole =>
      if IsDigit(c) then Some(st.(mant := st.mant * 10 + DigitValue(c), digits := st.digits + 1))
      else if c == '.' then Some(st.(phase := InFrac))
      else if (c == 'e' || c == 'E') && st.digits > 0 then Some(st.(phase := AfterMark))
      else None
    case InFrac =>
      if IsDigit(c) then
        Some(st.(mant := st.mant * 10 + DigitValue(c), digits := st.digits + 1, fracDigits := st.fracDigits + 1))
      else if (c == 'e' || c == 'E') && st.digits > 0 then Some(st.(phase := AfterMark))
      else None
    case AfterMark =>
      if IsDigit(c) then Some(st.(phase := InExp, exp := DigitValue(c), expDigits := 1))
      else if c == '+' then Some(st.(phase := InExp))
      else if c == '-' then Some(st.(phase := InExp, expNeg := true))
      else None
    case InExp =>
      if IsDigit(c) then Some(st.(exp := st.exp * 10 + DigitValue(c), expDigits := st.expDigits + 1))
      else None
  }

  /** The reader over a whole text, left to right. */
  function ScanText(s: string, st: FloatScan): Option<FloatScan>
    decreases |s|
  {
    if |s| == 0 then Some(st)
    else
      match ScanStep(st, s[0])
      case None => None
      case Some(next) => ScanText(s[1..], next)
  }

  /** A reading that may stop here: at least one mantissa digit, and an
      exponent mark followed by at least one digit if there is one. */
  predicate Complete(st: FloatScan) {
    st.digits > 0 && (st.phase.InWhole? || st.phase.InFrac? || (st.phase.InExp? && st.expDigits > 0))
  }

  /** The value read: the mantissa's digits shifted by the fraction's
      length, times ten to the exponent. */
  function ScanValue(st: FloatScan): real {
    st.mant as real / Pow10(st.fracDigits) as real * Scale10(if st.expNeg then -(st.exp as int) else st.exp as int)
  }

  /** An unsigned decimal number with an optional exponent. */
  function Decimal(s: string): Option<real> {
    match ScanText(s, ScanStart)
    case None => None
    case Some(st) => if Complete(st) then Some(ScanValue(st)) else None
  }

  /** Ten to the power x. */
  function Scale10(x: int): (r: real)
    ensures r > 0.0
  {
    if x >= 0 then Pow10(x) as real else 1.0 / Pow10(-x) as real
  }

  /** Reading digits in the whole part appends them to the mantissa. */
  lemma {:induction false} ScanDigits(s: string, st: FloatScan)
    requires AllDigits(s) && st.phase.InWhole?
    ensures ScanText(s, st) == Some(st.(mant := st.mant * Pow10(|s|) + DigitsValue(s), digits := st.digits + |s|))
    decreases |s|
  {
    if |s| > 0 {
      var c, rest := s[0], s[1..];
      var next := st.(mant := st.mant * 10 + DigitValue(c), digits := st.digits + 1);
      assert ScanStep(st, c) == Some(next);
      assert ScanText(s, st) == ScanText(rest, next);
      ScanDigits(rest, next);
      assert Pow10(|s|) == 10 * Pow10(|rest|);
      assert s == [c] + rest;
      DigitsValueConcat([c], rest);
      assert DigitsValue([c]) == DigitValue(c) by {
        assert [c][..0] == "";
      }
      ShiftMantissa(st.mant, DigitValue(c), Pow10(|rest|), DigitsValue(rest));
    }
  }

  lemma ShiftMantissa(m: int, d: int, p: int, v: int)
    ensures (m * 10 + d) * p + v == m * (10 * p) + (d * p + v)
  {
  }

  /** In the whole part, text without '.', 'e' or 'E' reads only if it is
      all digits. */
  lemma {:induction false} ScanOnlyDigits(s: string, st: FloatScan)
    requires st.phase.InWhole? && NoChar(s, '.') && NoChar(s, 'e') && NoChar(s, 'E')
    requires ScanText(s, st).Some?
    ensures AllDigits(s)
    decreases |s|
  {
    if |s| > 0 {
      var next := ScanStep(st, s[0]).value;
      ScanOnlyDigits(s[1..], next);
      assert forall i :: 1 <= i < |s| ==> s[i] == s[1..][i - 1];
    }
  }

  /** A run of digits reads as its value. */
  lemma DecimalOfDigits(s: string)
    requires |s| > 0 && AllDigits(s)
    ensures Decimal(s) == Some(DigitsValue(s) as real)
  {
    ScanDigits(s, ScanStart);
    assert Pow10(0) == 1;
  }

  /** `float()` reads every text `int()` reads, with the same value; and on
      text without '.', 'e' or 'E' the two accept the same strings. */
  lemma FloatReadsIntText(s: string)
    ensures ParseInt(s).Ok? ==> ParseFloat(s) == Ok(ParseInt(s).value as real)
    ensures NoChar(s, '.') && NoChar(s, 'e') && NoChar(s, 'E') ==> (ParseFloat(s).Ok? <==> ParseInt(s).Ok?)
  {
    var t := Strip(s);
    var body := if |t| > 0 && (t[0] == '-' || t[0] == '+') then t[1..] else t;
    DecimalReadsDigitRun(body);
    if NoChar(s, '.') && NoChar(s, 'e') && NoChar(s, 'E') {
      StripKeeps(s, '.');
      StripKeeps(s, 'e');
      StripKeeps(s, 'E');
      assert NoChar(body, '.') && NoChar(body, 'e') && NoChar(body, 'E');
    }
  }

  /** The unsigned part of FloatReadsIntText: the decimal reader against the
      digit-run reader. */
  lemma DecimalReadsDigitRun(body: string)
    ensures DigitRun(body).Some? ==> Decimal(body) == Some(DigitRun(body).value as real)
    ensures NoChar(body, '.') && NoChar(body, 'e') && NoChar(body, 'E') ==>
              (Decimal(body).Some? <==> DigitRun(body).Some?)
  {
    DigitRunValue(body);
    if |body| > 0 && AllDigits(body) {
      DecimalOfDigits(body);
    }
    if NoChar(body, '.') && NoChar(body, 'e') && NoChar(body, 'E') && Decimal(body).Some? {
      ScanOnlyDigits(body, ScanStart);
    }
  }

  /** `float()` reads a text `int()` refuses: a trailing '.'. */
  lemma FloatTrailingDot()
    ensures ParseFloat("1.") == Ok(1.0) && ParseInt("1.").Raise?
  {
    StripPlain("1.");
    assert "1."[1..] == ".";
    assert Decimal("1.") == Some(1.0);
  }

  /** `float()` reads a text `int()` refuses: a leading '.'. */
  lemma FloatLeadingDot()
    ensures ParseFloat(".5") == Ok(0.5) && ParseInt(".5").Raise?
  {
    StripPlain(".5");
    assert ".5"[1..] == "5";
    assert Pow10(1) == 10;
    assert Decimal(".5") == Some(0.5);
    assert DigitRun(".5") == None by {
      assert ".5"[..1] == ".";
    }
  }

  /** `float()` reads a text `int()` refuses: an exponent. */
  lemma FloatExponent()
    ensures ParseFloat("1e2") == Ok(100.0) && ParseInt("1e2").Raise?
  {
    StripPlain("1e2");
    assert "1e2"[1..] == "e2" && "e2"[1..] == "2";
    assert Pow10(2) == 100;
    assert Decimal("1e2") == Some(100.0);
    assert DigitRun("1e2") == None by {
      assert "1e2"[..2] == "1e";
    }
  }

  /** `float()` refuses a lone '.', an exponent without digits before it,
      and an exponent mark without digits after it. */
  lemma FloatNeedsDigits()
    ensures ParseFloat(".").Raise? && ParseFloat("e2").Raise? && ParseFloat("1e").Raise?
  {
    StripPlain(".");
    assert "."[1..] == "";
    StripPlain("e2");
    StripPlain("1e");
    assert "1e"[1..] == "e" && "e"[1..] == "";
  }

  /** Observation date (`get_obs_date`): year, month and day from the first
      eight characters, hour from positions 9-10. The minutes at 11-12 are
      parsed, so they can make the call fail, but do not enter the result;
      the hour is not range-checked. */
  function ObsDate(id: string): Result<real> {
    var year :- ParseInt(Slice(id, 0, 4));
    var month :- ParseInt(Slice(id, 4, 6));
    var day :- ParseInt(Slice(id, 6, 8));
    var hour :- ParseInt(Slice(id, 9, 11));
    var minute :- ParseInt(Slice(id, 11, 13));
    var ord :- Ordinal(year, month, day);
    Ok(Instant(ord, hour as real))
  }

  /** Year, month and day read as integers (the year offset by `century`),
      the day validated, then the hour read as a float: the order in which
      both the slick date and the simulation start read their fields. */
  function DayInstant(ys: string, ms: string, ds: string, hs: string, century: int): Result<real> {
    var year :- ParseInt(ys);
    var month :- ParseInt(ms);
    var day :- ParseInt(ds);
    var ord :- Ordinal(century + year, month, day);
    var hour :- ParseFloat(hs);
    Ok(Instant(ord, hour))
  }

  /** Slick date (`get_slick_date`): the same positions as the observation
      date, without the minutes; the day is validated before the hour is
      read. */
  function SlickDate(id: string): Result<real> {
    DayInstant(Slice(id, 0, 4), Slice(id, 4, 6), Slice(id, 6, 8), Slice(id, 9, 11), 0)
  }

  /** Simulation start (`get_sim_date`) from the two-digit year, month, day
      and hour fields of the run configuration. */
  function SimDate(yy: string, mm: string, dd: string, hh: string): Result<real> {
    DayInstant(yy, mm, dd, hh, 2000)
  }

  /** Fields that read as a valid day give its ordinal plus the hour in days. */
  lemma DayInstantOfFields(ys: string, ms: string, ds: string, hs: string, century: int, y: int, m: int, d: int, h: int)
    requires ParseInt(ys) == Ok(y) && ParseInt(ms) == Ok(m) && ParseInt(ds) == Ok(d) && ParseInt(hs) == Ok(h)
    requires ValidDate(century + y, m, d)
    ensures DayInstant(ys, ms, ds, hs, century) == Ok(Instant(Ordinal(century + y, m, d).value, h as real))
  {
    FloatReadsIntText(hs);
  }

  /** What the date fields of an identifier read as decides the slick
      date: the ordinal of the day plus the hour in days. */
  lemma SlickDateOfFields(id: string, y: int, m: int, d: int, h: int)
    requires ReadsAs(id, y, m, d, h) && ValidDate(y, m, d)
    ensures SlickDate(id) == Ok(Instant(Ordinal(y, m, d).value, h as real))
  {
    var ys, ms, ds, hs := Slice(id, 0, 4), Slice(id, 4, 6), Slice(id, 6, 8), Slice(id, 9, 11);
    IntFieldsAsDay(ys, ms, ds, hs);
  }

  /** The observation date reads the same instant once the minutes parse;
      their value never matters. */
  lemma ObsDateOfFields(id: string, y: int, m: int, d: int, h: int, mi: int)
    requires ReadsAs(id, y, m, d, h) && ValidDate(y, m, d)
    requires ParseInt(Slice(id, 11, 13)) == Ok(mi)
    ensures ObsDate(id) == Ok(Instant(Ordinal(y, m, d).value, h as real))
  {
  }

  /** Unreadable minutes make the observation date fail. */
  lemma ObsDateNeedsMinutes(id: string)
    ensures ParseInt(Slice(id, 11, 13)).Raise? ==> ObsDate(id).Raise?
  {
  }

  /** Whenever the observation date is defined, it is the slick date of the
      same identifier. */
  lemma ObsDateIsSlickDate(id: string)
    ensures ObsDate(id).Ok? ==> SlickDate(id) == ObsDate(id)
  {
    IntFieldsAsDay(Slice(id, 0, 4), Slice(id, 4, 6), Slice(id, 6, 8), Slice(id, 9, 11));
  }

  /** Four fields that each read as an integer and name a valid day give
      the day reader the ordinal of that day plus the hour in days, the
      instant the observation date also reads from them. */
  lemma IntFieldsAsDay(ys: string, ms: string, ds: string, hs: string)
    ensures ParseInt(ys).Ok? && ParseInt(ms).Ok? && ParseInt(ds).Ok? && ParseInt(hs).Ok? &&
            Ordinal(ParseInt(ys).value, ParseInt(ms).value, ParseInt(ds).value).Ok? ==>
              DayInstant(ys, ms, ds, hs, 0) ==
              Ok(Instant(Ordinal(ParseInt(ys).value, ParseInt(ms).value, ParseInt(ds).value).value,
                         ParseInt(hs).value as real))
  {
    FloatReadsIntText(hs);
  }

  /** A well-formed identifier `YYYYMMDD_HHMM` followed by any text. */
  function Identifier(y: nat, m: nat, d: nat, h: nat, mi: nat, rest: string): (id: string)
    ensures |id| == 13 + |rest|
  {
    Digits(y, 4) + Digits(m, 2) + Digits(d, 2) + "_" + Digits(h, 2) + Digits(mi, 2) + rest
  }

  /** Where the fields of `YYYYMMDD_HHMM...` sit, whatever they hold. */
  lemma FieldPositions(yf: string, mf: string, df: string, hf: string, mif: string, rest: string)
    requires |yf| == 4 && |mf| == 2 && |df| == 2 && |hf| == 2 && |mif| == 2
    ensures Slice(yf + mf + df + "_" + hf + mif + rest, 0, 4) == yf
    ensures Slice(yf + mf + df + "_" + hf + mif + rest, 4, 6) == mf
    ensures Slice(yf + mf + df + "_" + hf + mif + rest, 6, 8) == df
    ensures Slice(yf + mf + df + "_" + hf + mif + rest, 9, 11) == hf
    ensures Slice(yf + mf + df + "_" + hf + mif + rest, 11, 13) == mif
  {
    var id := yf + mf + df + "_" + hf + mif + rest;
    assert id[0..4] == yf;
    assert id[4..6] == mf;
    assert id[6..8] == df;
    assert id[9..11] == hf;
    assert id[11..13] == mif;
  }

  /** What the fields of a well-formed identifier read as. */
  lemma IdentifierParses(y: nat, m: nat, d: nat, h: nat, mi: nat, rest: string)
    requires y < 10000 && m < 100 && d < 100 && h < 100 && mi < 100
    ensures ReadsAs(Identifier(y, m, d, h, mi, rest), y, m, d, h)
    ensures ParseInt(Slice(Identifier(y, m, d, h, mi, rest), 11, 13)) == Ok(mi)
  {
    FieldPositions(Digits(y, 4), Digits(m, 2), Digits(d, 2), Digits(h, 2), Digits(mi, 2), rest);
    assert Pow10(2) == 100 && Pow10(4) == 10000;
    ParseDigits(y, 4);
    ParseDigits(m, 2);
    ParseDigits(d, 2);
    ParseDigits(h, 2);
    ParseDigits(mi, 2);
  }

  /** Reading a well-formed identifier gives the ordinal of its day plus its
      hour in days; any two-digit hour is accepted. */
  lemma IdentifierSlickDate(y: nat, m: nat, d: nat, h: nat, mi: nat, rest: string)
    requires ValidDate(y, m, d) && h < 100 && mi < 100
    ensures SlickDate(Identifier(y, m, d, h, mi, rest)) == Ok(Instant(Ordinal(y, m, d).value, h as real))
  {
    IdentifierParses(y, m, d, h, mi, rest);
    SlickDateOfFields(Identifier(y, m, d, h, mi, rest), y, m, d, h);
  }

  /** The observation date of a well-formed identifier is the same instant. */
  lemma IdentifierObsDate(y: nat, m: nat, d: nat, h: nat, mi: nat, rest: string)
    requires ValidDate(y, m, d) && h < 100 && mi < 100
    ensures ObsDate(Identifier(y, m, d, h, mi, rest)) == Ok(Instant(Ordinal(y, m, d).value, h as real))
  {
    IdentifierParses(y, m, d, h, mi, rest);
    ObsDateOfFields(Identifier(y, m, d, h, mi, rest), y, m, d, h, mi);
  }

  /** Character 8 (the separator) and everything from position 11 on never
      affect the slick date. */
  lemma SlickDateIgnores(id: string, sep: char, tail: string)
    requires |id| >= 11
    ensures SlickDate(id[..8] + [sep] + id[9..11] + tail) == SlickDate(id)
  {
    var other := id[..8] + [sep] + id[9..11] + tail;
    assert other[..8] == id[..8] && other[9..11] == id[9..11];
    SameFields(other, id);
    SameSlickFields(other, id);
  }

  /** The observation date ignores the separator and everything after the
      minutes. */
  lemma ObsDateIgnores(id: string, sep: char, tail: string)
    requires |id| >= 13
    ensures ObsDate(id[..8] + [sep] + id[9..13] + tail) == ObsDate(id)
  {
    var other := id[..8] + [sep] + id[9..13] + tail;
    assert other[..8] == id[..8] && other[9..13] == id[9..13];
    assert other[9..11] == other[9..13][..2] && id[9..11] == id[9..13][..2];
    assert other[11..13] == other[9..13][2..] && id[11..13] == id[9..13][2..];
    SameFields(other, id);
    SameObsFields(other, id);
  }

  /** Two texts that agree on positions 0-7 and 9-10 have the same date fields. */
  lemma SameFields(a: string, b: string)
    requires |a| >= 11 && |b| >= 11 && a[..8] == b[..8] && a[9..11] == b[9..11]
    ensures Slice(a, 0, 4) == Slice(b, 0, 4) && Slice(a, 4, 6) == Slice(b, 4, 6)
    ensures Slice(a, 6, 8) == Slice(b, 6, 8) && Slice(a, 9, 11) == Slice(b, 9, 11)
  {
    assert a[0..4] == a[..8][0..4] && b[0..4] == b[..8][0..4];
    assert a[4..6] == a[..8][4..6] && b[4..6] == b[..8][4..6];
    assert a[6..8] == a[..8][6..8] && b[6..8] == b[..8][6..8];
  }

  lemma SameSlickFields(a: string, b: string)
    requires Slice(a, 0, 4) == Slice(b, 0, 4) && Slice(a, 4, 6) == Slice(b, 4, 6)
    requires Slice(a, 6, 8) == Slice(b, 6, 8) && Slice(a, 9, 11) == Slice(b, 9, 11)
    ensures SlickDate(a) == SlickDate(b)
  {
  }

  lemma SameObsFields(a: string, b: string)
    requires Slice(a, 0, 4) == Slice(b, 0, 4) && Slice(a, 4, 6) == Slice(b, 4, 6)
    requires Slice(a, 6, 8) == Slice(b, 6, 8) && Slice(a, 9, 11) == Slice(b, 9, 11)
    requires Slice(a, 11, 13) == Slice(b, 11, 13)
    ensures ObsDate(a) == ObsDate(b)
  {
  }

  /** The date fields of an identifier read as year y, month m, day d and
      hour h. */
  predicate ReadsAs(id: string, y: int, m: int, d: int, h: int) {
    ParseInt(Slice(id, 0, 4)) == Ok(y) && ParseInt(Slice(id, 4, 6)) == Ok(m)
    && ParseInt(Slice(id, 6, 8)) == Ok(d) && ParseInt(Slice(id, 9, 11)) == Ok(h)
  }

  /** Identifiers one calendar day apart, at the same hour, are exactly 1.0
      apart. */
  lemma SlickDateNextDay(a: string, b: string, y: int, m: int, d: int, h: int)
    requires ValidDate(y, m, d)
    requires ValidDate(NextDay(y, m, d).0, NextDay(y, m, d).1, NextDay(y, m, d).2)
    requires ReadsAs(a, y, m, d, h) && ReadsAs(b, NextDay(y, m, d).0, NextDay(y, m, d).1, NextDay(y, m, d).2, h)
    ensures SlickDate(a).Ok? && SlickDate(b).Ok?
    ensures SlickDate(b).value == SlickDate(a).value + 1.0
  {
    var (y2, m2, d2) := NextDay(y, m, d);
    SlickDateOfFields(a, y, m, d, h);
    SlickDateOfFields(b, y2, m2, d2, h);
    OrdinalNextDay(y, m, d);
  }

  /** Identifiers one hour apart on the same day are exactly 1/24 apart. */
  lemma SlickDateNextHour(a: string, b: string, y: int, m: int, d: int, h: int)
    requires ValidDate(y, m, d)
    requires ReadsAs(a, y, m, d, h) && ReadsAs(b, y, m, d, h + 1)
    ensures SlickDate(a).Ok? && SlickDate(b).Ok?
    ensures SlickDate(b).value == SlickDate(a).value + 1.0 / 24.0
  {
    SlickDateOfFields(a, y, m, d, h);
    SlickDateOfFields(b, y, m, d, h + 1);
  }

  /** `'20' + yy` for a two-digit year is the year 2000 + yy. */
  lemma CenturyPrefix(yy: nat)
    requires yy < 100
    ensures ParseInt("20" + Digits(yy, 2)) == Ok(2000 + yy)
  {
    var s := Digits(yy, 2);
    CenturyValue(s);
    DigitsValueOf(yy, 2);
    assert Pow10(2) == 100;
    ParseDigitRun("20" + s);
  }

  lemma CenturyValue(s: string)
    requires |s| == 2 && AllDigits(s)
    ensures AllDigits("20" + s) && DigitsValue("20" + s) == 2000 + DigitsValue(s)
  {
    assert AllDigits("20");
    assert DigitsValue("20") == 20 by {
      assert "20"[..1] == "2" && "2"[..0] == "";
    }
    DigitsValueConcat("20", s);
    assert Pow10(2) == 100;
  }

  lemma SimDateOfFields(yy: string, mm: string, dd: string, hh: string, y: int, m: int, d: int, h: int)
    requires ParseInt(yy) == Ok(y) && ParseInt(mm) == Ok(m) && ParseInt(dd) == Ok(d) && ParseInt(hh) == Ok(h)
    requires ValidDate(2000 + y, m, d)
    ensures SimDate(yy, mm, dd, hh) == Ok(Instant(Ordinal(2000 + y, m, d).value, h as real))
  {
    DayInstantOfFields(yy, mm, dd, hh, 2000, y, m, d, h);
  }

  /** Simulation starts one day apart within a month are exactly 1.0 apart. */
  lemma SimDateNextDay(yy: string, mm: string, dd: string, dd2: string, hh: string, y: int, m: int, d: int, h: int)
    requires ParseInt(yy) == Ok(y) && ParseInt(mm) == Ok(m) && ParseInt(hh) == Ok(h)
    requires ParseInt(dd) == Ok(d) && ParseInt(dd2) == Ok(d + 1)
    requires ValidDate(2000 + y, m, d) && ValidDate(2000 + y, m, d + 1)
    ensures SimDate(yy, mm, dd, hh).Ok? && SimDate(yy, mm, dd2, hh).Ok?
    ensures SimDate(yy, mm, dd2, hh).value == SimDate(yy, mm, dd, hh).value + 1.0
  {
    var day := Ordinal(2000 + y, m, d).value;
    assert Ordinal(2000 + y, m, d + 1).value == day + 1;
    SimDateOfFields(yy, mm, dd, hh, y, m, d, h);
    SimDateOfFields(yy, mm, dd2, hh, y, m, d + 1, h);
    assert Instant(day + 1, h as real) == Instant(day, h as real) + 1.0;
  }

  /** Simulation starts one hour apart are exactly 1/24 apart. */
  lemma SimDateNextHour(yy: string, mm: string, dd: string, hh: string, hh2: string, y: int, m: int, d: int, h: int)
    requires ParseInt(yy) == Ok(y) && ParseInt(mm) == Ok(m) && ParseInt(dd) == Ok(d)
    requires ParseInt(hh) == Ok(h) && ParseInt(hh2) == Ok(h + 1) && ValidDate(2000 + y, m, d)
    ensures SimDate(yy, mm, dd, hh).Ok? && SimDate(yy, mm, dd, hh2).Ok?
    ensures SimDate(yy, mm, dd, hh2).value == SimDate(yy, mm, dd, hh).value + 1.0 / 24.0
  {
    SimDateOfFields(yy, mm, dd, hh, y, m, d, h);
    SimDateOfFields(yy, mm, dd, hh2, y, m, d, h + 1);
  }

  // ---------------------------------------------------------------------
  // Snapshot timeline
  // ---------------------------------------------------------------------

  /** Instant of snapshot k of a run started on day `start` at hour `hour`. */
  function Snapshot(start: int, hour: int, k: int): real {
    k as real / 24.0 + (hour as real + 1.0) / 24.0 + start as real
  }

  /** `arange(0, n)/24 + (hour + 1)/24 + start`: one entry per hour of the
      run, none when n is not positive. */
  function Timeline(start: int, hour: int, n: int): (t: seq<real>)
    ensures |t| == if n > 0 then n else 0
    ensures forall k :: 0 <= k < |t| ==> t[k] == Snapshot(start, hour, k)
    decreases if n > 0 then n else 0
  {
    if n <= 0 then [] else Timeline(start, hour, n - 1) + [Snapshot(start, hour, n - 1)]
  }

  predicate StrictlyIncreasing(t: seq<real>) {
    forall i, j :: 0 <= i < j < |t| ==> t[i] < t[j]
  }

  /** Snapshots are exactly one hour apart, so the timeline is strictly
      increasing. */
  lemma TimelineIncreasing(start: int, hour: int, n: int)
    ensures StrictlyIncreasing(Timeline(start, hour, n))
    ensures forall k :: 0 <= k < |Timeline(start, hour, n)| - 1 ==>
              Timeline(start, hour, n)[k + 1] == Timeline(start, hour, n)[k] + 1.0 / 24.0
  {
  }

  /** The part of the service's `get_mdksim_date` after the year is read:
      month and day, the start day (validated), hour, minutes (parsed, not
      used) and run length, in that order. */
  function RunTimeline(year: int, mm: string, dd: string, hh: string, mmin: string, simLength: string)
    : Result<seq<real>>
  {
    var m :- ParseInt(mm);
    var d :- ParseInt(dd);
    var start :- Ordinal(year, m, d);
    var hour :- ParseInt(hh);
    var minute :- ParseInt(mmin);
    var n :- ParseInt(simLength);
    Ok(Timeline(start, hour, n))
  }

  /** `get_mdksim_date` of the service AS WRITTEN: the two-digit year field
      is used as the year itself. */
  function MdkSimDateAsWritten(yy: string, mm: string, dd: string, hh: string, mmin: string, simLength: string)
    : Result<seq<real>>
  {
    var y :- ParseInt(yy);
    RunTimeline(y, mm, dd, hh, mmin, simLength)
  }

  /** `get_mdksim_date` with the century restored, as every other reader of
      the same fields does it: the run starts in year 2000 + yy. */
  function MdkSimDate(yy: string, mm: string, dd: string, hh: string, mmin: string, simLength: string)
    : Result<seq<real>>
  {
    var y :- ParseInt(yy);
    RunTimeline(2000 + y, mm, dd, hh, mmin, simLength)
  }

  /** A run whose fields all read well is the timeline of its start day. */
  lemma RunTimelineOfFields(year: int, mm: string, dd: string, hh: string, mmin: string, simLength: string,
                            m: int, d: int, h: int, n: int)
    requires ParseInt(mm) == Ok(m) && ParseInt(dd) == Ok(d) && ParseInt(hh) == Ok(h)
    requires ParseInt(mmin).Ok? && ParseInt(simLength) == Ok(n) && ValidDate(year, m, d)
    ensures RunTimeline(year, mm, dd, hh, mmin, simLength) == Ok(Timeline(Ordinal(year, m, d).value, h, n))
  {
  }

  /** What a successful run reading has read. */
  lemma RunTimelineFields(year: int, mm: string, dd: string, hh: string, mmin: string, simLength: string)
    returns (m: int, d: int)
    requires RunTimeline(year, mm, dd, hh, mmin, simLength).Ok?
    ensures ParseInt(mm) == Ok(m) && ParseInt(dd) == Ok(d) && ValidDate(year, m, d)
    ensures ParseInt(hh).Ok? && ParseInt(simLength).Ok?
    ensures RunTimeline(year, mm, dd, hh, mmin, simLength)
            == Ok(Timeline(Ordinal(year, m, d).value, ParseInt(hh).value, ParseInt(simLength).value))
  {
    m, d := ParseInt(mm).value, ParseInt(dd).value;
  }

  /** The corrected reading is the code as written fed the four-digit year. */
  lemma CorrectedIsFourDigitYear(yy: string, mm: string, dd: string, hh: string, mmin: string, simLength: string)
    requires ParseInt(yy).Ok? && ParseInt(yy).value >= -2000
    ensures MdkSimDate(yy, mm, dd, hh, mmin, simLength)
            == MdkSimDateAsWritten(NatToString(2000 + ParseInt(yy).value), mm, dd, hh, mmin, simLength)
  {
    ParseNatToString(2000 + ParseInt(yy).value);
  }

  // ---------------------------------------------------------------------
  // Nearest snapshot
  // ---------------------------------------------------------------------

  function Dist(a: real, b: real): (r: real)
    ensures r >= 0.0
    ensures r == 0.0 <==> a == b
  {
    if a >= b then a - b else b - a
  }

  /** The first index among the first n entries at the least distance from v. */
  function FirstMin(a: seq<real>, v: real, n: nat): (k: nat)
    requires 1 <= n <= |a|
    ensures k < n
    ensures forall j :: 0 <= j < n ==> Dist(a[k], v) <= Dist(a[j], v)
    ensures forall j :: 0 <= j < k ==> Dist(a[j], v) > Dist(a[k], v)
    decreases n
  {
    if n == 1 then 0
    else
      var k := FirstMin(a, v, n - 1);
      if Dist(a[n - 1], v) < Dist(a[k], v) then n - 1 else k
  }

  /** `find_nearest`: `argmin |a - v|`, the first index on a tie; numpy
      raises ValueError on an empty array. */
  function Nearest(a: seq<real>, v: real): (r: Result<nat>)
    ensures r.Raise? <==> |a| == 0
    ensures r.Ok? ==> r.value < |a|
    ensures r.Ok? ==> forall j :: 0 <= j < |a| ==> Dist(a[r.value], v) <= Dist(a[j], v)
    ensures r.Ok? ==> forall j :: 0 <= j < r.value ==> Dist(a[j], v) > Dist(a[r.value], v)
  {
    if |a| == 0 then Raise(ValueError("attempt to get argmin of an empty sequence"))
    else Ok(FirstMin(a, v, |a|))
  }

  /** The contract of Nearest determines its answer: any first minimiser is it. */
  lemma NearestUnique(a: seq<real>, v: real, k: nat)
    requires k < |a|
    requires forall j :: 0 <= j < |a| ==> Dist(a[k], v) <= Dist(a[j], v)
    requires forall j :: 0 <= j < k ==> Dist(a[j], v) > Dist(a[k], v)
    ensures Nearest(a, v) == Ok(k)
  {
  }

  /** An instant that is itself a snapshot is matched to that snapshot. */
  lemma NearestOnTimeline(start: int, hour: int, n: int, k: nat)
    requires k < n
    ensures Nearest(Timeline(start, hour, n), Snapshot(start, hour, k)) == Ok(k)
  {
    var t := Timeline(start, hour, n);
    var v := Snapshot(start, hour, k);
    assert Dist(t[k], v) == 0.0;
    forall j | 0 <= j < k
      ensures Dist(t[j], v) > Dist(t[k], v)
    {
      assert t[j] < v;
    }
    NearestUnique(t, v, k);
  }

  /** An instant at or after the last entry of an increasing timeline is
      matched to the last snapshot. */
  lemma NearestBeyondEnd(t: seq<real>, v: real)
    requires |t| > 0 && StrictlyIncreasing(t) && v >= t[|t| - 1]
    ensures Nearest(t, v) == Ok(|t| - 1)
  {
    var k := |t| - 1;
    forall j | 0 <= j < k
      ensures Dist(t[j], v) > Dist(t[k], v)
    {
      assert t[j] < t[k];
    }
    NearestUnique(t, v, k);
  }

  /** Any day of the years 1-99 comes before day 36161 (1 January of the
      year 100 is day 36160). */
  lemma EarlyOrdinal(y: int, m: int, d: int)
    requires ValidDate(y, m, d) && y < 100
    ensures Ordinal(y, m, d).value <= 36160
  {
    assert DaysBeforeYear(y) <= DaysBeforeYear(99) by {
      var z := y - 1;
      assert z / 4 <= 24 && z / 100 == 0 && z / 400 == 0;
    }
    assert DaysBeforeYear(99) == 35794;
  }

  /** The two-digit-year defect: with the year read as written, a run whose
      length and start hour stay below 1900 years of hours lies entirely
      before the year 100, so every observation from the year 2000 on
      (day 730120 and later) is matched to the LAST snapshot, whatever its
      actual time. */
  lemma AsWrittenMatchesLast(yy: string, mm: string, dd: string, hh: string, mmin: string, simLength: string, v: real)
    requires ParseInt(yy).Ok? && 0 <= ParseInt(yy).value < 100
    requires ParseInt(hh).Ok? && ParseInt(simLength).Ok?
    requires ParseInt(hh).value + ParseInt(simLength).value < 24 * 693900
    requires MdkSimDateAsWritten(yy, mm, dd, hh, mmin, simLength).Ok?
    requires |MdkSimDateAsWritten(yy, mm, dd, hh, mmin, simLength).value| > 0
    requires v >= 730120.0
    ensures Nearest(MdkSimDateAsWritten(yy, mm, dd, hh, mmin, simLength).value, v)
            == Ok(|MdkSimDateAsWritten(yy, mm, dd, hh, mmin, simLength).value| - 1)
  {
    var y, h, n := ParseInt(yy).value, ParseInt(hh).value, ParseInt(simLength).value;
    var m, d := RunTimelineFields(y, mm, dd, hh, mmin, simLength);
    EarlyOrdinal(y, m, d);
    var start := Ordinal(y, m, d).value;
    var t := Timeline(start, h, n);
    assert t[|t| - 1] == Snapshot(start, h, n - 1);
    assert t[|t| - 1] <= 36160.0 + (h + n) as real / 24.0;
    TimelineIncreasing(start, h, n);
    NearestBeyondEnd(t, v);
  }

  /** With the century restored, a run whose fields read well is the timeline
      of its start day in year 2000 + yy (and NearestOnTimeline then matches
      an observation taken exactly at snapshot k to snapshot k). */
  lemma CorrectedTimeline(yy: string, mm: string, dd: string, hh: string, mmin: string, simLength: string,
                          y: int, m: int, d: int, h: int, n: int)
    requires ParseInt(yy) == Ok(y) && ParseInt(mm) == Ok(m) && ParseInt(dd) == Ok(d) && ParseInt(hh) == Ok(h)
    requires ParseInt(mmin).Ok? && ParseInt(simLength) == Ok(n) && ValidDate(2000 + y, m, d)
    ensures MdkSimDate(yy, mm, dd, hh, mmin, simLength) == Ok(Timeline(Ordinal(2000 + y, m, d).value, h, n))
  {
    CenturyRestored(yy, mm, dd, hh, mmin, simLength, y);
    RunTimelineOfFields(2000 + y, mm, dd, hh, mmin, simLength, m, d, h, n);
  }

  /** The corrected reader reads the run in year 2000 + yy. */
  lemma CenturyRestored(yy: string, mm: string, dd: string, hh: string, mmin: string, simLength: string, y: int)
    requires ParseInt(yy) == Ok(y)
    ensures MdkSimDate(yy, mm, dd, hh, mmin, simLength) == RunTimeline(2000 + y, mm, dd, hh, mmin, simLength)
  {
  }

  // ---------------------------------------------------------------------
  // config1.txt of a simulation folder
  // ---------------------------------------------------------------------

  /** First position of c in s. */
  function IndexOf(s: string, c: char): (r: Option<nat>)
    ensures r.Some? ==> r.value < |s| && s[r.value] == c && NoChar(s[..r.value], c)
    ensures r.None? ==> NoChar(s, c)
    decreases |s|
  {
    if |s| == 0 then None
    else if s[0] == c then Some(0)
    else
      match IndexOf(s[1..], c)
      case None => None
      case Some(i) => Some(i + 1)
  }

  const NoMatch := "'NoneType' object has no attribute 'group'"

  /** `re.search('=(.*)\n', line).group(1)`: the text between the first '='
      and the next newline; without both, the search gives None and taking
      its group raises AttributeError. */
  function Field(line: string): (r: Result<string>)
    ensures r.Ok? ==> NoChar(r.value, '\n')
    ensures NoChar(line, '=') ==> r == Raise(AttributeError(NoMatch))
  {
    match IndexOf(line, '=')
    case None => Raise(AttributeError(NoMatch))
    case Some(p) =>
      var after := line[p + 1..];
      match IndexOf(after, '\n')
      case None => Raise(AttributeError(NoMatch))
      case Some(q) => Ok(after[..q])
  }

  /** A `key=value` line gives back its value. */
  lemma FieldOfLine(key: string, value: string, rest: string)
    requires NoChar(key, '=') && NoChar(value, '\n')
    ensures Field(key + "=" + value + "\n" + rest) == Ok(value)
  {
    var line := key + "=" + value + "\n" + rest;
    assert line[|key|] == '=';
    assert line[..|key|] == key;
    IndexOfFirst(line, '=', |key|);
    var after := line[|key| + 1..];
    assert after == value + "\n" + rest;
    assert after[..|value|] == value;
    IndexOfFirst(after, '\n', |value|);
  }

  lemma IndexOfFirst(s: string, c: char, p: nat)
    requires p < |s| && s[p] == c && NoChar(s[..p], c)
    ensures IndexOf(s, c) == Some(p)
  {
  }

  function Line(lines: seq<string>, i: nat): (r: Result<string>)
    ensures r.Ok? <==> i < |lines|
    ensures r.Ok? ==> r.value == lines[i]
  {
    if i < |lines| then Ok(lines[i]) else Raise(IndexError("list index out of range"))
  }

  /** `int(re.search('=(.*)\n', lines[i]).group(1))`. */
  function IntField(lines: seq<string>, i: nat): Result<int> {
    var line :- Line(lines, i);
    var text :- Field(line);
    ParseInt(text)
  }

  /** `get_mdksim_id`: the value of the first line of `config1.txt`. */
  function SimId(lines: seq<string>): (r: Result<string>)
    ensures |lines| == 0 ==> r == Raise(IndexError("list index out of range"))
    ensures |lines| > 0 ==> r == Field(lines[0])
  {
    var line :- Line(lines, 0);
    Field(line)
  }

  /** The year of `config1.txt`: line 7 holds two digits, read with "20"
      in front. */
  function YearField(lines: seq<string>): Result<int> {
    var line :- Line(lines, 7);
    var yy :- Field(line);
    ParseInt("20" + yy)
  }

  lemma YearFieldCentury(lines: seq<string>, yy: nat)
    requires yy < 100 && |lines| > 7 && Field(lines[7]) == Ok(Digits(yy, 2))
    ensures YearField(lines) == Ok(2000 + yy)
  {
    CenturyPrefix(yy);
  }

  lemma IntFieldIs(lines: seq<string>, i: nat, s: string)
    requires i < |lines| && Field(lines[i]) == Ok(s)
    ensures IntField(lines, i) == ParseInt(s)
  {
  }

  /** `get_mdksim_date` of the pipeline library, reading `config1.txt`: the
      run length from columns 11-14 of line 1, day, month, two-digit year
      (prefixed with "20"), hour and minutes from lines 5-9. Line 3 is
      looked at but not used; the minutes are parsed but not used. */
  function MdkSimDateFromConfig(lines: seq<string>): Result<seq<real>> {
    var unused :- Line(lines, 3);
    var n :- ParseInt(Slice(lines[1], 11, 15));
    var dd :- IntField(lines, 5);
    var mm :- IntField(lines, 6);
    var year :- YearField(lines);
    var hh :- IntField(lines, 8);
    var mmin :- IntField(lines, 9);
    var start :- Ordinal(year, mm, dd);
    Ok(Timeline(start, hh, n))
  }

  /** A `config1.txt` whose fields all read well gives the timeline of its
      start day, in year 2000 + yy. */
  lemma ConfigTimeline(lines: seq<string>, year: int, m: int, d: int, h: int, n: int)
    requires |lines| >= 10 && ParseInt(Slice(lines[1], 11, 15)) == Ok(n)
    requires IntField(lines, 5) == Ok(d) && IntField(lines, 6) == Ok(m) && YearField(lines) == Ok(year)
    requires IntField(lines, 8) == Ok(h) && IntField(lines, 9).Ok? && ValidDate(year, m, d)
    ensures MdkSimDateFromConfig(lines) == Ok(Timeline(Ordinal(year, m, d).value, h, n))
  {
  }

  // ---------------------------------------------------------------------
  // Experiment identifier
  // ---------------------------------------------------------------------

  /** `get_xp_identifier`: the simulation identifier, '_', the one-based
      snapshot number in at least two digits, and "h_". */
  function XpIdentifier(simId: string, timeIndex: nat): (x: string)
    ensures |x| >= |simId| + 5
    ensures x[..|simId|] == simId && x[|simId|] == '_'
    ensures x[|x| - 2..] == "h_"
  {
    simId + "_" + Pad2(timeIndex + 1) + "h_"
  }

  /** The snapshot number can be read back from an experiment identifier. */
  lemma XpIdentifierHour(simId: string, timeIndex: nat)
    ensures ParseInt(XpIdentifier(simId, timeIndex)[|simId| + 1..|XpIdentifier(simId, timeIndex)| - 2]) == Ok(timeIndex + 1)
  {
    var x := XpIdentifier(simId, timeIndex);
    assert x[|simId| + 1..|x| - 2] == Pad2(timeIndex + 1);
    ParsePad2(timeIndex + 1);
  }
}
