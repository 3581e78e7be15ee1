/** The execution service: the rewriter that fills the simulator's
    parameter template with the optimiser's values, and the decision to keep
    the detections of a new best run. Compiling and running the simulator
    are processes and are left out. */
module Execution {
  import opened Base
  import opened Text
  import opened Dates
  import opened Paths
  import opened MultiFss

  // ---------------------------------------------------------------------
  // Template lines
  // ---------------------------------------------------------------------

  /** One `config_dict` item: the key and the text `f'{v}'` gives its
      value. */
  datatype Entry = Entry(key: string, value: string)

  /** `line.split(' ')[0]`. */
  function FirstToken(line: string): string {
    Split(line, ' ')[0]
  }

  /** `s.replace('.', '', 1)`. */
  function DropFirstDot(s: string): (r: string)
    ensures |r| + 1 >= |s|
    ensures forall i :: 0 <= i < |r| ==> exists j :: 0 <= j < |s| && s[j] == r[i]
  {
    match IndexOf(s, '.')
    case None => s
    case Some(p) =>
      var r := s[..p] + s[p + 1..];
      assert forall i :: 0 <= i < |r| ==> r[i] == if i < p then s[i] else s[i + 1];
      r
  }

  /** `str.isdigit()` on ASCII text: non-empty and all digits. */
  predicate IsDigitText(s: string) {
    |s| > 0 && AllDigits(s)
  }

  /** A template line holds a number when its first token, with at most one
      '.' removed, is all digits. */
  predicate NumericLine(line: string) {
    IsDigitText(DropFirstDot(FirstToken(line)))
  }

  /** `re.findall(r'\s+', line)[0]`: the first run of whitespace, None when
      the line has none. */
  function FirstRun(s: string): (r: Option<string>)
    ensures r.Some? ==> |r.value| > 0 && forall i :: 0 <= i < |r.value| ==> IsSpace(r.value[i])
    ensures r.None? ==> forall i :: 0 <= i < |s| ==> !IsSpace(s[i])
    decreases |s|
  {
    if |s| == 0 then None
    else if IsSpace(s[0]) then Some(SpaceRun(s))
    else FirstRun(s[1..])
  }

  /** The whitespace at the front of s. */
  function SpaceRun(s: string): (r: string)
    ensures |r| <= |s| && s[..|r|] == r
    ensures forall i :: 0 <= i < |r| ==> IsSpace(r[i])
    decreases |s|
  {
    if |s| > 0 && IsSpace(s[0]) then [s[0]] + SpaceRun(s[1..]) else ""
  }

  /** The first key, in dict order, that occurs in the line. */
  function FirstKey(entries: seq<Entry>, line: string): (r: Option<nat>)
    ensures r.Some? ==> r.value < |entries| && Contains(line, entries[r.value].key)
                        && forall j :: 0 <= j < r.value ==> !Contains(line, entries[j].key)
    ensures r.None? ==> forall j :: 0 <= j < |entries| ==> !Contains(line, entries[j].key)
  {
    if |entries| == 0 then None
    else if Contains(line, entries[0].key) then Some(0)
    else
      match FirstKey(entries[1..], line)
      case None => None
      case Some(i) =>
        assert forall j :: 1 <= j < |entries| ==> entries[j] == entries[1..][j - 1];
        Some(i + 1)
  }

  const NoRun := "list index out of range"

  /** One iteration of the template loop: a numeric line holding a key is
      replaced by `f'{v}{nspaces[0]}{k}\n'` for the first such key; every
      other line is copied. A numeric line without any whitespace has no
      run to index, which raises IndexError. */
  function RewriteLine(entries: seq<Entry>, line: string): (r: Result<string>)
    ensures !NumericLine(line) ==> r == Ok(line)
    ensures FirstKey(entries, line).None? ==> r == Ok(line)
    ensures r.Raise? ==> r.exc == IndexError(NoRun) && NumericLine(line) && FirstKey(entries, line).Some?
                         && FirstRun(line).None?
  {
    if !NumericLine(line) then Ok(line)
    else
      match FirstKey(entries, line)
      case None => Ok(line)
      case Some(i) =>
        match FirstRun(line)
        case None => Raise(IndexError(NoRun))
        case Some(ws) => Ok(entries[i].value + ws + entries[i].key + "\n")
  }

  /** The first token of a numeric line holds no whitespace at all. */
  lemma NumericTokenHasNoSpace(line: string)
    requires NumericLine(line)
    ensures forall i :: 0 <= i < |FirstToken(line)| ==> !IsSpace(FirstToken(line)[i])
  {
    var t := FirstToken(line);
    var d := DropFirstDot(t);
    forall i | 0 <= i < |t|
      ensures !IsSpace(t[i])
    {
      if t[i] != '.' {
        DigitOrDot(t, i);
      }
    }
  }

  /** Apart from the first '.', every character of t survives the removal. */
  lemma DigitOrDot(t: string, i: nat)
    requires i < |t| && t[i] != '.' && IsDigitText(DropFirstDot(t))
    ensures IsDigit(t[i])
  {
    var d := DropFirstDot(t);
    match IndexOf(t, '.')
    case None =>
    case Some(p) =>
      if i < p {
        assert d[i] == t[i];
      } else {
        assert i > p && d[i - 1] == t[i];
      }
  }

  /** Skipping a space-free front does not change the first run. */
  lemma {:induction false} FirstRunSkips(s: string, k: nat)
    requires k <= |s| && forall i :: 0 <= i < k ==> !IsSpace(s[i])
    ensures FirstRun(s) == FirstRun(s[k..])
    decreases k
  {
    if k > 0 {
      FirstRunSkips(s[1..], k - 1);
      assert s[1..][k - 1..] == s[k..];
    }
  }

  /** On a numeric line the first whitespace run starts with the space that
      ends the first token; there is none exactly when the line holds no
      space. */
  lemma NumericRun(line: string)
    requires NumericLine(line)
    ensures FirstRun(line).None? <==> NoChar(line, ' ')
    ensures FirstRun(line).Some? ==> FirstRun(line).value[0] == ' '
  {
    var t := FirstToken(line);
    SplitFirstPiece(line, ' ');
    NumericTokenHasNoSpace(line);
    assert forall i :: 0 <= i < |t| ==> line[i] == t[i];
    FirstRunSkips(line, |t|);
    if |t| < |line| {
      var rest := line[|t|..];
      assert rest[0] == ' ';
      assert FirstRun(rest) == Some(SpaceRun(rest));
    } else {
      assert line == t;
    }
  }

  /** A rewritten line begins with the new value as its first token (for a
      value without spaces), keeps the template's whitespace run, and ends
      with the key; no earlier key of the dict occurs in the template
      line. */
  lemma RewrittenLine(entries: seq<Entry>, line: string)
    requires NumericLine(line) && FirstKey(entries, line).Some? && !NoChar(line, ' ')
    ensures var i := FirstKey(entries, line).value;
            var ws := FirstRun(line).value;
            && RewriteLine(entries, line) == Ok(entries[i].value + ws + entries[i].key + "\n")
            && ws[0] == ' '
            && (forall j :: 0 <= j < i ==> !Contains(line, entries[j].key))
            && (NoChar(entries[i].value, ' ') ==> FirstToken(RewriteLine(entries, line).value) == entries[i].value)
  {
    NumericRun(line);
    var i := FirstKey(entries, line).value;
    var ws := FirstRun(line).value;
    var v := entries[i].value;
    var out := v + ws + entries[i].key + "\n";
    if NoChar(v, ' ') {
      SplitFirstPiece(out, ' ');
      var t := FirstToken(out);
      assert out[|v|] == ' ';
      assert out[..|v|] == v;
    }
  }

  // ---------------------------------------------------------------------
  // The whole template
  // ---------------------------------------------------------------------

  /** The lines written so far and the exception that stopped the loop, if any. */
  datatype Pass = Pass(written: seq<string>, stop: Option<Exc>)

  /** The loop over the template lines with `step` for one iteration:
      lines are written in order until a step raises. */
  function RewriteAll(step: string -> Result<string>, lines: seq<string>): (p: Pass)
    ensures p.stop.None? ==> |p.written| == |lines|
    ensures p.stop.Some? ==> |p.written| < |lines| && step(lines[|p.written|]) == Raise(p.stop.value)
    ensures forall i :: 0 <= i < |p.written| ==> step(lines[i]) == Ok(p.written[i])
    decreases |lines|
  {
    if |lines| == 0 then Pass([], None)
    else
      match step(lines[0])
      case Raise(e) => Pass([], Some(e))
      case Ok(out) =>
        var rest := RewriteAll(step, lines[1..]);
        assert forall i :: 1 <= i < |lines| ==> lines[i] == lines[1..][i - 1];
        Pass([out] + rest.written, rest.stop)
  }

  const UpdatePrefix := "Error during configuration update: "

  /** What `update_config2_impl` leaves in the destination file and how it
      ends. `template` is the template's lines, or what reading it raised. */
  datatype UpdateReport = UpdateReport(written: seq<string>, outcome: Result<()>)

  function UpdateConfig2(entries: seq<Entry>, template: Result<seq<string>>): (r: UpdateReport)
    ensures template.Raise? ==> r == UpdateReport([], Raise(UpdateConfigException(UpdatePrefix + Describe(template.exc))))
    ensures r.outcome.Raise? ==> r.outcome.exc.UpdateConfigException?
                                 && UpdatePrefix <= r.outcome.exc.msg
    ensures template.Ok? && r.outcome.Ok? ==>
              |r.written| == |template.value|
              && forall i :: 0 <= i < |r.written| ==> RewriteLine(entries, template.value[i]) == Ok(r.written[i])
  {
    match template
    case Raise(e) => UpdateReport([], Raise(UpdateConfigException(UpdatePrefix + Describe(e))))
    case Ok(lines) =>
      var p := RewriteAll(line => RewriteLine(entries, line), lines);
      match p.stop
      case None => UpdateReport(p.written, Ok(()))
      case Some(e) => UpdateReport(p.written, Raise(UpdateConfigException(UpdatePrefix + Describe(e))))
  }

  /** The rewrite fails only at a numeric line that holds a key and no
      space; every line before it has been written. */
  lemma UpdateFailsOnlyAtBareNumber(entries: seq<Entry>, lines: seq<string>)
    requires UpdateConfig2(entries, Ok(lines)).outcome.Raise?
    ensures var r := UpdateConfig2(entries, Ok(lines));
            var k := |r.written|;
            && k < |lines| && NumericLine(lines[k]) && FirstKey(entries, lines[k]).Some? && NoChar(lines[k], ' ')
            && r.outcome.exc == UpdateConfigException(UpdatePrefix + NoRun)
  {
    var p := RewriteAll(line => RewriteLine(entries, line), lines);
    NumericRun(lines[|p.written|]);
  }

  /** A template whose numeric lines all hold a space is rewritten in full,
      one output line per template line. */
  lemma UpdateSucceeds(entries: seq<Entry>, lines: seq<string>)
    requires forall i :: 0 <= i < |lines| && NumericLine(lines[i]) ==> !NoChar(lines[i], ' ')
    ensures UpdateConfig2(entries, Ok(lines)).outcome.Ok?
    ensures |UpdateConfig2(entries, Ok(lines)).written| == |lines|
  {
    var p := RewriteAll(line => RewriteLine(entries, line), lines);
    if p.stop.Some? {
      NumericRun(lines[|p.written|]);
    }
  }

  // ---------------------------------------------------------------------
  // Keeping the best detections
  // ---------------------------------------------------------------------

  /** The first position of a column name in the header. */
  function ColumnIndex(header: seq<string>, name: string): (r: Option<nat>)
    ensures r.Some? ==> r.value < |header| && header[r.value] == name
                        && forall j :: 0 <= j < r.value ==> header[j] != name
    ensures r.None? ==> name !in header
  {
    if |header| == 0 then None
    else if header[0] == name then Some(0)
    else
      match ColumnIndex(header[1..], name)
      case None => None
      case Some(i) => Some(i + 1)
  }

  /** `pd.read_csv(...)[name]`: the named column of the result table (a
      short row reads NaN); a name not in the header raises KeyError. */
  function Column(header: seq<string>, rows: seq<seq<Num>>, name: string): (r: Result<seq<Num>>)
    ensures r.Raise? <==> name !in header
    ensures r.Raise? ==> r.exc == KeyError(name)
    ensures r.Ok? ==> |r.value| == |rows|
  {
    match ColumnIndex(header, name)
    case None => Raise(KeyError(name))
    case Some(c) => Ok(seq(|rows|, i requires 0 <= i < |rows| => if c < |rows[i]| then rows[i][c] else NaN))
  }

  const NoneCompare := "'>' not supported between instances of 'NoneType' and 'float'"

  /** `value > max_fss or pd.isna(max_fss)`: a None value cannot be
      compared; NaN compares false; a NaN maximum always lets the copy
      happen. */
  function Improves(value: Option<Num>, best: Num): (r: Result<bool>)
    ensures r.Raise? <==> value.None?
    ensures r.Ok? ==> (r.value <==> best.NaN? || (value.value.Num? && value.value.v > best.v))
  {
    match value
    case None => Raise(TypeError(NoneCompare))
    case Some(NaN) => Ok(best.NaN?)
    case Some(Num(x)) => Ok(best.NaN? || x > best.v)
  }

  /** The decision of `save_best_detection_impl` reading the given column. */
  function SaveBestFrom(header: seq<string>, rows: seq<seq<Num>>, value: Option<Num>, name: string): Result<bool> {
    var col :- Column(header, rows, name);
    Improves(value, MaxSkipNaN(col))
  }

  /** AS WRITTEN: the maximum of the 'Metric' column. */
  function SaveBestAsWritten(header: seq<string>, rows: seq<seq<Num>>, value: Option<Num>): (r: Result<bool>)
    ensures "Metric" !in header ==> r == Raise(KeyError("Metric"))
  {
    SaveBestFrom(header, rows, value, "Metric")
  }

  /** Reading the column the result file actually has: 'FSS'. */
  function SaveBest(header: seq<string>, rows: seq<seq<Num>>, value: Option<Num>): (r: Result<bool>)
    ensures "FSS" in header ==> (r.Raise? <==> value.None?)
  {
    SaveBestFrom(header, rows, value, "FSS")
  }

  /** The result file's header never has a 'Metric' column unless a
      parameter is called so: the lookup as written always raises KeyError,
      which the service lets through. */
  lemma SaveBestAsWrittenRaises(keys: seq<string>, rows: seq<seq<Num>>, value: Option<Num>)
    requires "Metric" !in keys
    ensures SaveBestAsWritten(HeaderColumns(keys), rows, value) == Raise(KeyError("Metric"))
  {
    var h := HeaderColumns(keys);
    assert "Metric" !in h by {
      forall i | 0 <= i < |h|
        ensures h[i] != "Metric"
      {
        if i < |keys| {
          assert h[i] == keys[|keys| - 1 - i];
        }
      }
    }
  }

  /** The FSS column is the last column of the header. */
  function FssScores(keys: seq<string>, rows: seq<seq<Num>>): seq<Num> {
    seq(|rows|, i requires 0 <= i < |rows| => if |keys| < |rows[i]| then rows[i][|keys|] else NaN)
  }

  /** Reading 'FSS', a numeric score is kept exactly when it beats every
      numeric score already in the file (in particular when there is
      none); a NaN score is kept exactly when the file holds no number. */
  lemma SaveBestIsNewRecord(keys: seq<string>, rows: seq<seq<Num>>, x: Num)
    requires "FSS" !in keys
    ensures var scores := FssScores(keys, rows);
            SaveBest(HeaderColumns(keys), rows, Some(x)).Ok?
            && (SaveBest(HeaderColumns(keys), rows, Some(x)).value <==>
                  (x.Num? && forall i :: 0 <= i < |scores| && scores[i].Num? ==> x.v > scores[i].v)
                  || (forall i :: 0 <= i < |scores| ==> scores[i].NaN?))
  {
    var h := HeaderColumns(keys);
    assert ColumnIndex(h, "FSS") == Some(|keys|) by {
      FssLast(keys);
    }
    var scores := FssScores(keys, rows);
    assert Column(h, rows, "FSS") == Ok(scores);
    var m := MaxSkipNaN(scores);
    if m.Num? && x.Num? && x.v > m.v {
      assert forall i :: 0 <= i < |scores| && scores[i].Num? ==> x.v > scores[i].v;
    }
  }

  lemma FssLast(keys: seq<string>)
    requires "FSS" !in keys
    ensures ColumnIndex(HeaderColumns(keys), "FSS") == Some(|keys|)
  {
    var h := HeaderColumns(keys);
    forall j | 0 <= j < |keys|
      ensures h[j] != "FSS"
    {
      assert h[j] == keys[|keys| - 1 - j];
    }
    assert h[|keys|] == "FSS";
  }
}
