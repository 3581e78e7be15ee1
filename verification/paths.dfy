/** The names the workflow gives its directories and files, and the text of
    the result file: the simulation string, the result directory, the
    detection directories, the result file with its header and appended
    rows, and the observation and simulator-output paths. Configuration
    values enter as the text `str()` gives them; the timestamp is fixed
    once when the module is imported and is a parameter here. */
module Paths {
  import opened Base
  import opened Text

  // ---------------------------------------------------------------------
  // os.path.join
  // ---------------------------------------------------------------------

  /** POSIX `os.path.join(a, b)`: an absolute b replaces a; otherwise a
      separator is inserted unless a is empty or already ends with one. */
  function PathJoin(a: string, b: string): (p: string)
    ensures |b| > 0 && b[0] == '/' ==> p == b
  {
    if |b| > 0 && b[0] == '/' then b
    else if |a| == 0 || a[|a| - 1] == '/' then a + b
    else a + "/" + b
  }

  /** The last '/'-separated piece of a path. */
  function Basename(p: string): string {
    var parts := Split(p, '/');
    parts[|parts| - 1]
  }

  /** Joining a relative name keeps the base in front and makes the name
      the last piece of the path. */
  lemma JoinedUnder(a: string, b: string)
    requires |b| > 0 && NoChar(b, '/')
    ensures PathJoin(a, b)[..|a|] == a
    ensures Basename(PathJoin(a, b)) == b
  {
    SplitFree(b, '/');
    if |a| == 0 {
    } else if a[|a| - 1] == '/' {
      var front := a[..|a| - 1];
      assert a + b == front + ['/'] + b;
      SplitAround(front, b, '/');
    } else {
      assert a + "/" + b == a + ['/'] + b;
      SplitAround(a, b, '/');
    }
  }

  // ---------------------------------------------------------------------
  // Simulation string and result directory
  // ---------------------------------------------------------------------

  /** The configured run, each value as `str()` renders it. */
  datatype Run = Run(year: string, month: string, day: string, hour: string, minutes: string,
                     duration: string, gridSize: string, nparticles: string, simName: string)

  /** The '_'-separated pieces of the simulation string, in order. */
  function SimPieces(r: Run, stamp: string): (ps: seq<string>)
    ensures |ps| == 12
  {
    ["MDK", "BAYESOPT", "SIM", "20" + r.year, r.month, r.day, r.hour + r.minutes,
     r.duration + "h", r.gridSize + "m", r.nparticles, r.simName, stamp]
  }

  /** `get_sim_str`: MDK_BAYESOPT_SIM_20{year}_{month}_{day}_{hour}{minutes}_
      {duration}h_{grid_size}m_{nparticles}_{sim_name}_{timestamp}, which is
      the twelve pieces above with "_" between them. */
  function SimStr(r: Run, stamp: string): string {
    Join(SimPieces(r, stamp), "_")
  }

  predicate Plain(r: Run, stamp: string) {
    forall i :: 0 <= i < 12 ==> NoChar(SimPieces(r, stamp)[i], '_')
  }

  /** When no configured value holds an underscore the simulation string
      splits back into its twelve fields: the year with its "20" prefix,
      hour and minutes glued, the duration with "h", the grid size with
      "m", and the timestamp last. */
  lemma SimStrFields(r: Run, stamp: string)
    requires Plain(r, stamp)
    ensures Split(SimStr(r, stamp), '_') == SimPieces(r, stamp)
  {
    SplitJoin(SimPieces(r, stamp), '_');
  }

  /** `get_sim_result_dir`: cases / sim_name / simulation string. */
  function ResultDir(cases: string, r: Run, stamp: string): string {
    PathJoin(PathJoin(cases, r.simName), SimStr(r, stamp))
  }

  /** `get_detection_dir`: the result directory joined with
      "detection_" + str(obs). */
  function DetectionDir(resultDir: string, obs: nat): string {
    PathJoin(resultDir, "detection_" + NatToString(obs))
  }

  /** Detection directories sit under the result directory, and different
      observation counters name different directories. */
  lemma DetectionDirsDistinct(resultDir: string, a: nat, b: nat)
    ensures DetectionDir(resultDir, a)[..|resultDir|] == resultDir
    ensures Basename(DetectionDir(resultDir, a)) == "detection_" + NatToString(a)
    ensures a != b ==> DetectionDir(resultDir, a) != DetectionDir(resultDir, b)
  {
    DetectionName(a);
    DetectionName(b);
    JoinedUnder(resultDir, "detection_" + NatToString(a));
    JoinedUnder(resultDir, "detection_" + NatToString(b));
    if a != b {
      NamesDiffer(a, b);
    }
  }

  lemma NamesDiffer(a: nat, b: nat)
    requires a != b
    ensures "detection_" + NatToString(a) != "detection_" + NatToString(b)
  {
    ParseNatToString(a);
    ParseNatToString(b);
    assert NatToString(a) != NatToString(b);
    assert ("detection_" + NatToString(a))[10..] == NatToString(a);
    assert ("detection_" + NatToString(b))[10..] == NatToString(b);
  }

  lemma DetectionName(n: nat)
    ensures |"detection_" + NatToString(n)| > 0 && NoChar("detection_" + NatToString(n), '/')
  {
    var s := "detection_" + NatToString(n);
    forall i | 0 <= i < |s|
      ensures s[i] != '/'
    {
      if i >= 10 {
        assert s[i] == NatToString(n)[i - 10];
      }
    }
  }

  // ---------------------------------------------------------------------
  // The result file
  // ---------------------------------------------------------------------

  /** The one file name used by create, append and lookup. */
  function ResultFile(resultDir: string, stamp: string): string {
    PathJoin(resultDir, "final_result_" + stamp + ".csv")
  }

  /** The header columns: the configured keys in reverse order, then FSS. */
  function HeaderColumns(keys: seq<string>): (cols: seq<string>)
    ensures |cols| == |keys| + 1 && cols[|keys|] == "FSS"
    ensures forall i :: 0 <= i < |keys| ==> cols[i] == keys[|keys| - 1 - i]
  {
    Reverse(keys) + ["FSS"]
  }

  /** `create_final_result_file_and_result_dir`: the header, no newline. */
  function Header(keys: seq<string>): string {
    Join(HeaderColumns(keys), ",")
  }

  /** `write_final_result_file`: a newline, then the comma-joined values. */
  function Row(values: seq<string>): string {
    "\n" + Join(values, ",")
  }

  /** The file after the header and the given rows were written. */
  function FileText(keys: seq<string>, rows: seq<seq<string>>): string
    decreases |rows|
  {
    if |rows| == 0 then Header(keys) else FileText(keys, rows[..|rows| - 1]) + Row(rows[|rows| - 1])
  }

  predicate CommaFree(xs: seq<string>) {
    forall i :: 0 <= i < |xs| ==> NoChar(xs[i], ',') && NoChar(xs[i], '\n')
  }

  /** Without commas in the keys, the header reads back as the reversed
      keys followed by FSS. */
  lemma HeaderReadsBack(keys: seq<string>)
    requires CommaFree(keys)
    ensures Split(Header(keys), ',') == HeaderColumns(keys)
  {
    var cols := HeaderColumns(keys);
    assert forall i :: 0 <= i < |cols| ==> NoChar(cols[i], ',') by {
      forall i | 0 <= i < |cols|
        ensures NoChar(cols[i], ',')
      {
        if i < |keys| {
          assert cols[i] == keys[|keys| - 1 - i];
        }
      }
    }
    SplitJoin(cols, ',');
  }

  /** Read back line by line, the file is the header line followed by one
      line per written row, in order. */
  lemma {:induction false} FileLines(keys: seq<string>, rows: seq<seq<string>>)
    requires CommaFree(keys)
    requires forall i :: 0 <= i < |rows| ==> CommaFree(rows[i])
    ensures var lines := Split(FileText(keys, rows), '\n');
            |lines| == |rows| + 1 && lines[0] == Header(keys)
            && forall i :: 0 <= i < |rows| ==> lines[i + 1] == Join(rows[i], ",")
    decreases |rows|
  {
    if |rows| == 0 {
      HeaderFree(keys);
      SplitFree(Header(keys), '\n');
    } else {
      var front := rows[..|rows| - 1];
      var last := rows[|rows| - 1];
      FileLines(keys, front);
      JoinFree(last, ",", '\n');
      SplitFree(Join(last, ","), '\n');
      assert FileText(keys, rows) == FileText(keys, front) + ['\n'] + Join(last, ",");
      SplitAround(FileText(keys, front), Join(last, ","), '\n');
    }
  }

  lemma HeaderFree(keys: seq<string>)
    requires CommaFree(keys)
    ensures NoChar(Header(keys), '\n')
  {
    var cols := HeaderColumns(keys);
    forall i | 0 <= i < |cols|
      ensures NoChar(cols[i], '\n')
    {
      if i < |keys| {
        assert cols[i] == keys[|keys| - 1 - i];
      }
    }
    JoinFree(cols, ",", '\n');
  }

  // ---------------------------------------------------------------------
  // Observation and output paths, the cases directory
  // ---------------------------------------------------------------------

  /** `get_OBS`: obs root / sim_name / observations_20{y}_{m}_{d}_{h}{min}. */
  function ObsDir(obsRoot: string, r: Run): string {
    PathJoin(PathJoin(obsRoot, r.simName), ObsName(r))
  }

  function ObsName(r: Run): string {
    "observations_20" + r.year + "_" + r.month + "_" + r.day + "_" + r.hour + r.minutes
  }

  /** `get_MEDSLIK_OUT_DIR`: output root / MDK_SIM_20{y}_{m}_{d}_{h}{min}_{sim_name}. */
  function OutDir(outRoot: string, r: Run): string {
    PathJoin(outRoot, OutName(r))
  }

  function OutName(r: Run): string {
    "MDK_SIM_20" + r.year + "_" + r.month + "_" + r.day + "_" + r.hour + r.minutes + "_" + r.simName
  }

  /** The run's observation folder and output folder are named by the same
      start fields: both names carry "20" + year, month, day and hour
      followed by minutes, and the output name ends with the run name. */
  lemma NamesShareStart(r: Run)
    ensures var stem := "20" + r.year + "_" + r.month + "_" + r.day + "_" + r.hour + r.minutes;
            ObsName(r) == "observations_" + stem && OutName(r) == "MDK_SIM_" + stem + "_" + r.simName
  {
  }

  /** Python `repr()` of a string, for the characters that matter here:
      single quotes unless the text holds a single quote and no double
      quote; backslash, the chosen quote, newline, carriage return and tab
      escaped. */
  function Repr(s: string): string {
    var q := if Has(s, '\'') && !Has(s, '"') then '"' else '\'';
    [q] + Escape(s, q) + [q]
  }

  predicate Has(s: string, c: char) {
    exists i :: 0 <= i < |s| && s[i] == c
  }

  function Escape(s: string, q: char): (e: string)
    ensures |e| >= |s|
  {
    if |s| == 0 then ""
    else
      var c := s[0];
      var head := if c == '\\' then "\\\\" else if c == q then ['\\', q] else if c == '\n' then "\\n"
                  else if c == '\r' then "\\r" else if c == '\t' then "\\t" else [c];
      head + Escape(s[1..], q)
  }

  /** `create_cases_dir` AS WRITTEN: the f-string formats the tuple
      (cases, sim_name), so the directory is named by the tuple's text. */
  function CasesDirAsWritten(cases: string, simName: string): string {
    "(" + Repr(cases) + ", " + Repr(simName) + ")"
  }

  /** The directory the rest of the workflow uses: cases / sim_name. */
  function CasesDir(cases: string, simName: string): string {
    PathJoin(cases, simName)
  }

  /** For an absolute cases path the tuple-named directory is a relative
      path starting with "(", so it is never the cases / sim_name directory
      in which the results are written. */
  lemma CasesDirIsTupleText(cases: string, simName: string)
    requires |cases| > 0 && cases[0] == '/'
    ensures CasesDirAsWritten(cases, simName)[0] == '('
    ensures CasesDir(cases, simName)[0] == '/'
    ensures CasesDirAsWritten(cases, simName) != CasesDir(cases, simName)
  {
  }

  /** The corrected directory lies under the cases path, named by the run. */
  lemma CasesDirUnderCases(cases: string, simName: string)
    requires |simName| > 0 && NoChar(simName, '/')
    ensures CasesDir(cases, simName)[..|cases|] == cases
    ensures Basename(CasesDir(cases, simName)) == simName
  {
    JoinedUnder(cases, simName);
  }

  /** The result directory lies under the corrected cases directory. */
  lemma ResultDirUnderCases(cases: string, r: Run, stamp: string)
    requires Plain(r, stamp) && |r.simName| > 0 && NoChar(r.simName, '/')
    ensures ResultDir(cases, r, stamp)[..|CasesDir(cases, r.simName)|] == CasesDir(cases, r.simName)
  {
    assert SimStr(r, stamp)[0] == 'M';
  }
}
