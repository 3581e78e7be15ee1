/** The optimiser's screen log: a table whose cells are all twenty
    characters wide, a header line ruled with dashes, one line per step
    (shown in verbose mode 1 only when the step found a new maximum) and a
    closing line of '=' as long as the header. How a float is rendered with
    four significant digits is not modelled: a float cell starts from its
    rendered text. */
module ScreenLogger {
  import opened Base
  import opened Text

  const CellSize: nat := 20

  /** A number shown in a cell: an int, or a float by its rendered text. */
  datatype Value = IntV(i: int) | FloatV(text: string)

  function Rendered(x: Value): string {
    match x
    case IntV(i) => IntToString(i)
    case FloatV(t) => t
  }

  predicate Has(s: string, c: char) {
    exists i :: 0 <= i < |s| && s[i] == c
  }

  /** The cut applied to a cell longer than the cell size: a cell with a
      '.' is cut at the cell size, any other keeps 17 characters and gets
      "...". */
  function Fit(s: string): (r: string)
    ensures |r| == if |s| <= CellSize then |s| else CellSize
  {
    if |s| > CellSize then
      if Has(s, '.') then s[..CellSize] else s[..CellSize - 3] + "..."
    else s
  }

  /** `_format_number`. */
  function FormatNumber(x: Value): (r: string)
    ensures |r| == CellSize
  {
    Fit(PadRight(Rendered(x), CellSize))
  }

  /** A text cell's argument: an int, or a string. */
  datatype Label = IntL(i: int) | StrL(s: string)

  /** `_format_text`: a string is cut to twenty characters by the format's
      precision before it is padded, so the cut never applies to it. */
  function FormatText(x: Label): (r: string)
    ensures |r| == CellSize
  {
    match x
    case IntL(i) => Fit(PadRight(IntToString(i), CellSize))
    case StrL(s) => Fit(PadRight(if |s| <= CellSize then s else s[..CellSize], CellSize))
  }

  /** `_format_bool`: the single-letter branch is guarded by `5 > 20`. */
  function FormatBool(b: bool): (r: string)
    ensures |r| == CellSize
  {
    var word := if 5 > CellSize then (if b then "T" else "F") else (if b then "True" else "False");
    PadRight(word, CellSize)
  }

  /** `_format_key`: centred, then cut to the cell size. */
  function FormatKey(key: string): (r: string)
    ensures |r| == CellSize
  {
    var s := Center(key, CellSize);
    if |s| > CellSize then s[..CellSize] else s
  }

  /** A number whose text fits is shown whole, left-aligned; a longer one
      keeps its first twenty characters when it has a '.', otherwise its
      first seventeen followed by "...". */
  lemma NumberCell(x: Value)
    ensures var t := Rendered(x);
            var r := FormatNumber(x);
            && (|t| <= CellSize ==> r == PadRight(t, CellSize) && r[..|t|] == t
                                    && forall i :: |t| <= i < CellSize ==> r[i] == ' ')
            && (|t| > CellSize && Has(t, '.') ==> r == t[..CellSize])
            && (|t| > CellSize && !Has(t, '.') ==> r == t[..CellSize - 3] + "...")
  {
    var t := Rendered(x);
    var p := PadRight(t, CellSize);
    if |t| <= CellSize {
      if |t| < CellSize {
        assert forall i :: |t| <= i < CellSize ==> p[i] == Repeat(' ', CellSize - |t|)[i - |t|];
      }
    } else {
      assert p == t;
    }
  }

  /** An int cell never reaches the '.' cut: a long int is shown as its
      first seventeen digits and "...". */
  lemma LongIntEllipsis(i: int)
    requires |IntToString(i)| > CellSize
    ensures FormatNumber(IntV(i)) == IntToString(i)[..CellSize - 3] + "..."
  {
    var t := IntToString(i);
    assert !Has(t, '.') by {
      if i >= 0 {
        assert AllDigits(t);
      } else {
        assert t == "-" + NatToString(-i);
        assert AllDigits(NatToString(-i));
        assert forall j :: 1 <= j < |t| ==> t[j] == NatToString(-i)[j - 1];
      }
    }
    NumberCell(IntV(i));
  }

  /** A string label shows its first twenty characters, left-aligned. */
  lemma TextCell(s: string)
    ensures |s| <= CellSize ==> FormatText(StrL(s)) == PadRight(s, CellSize)
    ensures |s| > CellSize ==> FormatText(StrL(s)) == s[..CellSize]
    ensures FormatText(StrL(s))[..if |s| <= CellSize then |s| else CellSize] == if |s| <= CellSize then s else s[..CellSize]
  {
  }

  /** A bool always shows as the word True or False, never as one letter. */
  lemma BoolCell(b: bool)
    ensures FormatBool(b) == PadRight(if b then "True" else "False", CellSize)
    ensures FormatBool(b)[0] == (if b then 'T' else 'F') && FormatBool(b)[1] != ' '
  {
  }

  /** A key shorter than the cell sits in the middle, the odd space on the
      right; a longer one is cut to the cell size. */
  lemma KeyCell(key: string)
    ensures |key| < CellSize ==>
              var pad := CellSize - |key|;
              FormatKey(key) == Repeat(' ', pad / 2) + key + Repeat(' ', pad - pad / 2)
    ensures |key| >= CellSize ==> FormatKey(key) == key[..CellSize]
  {
    var s := Center(key, CellSize);
    if |key| < CellSize {
      var pad := CellSize - |key|;
      assert s == Repeat(' ', pad / 2) + key + Repeat(' ', pad - pad / 2);
      assert |s| == CellSize;
    } else {
      assert s == key;
    }
  }

  // ---------------------------------------------------------------------
  // Lines
  // ---------------------------------------------------------------------

  /** `"| " + " | ".join(cells) + " |"`. */
  function Line(cells: seq<string>): string {
    "| " + Join(cells, " | ") + " |"
  }

  predicate CellsFit(cells: seq<string>) {
    forall i :: 0 <= i < |cells| ==> |cells[i]| == CellSize
  }

  /** A line of n full cells is 23n + 1 characters long. */
  lemma LineLength(cells: seq<string>)
    requires |cells| > 0 && CellsFit(cells)
    ensures |Line(cells)| == 23 * |cells| + 1
  {
    JoinLength(cells);
  }

  lemma {:induction false} JoinLength(cells: seq<string>)
    requires |cells| > 0 && CellsFit(cells)
    ensures |Join(cells, " | ")| == 23 * |cells| - 3
    decreases |cells|
  {
    if |cells| > 1 {
      assert CellsFit(cells[1..]) by {
        assert forall i :: 0 <= i < |cells[1..]| ==> cells[1..][i] == cells[i + 1];
      }
      JoinLength(cells[1..]);
    }
  }

  /** The header's cells: iteration, target, the constraint flag when the
      problem is constrained, then one per parameter. */
  function HeaderCells(keys: seq<string>, constrained: bool): (cells: seq<string>)
    ensures |cells| == 2 + (if constrained then 1 else 0) + |keys|
    ensures CellsFit(cells)
  {
    [FormatText(StrL("iter")), FormatText(StrL("target"))]
    + (if constrained then [FormatKey("allowed")] else [])
    + seq(|keys|, i requires 0 <= i < |keys| => FormatText(StrL(keys[i])))
  }

  /** `_header`: the line, a newline, and as many dashes as the line is
      long; that length is what the logger keeps. */
  function Header(keys: seq<string>, constrained: bool): (r: (string, nat))
    ensures r.1 == 23 * (2 + (if constrained then 1 else 0) + |keys|) + 1
    ensures r.0 == Line(HeaderCells(keys, constrained)) + "\n" + Repeat('-', r.1)
  {
    var line := Line(HeaderCells(keys, constrained));
    LineLength(HeaderCells(keys, constrained));
    (line + "\n" + Repeat('-', |line|), |line|)
  }

  /** The step's cells: the iteration count plus one, the target, the
      constraint flag when constrained, then the parameter values in key
      order. */
  function StepCells(iterations: nat, target: Value, allowed: bool, params: seq<Value>, constrained: bool): (cells: seq<string>)
    ensures |cells| == 2 + (if constrained then 1 else 0) + |params|
    ensures CellsFit(cells)
  {
    [FormatNumber(IntV(iterations + 1)), FormatNumber(target)]
    + (if constrained then [FormatBool(allowed)] else [])
    + seq(|params|, i requires 0 <= i < |params| => FormatNumber(params[i]))
  }

  /** `_step`: the cells, each passed through the colour. */
  function StepLine(iterations: nat, target: Value, allowed: bool, params: seq<Value>, constrained: bool,
                    colour: string -> string): string
  {
    var cells := StepCells(iterations, target, allowed, params, constrained);
    Line(seq(|cells|, i requires 0 <= i < |cells| => colour(cells[i])))
  }

  /** Without colour codes a step line is exactly as long as the header
      line, so every column lines up under its heading. */
  lemma StepAlignsWithHeader(iterations: nat, target: Value, allowed: bool, params: seq<Value>,
                             keys: seq<string>, constrained: bool)
    requires |params| == |keys|
    ensures |StepLine(iterations, target, allowed, params, constrained, s => s)| == Header(keys, constrained).1
  {
    var cells := StepCells(iterations, target, allowed, params, constrained);
    assert seq(|cells|, i requires 0 <= i < |cells| => (s => s)(cells[i])) == cells;
    LineLength(cells);
  }

  // ---------------------------------------------------------------------
  // Reacting to the optimiser's events
  // ---------------------------------------------------------------------

  /** `_is_new_max`: no maximum yet is never new; the first maximum seen
      becomes the previous one and so is not new either; afterwards a
      maximum is new when it exceeds the previous one. Returns the answer
      and the previous maximum the logger keeps. */
  function IsNewMax(max: Option<real>, previous: Option<real>): (r: (bool, Option<real>))
    ensures r.0 <==> max.Some? && previous.Some? && max.value > previous.value
    ensures max.None? ==> r.1 == previous
    ensures max.Some? ==> r.1.Some? && r.1 == (if previous.None? then max else previous)
  {
    match max
    case None => (false, previous)
    case Some(m) =>
      var prev := if previous.None? then m else previous.value;
      (m > prev, Some(prev))
  }

  datatype Event = OptimizationStart | OptimizationStep | OptimizationEnd

  /** What the optimiser shows the logger at an event: the parameter names,
      its best target so far, and the latest point. */
  datatype Instance = Instance(keys: seq<string>, max: Option<real>, target: Value, allowed: bool, params: seq<Value>)

  /** The logger's own state; `iterations` belongs to the tracker it
      extends. */
  datatype Logger = Logger(verbose: int, constrained: bool, iterations: nat,
                           headerLength: Option<nat>, previousMax: Option<real>)

  const NoHeader := "can't multiply sequence by non-int of type 'NoneType'"

  /** `update` up to the tracker update: the text printed (nothing when
      verbose is 0) and the logger afterwards. Closing a log that never
      printed its header multiplies by None. */
  function Update(l: Logger, e: Event, inst: Instance, colour: bool -> string -> string): (r: Result<(string, Logger)>)
  {
    var lineAndState: Result<(string, Logger)> :=
      match e
      case OptimizationStart =>
        var (text, len) := Header(inst.keys, l.constrained);
        Ok((text + "\n", l.(headerLength := Some(len))))
      case OptimizationStep =>
        var (isNew, prev) := IsNewMax(inst.max, l.previousMax);
        var l' := l.(previousMax := prev);
        if l.verbose == 1 && !isNew then Ok(("", l'))
        else Ok((StepLine(l.iterations, inst.target, inst.allowed, inst.params, l.constrained, colour(isNew)) + "\n", l'))
      case OptimizationEnd =>
        match l.headerLength
        case None => Raise(TypeError(NoHeader))
        case Some(n) => Ok((Repeat('=', n) + "\n", l));
    var (line, l') :- lineAndState;
    Ok((if l.verbose != 0 then line else "", l'))
  }

  /** Starting prints the header and remembers its length, 23 per cell
      plus one; ending then prints a rule of '=' of that same length. */
  lemma StartThenEnd(l: Logger, inst: Instance, colour: bool -> string -> string)
    requires l.verbose != 0
    ensures var r := Update(l, OptimizationStart, inst, colour);
            var n := 23 * (2 + (if l.constrained then 1 else 0) + |inst.keys|) + 1;
            && r.Ok? && r.value.1.headerLength == Some(n)
            && r.value.0 == Header(inst.keys, l.constrained).0 + "\n"
            && Update(r.value.1, OptimizationEnd, inst, colour) == Ok((Repeat('=', n) + "\n", r.value.1))
  {
  }

  /** In verbose mode 1 a step that finds no new maximum prints nothing,
      and the first step after start never counts as one. */
  lemma QuietStep(l: Logger, inst: Instance, colour: bool -> string -> string)
    requires l.verbose == 1
    requires inst.max.None? || l.previousMax.None? || inst.max.value <= l.previousMax.value
    ensures Update(l, OptimizationStep, inst, colour).Ok?
    ensures Update(l, OptimizationStep, inst, colour).value.0 == ""
  {
  }

  /** With verbose 0 nothing is ever printed. */
  lemma SilentLogger(l: Logger, e: Event, inst: Instance, colour: bool -> string -> string)
    requires l.verbose == 0
    ensures Update(l, e, inst, colour).Ok? ==> Update(l, e, inst, colour).value.0 == ""
  {
  }
}
