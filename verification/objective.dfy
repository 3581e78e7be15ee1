/** The objective function the optimiser calls once per point: round the
    parameters, merge in the particle count, write the simulator's
    configuration, run the simulator, score the run by its best FSS, keep
    the best detections, and append the point and its score to the result
    file. The file system, the simulator and the scoring are inputs: the
    template's lines, what the FSS service returned, and the result table
    the best-detection step reads. Running the simulator is an effect that
    never raises: `run_model` catches every exception and returns a
    message. */
module Objective {
  import opened Base
  import opened Text
  import opened SimParams
  import Execution
  import Paths
  import Workflow

  /** What one call leaves behind, in order. */
  datatype Effect =
    | MakeCasesDir(dir: string)
    | WriteConfig(lines: seq<string>)
    | RunModel
    | KeepBest(copied: bool)
    | AppendRow(file: string, text: string)

  /** The world the objective runs in. */
  datatype Env = Env(
    cases: string, run: Paths.Run, stamp: string,
    template: Result<seq<string>>,
    fss: Option<Num>,
    configKeys: seq<string>, table: seq<seq<Num>>)

  datatype Outcome = Outcome(effects: seq<Effect>, result: Result<Option<Num>>)

  /** `str(FSS)`: None, a NaN, or the score's own text. */
  function FssText(fss: Option<Num>, showScore: real -> string): string {
    match fss
    case None => "None"
    case Some(NaN) => "nan"
    case Some(Num(x)) => showScore(x)
  }

  /** The row appended for a point: `str()` of the rounded parameter
      values in the optimiser's order, then the score. */
  function RowValues(args: Dict<string>, fss: Option<Num>, showScore: real -> string): (row: seq<string>)
    requires Valid(args)
    ensures |row| == |args.order| + 1 && row[|args.order|] == FssText(fss, showScore)
    ensures forall i :: 0 <= i < |args.order| ==> row[i] == args.at[args.order[i]]
  {
    seq(|args.order|, i requires 0 <= i < |args.order| => args.at[args.order[i]]) + [FssText(fss, showScore)]
  }

  /** Whether an exception of the best-detection step escapes: its service
      catches only WrongConfigurationException. */
  predicate Escapes(e: Exc) {
    !e.WrongConfigurationException?
  }

  /** The steps after the parameters are ready: the three fixed steps,
      then an escape from the best-detection service stops the call;
      otherwise the decision (when there is one) and the row follow and the
      score is returned. */
  function Stages(head: seq<Effect>, kept: Result<bool>, row: Effect, fss: Option<Num>): (o: Outcome)
  {
    if kept.Raise? && Escapes(kept.exc) then Outcome(head, Raise(kept.exc))
    else Outcome(head + (if kept.Ok? then [KeepBest(kept.value)] else []) + [row], Ok(fss))
  }

  /** The row effect for a point whose parameters all rounded. */
  function RowEffect<V>(kwargs: Dict<V>, shown: V -> Result<string>, env: Env, showScore: real -> string): Effect
    requires Valid(kwargs) && MapValues(kwargs, shown).Ok?
  {
    AppendRow(Paths.ResultFile(Paths.ResultDir(env.cases, env.run, env.stamp), env.stamp),
              Paths.Row(RowValues(MapValues(kwargs, shown).value, env.fss, showScore)))
  }

  /** The configuration lines written for the merged parameters. */
  function ConfigLines(config: Dict<string>, env: Env): seq<string>
    requires Valid(config)
  {
    Execution.UpdateConfig2(Workflow.EntriesOf(config), env.template).written
  }

  /** Whether a row was appended to the result file. */
  predicate Appends(es: seq<Effect>) {
    exists i :: 0 <= i < |es| && es[i].AppendRow?
  }

  /** The three steps every call with usable parameters takes, the first
      creating `casesDir`. */
  function Head(config: Dict<string>, env: Env, casesDir: string): (h: seq<Effect>)
    requires Valid(config)
    ensures |h| == 3 && h[0] == MakeCasesDir(casesDir) && Kind(h[1]) == 1 && h[2] == RunModel
    ensures !Appends(h)
  {
    [MakeCasesDir(casesDir), WriteConfig(ConfigLines(config, env)), RunModel]
  }

  /** `objective_function`, creating `casesDir` and looking the best
      detections up under `column`. */
  function ObjectiveWith<V, F>(kwargs: Dict<V>, rd: Rounding<V, F>, particles: Option<Dict<int>>,
                            env: Env, showScore: real -> string,
                            casesDir: string, column: string): (o: Outcome)
    requires Valid(kwargs) && (particles.Some? ==> Valid(particles.value))
    ensures o.result.Ok? ==> o.result.value == env.fss
  {
    match Workflow.SetupParams(kwargs, ConfigText(rd), particles)
    case Raise(e) => Outcome([], Raise(e))
    case Ok(config) =>
      RoundOnce(kwargs, rd);
      Stages(Head(config, env, casesDir), Execution.SaveBestFrom(Paths.HeaderColumns(env.configKeys), env.table, env.fss, column),
             RowEffect(kwargs, RowText(rd), env, showScore), env.fss)
  }

  /** A call whose parameters are usable is its stages. */
  lemma Unfold<V, F>(kwargs: Dict<V>, rd: Rounding<V, F>, particles: Option<Dict<int>>,
                  env: Env, showScore: real -> string,
                  casesDir: string, column: string)
    requires Valid(kwargs) && (particles.Some? ==> Valid(particles.value))
    requires Workflow.SetupParams(kwargs, ConfigText(rd), particles).Ok?
    ensures MapValues(kwargs, RowText(rd)).Ok?
    ensures ObjectiveWith(kwargs, rd, particles, env, showScore, casesDir, column)
            == Stages(Head(Workflow.SetupParams(kwargs, ConfigText(rd), particles).value, env, casesDir),
                      Execution.SaveBestFrom(Paths.HeaderColumns(env.configKeys), env.table, env.fss, column),
                      RowEffect(kwargs, RowText(rd), env, showScore), env.fss)
  {
  }

  /** The objective AS WRITTEN: the cases directory is named by the text
      of the tuple (cases, sim_name), and the best detections are looked up
      under the 'Metric' column. */
  function ObjectiveAsWritten<V, F>(kwargs: Dict<V>, rd: Rounding<V, F>, particles: Option<Dict<int>>,
                                 env: Env, showScore: real -> string): (o: Outcome)
    requires Valid(kwargs) && (particles.Some? ==> Valid(particles.value))
    ensures "Metric" !in env.configKeys ==> o.result.Raise?
  {
    ObjectiveWith(kwargs, rd, particles, env, showScore,
                  Paths.CasesDirAsWritten(env.cases, env.run.simName), "Metric")
  }

  /** The objective creating the cases / sim_name directory and reading
      the 'FSS' column the result file has. */
  function Objective<V, F>(kwargs: Dict<V>, rd: Rounding<V, F>, particles: Option<Dict<int>>,
                        env: Env, showScore: real -> string): (o: Outcome)
    requires Valid(kwargs) && (particles.Some? ==> Valid(particles.value))
    ensures o.result.Ok? ==> env.fss.Some? && o.result.value == env.fss
  {
    ObjectiveWith(kwargs, rd, particles, env, showScore,
                  Paths.CasesDir(env.cases, env.run.simName), "FSS")
  }

  // ---------------------------------------------------------------------
  // Properties
  // ---------------------------------------------------------------------

  /** The kind of an effect, for stating their order. */
  function Kind(e: Effect): nat {
    match e
    case MakeCasesDir(_) => 0
    case WriteConfig(_) => 1
    case RunModel => 2
    case KeepBest(_) => 3
    case AppendRow(_, _) => 4
  }

  /** Each kind of step at most once, in the source's order. */
  predicate InOrder(es: seq<Effect>) {
    forall i, j :: 0 <= i < j < |es| ==> Kind(es[i]) < Kind(es[j])
  }

  /** After the three fixed steps the effects keep rising in kind; a call
      that returns ends with its row. */
  lemma StagesOrder(head: seq<Effect>, kept: Result<bool>, row: Effect, fss: Option<Num>)
    requires |head| == 3 && Kind(head[0]) == 0 && Kind(head[1]) == 1 && Kind(head[2]) == 2 && Kind(row) == 4
    ensures var o := Stages(head, kept, row, fss);
            && |o.effects| >= 3 && o.effects[..3] == head
            && InOrder(o.effects)
            && (o.result.Ok? <==> Kind(o.effects[|o.effects| - 1]) == 4)
            && (o.result.Ok? ==> o.result.value == fss && o.effects[|o.effects| - 1] == row)
  {
    var o := Stages(head, kept, row, fss);
    assert forall i :: 0 <= i < |o.effects| ==> Kind(o.effects[i]) == (if i < 3 then i else if i == |o.effects| - 1 then 4 else 3);
  }

  /** The steps happen in the source's order, none twice; a call that
      returns has created the cases directory, written the configuration,
      run the simulator and appended its row, last. A call that stops
      before the simulator stops on the parameters and has done nothing. */
  lemma EffectOrder<V, F>(kwargs: Dict<V>, rd: Rounding<V, F>, particles: Option<Dict<int>>,
                       env: Env, showScore: real -> string,
                       casesDir: string, column: string)
    requires Valid(kwargs) && (particles.Some? ==> Valid(particles.value))
    ensures var o := ObjectiveWith(kwargs, rd, particles, env, showScore, casesDir, column);
            && InOrder(o.effects)
            && (o.effects == [] <==> Workflow.SetupParams(kwargs, ConfigText(rd), particles).Raise?)
            && (o.effects != [] ==> |o.effects| >= 3 && Kind(o.effects[0]) == 0 && Kind(o.effects[1]) == 1 && Kind(o.effects[2]) == 2)
            && (o.result.Ok? <==> o.effects != [] && Kind(o.effects[|o.effects| - 1]) == 4)
  {
    var sp := Workflow.SetupParams(kwargs, ConfigText(rd), particles);
    if sp.Ok? {
      var config := sp.value;
      Unfold(kwargs, rd, particles, env, showScore, casesDir, column);
      StagesOrder(Head(config, env, casesDir), Execution.SaveBestFrom(Paths.HeaderColumns(env.configKeys), env.table, env.fss, column),
                  RowEffect(kwargs, RowText(rd), env, showScore), env.fss);
    } else {
      assert ObjectiveWith(kwargs, rd, particles, env, showScore, casesDir, column) == Outcome([], Raise(sp.exc));
    }
  }

  /** The configuration written is the template rewritten with the merged
      parameters: the particle count under the particle key, every other
      parameter as `f'{v}'` of its rounded value, the parameters first in
      their own order. */
  lemma WritesMergedConfig<V, F>(kwargs: Dict<V>, rd: Rounding<V, F>, particles: Dict<int>,
                              env: Env, showScore: real -> string,
                              casesDir: string, column: string)
    requires Valid(kwargs) && Valid(particles)
    requires Config2Params(kwargs, ConfigText(rd), particles).Ok?
    ensures forall k :: k in kwargs.at ==> rd.round(kwargs.at[k]).Ok?
    ensures var c := Config2Params(kwargs, ConfigText(rd), particles).value;
            var o := ObjectiveWith(kwargs, rd, Some(particles), env, showScore, casesDir, column);
            && |o.effects| >= 2
            && o.effects[1] == WriteConfig(ConfigLines(c, env))
            && (forall k :: k in c.at <==> k in kwargs.at || k in particles.at)
            && (forall k :: k in particles.at ==> c.at[k] == IntToString(particles.at[k]))
            && (forall k :: k in kwargs.at && k !in particles.at ==> c.at[k] == rd.written(rd.round(kwargs.at[k]).value))
            && |kwargs.order| <= |c.order| && c.order[..|kwargs.order|] == kwargs.order
  {
    var c := Config2Params(kwargs, ConfigText(rd), particles).value;
    assert Workflow.SetupParams(kwargs, ConfigText(rd), Some(particles)) == Ok(c);
    Unfold(kwargs, rd, Some(particles), env, showScore, casesDir, column);
    WrittenParams(kwargs, rd, particles);
  }

  /** The merged parameters the rewriter gets: every key of either dict,
      the particle count under a particle key, `f'{v}'` of the rounded
      value under every other key, the parameters first. */
  lemma WrittenParams<V, F>(kwargs: Dict<V>, rd: Rounding<V, F>, particles: Dict<int>)
    requires Valid(kwargs) && Valid(particles)
    requires Config2Params(kwargs, ConfigText(rd), particles).Ok?
    ensures forall k :: k in kwargs.at ==> rd.round(kwargs.at[k]).Ok?
    ensures var c := Config2Params(kwargs, ConfigText(rd), particles).value;
            && (forall k :: k in c.at <==> k in kwargs.at || k in particles.at)
            && (forall k :: k in particles.at ==> c.at[k] == IntToString(particles.at[k]))
            && (forall k :: k in kwargs.at && k !in particles.at ==> c.at[k] == rd.written(rd.round(kwargs.at[k]).value))
            && |kwargs.order| <= |c.order| && c.order[..|kwargs.order|] == kwargs.order
  {
    var c := Config2Params(kwargs, ConfigText(rd), particles).value;
    RoundOnce(kwargs, rd);
    ParticlesWin(kwargs, ConfigText(rd), particles);
    forall k | k in kwargs.at && k !in particles.at
      ensures c.at[k] == rd.written(rd.round(kwargs.at[k]).value)
    {
      WrittenAt(rd, kwargs.at[k]);
    }
  }

  /** A parameter that rounds is written as `f'{v}'` of its rounded value. */
  lemma WrittenAt<V, F>(rd: Rounding<V, F>, v: V)
    requires ConfigText(rd)(v).Ok?
    ensures rd.round(v).Ok? && ConfigText(rd)(v).value == rd.written(rd.round(v).value)
  {
  }

  /** The configuration writer never stops the objective: whatever the
      template holds, the simulator runs next. */
  lemma ConfigNeverStops<V, F>(kwargs: Dict<V>, rd: Rounding<V, F>, particles: Option<Dict<int>>,
                            env: Env, showScore: real -> string,
                            casesDir: string, column: string)
    requires Valid(kwargs) && (particles.Some? ==> Valid(particles.value))
    requires Workflow.SetupParams(kwargs, ConfigText(rd), particles).Ok?
    ensures ObjectiveWith(kwargs, rd, particles, env, showScore, casesDir, column).effects[2] == RunModel
  {
  }

  /** A call that returns returns the FSS service's answer and has
      appended, last, the row of the parameters' shown texts (what that
      row holds is `RowShown`). */
  lemma ReturnsFssAndRow<V, F>(kwargs: Dict<V>, rd: Rounding<V, F>, particles: Option<Dict<int>>,
                            env: Env, showScore: real -> string,
                            casesDir: string, column: string)
    requires Valid(kwargs) && (particles.Some? ==> Valid(particles.value))
    requires ObjectiveWith(kwargs, rd, particles, env, showScore, casesDir, column).result.Ok?
    ensures MapValues(kwargs, RowText(rd)).Ok?
    ensures var o := ObjectiveWith(kwargs, rd, particles, env, showScore, casesDir, column);
            && o.result.value == env.fss
            && o.effects != [] && o.effects[|o.effects| - 1] == RowEffect(kwargs, RowText(rd), env, showScore)
  {
    assert Workflow.SetupParams(kwargs, ConfigText(rd), particles).Ok?;
    Unfold(kwargs, rd, particles, env, showScore, casesDir, column);
  }

  /** The row of a point goes to the result file of the run's directory
      and holds `str()` of each rounded parameter in the optimiser's order,
      then the text of the FSS service's answer. */
  lemma RowShown<V, F>(kwargs: Dict<V>, rd: Rounding<V, F>, env: Env, showScore: real -> string)
    requires Valid(kwargs) && MapValues(kwargs, RowText(rd)).Ok?
    ensures forall k :: k in kwargs.at ==> rd.round(kwargs.at[k]).Ok?
    ensures var args := MapValues(kwargs, RowText(rd)).value;
            && args.order == kwargs.order
            && forall i :: 0 <= i < |kwargs.order| ==> args.at[kwargs.order[i]] == rd.shown(rd.round(kwargs.at[kwargs.order[i]]).value)
    ensures RowEffect(kwargs, RowText(rd), env, showScore)
            == AppendRow(Paths.ResultFile(Paths.ResultDir(env.cases, env.run, env.stamp), env.stamp),
                         Paths.Row(RowValues(MapValues(kwargs, RowText(rd)).value, env.fss, showScore)))
  {
    RoundOnce(kwargs, rd);
  }

  /** A row lines up with the result file's header exactly when the
      optimiser passes as many parameters as the configuration lists, and
      each value sits under its own name exactly when the optimiser's order
      is the configuration's order reversed. */
  lemma RowMatchesHeader(args: Dict<string>, configKeys: seq<string>, fss: Option<Num>, showScore: real -> string)
    requires Valid(args)
    ensures |RowValues(args, fss, showScore)| == |Paths.HeaderColumns(configKeys)| <==> |args.order| == |configKeys|
    ensures args.order == Reverse(configKeys) <==>
              |args.order| == |configKeys|
              && forall i :: 0 <= i < |args.order| ==> args.order[i] == Paths.HeaderColumns(configKeys)[i]
  {
    var h := Paths.HeaderColumns(configKeys);
    if |args.order| == |configKeys| && forall i :: 0 <= i < |args.order| ==> args.order[i] == h[i] {
      assert args.order == h[..|configKeys|];
    }
  }

  /** AS WRITTEN, the call creates the tuple-named cases directory, runs
      the simulator, and then the best-detection lookup raises
      KeyError('Metric') whenever no parameter is named 'Metric': the
      objective never appends its row and never returns a score. */
  lemma AsWrittenNeverScores<V, F>(kwargs: Dict<V>, rd: Rounding<V, F>, particles: Option<Dict<int>>,
                                env: Env, showScore: real -> string)
    requires Valid(kwargs) && (particles.Some? ==> Valid(particles.value))
    requires Workflow.SetupParams(kwargs, ConfigText(rd), particles).Ok?
    requires "Metric" !in env.configKeys
    ensures var o := ObjectiveAsWritten(kwargs, rd, particles, env, showScore);
            && o.result == Raise(KeyError("Metric")) && !Appends(o.effects)
            && |o.effects| == 3 && o.effects[0] == MakeCasesDir(Paths.CasesDirAsWritten(env.cases, env.run.simName))
            && o.effects[2] == RunModel
  {
    var dir := Paths.CasesDirAsWritten(env.cases, env.run.simName);
    Unfold(kwargs, rd, particles, env, showScore, dir, "Metric");
    Execution.SaveBestAsWrittenRaises(env.configKeys, env.table, env.fss);
    var h := Head(Workflow.SetupParams(kwargs, ConfigText(rd), particles).value, env, dir);
    assert ObjectiveAsWritten(kwargs, rd, particles, env, showScore) == Outcome(h, Raise(KeyError("Metric")));
  }

  /** Corrected, a run the FSS service could score is recorded: the
      objective creates the cases / sim_name directory, runs the simulator,
      decides whether to keep the run's detections and returns the score,
      whatever the simulator did; a run it could not score (None) stops
      with TypeError before its row is written. */
  lemma CorrectedScores<V, F>(kwargs: Dict<V>, rd: Rounding<V, F>, particles: Option<Dict<int>>,
                           env: Env, showScore: real -> string)
    requires Valid(kwargs) && (particles.Some? ==> Valid(particles.value))
    requires Workflow.SetupParams(kwargs, ConfigText(rd), particles).Ok?
    ensures var o := Objective(kwargs, rd, particles, env, showScore);
            && |o.effects| >= 3 && o.effects[0] == MakeCasesDir(Paths.CasesDir(env.cases, env.run.simName))
            && (env.fss.Some? ==> o.result == Ok(env.fss) && |o.effects| == 5
                                  && o.effects[3] == KeepBest(Execution.SaveBest(Paths.HeaderColumns(env.configKeys), env.table, env.fss).value))
            && (env.fss.None? ==> o.result.Raise? && o.result.exc.TypeError? && !Appends(o.effects))
  {
    var dir := Paths.CasesDir(env.cases, env.run.simName);
    Unfold(kwargs, rd, particles, env, showScore, dir, "FSS");
    var h := Paths.HeaderColumns(env.configKeys);
    assert "FSS" in h;
    assert Execution.Column(h, env.table, "FSS").Ok?;
    var hd := Head(Workflow.SetupParams(kwargs, ConfigText(rd), particles).value, env, dir);
    var kept := Execution.SaveBestFrom(h, env.table, env.fss, "FSS");
    assert kept == Execution.SaveBest(h, env.table, env.fss);
    StagesOutcome(hd, kept, RowEffect(kwargs, RowText(rd), env, showScore), env.fss);
  }

  /** The stages return exactly when the decision does not escape: a
      decision adds its effect before the row, and an escape stops the call
      after the three fixed steps. */
  lemma StagesOutcome(head: seq<Effect>, kept: Result<bool>, row: Effect, fss: Option<Num>)
    requires |head| == 3 && !Appends(head) && !row.KeepBest?
    ensures var o := Stages(head, kept, row, fss);
            && o.effects[..3] == head
            && (kept.Ok? ==> o == Outcome(head + [KeepBest(kept.value), row], Ok(fss)))
            && (kept.Raise? && Escapes(kept.exc) ==> o == Outcome(head, Raise(kept.exc)) && !Appends(o.effects))
  {
  }
}
