/** The execution modes and the two workflow stages. Mode 0 runs the
    Bayesian optimisation, mode 1 one plain simulation. Setting up gathers
    the met-ocean fields, writes the simulator configuration (mode 1 only)
    and compiles; running either drives the optimiser or runs the model and
    scores it. The steps that touch the file system, the compiler, the
    simulator or the optimiser are trace events; what each one raises is an
    input, and the service methods in front of them swallow some of those
    exceptions. */
module Workflow {
  import opened Base
  import opened Text
  import opened SimParams
  import opened Execution

  // ---------------------------------------------------------------------
  // The ExecutionType enumeration
  // ---------------------------------------------------------------------

  /** A member of an enumeration: its name and its value. */
  datatype Member = Member(name: string, value: int)

  /** `ExecutionType` as the workflow controller declares it. */
  const ControllerModes := [Member("BAYES_OPT", 0), Member("MEDSLIK", 1)]

  /** `ExecutionType` as the workflow service declares it. */
  const ServiceModes := [Member("BAYESOPT", 0), Member("MEDSLIK", 1)]

  /** `get_execution_type_name_impl`: the name of the first member that
      carries the value, None when none does. */
  function NameOf(members: seq<Member>, value: int): (r: Option<string>)
    ensures r.None? <==> forall i :: 0 <= i < |members| ==> members[i].value != value
    ensures r.Some? ==> exists i :: 0 <= i < |members| && members[i] == Member(r.value, value)
                                    && forall j :: 0 <= j < i ==> members[j].value != value
  {
    if |members| == 0 then None
    else if members[0].value == value then Some(members[0].name)
    else
      var r := NameOf(members[1..], value);
      assert forall i :: 1 <= i < |members| ==> members[1..][i - 1] == members[i];
      if r.Some? then
        assert exists i :: 1 <= i < |members| && members[i] == Member(r.value, value)
                           && forall j :: 0 <= j < i ==> members[j].value != value by {
          var i :| 0 <= i < |members[1..]| && members[1..][i] == Member(r.value, value)
                   && forall j :: 0 <= j < i ==> members[1..][j].value != value;
          assert members[i + 1] == Member(r.value, value);
        }
        r
      else r
  }

  /** The service's names: 0 is BAYESOPT, 1 is MEDSLIK, nothing else has a name. */
  lemma ServiceModeNames(v: int)
    ensures NameOf(ServiceModes, v) == if v == 0 then Some("BAYESOPT") else if v == 1 then Some("MEDSLIK") else None
  {
    if v != 0 && v != 1 {
      assert forall i :: 0 <= i < |ServiceModes| ==> ServiceModes[i].value != v;
    }
  }

  /** Python's text for the dict `{name: value}` of an enumeration. */
  function MembersText(members: seq<Member>): string {
    "{" + Items(members) + "}"
  }

  /** The items of that dict, separated by ", ". */
  function Items(members: seq<Member>): string {
    if |members| == 0 then ""
    else if |members| == 1 then Item(members[0])
    else Item(members[0]) + ", " + Items(members[1..])
  }

  function Item(m: Member): string {
    "'" + m.name + "': " + IntToString(m.value)
  }

  const Rejected := "The specified value is not among the valid values of ExecutionType, the accepted modes are: "

  /** `check_execution_type` and `check_execution_type_service_impl`: a
      value no member carries raises WrongConfigurationException listing
      the members. */
  function CheckMode(members: seq<Member>, v: int): (r: Result<()>)
    ensures r.Ok? <==> NameOf(members, v).Some?
    ensures r.Raise? ==> r.exc == WrongConfigurationException(Rejected + MembersText(members))
  {
    if exists i :: 0 <= i < |members| && members[i].value == v then Ok(())
    else Raise(WrongConfigurationException(Rejected + MembersText(members)))
  }

  /** The controller accepts exactly 0 and 1 and otherwise names both modes. */
  lemma ControllerAcceptsTwoModes(v: int)
    ensures CheckMode(ControllerModes, v).Ok? <==> v == 0 || v == 1
    ensures CheckMode(ControllerModes, v).Raise? ==>
              CheckMode(ControllerModes, v).exc
              == WrongConfigurationException(Rejected + "{'BAYES_OPT': 0, 'MEDSLIK': 1}")
  {
    if v != 0 && v != 1 {
      assert NameOf(ControllerModes, v).None? by {
        assert forall i :: 0 <= i < |ControllerModes| ==> ControllerModes[i].value != v;
      }
      ModeListText();
    }
  }

  lemma ModeListText()
    ensures MembersText(ControllerModes) == "{'BAYES_OPT': 0, 'MEDSLIK': 1}"
  {
    var first, second := Member("BAYES_OPT", 0), Member("MEDSLIK", 1);
    ItemTexts();
    assert ControllerModes[1..] == [second];
    assert Items(ControllerModes) == "'BAYES_OPT': 0" + ", " + "'MEDSLIK': 1";
  }

  lemma ItemTexts()
    ensures Item(Member("BAYES_OPT", 0)) == "'BAYES_OPT': 0"
    ensures Item(Member("MEDSLIK", 1)) == "'MEDSLIK': 1"
  {
    assert IntToString(0) == "0" && IntToString(1) == "1";
  }

  /** The service's check accepts the same values as the controller's. */
  lemma ChecksAgree(v: int)
    ensures CheckMode(ServiceModes, v).Ok? <==> CheckMode(ControllerModes, v).Ok?
  {
    ServiceModeNames(v);
    ControllerAcceptsTwoModes(v);
  }

  // ---------------------------------------------------------------------
  // Steps, and the exceptions the service layer swallows
  // ---------------------------------------------------------------------

  /** The outside steps of the two stages. */
  datatype Action =
    | Generate                           // gather and process the met-ocean fields
    | UpdateConfig2(entries: seq<Entry>) // write the simulator configuration
    | Compile                            // compile the simulator
    | CreateResultFile                   // the result directory and its header
    | Probe                              // the optimiser tries the configured point
    | Maximize                           // the optimiser's search
    | RemoveDetectionDirs                // clean the result directory
    | RunModel                           // run the simulator
    | MultiFss                           // score the run

  /** Whether the method that performs the step catches the exception: the
      configuration writer's service catches its own exception; compiling
      and running the simulator catch every exception inside the
      implementation and return a message; the scoring service catches
      everything. */
  predicate Caught(a: Action, e: Exc) {
    match a
    case UpdateConfig2(_) => e.UpdateConfigException?
    case Compile => true
    case RunModel => true
    case MultiFss => true
    case _ => false
  }

  /** A step goes through when it raises nothing or its service swallows it. */
  predicate Passes(a: Action, raised: Action -> Option<Exc>) {
    raised(a).None? || Caught(a, raised(a).value)
  }

  /** The steps attempted, in order, and the exception that stopped them. */
  datatype Trace = Trace(done: seq<Action>, stop: Option<Exc>)

  /** Attempt the steps in order; `raised` says what each step raises. The
      first step whose exception escapes is the last one attempted. */
  function Perform(steps: seq<Action>, raised: Action -> Option<Exc>): (t: Trace)
    ensures |t.done| <= |steps| && t.done == steps[..|t.done|]
    ensures forall i :: 0 <= i < |t.done| - 1 ==> Passes(steps[i], raised)
    ensures t.stop.None? <==> forall i :: 0 <= i < |steps| ==> Passes(steps[i], raised)
    ensures t.stop.None? ==> t.done == steps
    ensures t.stop.Some? ==> |t.done| > 0 && raised(steps[|t.done| - 1]) == t.stop
                             && !Caught(steps[|t.done| - 1], t.stop.value)
    decreases |steps|
  {
    if |steps| == 0 then Trace([], None)
    else if !Passes(steps[0], raised) then Trace([steps[0]], raised(steps[0]))
    else
      var rest := Perform(steps[1..], raised);
      assert forall i :: 1 <= i < |steps| ==> steps[1..][i - 1] == steps[i];
      assert steps == [steps[0]] + steps[1..];
      Trace([steps[0]] + rest.done, rest.stop)
  }

  /** A step that passes is followed by the rest of the steps. */
  lemma PerformSteps(steps: seq<Action>, raised: Action -> Option<Exc>)
    requires |steps| > 0 && Passes(steps[0], raised)
    ensures Perform(steps, raised) == Trace([steps[0]] + Perform(steps[1..], raised).done,
                                            Perform(steps[1..], raised).stop)
  {
  }

  /** `raised` with the configuration writer's own outcome: the step fails
      as the template rewrite does. */
  function WithTemplate(raised: Action -> Option<Exc>, template: Result<seq<string>>): (f: Action -> Option<Exc>)
    ensures forall es :: f(UpdateConfig2(es)).Some? <==> Execution.UpdateConfig2(es, template).outcome.Raise?
  {
    (a: Action) =>
      if a.UpdateConfig2? then
        (var o := Execution.UpdateConfig2(a.entries, template).outcome;
         if o.Raise? then Some(o.exc) else None)
      else raised(a)
  }

  /** The configuration writer never stops a stage: what the rewrite raises
      is the exception its service catches. */
  lemma UpdateAlwaysPasses(raised: Action -> Option<Exc>, template: Result<seq<string>>, es: seq<Entry>)
    ensures Passes(UpdateConfig2(es), WithTemplate(raised, template))
  {
  }

  // ---------------------------------------------------------------------
  // Setup
  // ---------------------------------------------------------------------

  const NoItems := "'NoneType' object has no attribute 'items'"

  /** The entry list the template rewriter receives: the dict's items in order. */
  function EntriesOf(d: Dict<string>): (es: seq<Entry>)
    requires Valid(d)
    ensures |es| == |d.order|
    ensures forall i :: 0 <= i < |es| ==> es[i].key == d.order[i] && es[i].value == d.at[d.order[i]]
  {
    seq(|d.order|, i requires 0 <= i < |d.order| => Entry(d.order[i], d.at[d.order[i]]))
  }

  /** What the three getter services answered for the simulation extent,
      date and coordinates; each service turns any exception into None. */
  datatype Getters<W> = Getters(extent: Option<Dict<W>>, date: Option<Dict<W>>, coords: Option<Dict<W>>)

  ghost predicate GettersValid<W>(g: Getters<W>) {
    (g.extent.Some? ==> Valid(g.extent.value)) && (g.date.Some? ==> Valid(g.date.value))
    && (g.coords.Some? ==> Valid(g.coords.value))
  }

  const NotMapping := "dict() argument after ** must be a mapping, not NoneType"

  /** `dict(**sim_extent, **sim_date, **sim_coords)`: the operands are
      unpacked left to right; a None operand raises TypeError when its turn
      comes, and so does a key an earlier operand already gave. Nothing
      reads the result, but building it can stop setup. */
  function Config1Params<W>(g: Getters<W>): (r: Result<Dict<W>>)
    requires GettersValid(g)
    ensures r.Raise? ==> r.exc.TypeError?
    ensures g.extent.None? ==> r == Raise(TypeError(NotMapping))
    ensures r.Ok? <==> && g.extent.Some? && g.date.Some? && g.coords.Some?
                       && (forall k :: k in g.date.value.at ==> k !in g.extent.value.at)
                       && (forall k :: k in g.coords.value.at ==> k !in g.extent.value.at && k !in g.date.value.at)
    ensures r.Ok? ==> && r.value.order == g.extent.value.order + g.date.value.order + g.coords.value.order
                      && r.value.at == g.extent.value.at + g.date.value.at + g.coords.value.at
  {
    if g.extent.None? || g.date.None? then Raise(TypeError(NotMapping))
    else
      var ed :- KeywordMerge(g.extent.value, g.date.value);
      if g.coords.None? then Raise(TypeError(NotMapping))
      else KeywordMerge(ed, g.coords.value)
  }

  /** The mode-1 configuration: the parameters as the rewriter writes them
      (`rounded` is the `ConfigText` of their `Rounding`), then the particle
      dict (None when its service failed, which `.items()` cannot read). */
  function SetupParams<V>(params: Dict<V>, rounded: V -> Result<string>, particles: Option<Dict<int>>): (r: Result<Dict<string>>)
    requires Valid(params) && (particles.Some? ==> Valid(particles.value))
    ensures r.Ok? ==> Valid(r.value)
    ensures r.Ok? ==> particles.Some? && r == Config2Params(params, rounded, particles.value)
    ensures particles.None? && MapValues(params, rounded).Ok? ==> r == Raise(AttributeError(NoItems))
  {
    var _ :- MapValues(params, rounded);
    match particles
    case None => Raise(AttributeError(NoItems))
    case Some(pt) => Config2Params(params, rounded, pt)
  }

  /** `setup_service_impl`. */
  function SetupImpl<V, W>(mode: int, getters: Getters<W>, params: Dict<V>, rounded: V -> Result<string>,
                           particles: Option<Dict<int>>, template: Result<seq<string>>,
                           raised: Action -> Option<Exc>): (t: Trace)
    requires GettersValid(getters) && Valid(params) && (particles.Some? ==> Valid(particles.value))
  {
    match Config1Params(getters)
    case Raise(e) => Trace([], Some(e))
    case Ok(_) => Dispatch(mode, params, rounded, particles, template, raised)
  }

  /** The part of setup after the combination: the steps of each mode. */
  function Dispatch<V>(mode: int, params: Dict<V>, rounded: V -> Result<string>, particles: Option<Dict<int>>,
                       template: Result<seq<string>>, raised: Action -> Option<Exc>): (t: Trace)
    requires Valid(params) && (particles.Some? ==> Valid(particles.value))
  {
    if mode == 0 then Perform([Generate, Compile], raised)
    else if mode == 1 then
      if !Passes(Generate, raised) then Trace([Generate], raised(Generate))
      else
        match SetupParams(params, rounded, particles)
        case Raise(e) => Trace([Generate], Some(e))
        case Ok(c) =>
          var rest := Perform([UpdateConfig2(EntriesOf(c)), Compile], WithTemplate(raised, template));
          Trace([Generate] + rest.done, rest.stop)
    else Trace([], None)
  }

  /** Setup first combines what the three getters answered; when that
      raises, setup stops before any step, whatever the mode. Otherwise mode
      0 generates and compiles and never writes the configuration; in mode 1
      a configuration written from the merged parameters sits between the
      two. Neither the configuration writer nor the compiler ever stops
      setup, so after the combination only the generation and, in mode 1,
      the parameter conversion or a missing particle dict can; any other
      mode does nothing. */
  lemma SetupByMode<V, W>(mode: int, getters: Getters<W>, params: Dict<V>, rounded: V -> Result<string>,
                          particles: Option<Dict<int>>, template: Result<seq<string>>,
                          raised: Action -> Option<Exc>)
    requires GettersValid(getters) && Valid(params) && (particles.Some? ==> Valid(particles.value))
    ensures var t := SetupImpl(mode, getters, params, rounded, particles, template, raised);
            var c1 := Config1Params(getters);
            && (c1.Raise? ==> t == Trace([], Some(c1.exc)) && c1.exc.TypeError?)
            && (c1.Ok? && mode != 0 && mode != 1 ==> t == Trace([], None))
            && (c1.Ok? && mode == 0 && Passes(Generate, raised) ==> t == Trace([Generate, Compile], None))
            && (c1.Ok? && mode == 1 && Passes(Generate, raised) && SetupParams(params, rounded, particles).Ok? ==>
                  var c := SetupParams(params, rounded, particles).value;
                  t == Trace([Generate, UpdateConfig2(EntriesOf(c)), Compile], None))
            && (c1.Ok? && mode == 1 && Passes(Generate, raised) && SetupParams(params, rounded, particles).Raise? ==>
                  t == Trace([Generate], Some(SetupParams(params, rounded, particles).exc)))
            && (c1.Ok? && (mode == 0 || mode == 1) && !Passes(Generate, raised) ==>
                  t == Trace([Generate], raised(Generate)))
  {
    if Config1Params(getters).Ok? {
      DispatchByMode(mode, params, rounded, particles, template, raised);
    }
  }

  /** SetupByMode once the combination went through. */
  lemma DispatchByMode<V>(mode: int, params: Dict<V>, rounded: V -> Result<string>, particles: Option<Dict<int>>,
                          template: Result<seq<string>>, raised: Action -> Option<Exc>)
    requires Valid(params) && (particles.Some? ==> Valid(particles.value))
    ensures var t := Dispatch(mode, params, rounded, particles, template, raised);
            && (mode != 0 && mode != 1 ==> t == Trace([], None))
            && (mode == 0 && Passes(Generate, raised) ==> t == Trace([Generate, Compile], None))
            && (mode == 1 && Passes(Generate, raised) && SetupParams(params, rounded, particles).Ok? ==>
                  var c := SetupParams(params, rounded, particles).value;
                  t == Trace([Generate, UpdateConfig2(EntriesOf(c)), Compile], None))
            && (mode == 1 && Passes(Generate, raised) && SetupParams(params, rounded, particles).Raise? ==>
                  t == Trace([Generate], Some(SetupParams(params, rounded, particles).exc)))
            && ((mode == 0 || mode == 1) && !Passes(Generate, raised) ==> t == Trace([Generate], raised(Generate)))
  {
    if mode == 0 {
      SetupGenerateCompile(raised);
    } else if mode == 1 && Passes(Generate, raised) && SetupParams(params, rounded, particles).Ok? {
      SetupConfigured(EntriesOf(SetupParams(params, rounded, particles).value), template, raised);
    }
  }

  /** A getter that answered None stops setup with TypeError in every mode,
      before anything is generated. */
  lemma SetupNeedsGetters<V, W>(mode: int, getters: Getters<W>, params: Dict<V>, rounded: V -> Result<string>,
                                particles: Option<Dict<int>>, template: Result<seq<string>>,
                                raised: Action -> Option<Exc>)
    requires GettersValid(getters) && Valid(params) && (particles.Some? ==> Valid(particles.value))
    requires getters.extent.None? || getters.date.None? || getters.coords.None?
    ensures var t := SetupImpl(mode, getters, params, rounded, particles, template, raised);
            t.done == [] && t.stop.Some? && t.stop.value.TypeError?
  {
  }

  /** The mode-0 steps: generation, then compilation, which never stops. */
  lemma SetupGenerateCompile(raised: Action -> Option<Exc>)
    ensures var t := Perform([Generate, Compile], raised);
            && (Passes(Generate, raised) ==> t == Trace([Generate, Compile], None))
            && (!Passes(Generate, raised) ==> t == Trace([Generate], raised(Generate)))
  {
    assert Passes(Compile, raised);
  }

  /** The mode-1 steps after generation: the configuration is written and
      the compiler runs, and neither stops. */
  lemma SetupConfigured(es: seq<Entry>, template: Result<seq<string>>, raised: Action -> Option<Exc>)
    ensures Perform([UpdateConfig2(es), Compile], WithTemplate(raised, template)) == Trace([UpdateConfig2(es), Compile], None)
  {
    var f := WithTemplate(raised, template);
    UpdateAlwaysPasses(raised, template, es);
    PerformSteps([UpdateConfig2(es), Compile], f);
    assert [UpdateConfig2(es), Compile][1..] == [Compile];
    assert f(Compile) == raised(Compile);
  }

  /** In mode 1 the configuration the simulator gets carries the particle
      count under the particle key and every other parameter in its written
      text, the parameters first in their own order. */
  lemma SetupWritesMergedConfig<V, W>(getters: Getters<W>, params: Dict<V>, rounded: V -> Result<string>,
                                      particles: Dict<int>, template: Result<seq<string>>,
                                      raised: Action -> Option<Exc>)
    requires GettersValid(getters) && Valid(params) && Valid(particles)
    requires Config1Params(getters).Ok?
    requires Passes(Generate, raised) && Config2Params(params, rounded, particles).Ok?
    ensures var t := SetupImpl(1, getters, params, rounded, Some(particles), template, raised);
            var c := Config2Params(params, rounded, particles).value;
            && |t.done| == 3 && t.done[1] == UpdateConfig2(EntriesOf(c))
            && (forall k :: k in particles.at ==> k in c.at && c.at[k] == IntToString(particles.at[k]))
            && (forall k :: k in params.at && k !in particles.at ==> k in c.at && c.at[k] == rounded(params.at[k]).value)
  {
    DispatchByMode(1, params, rounded, Some(particles), template, raised);
    ParticlesWin(params, rounded, particles);
  }

  // ---------------------------------------------------------------------
  // Run
  // ---------------------------------------------------------------------

  /** `run_service_impl`. The optimiser's search calls the objective
      function; that is modelled on its own and is one step here. */
  function RunImpl(mode: int, raised: Action -> Option<Exc>): (t: Trace)
  {
    if mode == 0 then Perform([CreateResultFile, Probe, Maximize, RemoveDetectionDirs], raised)
    else if mode == 1 then Perform([RunModel, MultiFss], raised)
    else Trace([], None)
  }

  /** Run in mode 0 creates the result file before the optimiser and
      removes the detection folders only after it; in mode 1 it runs the
      model, then scores it, and neither step ever stops it; any other mode
      does nothing. */
  lemma RunByMode(mode: int, raised: Action -> Option<Exc>)
    ensures var t := RunImpl(mode, raised);
            && (mode != 0 && mode != 1 ==> t == Trace([], None))
            && (mode == 0 ==> |t.done| > 0 && t.done[0] == CreateResultFile
                              && (RemoveDetectionDirs in t.done ==> t.done == [CreateResultFile, Probe, Maximize, RemoveDetectionDirs]))
            && (mode == 1 ==> t == Trace([RunModel, MultiFss], None))
  {
    var t := RunImpl(mode, raised);
    var steps := [CreateResultFile, Probe, Maximize, RemoveDetectionDirs];
    if mode == 0 && RemoveDetectionDirs in t.done {
      var i :| 0 <= i < |t.done| && t.done[i] == RemoveDetectionDirs;
      assert t.done[i] == steps[i];
    }
    if mode == 1 {
      assert Passes(RunModel, raised) && Passes(MultiFss, raised);
    }
  }

  // ---------------------------------------------------------------------
  // The exception wrapping of the service and the controller
  // ---------------------------------------------------------------------

  /** `except ValueError as e: raise wrap(e)`: a ValueError is replaced by
      the wrapping exception, anything else passes through. */
  function WrapValueError(stop: Option<Exc>, wrap: Exc -> Exc): (r: Option<Exc>)
    ensures r.None? <==> stop.None?
    ensures stop.Some? && !stop.value.ValueError? ==> r == stop
    ensures stop.Some? && stop.value.ValueError? ==> r == Some(wrap(stop.value))
  {
    match stop
    case Some(ValueError(m)) => Some(wrap(ValueError(m)))
    case _ => stop
  }

  function AsSetup(e: Exc): Exc {
    SetupException(e)
  }

  function AsRun(e: Exc): Exc {
    RunException(e)
  }

  /** `WorkflowService.setup_service` then `WorkflowController.setup`. */
  function SetupController<V, W>(mode: int, getters: Getters<W>, params: Dict<V>, rounded: V -> Result<string>,
                                 particles: Option<Dict<int>>, template: Result<seq<string>>,
                                 raised: Action -> Option<Exc>): (t: Trace)
    requires GettersValid(getters) && Valid(params) && (particles.Some? ==> Valid(particles.value))
    ensures t.done == SetupImpl(mode, getters, params, rounded, particles, template, raised).done
  {
    var impl := SetupImpl(mode, getters, params, rounded, particles, template, raised);
    var service := WrapValueError(impl.stop, AsSetup);
    Trace(impl.done, WrapValueError(service, AsSetup))
  }

  /** `WorkflowService.run_service` then `WorkflowController.run`. */
  function RunController(mode: int, raised: Action -> Option<Exc>): (t: Trace)
    ensures t.done == RunImpl(mode, raised).done
  {
    var impl := RunImpl(mode, raised);
    var service := WrapValueError(impl.stop, AsRun);
    Trace(impl.done, WrapValueError(service, AsRun))
  }

  /** A ValueError of the setup comes out of the controller wrapped exactly
      once: the service already turned it into a SetupException, which is
      not a ValueError, so the controller's own handler never fires. Every
      other exception passes through unchanged. */
  lemma SetupWrapsOnce<V, W>(mode: int, getters: Getters<W>, params: Dict<V>, rounded: V -> Result<string>,
                             particles: Option<Dict<int>>, template: Result<seq<string>>,
                             raised: Action -> Option<Exc>)
    requires GettersValid(getters) && Valid(params) && (particles.Some? ==> Valid(particles.value))
    ensures var impl := SetupImpl(mode, getters, params, rounded, particles, template, raised);
            var t := SetupController(mode, getters, params, rounded, particles, template, raised);
            && (t.stop.None? <==> impl.stop.None?)
            && (impl.stop.Some? && impl.stop.value.ValueError? ==> t.stop == Some(SetupException(impl.stop.value)))
            && (impl.stop.Some? && !impl.stop.value.ValueError? ==> t.stop == impl.stop)
  {
  }

  /** The same for the run. */
  lemma RunWrapsOnce(mode: int, raised: Action -> Option<Exc>)
    ensures var impl := RunImpl(mode, raised);
            var t := RunController(mode, raised);
            && (t.stop.None? <==> impl.stop.None?)
            && (impl.stop.Some? && impl.stop.value.ValueError? ==> t.stop == Some(RunException(impl.stop.value)))
            && (impl.stop.Some? && !impl.stop.value.ValueError? ==> t.stop == impl.stop)
  {
  }
}
