/** The entry point. Before anything runs it checks that the simulator
    parameters and the optimiser bounds name the same parameters, that
    enough particles are simulated and that the mode is known; then it sets
    up and runs the workflow. Every exception raised inside that sequence is
    printed and swallowed; only reading the random seed, which happens
    before it, can make the entry point itself raise. */
module Startup {
  import opened Base
  import opened Text
  import opened SimParams
  import opened Workflow

  // ---------------------------------------------------------------------
  // Python's order on strings and sorted()
  // ---------------------------------------------------------------------

  /** `a < b` on Python strings: the first differing code point decides,
      and a proper prefix comes first. */
  predicate Below(a: string, b: string)
    decreases |a|
  {
    if |a| == 0 then |b| > 0
    else if |b| == 0 then false
    else if a[0] != b[0] then a[0] < b[0]
    else Below(a[1..], b[1..])
  }

  predicate AtMost(a: string, b: string) {
    a == b || Below(a, b)
  }

  /** Two different strings are ordered one way or the other. */
  lemma {:induction false} BelowTotal(a: string, b: string)
    ensures a == b || Below(a, b) || Below(b, a)
    decreases |a|
  {
    if |a| > 0 && |b| > 0 && a[0] == b[0] {
      BelowTotal(a[1..], b[1..]);
      if a[1..] == b[1..] {
        assert a == [a[0]] + a[1..] && b == [b[0]] + b[1..];
      }
    }
  }

  /** Never both ways. */
  lemma {:induction false} BelowAsymmetric(a: string, b: string)
    ensures !(Below(a, b) && Below(b, a))
    decreases |a|
  {
    if |a| > 0 && |b| > 0 && a[0] == b[0] {
      BelowAsymmetric(a[1..], b[1..]);
    }
  }

  lemma {:induction false} BelowTransitive(a: string, b: string, c: string)
    requires Below(a, b) && Below(b, c)
    ensures Below(a, c)
    decreases |a|
  {
    if |a| > 0 && a[0] == b[0] && b[0] == c[0] {
      BelowTransitive(a[1..], b[1..], c[1..]);
    }
  }

  lemma AtMostTransitive(a: string, b: string, c: string)
    requires AtMost(a, b) && AtMost(b, c)
    ensures AtMost(a, c)
  {
    if a != b && b != c {
      BelowTransitive(a, b, c);
    }
  }

  predicate Sorted(s: seq<string>) {
    forall i :: 0 < i < |s| ==> AtMost(s[i - 1], s[i])
  }

  /** Insertion into a sorted list. */
  function Insert(x: string, s: seq<string>): (r: seq<string>)
    requires Sorted(s)
    ensures Sorted(r) && multiset(r) == multiset(s) + multiset{x}
    ensures |s| > 0 ==> r[0] == x || r[0] == s[0]
    decreases |s|
  {
    if |s| == 0 then [x]
    else if AtMost(x, s[0]) then [x] + s
    else
      BelowTotal(x, s[0]);
      var rest := Insert(x, s[1..]);
      assert |s| > 1 ==> AtMost(s[0], s[1]);
      assert s == [s[0]] + s[1..];
      [s[0]] + rest
  }

  /** `sorted(s)`: the same elements, in order. */
  function Sort(s: seq<string>): (r: seq<string>)
    ensures Sorted(r) && multiset(r) == multiset(s)
    decreases |s|
  {
    if |s| == 0 then []
    else
      assert s == [s[0]] + s[1..];
      Insert(s[0], Sort(s[1..]))
  }

  /** The head of a sorted list is at most every element. */
  lemma {:induction false} SortedHead(s: seq<string>)
    requires Sorted(s) && |s| > 0
    ensures forall i :: 0 <= i < |s| ==> AtMost(s[0], s[i])
    decreases |s|
  {
    if |s| > 1 {
      var t := s[1..];
      assert Sorted(t) by {
        assert forall i :: 0 < i < |t| ==> t[i - 1] == s[i] && t[i] == s[i + 1];
      }
      SortedHead(t);
      forall i | 1 <= i < |s|
        ensures AtMost(s[0], s[i])
      {
        assert t[i - 1] == s[i];
        AtMostTransitive(s[0], s[1], s[i]);
      }
    }
  }

  /** Two sorted lists with the same elements are the same list. */
  lemma {:induction false} SortedUnique(s: seq<string>, t: seq<string>)
    requires Sorted(s) && Sorted(t) && multiset(s) == multiset(t)
    ensures s == t
    decreases |s|
  {
    assert |s| == |multiset(s)| == |multiset(t)| == |t|;
    if |s| > 0 {
      SameHead(s, t);
      SortedTail(s);
      SortedTail(t);
      SortedUnique(s[1..], t[1..]);
      assert s == [s[0]] + s[1..] && t == [t[0]] + t[1..];
    }
  }

  /** Sorted lists with the same elements start with the same element. */
  lemma SameHead(s: seq<string>, t: seq<string>)
    requires Sorted(s) && Sorted(t) && multiset(s) == multiset(t) && |s| > 0 && |t| > 0
    ensures s[0] == t[0]
  {
    assert s[0] in multiset(t) && t[0] in multiset(s);
    SortedHead(s);
    SortedHead(t);
    BelowAsymmetric(s[0], t[0]);
  }

  /** Dropping the head keeps a list sorted and removes one copy of it. */
  lemma SortedTail(s: seq<string>)
    requires Sorted(s) && |s| > 0
    ensures Sorted(s[1..]) && multiset(s[1..]) == multiset(s) - multiset{s[0]}
  {
    var t := s[1..];
    assert forall i :: 0 < i < |t| ==> t[i - 1] == s[i] && t[i] == s[i + 1];
    assert s == [s[0]] + t;
  }

  /** `sorted(a) == sorted(b)` exactly when the two lists hold the same
      elements the same number of times. */
  lemma SortEqualIff(a: seq<string>, b: seq<string>)
    ensures Sort(a) == Sort(b) <==> multiset(a) == multiset(b)
  {
    if multiset(a) == multiset(b) {
      SortedUnique(Sort(a), Sort(b));
    }
  }

  // ---------------------------------------------------------------------
  // The startup checks
  // ---------------------------------------------------------------------

  const Mismatch := "A mismatch between Medslik-II and the Bayesian Optimization configuration parameters was encountered in the config file."

  /** `check_parameters_match` on the two key lists. */
  function CheckParametersMatch(simKeys: seq<string>, boundKeys: seq<string>): (r: Result<()>)
    ensures r.Ok? <==> multiset(simKeys) == multiset(boundKeys)
    ensures r.Raise? ==> r.exc == ValueError(Mismatch)
  {
    SortEqualIff(simKeys, boundKeys);
    if Sort(simKeys) != Sort(boundKeys) then Raise(ValueError(Mismatch)) else Ok(())
  }

  /** On the keys of two dicts the check passes exactly when the dicts have
      the same keys, whatever their order. */
  lemma MatchIffSameKeys<V, B>(sim: Dict<V>, bounds: Dict<B>)
    requires Valid(sim) && Valid(bounds)
    ensures CheckParametersMatch(sim.order, bounds.order).Ok? <==> sim.at.Keys == bounds.at.Keys
  {
    var s, t := sim.order, bounds.order;
    if sim.at.Keys == bounds.at.Keys {
      SameMembersSameMultiset(s, t);
    }
    if multiset(s) == multiset(t) {
      forall x
        ensures x in sim.at.Keys <==> x in bounds.at.Keys
      {
        assert x in s <==> x in multiset(s);
        assert x in t <==> x in multiset(t);
      }
    }
  }

  /** Two lists without repeats that hold the same elements are
      permutations of each other. */
  lemma SameMembersSameMultiset(s: seq<string>, t: seq<string>)
    requires Distinct(s) && Distinct(t)
    requires forall x :: x in s <==> x in t
    ensures multiset(s) == multiset(t)
  {
    DistinctCounts(s);
    DistinctCounts(t);
    assert forall x :: multiset(s)[x] == multiset(t)[x];
  }

  /** A list without repeats holds each of its elements once. */
  lemma {:induction false} DistinctCounts(s: seq<string>)
    requires Distinct(s)
    ensures forall x :: multiset(s)[x] == if x in s then 1 else 0
    decreases |s|
  {
    if |s| > 0 {
      var t := s[1..];
      assert Distinct(t) by {
        assert forall i :: 0 <= i < |t| ==> t[i] == s[i + 1];
      }
      DistinctCounts(t);
      assert s == [s[0]] + t;
      assert s[0] !in t by {
        assert forall i :: 0 <= i < |t| ==> t[i] == s[i + 1];
      }
    }
  }

  /** The parameters and bounds built from lists that cover every key pass
      the check. */
  lemma ConfiguredDictsMatch<V, B>(k: seq<string>, v: seq<V>, b: seq<B>)
    requires |v| >= |k| && |b| >= |k|
    ensures CheckParametersMatch(ParamsDict(k, v).order, BoundsDict(k, b).order).Ok?
  {
    BoundsMatchParams(k, v, b);
  }

  const FewParticles := "Increase the number of simulated particles"

  /** `check_particles_number`. */
  function CheckParticles(n: int): (r: Result<()>)
    ensures r.Raise? ==> r.exc == ValueError(FewParticles)
  {
    if n <= 571 then Raise(ValueError(FewParticles)) else Ok(())
  }

  /** 572 is the least particle count accepted, and every larger one is. */
  lemma LeastParticleCount(n: int)
    ensures CheckParticles(572).Ok? && CheckParticles(571).Raise?
    ensures n >= 572 ==> CheckParticles(n).Ok?
    ensures CheckParticles(n).Ok? ==> n >= 572
  {
  }

  /** The configured random seed: None for the text "None", otherwise
      int() of it, which raises ValueError for anything else. */
  function RandomState(text: string): (r: Result<Option<int>>)
    ensures r == Ok(None) <==> text == "None"
    ensures text != "None" ==> (r.Ok? <==> ParseInt(text).Ok?)
    ensures r.Raise? ==> r.exc.ValueError?
  {
    if text == "None" then Ok(None)
    else
      var n :- ParseInt(text);
      Ok(Some(n))
  }

  /** A seed written in decimal is read back as that seed. */
  lemma RandomStateOfSeed(n: nat)
    ensures RandomState(NatToString(n)) == Ok(Some(n))
  {
    ParseNatToString(n);
    assert NatToString(n) != "None" by {
      assert AllDigits(NatToString(n));
      assert !IsDigit('N');
    }
  }

  // ---------------------------------------------------------------------
  // main
  // ---------------------------------------------------------------------

  /** The stages inside the `try`, in the order main runs them. */
  datatype Stage = ParamsMatch | ParticleCount | ModeCheck | SetupStage | RunStage

  const Stages := [ParamsMatch, ParticleCount, ModeCheck, SetupStage, RunStage]

  /** What the entry point does: the stages it started, and the line it
      printed when one of them raised. */
  datatype Report = Report(started: seq<Stage>, printed: Option<string>)

  const ErrorPrefix := "Error during execution (Check main.py): "

  /** The inputs of the stages. `setupStop` and `runStop` are what the
      controller's setup and run raise (the `stop` of
      `Workflow.SetupController` and `Workflow.RunController`). */
  datatype Inputs = Inputs(simKeys: seq<string>, boundKeys: seq<string>, nparticles: int, mode: int,
                           setupStop: Option<Exc>, runStop: Option<Exc>)

  /** What each stage raises, in stage order. */
  function Outcomes(in_: Inputs): (os: seq<Option<Exc>>)
    ensures |os| == |Stages|
  {
    [Failure(CheckParametersMatch(in_.simKeys, in_.boundKeys)),
     Failure(CheckParticles(in_.nparticles)),
     Failure(CheckMode(ControllerModes, in_.mode)),
     in_.setupStop,
     in_.runStop]
  }

  function Failure(r: Result<()>): (e: Option<Exc>)
    ensures e.None? <==> r.Ok?
    ensures e.Some? ==> e.value == r.exc
  {
    if r.Raise? then Some(r.exc) else None
  }

  /** How many stages start, given what each raises: all of them up to and
      including the first that raises, and that exception. */
  function Attempt(outcomes: seq<Option<Exc>>): (r: (nat, Option<Exc>))
    ensures r.0 <= |outcomes|
    ensures forall i :: 0 <= i < r.0 - 1 ==> outcomes[i].None?
    ensures r.1.None? <==> forall i :: 0 <= i < |outcomes| ==> outcomes[i].None?
    ensures r.1.None? ==> r.0 == |outcomes|
    ensures r.1.Some? ==> 0 < r.0 && outcomes[r.0 - 1] == r.1
    decreases |outcomes|
  {
    if |outcomes| == 0 then (0, None)
    else if outcomes[0].Some? then (1, outcomes[0])
    else
      var rest := Attempt(outcomes[1..]);
      assert forall i :: 1 <= i < |outcomes| ==> outcomes[1..][i - 1] == outcomes[i];
      (rest.0 + 1, rest.1)
  }

  /** `main`: the seed is read before the `try`, so a bad seed is the one
      exception that leaves main; everything raised inside is printed. */
  function Main(randomText: string, in_: Inputs): (r: Result<Report>)
    ensures r.Raise? <==> RandomState(randomText).Raise?
    ensures r.Raise? ==> r.exc == RandomState(randomText).exc
  {
    var _ :- RandomState(randomText);
    var (n, stop) := Attempt(Outcomes(in_));
    match stop
    case None => Ok(Report(Stages[..n], None))
    case Some(e) => Ok(Report(Stages[..n], Some(ErrorPrefix + Describe(e))))
  }

  /** Inside the `try` main starts the stages in their order and stops at
      the first that raises, printing that exception; when none raises all
      five run and nothing is printed. */
  lemma MainStopsAtFirstFailure(randomText: string, in_: Inputs)
    requires RandomState(randomText).Ok?
    ensures var r := Main(randomText, in_).value;
            var os := Outcomes(in_);
            && 0 < |r.started| && r.started == Stages[..|r.started|]
            && (forall i :: 0 <= i < |r.started| - 1 ==> os[i].None?)
            && (r.printed.None? <==> forall i :: 0 <= i < |os| ==> os[i].None?)
            && (r.printed.None? ==> r.started == Stages)
            && (r.printed.Some? ==>
                  os[|r.started| - 1].Some? && r.printed == Some(ErrorPrefix + Describe(os[|r.started| - 1].value)))
  {
  }

  /** Setup never starts unless the parameters match, the particles
      suffice and the mode is known; run never starts unless setup went
      through. */
  lemma MainGuards(randomText: string, in_: Inputs)
    requires RandomState(randomText).Ok?
    ensures var r := Main(randomText, in_).value;
            && (SetupStage in r.started ==>
                  && CheckParametersMatch(in_.simKeys, in_.boundKeys).Ok?
                  && CheckParticles(in_.nparticles).Ok?
                  && CheckMode(ControllerModes, in_.mode).Ok?)
            && (RunStage in r.started ==> in_.setupStop.None?)
  {
    var os := Outcomes(in_);
    var n := Attempt(os).0;
    var r := Main(randomText, in_).value;
    assert r.started == Stages[..n];
    if SetupStage in r.started {
      StageReached(n, 3);
      assert os[0].None? && os[1].None? && os[2].None?;
    }
    if RunStage in r.started {
      StageReached(n, 4);
      assert os[3].None?;
    }
  }

  /** A stage is among the first `n` started only when `n` goes past it:
      the stages are all different. */
  lemma StageReached(n: nat, k: nat)
    requires n <= |Stages| && k < |Stages| && Stages[k] in Stages[..n]
    ensures n > k
  {
    var j :| 0 <= j < n && Stages[..n][j] == Stages[k];
    assert Stages[j] == Stages[k];
  }
}
