/** The driver of one turn (internal/agent/loop_dispatch.go, runOnceSDK): it re-runs
    the SDK loop after a steered stop, under one step budget, and the hook that lets
    one SDK run continue past a stop (internal/agent/continue_on_stop.go). */
module TurnDriver {
  import opened Basics

  /** The fields of Options the driver reads. A count that is not positive is unset. */
  datatype Options = Options(maxSteps: int, maxTurns: int, hasBeforeStep: bool, preserveWorkLimits: bool)

  datatype Stop = Steered | MaxIterations | OtherStop

  datatype RunError = NoError | Interrupted | OtherError

  /** One SDK run's result. `lastText` is the last non-blank assistant text of the turn
      in its history, empty when there is none. */
  datatype RunResult = RunResult(error: RunError, stop: Stop, iterations: nat, final: string, lastText: string)

  datatype TurnEnd =
    | Replied(text: string)
    | SteerInterrupted(text: string)
    | ErrorReturned(text: string, error: RunError)
    | StepCapExceeded(cap: int)

  datatype Ran = Ran(opts: Options, result: RunResult)

  const MAX_UNBOUNDED_STEER_CONTINUES := 25

  function EffectiveMaxIterations(opts: Options): int {
    if opts.maxTurns > 0 && (opts.maxSteps <= 0 || opts.maxTurns < opts.maxSteps) then opts.maxTurns else opts.maxSteps
  }

  function SteerContinueBound(opts: Options): (bound: nat)
    ensures bound > 0
  {
    if EffectiveMaxIterations(opts) > 0 then EffectiveMaxIterations(opts) else MAX_UNBOUNDED_STEER_CONTINUES
  }

  /** What an SDK run promises about the iterations it reports. */
  predicate KeepsBound(opts: Options, result: RunResult) {
    EffectiveMaxIterations(opts) > 0 ==> result.iterations <= EffectiveMaxIterations(opts)
  }

  /** Iterations reported by the first `k` runs. */
  function Spent(trace: seq<Ran>, k: nat): nat
    requires k <= |trace|
  {
    if k == 0 then 0 else Spent(trace, k - 1) + trace[k - 1].result.iterations
  }

  function Iterations(trace: seq<Ran>): nat {
    Spent(trace, |trace|)
  }

  lemma {:induction false} SpentPrefix(trace: seq<Ran>, ran: Ran, k: nat)
    requires k <= |trace|
    ensures Spent(trace + [ran], k) == Spent(trace, k)
  {
    if k > 0 {
      SpentPrefix(trace, ran, k - 1);
    }
  }

  /** Whether the driver runs the SDK loop again after run `k`. */
  predicate Continues(opts: Options, trace: seq<Ran>, k: nat)
    requires k < |trace|
  {
    && trace[k].result.error == NoError && trace[k].result.stop == Steered && opts.hasBeforeStep
    && k < SteerContinueBound(opts)
    && (opts.maxSteps > 0 ==> Spent(trace, k + 1) < opts.maxSteps)
  }

  /** The options run `k` is given: the first run's are the caller's, a re-run has what
      is left of the step budget and keeps the work-limit meter. */
  function OptionsFor(opts: Options, trace: seq<Ran>, k: nat): Options
    requires k <= |trace|
  {
    if k == 0 then opts
    else opts.(maxSteps := if opts.maxSteps > 0 then opts.maxSteps - Spent(trace, k) else opts.maxSteps,
               preserveWorkLimits := true)
  }

  predicate Due(opts: Options, trace: seq<Ran>, k: nat)
    requires k < |trace|
  {
    trace[k].opts == OptionsFor(opts, trace, k)
  }

  function EndOf(opts: Options, r: RunResult): TurnEnd {
    match r.error
    case Interrupted => ErrorReturned(r.lastText, Interrupted)
    case OtherError => ErrorReturned("", OtherError)
    case NoError =>
      match r.stop
      case Steered => SteerInterrupted(r.lastText)
      case MaxIterations => StepCapExceeded(EffectiveMaxIterations(opts))
      case OtherStop => Replied(if Blank(r.final) then r.lastText else r.final)
  }

  /** A whole turn: each run had the options due, each but the last was continued, the
      last was not. */
  ghost predicate IsTurn(opts: Options, trace: seq<Ran>) {
    && trace != []
    && (forall k :: 0 <= k < |trace| ==> Due(opts, trace, k))
    && (forall k :: 0 <= k < |trace| - 1 ==> Continues(opts, trace, k))
    && !Continues(opts, trace, |trace| - 1)
  }

  /** Runs so far, all of them continued. */
  ghost predicate UnderWay(opts: Options, trace: seq<Ran>) {
    forall k :: 0 <= k < |trace| ==> Due(opts, trace, k) && Continues(opts, trace, k)
  }

  lemma NoRuns(opts: Options)
    ensures UnderWay(opts, []) && Iterations([]) == 0
  {
  }

  lemma AppendRun(opts: Options, trace: seq<Ran>, ran: Ran)
    requires UnderWay(opts, trace) && ran.opts == OptionsFor(opts, trace, |trace|)
    ensures Iterations(trace + [ran]) == Iterations(trace) + ran.result.iterations
    ensures Continues(opts, trace + [ran], |trace|) <==>
              && ran.result.error == NoError && ran.result.stop == Steered && opts.hasBeforeStep
              && |trace| < SteerContinueBound(opts)
              && (opts.maxSteps > 0 ==> Iterations(trace) + ran.result.iterations < opts.maxSteps)
    ensures if Continues(opts, trace + [ran], |trace|) then UnderWay(opts, trace + [ran])
          else IsTurn(opts, trace + [ran])
  {
    var longer := trace + [ran];
    SpentPrefix(trace, ran, |trace|);
    forall k | 0 <= k < |trace|
      ensures Due(opts, longer, k) && Continues(opts, longer, k)
    {
      SpentPrefix(trace, ran, k);
      SpentPrefix(trace, ran, k + 1);
      assert Due(opts, trace, k) && Continues(opts, trace, k);
    }
  }

  method ShrinkStepBudgetForReRun(opts: Options, origMaxSteps: int, stepsConsumed: nat)
    returns (ok: bool, shrunk: Options)
    ensures ok <==> origMaxSteps <= 0 || stepsConsumed < origMaxSteps
    ensures shrunk == if ok && origMaxSteps > 0 then opts.(maxSteps := origMaxSteps - stepsConsumed) else opts
    ensures ok && origMaxSteps > 0 ==> shrunk.maxSteps > 0
  {
    if origMaxSteps <= 0 {
      return true, opts;
    }
    var remaining := origMaxSteps - stepsConsumed;
    if remaining <= 0 {
      return false, opts;
    }
    return true, opts.(maxSteps := remaining);
  }

  /** `sdk(k, o)` is what the k-th run reports when it is given options `o`. */
  method RunOnceSDK(opts: Options, sdk: (nat, Options) -> RunResult) returns (end: TurnEnd, trace: seq<Ran>)
    ensures IsTurn(opts, trace)
    ensures forall k :: 0 <= k < |trace| ==> trace[k].result == sdk(k, trace[k].opts)
    ensures end == EndOf(trace[|trace| - 1].opts, trace[|trace| - 1].result)
    ensures var last := trace[|trace| - 1].result;
      && (end.Replied? <==> last.error == NoError && last.stop == OtherStop)
      && (end.Replied? ==> end.text == if Blank(last.final) then last.lastText else last.final)
      && (end.StepCapExceeded? <==> last.error == NoError && last.stop == MaxIterations)
      && (end.StepCapExceeded? ==> end.cap == EffectiveMaxIterations(trace[|trace| - 1].opts))
      && (end.SteerInterrupted? <==> last.error == NoError && last.stop == Steered)
      && (last.error == OtherError ==> end == ErrorReturned("", OtherError))
  {
    hide UnderWay, IsTurn, Continues, Spent;
    NoRuns(opts);
    var current := opts;
    var stepsConsumed := 0;
    var maxSteerContinues := SteerContinueBound(opts);
    var steerContinues := 0;
    trace := [];
    while true
      invariant steerContinues == |trace| <= maxSteerContinues
      invariant stepsConsumed == Iterations(trace)
      invariant current == OptionsFor(opts, trace, |trace|)
      invariant forall k :: 0 <= k < |trace| ==> trace[k].result == sdk(k, trace[k].opts)
      invariant UnderWay(opts, trace)
      decreases maxSteerContinues - steerContinues
    {
      var res := sdk(steerContinues, current);
      AppendRun(opts, trace, Ran(current, res));
      trace := trace + [Ran(current, res)];
      stepsConsumed := stepsConsumed + res.iterations;
      if res.error != NoError {
        if res.error == Interrupted && res.lastText != "" {
          return ErrorReturned(res.lastText, Interrupted), trace;
        }
        return ErrorReturned("", res.error), trace;
      }
      if res.stop == Steered && current.hasBeforeStep && steerContinues < maxSteerContinues {
        var ok, shrunk := ShrinkStepBudgetForReRun(current, opts.maxSteps, stepsConsumed);
        if !ok {
          return SteerInterrupted(res.lastText), trace;
        }
        current := shrunk.(preserveWorkLimits := true);
        steerContinues := steerContinues + 1;
        continue;
      }
      if res.stop == Steered {
        return SteerInterrupted(res.lastText), trace;
      }
      if res.stop == MaxIterations {
        return StepCapExceeded(EffectiveMaxIterations(current)), trace;
      }
      if Blank(res.final) {
        return Replied(res.lastText), trace;
      }
      return Replied(res.final), trace;
    }
  }

  // ----- how a turn goes and ends

  /** The bound on one run's iterations: the tighter of the two that are set. */
  lemma EffectiveExactly(opts: Options)
    ensures opts.maxTurns > 0 && opts.maxSteps > 0 ==> EffectiveMaxIterations(opts) == Min(opts.maxTurns, opts.maxSteps)
    ensures opts.maxTurns > 0 && opts.maxSteps <= 0 ==> EffectiveMaxIterations(opts) == opts.maxTurns
    ensures opts.maxTurns <= 0 ==> EffectiveMaxIterations(opts) == opts.maxSteps
    ensures EffectiveMaxIterations(opts) <= 0 ==> SteerContinueBound(opts) == 25
    ensures EffectiveMaxIterations(opts) > 0 ==> SteerContinueBound(opts) == EffectiveMaxIterations(opts)
  {
  }

  /** The course of a turn. Every run but the last was steered without error, while something
      could take the steering up; a last run that was too stopped for the bound on re-runs or
      the step budget. Every re-run has what is left of the step budget, keeps the work-limit
      meter, and otherwise the turn's own options. */
  lemma TurnCourse(opts: Options, trace: seq<Ran>, k: nat)
    requires IsTurn(opts, trace) && k < |trace|
    ensures k < |trace| - 1 ==>
      trace[k].result.error == NoError && trace[k].result.stop == Steered && opts.hasBeforeStep
    ensures k == |trace| - 1 && trace[k].result.error == NoError && trace[k].result.stop == Steered ==>
      !opts.hasBeforeStep || k >= SteerContinueBound(opts) || (opts.maxSteps > 0 && Iterations(trace) >= opts.maxSteps)
    ensures k == 0 ==> trace[k].opts == opts
    ensures k > 0 ==> trace[k].opts.preserveWorkLimits
    ensures trace[k].opts.maxTurns == opts.maxTurns && trace[k].opts.hasBeforeStep == opts.hasBeforeStep
    ensures opts.maxSteps > 0 ==> trace[k].opts.maxSteps == opts.maxSteps - Spent(trace, k)
    ensures opts.maxSteps <= 0 ==> trace[k].opts.maxSteps == opts.maxSteps
  {
    assert Due(opts, trace, k);
    assert k < |trace| - 1 ==> Continues(opts, trace, k);
  }

  /** How a turn ends, told from its last run. It replies exactly after an ordinary stop without
      error, with the final text unless that is blank; it names the cap exactly when the run
      stopped at it; and an error that is no interrupt lets no text out. */
  lemma EndExactly(opts: Options, r: RunResult)
    ensures EndOf(opts, r).Replied? <==> r.error == NoError && r.stop == OtherStop
    ensures EndOf(opts, r).StepCapExceeded? <==> r.error == NoError && r.stop == MaxIterations
    ensures EndOf(opts, r).SteerInterrupted? <==> r.error == NoError && r.stop == Steered
    ensures EndOf(opts, r).ErrorReturned? <==> r.error != NoError
    ensures EndOf(opts, r).Replied? ==> EndOf(opts, r).text == if Blank(r.final) then r.lastText else r.final
    ensures EndOf(opts, r).StepCapExceeded? ==> EndOf(opts, r).cap == EffectiveMaxIterations(opts)
    ensures EndOf(opts, r).SteerInterrupted? ==> EndOf(opts, r).text == r.lastText
    ensures EndOf(opts, r).ErrorReturned? ==> EndOf(opts, r).error == r.error
    ensures r.error == OtherError ==> EndOf(opts, r).text == ""
    ensures r.error == Interrupted ==> EndOf(opts, r).text == r.lastText
  {
  }

  // ----- what a turn can cost

  /** The number of SDK runs is bounded. */
  lemma RunsBounded(opts: Options, trace: seq<Ran>)
    requires IsTurn(opts, trace)
    ensures |trace| <= SteerContinueBound(opts) + 1
  {
    if |trace| > 1 {
      assert Continues(opts, trace, |trace| - 2);
    }
  }

  /** A step budget bounds the whole turn, however often it is steered: the iterations
      of all runs sum to at most MaxSteps, and no run is given a budget of zero, which
      the SDK would read as unlimited. */
  lemma StepBudgetHolds(opts: Options, trace: seq<Ran>)
    requires IsTurn(opts, trace) && opts.maxSteps > 0
    requires forall k :: 0 <= k < |trace| ==> KeepsBound(trace[k].opts, trace[k].result)
    ensures Iterations(trace) <= opts.maxSteps
    ensures forall k :: 0 <= k < |trace| ==> trace[k].opts.maxSteps > 0
  {
    forall k | 0 <= k < |trace|
      ensures trace[k].opts.maxSteps > 0
    {
      assert Due(opts, trace, k);
      if k > 0 {
        assert Continues(opts, trace, k - 1);
      }
    }
    var last := |trace| - 1;
    assert Due(opts, trace, last);
    assert KeepsBound(trace[last].opts, trace[last].result);
  }

  lemma {:induction false} SumAtMost(trace: seq<Ran>, k: nat, each: nat)
    requires k <= |trace| && forall i :: 0 <= i < k ==> trace[i].result.iterations <= each
    ensures Spent(trace, k) <= k * each
  {
    if k > 0 {
      SumAtMost(trace, k - 1, each);
      assert k * each == (k - 1) * each + each;
    }
  }

  /** With only MaxTurns set the budget is per run, and the turn may cost MaxTurns times
      (MaxTurns + 1). */
  lemma MaxTurnsBound(opts: Options, trace: seq<Ran>)
    requires IsTurn(opts, trace) && opts.maxSteps <= 0 && opts.maxTurns > 0
    requires forall k :: 0 <= k < |trace| ==> KeepsBound(trace[k].opts, trace[k].result)
    ensures Iterations(trace) <= (opts.maxTurns + 1) * opts.maxTurns
  {
    forall k | 0 <= k < |trace|
      ensures trace[k].result.iterations <= opts.maxTurns
    {
      assert Due(opts, trace, k);
      assert KeepsBound(trace[k].opts, trace[k].result);
    }
    SumAtMost(trace, |trace|, opts.maxTurns);
    RunsBounded(opts, trace);
    Monotone(|trace|, opts.maxTurns + 1, opts.maxTurns);
  }

  lemma Monotone(a: nat, b: nat, c: nat)
    requires a <= b
    ensures a * c <= b * c
  {
  }

  function Worst(turns: nat, n: nat): seq<Ran> {
    seq(n, k => Ran(Options(0, turns, true, k > 0), RunResult(NoError, Steered, turns, "", "")))
  }

  lemma {:induction false} WorstCost(turns: nat, n: nat, k: nat)
    requires k <= n
    ensures Spent(Worst(turns, n), k) == k * turns
  {
    if k > 0 {
      WorstCost(turns, n, k - 1);
      assert k * turns == (k - 1) * turns + turns;
    }
  }

  /** The bound is reached: MaxTurns is not shrunk between re-runs, so a turn steered at
      the end of every run multiplies it. */
  lemma MaxTurnsMultiplies(turns: nat)
    requires turns > 0
    ensures var opts, trace := Options(0, turns, true, false), Worst(turns, turns + 1);
      && IsTurn(opts, trace)
      && (forall k :: 0 <= k < |trace| ==> KeepsBound(trace[k].opts, trace[k].result))
      && Iterations(trace) == (turns + 1) * turns
  {
    WorstCost(turns, turns + 1, turns + 1);
  }

  ghost predicate AllKeepBound(trace: seq<Ran>) {
    forall k :: 0 <= k < |trace| ==> KeepsBound(trace[k].opts, trace[k].result)
  }

  /** The options under which one run's bound holds for the turn. */
  predicate BoundsTurn(opts: Options) {
    !opts.hasBeforeStep || opts.maxTurns <= 0 || 0 < opts.maxSteps <= opts.maxTurns
  }

  lemma TurnWithin(opts: Options, trace: seq<Ran>)
    requires EffectiveMaxIterations(opts) > 0 && BoundsTurn(opts) && IsTurn(opts, trace) && AllKeepBound(trace)
    ensures Iterations(trace) <= EffectiveMaxIterations(opts)
  {
    if opts.hasBeforeStep {
      StepBudgetHolds(opts, trace);
    } else {
      assert |trace| > 1 ==> Continues(opts, trace, 0);
      assert Due(opts, trace, 0) && KeepsBound(trace[0].opts, trace[0].result);
      assert Spent(trace, 1) == Spent(trace, 0) + trace[0].result.iterations;
    }
  }

  /** A turn steered at the end of its first run, then one step more. */
  lemma TurnBeyond(opts: Options) returns (trace: seq<Ran>)
    requires EffectiveMaxIterations(opts) > 0 && !BoundsTurn(opts)
    ensures IsTurn(opts, trace) && AllKeepBound(trace) && Iterations(trace) > EffectiveMaxIterations(opts)
  {
    var first := Ran(opts, RunResult(NoError, Steered, opts.maxTurns, "", ""));
    NoRuns(opts);
    AppendRun(opts, [], first);
    assert [] + [first] == [first];
    var second := Ran(OptionsFor(opts, [first], 1), RunResult(NoError, OtherStop, 1, "", ""));
    AppendRun(opts, [first], second);
    trace := [first] + [second];
    assert Spent([first], 1) == Spent([first], 0) + opts.maxTurns;
  }

  /** The iterations one run may take bound the whole turn exactly when the turn cannot be
      steered, or its bound is the step budget, which is the one that shrinks. */
  lemma OneRunsBoundIsTheTurnsIff(opts: Options)
    requires EffectiveMaxIterations(opts) > 0
    ensures (forall trace :: IsTurn(opts, trace) && AllKeepBound(trace) ==>
          Iterations(trace) <= EffectiveMaxIterations(opts))
       <==> BoundsTurn(opts)
  {
    if BoundsTurn(opts) {
      forall trace | IsTurn(opts, trace) && AllKeepBound(trace)
        ensures Iterations(trace) <= EffectiveMaxIterations(opts)
      {
        TurnWithin(opts, trace);
      }
    } else {
      var trace := TurnBeyond(opts);
    }
  }

  // ----- continuing past a stop

  const MAX_EMPTY_RESPONSE_RETRIES := 2

  datatype StopReason = StopSteered | StopEmptyResponse | StopNoToolCalls | StopOther

  /** What the hook is asked: why the run stopped, how many steps it has taken, and
      whether the turn is genuinely empty, or left announced work undone. */
  datatype Decision = Decision(stop: StopReason, step: nat, leftEmpty: bool, leftUnacted: bool)

  datatype HookOptions = HookOptions(disableProviderReplay: bool, maxIterations: int, requireFinalText: bool,
                                     maxUnactedContinuations: int)

  class ContinueOnStop {
    const opts: HookOptions
    var emptyRetries: nat
    var unactedContinuations: nat

    constructor (opts: HookOptions)
      ensures this.opts == opts && emptyRetries == 0 && unactedContinuations == 0
    {
      this.opts, emptyRetries, unactedContinuations := opts, 0, 0;
    }

    method Decide(d: Decision) returns (granted: bool)
      modifies this
      ensures granted <==>
        && !opts.disableProviderReplay && (opts.maxIterations > 0 ==> d.step < opts.maxIterations)
        && ((d.stop.StopEmptyResponse? && opts.requireFinalText && d.leftEmpty && old(emptyRetries) < 2)
            || (d.stop.StopNoToolCalls? && d.leftUnacted && old(unactedContinuations) < opts.maxUnactedContinuations))
      ensures granted == Grants(opts, old(emptyRetries), old(unactedContinuations), d)
      ensures emptyRetries == old(emptyRetries) + (if granted && d.stop.StopEmptyResponse? then 1 else 0)
      ensures unactedContinuations == old(unactedContinuations) + (if granted && d.stop.StopNoToolCalls? then 1 else 0)
    {
      if opts.disableProviderReplay {
        return false;
      }
      if opts.maxIterations > 0 && d.step >= opts.maxIterations {
        return false;
      }
      match d.stop
      case StopSteered =>
        return false;
      case StopEmptyResponse =>
        if !opts.requireFinalText || emptyRetries >= MAX_EMPTY_RESPONSE_RETRIES || !d.leftEmpty {
          return false;
        }
        emptyRetries := emptyRetries + 1;
        return true;
      case StopNoToolCalls =>
        if opts.maxUnactedContinuations <= 0 || unactedContinuations >= opts.maxUnactedContinuations || !d.leftUnacted {
          return false;
        }
        unactedContinuations := unactedContinuations + 1;
        return true;
      case StopOther =>
        return false;
    }
  }

  /** A stop one of the two policies would continue, counters aside. */
  predicate Eligible(opts: HookOptions, d: Decision, stop: StopReason) {
    && d.stop == stop && !opts.disableProviderReplay
    && (opts.maxIterations > 0 ==> d.step < opts.maxIterations)
    && (stop.StopEmptyResponse? ==> opts.requireFinalText && d.leftEmpty)
    && (stop.StopNoToolCalls? ==> d.leftUnacted)
  }

  function Allowance(opts: HookOptions, stop: StopReason): nat {
    match stop
    case StopEmptyResponse => MAX_EMPTY_RESPONSE_RETRIES
    case StopNoToolCalls => if opts.maxUnactedContinuations > 0 then opts.maxUnactedContinuations else 0
    case _ => 0
  }

  function Grants(opts: HookOptions, empties: nat, unacted: nat, d: Decision): bool {
    || (Eligible(opts, d, StopEmptyResponse) && empties < Allowance(opts, StopEmptyResponse))
    || (Eligible(opts, d, StopNoToolCalls) && unacted < Allowance(opts, StopNoToolCalls))
  }

  function CountEligible(opts: HookOptions, ds: seq<Decision>, stop: StopReason): nat {
    if ds == [] then 0
    else CountEligible(opts, ds[..|ds| - 1], stop) + (if Eligible(opts, ds[|ds| - 1], stop) then 1 else 0)
  }

  /** The counters after a run's stops: (empty retries, unacted continuations). */
  function Counters(opts: HookOptions, ds: seq<Decision>): (nat, nat) {
    if ds == [] then (0, 0)
    else
      var (e, u) := Counters(opts, ds[..|ds| - 1]);
      var d := ds[|ds| - 1];
      var granted := Grants(opts, e, u, d);
      (e + (if granted && d.stop.StopEmptyResponse? then 1 else 0),
            u + (if granted && d.stop.StopNoToolCalls? then 1 else 0))
  }

  /** When the hook continues: a replay is allowed and steps are left, and either an empty
      response that must not be one still has a retry, or announced work still has a
      continuation. */
  lemma GrantsIff(opts: HookOptions, empties: nat, unacted: nat, d: Decision)
    ensures Grants(opts, empties, unacted, d) <==>
      && !opts.disableProviderReplay && (opts.maxIterations > 0 ==> d.step < opts.maxIterations)
      && ((d.stop.StopEmptyResponse? && opts.requireFinalText && d.leftEmpty && empties < 2)
          || (d.stop.StopNoToolCalls? && d.leftUnacted && unacted < opts.maxUnactedContinuations))
  {
  }

  /** One hook's grants over a whole run, exactly: each policy continues its eligible
      stops until its own allowance is spent, so at most 2 + MaxUnactedContinuations in
      all. */
  lemma {:induction false} GrantsExactly(opts: HookOptions, ds: seq<Decision>)
    ensures Counters(opts, ds)
         == (Min(CountEligible(opts, ds, StopEmptyResponse), Allowance(opts, StopEmptyResponse)),
             Min(CountEligible(opts, ds, StopNoToolCalls), Allowance(opts, StopNoToolCalls)))
    ensures Counters(opts, ds).0 + Counters(opts, ds).1
         <= MAX_EMPTY_RESPONSE_RETRIES + (if opts.maxUnactedContinuations > 0 then opts.maxUnactedContinuations else 0)
  {
    if ds != [] {
      GrantsExactly(opts, ds[..|ds| - 1]);
    }
  }
}
