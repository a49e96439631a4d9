/** Token reservations of one turn (internal/agent/work_limits.go and
    internal/agent/agentloop_budget.go): a meter with cumulative limits, and a bridge
    that charges it before a provider call and settles it after, keeping the amounts
    of the calls in flight on a stack. */
module WorkBudget {
  import opened Basics

  datatype Result<T> = Ok(value: T) | Exhausted

  /** A limit that is not positive is no limit. */
  datatype Limits = Limits(maxPromptTokens: int, maxOutputTokens: int, maxOutputPerCall: int)

  datatype Meter = Meter(limits: Limits, promptTokens: int, outputTokens: int)

  datatype Reservation = Reservation(promptTokens: int, outputTokens: int)

  datatype Budget = Budget(meter: Meter, stack: seq<Reservation>)

  /** How a provider call ended; Canceled includes a prompt rejected as too long. */
  datatype Ending = Succeeded(completionTokens: int) | Canceled | Failed

  // ----- the meter

  /** The tighter of two bounds, where one that is not positive bounds nothing. */
  function Tighter(a: int, b: int): (r: int)
    ensures r >= 0 && (a > 0 ==> 0 < r <= a) && (b > 0 ==> 0 < r <= b)
    ensures r > 0 ==> r == a || r == b
  {
    if a > 0 && (b <= 0 || a < b) then a else if b > 0 then b else 0
  }

  /** The output one call may be granted: refused only when the cumulative allowance is
      spent, unlimited only when nothing bounds it. */
  function Cap(m: Meter, requested: Option<int>): Result<Option<int>> {
    var left := m.limits.maxOutputTokens - m.outputTokens;
    if m.limits.maxOutputTokens > 0 && left <= 0 then Exhausted
    else
      var perCall := Tighter(if requested.Some? then requested.value else 0, m.limits.maxOutputPerCall);
      var cap := Tighter(perCall, if m.limits.maxOutputTokens > 0 then left else 0);
      Ok(if cap > 0 then Some(cap) else None)
  }

  /** The grant is no more than the request, the per-call limit or what is left, where they are
      set, and equal to one of them; it is unlimited only when none is set, and refused only
      when nothing is left. */
  lemma CapExactly(m: Meter, requested: Option<int>)
    ensures Cap(m, requested) == Exhausted <==>
              m.limits.maxOutputTokens > 0 && m.outputTokens >= m.limits.maxOutputTokens
    ensures Cap(m, requested).Ok? ==>
      var grant := Cap(m, requested).value;
      var left := m.limits.maxOutputTokens - m.outputTokens;
      && (grant.None? <==>
            && (requested.Some? ==> requested.value <= 0)
            && m.limits.maxOutputPerCall <= 0 && m.limits.maxOutputTokens <= 0)
      && (grant.Some? ==>
            && grant.value > 0
            && (requested.Some? && requested.value > 0 ==> grant.value <= requested.value)
            && (m.limits.maxOutputPerCall > 0 ==> grant.value <= m.limits.maxOutputPerCall)
            && (m.limits.maxOutputTokens > 0 ==> grant.value <= left)
            && ((requested.Some? && grant.value == requested.value) || grant.value == m.limits.maxOutputPerCall
                || (m.limits.maxOutputTokens > 0 && grant.value == left)))
  {
  }

  /** The output a reservation charges when it names none. */
  function Charge(m: Meter, outputTokens: int): Result<int> {
    if outputTokens > 0 then Ok(outputTokens)
    else if m.limits.maxOutputPerCall > 0 || m.limits.maxOutputTokens <= 0 then Ok(m.limits.maxOutputPerCall)
    else if m.limits.maxOutputTokens - m.outputTokens <= 0 then Exhausted
    else Ok(m.limits.maxOutputTokens - m.outputTokens)
  }

  predicate Within(limit: int, used: int, more: int) {
    limit > 0 ==> more <= limit - used
  }

  function Reserve(m: Meter, promptTokens: int, outputTokens: int): Result<Meter> {
    match Charge(m, outputTokens)
    case Exhausted => Exhausted
    case Ok(charge) =>
      if Within(m.limits.maxOutputPerCall, 0, charge)
         && Within(m.limits.maxPromptTokens, m.promptTokens, promptTokens)
         && Within(m.limits.maxOutputTokens, m.outputTokens, charge)
      then Ok(m.(promptTokens := m.promptTokens + promptTokens, outputTokens := m.outputTokens + charge))
      else Exhausted
  }

  function Refund(m: Meter, promptTokens: int, outputTokens: int): Meter {
    m.(promptTokens := if m.promptTokens < promptTokens then 0 else m.promptTokens - promptTokens,
       outputTokens := if m.outputTokens < outputTokens then 0 else m.outputTokens - outputTokens)
  }

  /** A reservation that names its output is granted exactly when it passes no limit that is
      set, and charges both amounts. */
  lemma ReserveExactly(m: Meter, promptTokens: int, outputTokens: int)
    requires outputTokens > 0
    ensures Reserve(m, promptTokens, outputTokens).Ok? <==>
      && (m.limits.maxOutputPerCall > 0 ==> outputTokens <= m.limits.maxOutputPerCall)
      && (m.limits.maxPromptTokens > 0 ==> m.promptTokens + promptTokens <= m.limits.maxPromptTokens)
      && (m.limits.maxOutputTokens > 0 ==> m.outputTokens + outputTokens <= m.limits.maxOutputTokens)
    ensures Reserve(m, promptTokens, outputTokens).Ok? ==>
      Reserve(m, promptTokens, outputTokens).value
      == m.(promptTokens := m.promptTokens + promptTokens, outputTokens := m.outputTokens + outputTokens)
  {
  }

  /** One that names none charges the per-call limit; without one, all that is left of the
      cumulative allowance; without that either, the limit's own value. */
  lemma ReserveUnnamed(m: Meter, promptTokens: int, outputTokens: int)
    requires outputTokens <= 0
    ensures
      var left := m.limits.maxOutputTokens - m.outputTokens;
      var perCall := m.limits.maxOutputPerCall;
      var charge := if perCall <= 0 < m.limits.maxOutputTokens then left else perCall;
      && (Reserve(m, promptTokens, outputTokens).Ok? <==>
            && (m.limits.maxOutputTokens > 0 ==> charge <= left)
            && (m.limits.maxOutputPerCall <= 0 < m.limits.maxOutputTokens ==> left > 0)
            && (m.limits.maxPromptTokens > 0 ==> m.promptTokens + promptTokens <= m.limits.maxPromptTokens))
      && (Reserve(m, promptTokens, outputTokens).Ok? ==>
            Reserve(m, promptTokens, outputTokens).value
            == m.(promptTokens := m.promptTokens + promptTokens, outputTokens := m.outputTokens + charge))
  {
  }

  /** A refund subtracts, and stops at zero. */
  lemma RefundExactly(m: Meter, promptTokens: int, outputTokens: int)
    ensures var r := Refund(m, promptTokens, outputTokens);
      && r.limits == m.limits
      && (m.promptTokens >= promptTokens ==> r.promptTokens == m.promptTokens - promptTokens)
      && (m.promptTokens < promptTokens ==> r.promptTokens == 0)
      && (m.outputTokens >= outputTokens ==> r.outputTokens == m.outputTokens - outputTokens)
      && (m.outputTokens < outputTokens ==> r.outputTokens == 0)
  {
  }

  class WorkLimitMeter {
    const limits: Limits
    var promptTokens: int
    var outputTokens: int

    constructor (limits: Limits)
      ensures State() == Meter(limits, 0, 0)
    {
      this.limits, promptTokens, outputTokens := limits, 0, 0;
    }

    function State(): Meter
      reads this
    {
      Meter(limits, promptTokens, outputTokens)
    }

    method OutputCap(requested: Option<int>) returns (r: Result<Option<int>>)
      ensures r == Cap(State(), requested)
    {
      var cap := 0;
      if requested.Some? && requested.value > 0 {
        cap := requested.value;
      }
      if limits.maxOutputPerCall > 0 && (cap <= 0 || limits.maxOutputPerCall < cap) {
        cap := limits.maxOutputPerCall;
      }
      if limits.maxOutputTokens > 0 {
        var remaining := limits.maxOutputTokens - outputTokens;
        if remaining <= 0 {
          return Exhausted;
        }
        if cap <= 0 || remaining < cap {
          cap := remaining;
        }
      }
      return Ok(if cap <= 0 then None else Some(cap));
    }

    method ReserveProvider(promptTokens: int, outputTokens: int) returns (ok: bool)
      modifies this
      ensures ok <==> Reserve(old(State()), promptTokens, outputTokens).Ok?
      ensures State() == if ok then Reserve(old(State()), promptTokens, outputTokens).value else old(State())
    {
      var charge := outputTokens;
      if charge <= 0 {
        charge := limits.maxOutputPerCall;
        if charge <= 0 && limits.maxOutputTokens > 0 {
          charge := limits.maxOutputTokens - this.outputTokens;
          if charge <= 0 {
            return false;
          }
        }
      }
      if limits.maxOutputPerCall > 0 && charge > limits.maxOutputPerCall {
        return false;
      }
      if limits.maxPromptTokens > 0 && promptTokens > limits.maxPromptTokens - this.promptTokens {
        return false;
      }
      if limits.maxOutputTokens > 0 && charge > limits.maxOutputTokens - this.outputTokens {
        return false;
      }
      this.promptTokens := this.promptTokens + promptTokens;
      this.outputTokens := this.outputTokens + charge;
      return true;
    }

    method RefundProvider(promptTokens: int, outputTokens: int)
      modifies this
      ensures State() == Refund(old(State()), promptTokens, outputTokens)
    {
      if this.promptTokens < promptTokens {
        this.promptTokens := 0;
      } else {
        this.promptTokens := this.promptTokens - promptTokens;
      }
      if this.outputTokens < outputTokens {
        this.outputTokens := 0;
      } else {
        this.outputTokens := this.outputTokens - outputTokens;
      }
    }
  }

  // ----- the bridge

  /** The locked half of a reservation. The cap was read under an earlier hold of the
      lock, so other calls may have come in between. */
  function CommitStep(b: Budget, est: int, reserve: int): Result<Budget> {
    match Reserve(b.meter, est, reserve)
    case Exhausted => Exhausted
    case Ok(m) => Ok(Budget(m, b.stack + [Reservation(est, reserve)]))
  }

  function RefundStep(b: Budget, ending: Ending): Budget {
    if b.stack == [] then b
    else
      var top := b.stack[|b.stack| - 1];
      Budget(match ending
             case Canceled => Refund(b.meter, top.promptTokens, top.outputTokens)
             case Failed => b.meter
             case Succeeded(used) => if top.outputTokens - used > 0
                   then Refund(b.meter, 0, top.outputTokens - used) else b.meter,
             b.stack[..|b.stack| - 1])
  }

  class SdkWorkBudget {
    const meter: WorkLimitMeter
    const maxTokens: Option<int>
    var stack: seq<Reservation>

    constructor (meter: WorkLimitMeter, maxTokens: Option<int>)
      ensures this.meter == meter && this.maxTokens == maxTokens && stack == []
    {
      this.meter, this.maxTokens, stack := meter, maxTokens, [];
    }

    function State(): Budget
      reads this, meter
    {
      Budget(meter.State(), stack)
    }

    method ClampedMaxTokens() returns (r: Result<Option<int>>)
      ensures r == Cap(meter.State(), maxTokens)
    {
      r := meter.OutputCap(maxTokens);
    }

    method Commit(est: int, reserve: int) returns (ok: bool)
      modifies this, meter
      ensures ok <==> CommitStep(old(State()), est, reserve).Ok?
      ensures State() == if ok then CommitStep(old(State()), est, reserve).value else old(State())
    {
      ok := meter.ReserveProvider(est, reserve);
      if ok {
        stack := stack + [Reservation(est, reserve)];
      }
    }

    /** A reservation nothing interrupts. */
    method ReserveCall(est: int) returns (ok: bool)
      modifies this, meter
      ensures ok <==> ReserveStep(old(State()), maxTokens, est).Ok?
      ensures State() == if ok then ReserveStep(old(State()), maxTokens, est).value else old(State())
    {
      var out := ClampedMaxTokens();
      if out.Exhausted? {
        return false;
      }
      ok := Commit(est, if out.value.Some? then out.value.value else 0);
    }

    method RefundCall(ending: Ending)
      modifies this, meter
      ensures State() == RefundStep(old(State()), ending)
    {
      if |stack| == 0 {
        return;
      }
      var res := stack[|stack| - 1];
      stack := stack[..|stack| - 1];
      if ending.Canceled? {
        meter.RefundProvider(res.promptTokens, res.outputTokens);
      } else if ending.Succeeded? {
        var unused := res.outputTokens - ending.completionTokens;
        if unused > 0 {
          meter.RefundProvider(0, unused);
        }
      }
    }
  }

  function ReserveStep(b: Budget, maxTokens: Option<int>, est: int): Result<Budget> {
    match Cap(b.meter, maxTokens)
    case Exhausted => Exhausted
    case Ok(out) => CommitStep(b, est, if out.Some? then out.value else 0)
  }

  // ----- what is charged is what is stacked

  /** The amounts a cap, read at any earlier moment, can pass to the locked half: zero
      only when no output limit is set. */
  predicate FromCap(limits: Limits, reserve: int) {
    reserve >= 0 && (reserve == 0 ==> limits.maxOutputPerCall <= 0 && limits.maxOutputTokens <= 0)
  }

  lemma CapGivesReserve(m: Meter, requested: Option<int>)
    requires Cap(m, requested).Ok?
    ensures FromCap(m.limits, if Cap(m, requested).value.Some? then Cap(m, requested).value.value else 0)
  {
  }

  /** The reservation kept for the refund is exactly what the meter was charged, unless
      the per-call limit is negative and nothing else bounds the output: then the
      meter is credited for a call that reserved nothing. */
  lemma StackedIsCharged(b: Budget, est: int, reserve: int)
    requires FromCap(b.meter.limits, reserve) && CommitStep(b, est, reserve).Ok?
    ensures var m := CommitStep(b, est, reserve).value.meter;
      && m.promptTokens == b.meter.promptTokens + est
      && (m.outputTokens == b.meter.outputTokens + reserve <==> reserve > 0 || b.meter.limits.maxOutputPerCall >= 0)
  {
  }

  lemma NegativeLimitCredits()
    ensures var b := Budget(Meter(Limits(0, 0, -5), 0, 0), []);
      && ReserveStep(b, None, 3) == Ok(Budget(Meter(Limits(0, 0, -5), 3, -5), [Reservation(3, 0)]))
  {
    var b := Budget(Meter(Limits(0, 0, -5), 0, 0), []);
    assert Cap(b.meter, None) == Ok(None);
    assert Reserve(b.meter, 3, 0) == Ok(Meter(Limits(0, 0, -5), 3, -5));
    assert b.stack + [Reservation(3, 0)] == [Reservation(3, 0)];
  }

  // ----- conservation over every interleaving

  /** One locked step of some call on the bridge. */
  datatype Event = Commit(est: int, reserve: int) | Settle(ending: Ending)

  predicate Admissible(limits: Limits, e: Event) {
    match e
    case Commit(est, reserve) => est >= 0 && FromCap(limits, reserve)
    case Settle(ending) => ending.Succeeded? ==> ending.completionTokens >= 0
  }

  /** What the settled calls have cost, next to the live budget. */
  datatype Books = Books(budget: Budget, settledPrompt: int, settledOutput: int)

  function Cost(r: Reservation, ending: Ending): Reservation {
    match ending
    case Canceled => Reservation(0, 0)
    case Failed => r
    case Succeeded(used) => Reservation(r.promptTokens, Min(r.outputTokens, used))
  }

  function Happen(k: Books, e: Event): Books {
    match e
    case Commit(est, reserve) =>
      (match CommitStep(k.budget, est, reserve)
       case Exhausted => k
       case Ok(b) => k.(budget := b))
    case Settle(ending) =>
      if k.budget.stack == [] then k
      else
        var cost := Cost(k.budget.stack[|k.budget.stack| - 1], ending);
        Books(RefundStep(k.budget, ending), k.settledPrompt + cost.promptTokens, k.settledOutput + cost.outputTokens)
  }

  function Run(k: Books, events: seq<Event>): Books {
    if events == [] then k else Happen(Run(k, events[..|events| - 1]), events[|events| - 1])
  }

  function LivePrompt(stack: seq<Reservation>): int {
    if stack == [] then 0 else LivePrompt(stack[..|stack| - 1]) + stack[|stack| - 1].promptTokens
  }

  function LiveOutput(stack: seq<Reservation>): int {
    if stack == [] then 0 else LiveOutput(stack[..|stack| - 1]) + stack[|stack| - 1].outputTokens
  }

  /** The meter is what is in flight plus what was settled, nothing negative, and no
      limit passed. */
  ghost predicate Balanced(k: Books) {
    var m := k.budget.meter;
    && m.promptTokens == LivePrompt(k.budget.stack) + k.settledPrompt
    && m.outputTokens == LiveOutput(k.budget.stack) + k.settledOutput
    && k.settledPrompt >= 0 && k.settledOutput >= 0
    && (forall r :: r in k.budget.stack ==> r.promptTokens >= 0 && r.outputTokens >= 0)
    && (m.limits.maxPromptTokens > 0 ==> m.promptTokens <= m.limits.maxPromptTokens)
    && (m.limits.maxOutputTokens > 0 ==> m.outputTokens <= m.limits.maxOutputTokens)
  }

  lemma {:induction false} LiveNotNegative(stack: seq<Reservation>)
    requires forall r :: r in stack ==> r.promptTokens >= 0 && r.outputTokens >= 0
    ensures LivePrompt(stack) >= 0 && LiveOutput(stack) >= 0
  {
    if stack != [] {
      LiveNotNegative(stack[..|stack| - 1]);
      assert stack[|stack| - 1] in stack;
    }
  }

  lemma EventKeepsBalance(k: Books, e: Event)
    requires Balanced(k) && Admissible(k.budget.meter.limits, e) && k.budget.meter.limits.maxOutputPerCall >= 0
    ensures Balanced(Happen(k, e)) && Happen(k, e).budget.meter.limits == k.budget.meter.limits
    ensures Happen(k, e).budget.meter.promptTokens >= 0 && Happen(k, e).budget.meter.outputTokens >= 0
  {
    var stack := k.budget.stack;
    match e
    case Commit(est, reserve) =>
      LiveNotNegative(stack);
      CommitKeepsBalance(k, est, reserve);
    case Settle(ending) =>
      LiveNotNegative(stack);
      if stack != [] {
        LiveNotNegative(stack[..|stack| - 1]);
        assert stack[|stack| - 1] in stack;
      }
  }

  lemma CommitKeepsBalance(k: Books, est: int, reserve: int)
    requires Balanced(k) && est >= 0 && FromCap(k.budget.meter.limits, reserve)
    requires k.budget.meter.limits.maxOutputPerCall >= 0
    ensures var after := Happen(k, Commit(est, reserve));
      && Balanced(after) && after.budget.meter.limits == k.budget.meter.limits
      && after.budget.meter.promptTokens >= k.budget.meter.promptTokens
      && after.budget.meter.outputTokens >= k.budget.meter.outputTokens
  {
    var stack := k.budget.stack;
    if CommitStep(k.budget, est, reserve).Ok? {
      StackedIsCharged(k.budget, est, reserve);
      assert (stack + [Reservation(est, reserve)])[..|stack|] == stack;
    }
  }

  /** Conservation: whatever the order of reservations and refunds of however many
      overlapping calls, the meter equals the live stack plus the settled charges, is
      never negative, and never passes a limit. */
  lemma {:induction false} EveryInterleavingBalances(k: Books, events: seq<Event>)
    requires Balanced(k) && k.budget.meter.limits.maxOutputPerCall >= 0
    requires forall e :: e in events ==> Admissible(k.budget.meter.limits, e)
    ensures Balanced(Run(k, events)) && Run(k, events).budget.meter.limits == k.budget.meter.limits
    ensures events != [] ==>
          Run(k, events).budget.meter.promptTokens >= 0 && Run(k, events).budget.meter.outputTokens >= 0
  {
    if events != [] {
      EveryInterleavingBalances(k, events[..|events| - 1]);
      EventKeepsBalance(Run(k, events[..|events| - 1]), events[|events| - 1]);
    }
  }

  // ----- calls one after the other

  /** One provider call made while no other is in flight. The SDK issues no refund for
      a success that reports no usage. */
  datatype Call = Call(est: int, refund: Option<Ending>)

  function MakeCall(b: Budget, maxTokens: Option<int>, c: Call): Budget {
    match ReserveStep(b, maxTokens, c.est)
    case Exhausted => b
    case Ok(reserved) => if c.refund.Some? then RefundStep(reserved, c.refund.value) else reserved
  }

  function CallCost(b: Budget, maxTokens: Option<int>, c: Call): Reservation {
    match Cap(b.meter, maxTokens)
    case Exhausted => Reservation(0, 0)
    case Ok(out) =>
      var own := Reservation(c.est, if out.Some? then out.value else 0);
      if CommitStep(b, own.promptTokens, own.outputTokens).Exhausted? then Reservation(0, 0)
      else if c.refund.Some? then Cost(own, c.refund.value)
      else own
  }

  function MakeCalls(b: Budget, maxTokens: Option<int>, calls: seq<Call>): (Budget, Reservation) {
    if calls == [] then (b, Reservation(0, 0))
    else
      var (before, spent) := MakeCalls(b, maxTokens, calls[..|calls| - 1]);
      var c := calls[|calls| - 1];
      var cost := CallCost(before, maxTokens, c);
      (MakeCall(before, maxTokens, c),
       Reservation(spent.promptTokens + cost.promptTokens, spent.outputTokens + cost.outputTokens))
  }

  predicate CallAdmissible(c: Call) {
    c.est >= 0 && (c.refund.Some? && c.refund.value.Succeeded? ==> c.refund.value.completionTokens >= 0)
  }

  /** Balanced, with the settled charges read off the meter. */
  ghost predicate Sound(b: Budget) {
    Balanced(Books(b, b.meter.promptTokens - LivePrompt(b.stack), b.meter.outputTokens - LiveOutput(b.stack)))
  }

  lemma CallSettlesItself(b: Budget, maxTokens: Option<int>, c: Call)
    requires Sound(b) && b.meter.limits.maxOutputPerCall >= 0 && CallAdmissible(c)
    ensures var after, cost := MakeCall(b, maxTokens, c), CallCost(b, maxTokens, c);
      && after.meter.limits == b.meter.limits && Sound(after)
      && after.meter.promptTokens == b.meter.promptTokens + cost.promptTokens
      && after.meter.outputTokens == b.meter.outputTokens + cost.outputTokens
  {
    hide Cap, Sound, FromCap, CommitStep, RefundStep, Cost;
    if Cap(b.meter, maxTokens).Ok? {
      CapGivesReserve(b.meter, maxTokens);
      var out := Cap(b.meter, maxTokens).value;
      CommittedCallSettles(b, c, if out.Some? then out.value else 0);
    }
  }

  lemma CommittedCallSettles(b: Budget, c: Call, reserve: int)
    requires Sound(b) && b.meter.limits.maxOutputPerCall >= 0 && CallAdmissible(c) && FromCap(b.meter.limits, reserve)
    ensures CommitStep(b, c.est, reserve).Ok? ==>
      var reserved := CommitStep(b, c.est, reserve).value;
      var after := if c.refund.Some? then RefundStep(reserved, c.refund.value) else reserved;
      var cost := if c.refund.Some? then Cost(Reservation(c.est, reserve), c.refund.value)
            else Reservation(c.est, reserve);
      && after.meter.limits == b.meter.limits && Sound(after)
      && after.meter.promptTokens == b.meter.promptTokens + cost.promptTokens
      && after.meter.outputTokens == b.meter.outputTokens + cost.outputTokens
  {
    if CommitStep(b, c.est, reserve).Ok? {
      var k := Books(b, b.meter.promptTokens - LivePrompt(b.stack), b.meter.outputTokens - LiveOutput(b.stack));
      var reserved := Happen(k, Commit(c.est, reserve));
      EventKeepsBalance(k, Commit(c.est, reserve));
      StackedIsCharged(b, c.est, reserve);
      LiveNotNegative(b.stack);
      assert reserved.budget.stack[..|b.stack|] == b.stack;
      if c.refund.Some? {
        EventKeepsBalance(reserved, Settle(c.refund.value));
      }
    }
  }

  /** Calls made one after the other each pay for themselves, whichever refunds are
      never issued: a success its estimate and the output it used up to its reserve, a
      cancel nothing, any other failure its whole reservation. */
  lemma {:induction false} SequentialCallsPayTheirOwn(b: Budget, maxTokens: Option<int>, calls: seq<Call>)
    requires Sound(b) && b.meter.limits.maxOutputPerCall >= 0
    requires forall c :: c in calls ==> CallAdmissible(c)
    ensures var (after, spent) := MakeCalls(b, maxTokens, calls);
      && after.meter.limits == b.meter.limits && Sound(after)
      && after.meter.promptTokens == b.meter.promptTokens + spent.promptTokens
      && after.meter.outputTokens == b.meter.outputTokens + spent.outputTokens
  {
    hide Sound, MakeCall, CallCost;
    if calls != [] {
      SequentialCallsPayTheirOwn(b, maxTokens, calls[..|calls| - 1]);
      CallSettlesItself(MakeCalls(b, maxTokens, calls[..|calls| - 1]).0, maxTokens, calls[|calls| - 1]);
    }
  }

  // ----- calls that overlap

  /** Two overlapping calls that end in the order they began, however each ends. The first
      refund pops the second's amounts and the second refund the first's, so each ending is
      charged on the other's reservation: the prompts come out right exactly when they are
      equal or both calls or neither were canceled. */
  lemma OverlapSettlesWrongly(b: Budget, first: Reservation, second: Reservation, e1: Ending, e2: Ending)
    requires Sound(b) && b.meter.limits.maxOutputPerCall >= 0
    requires first.promptTokens >= 0 && second.promptTokens >= 0
    requires Admissible(b.meter.limits, Settle(e1)) && Admissible(b.meter.limits, Settle(e2))
    requires FromCap(b.meter.limits, first.outputTokens) && FromCap(b.meter.limits, second.outputTokens)
    requires CommitStep(b, first.promptTokens, first.outputTokens).Ok?
    requires CommitStep(CommitStep(b, first.promptTokens, first.outputTokens).value, second.promptTokens,
          second.outputTokens).Ok?
    ensures
      var one := CommitStep(b, first.promptTokens, first.outputTokens).value;
      var both := CommitStep(one, second.promptTokens, second.outputTokens).value;
      var end := RefundStep(RefundStep(both, e1), e2);
      var (paid1, paid2) := (Cost(second, e1), Cost(first, e2));
      && end.stack == b.stack
      && end.meter.promptTokens == b.meter.promptTokens + paid1.promptTokens + paid2.promptTokens
      && end.meter.outputTokens == b.meter.outputTokens + paid1.outputTokens + paid2.outputTokens
      && (end.meter.promptTokens == b.meter.promptTokens + Cost(first, e1).promptTokens + Cost(second, e2).promptTokens
          <==> first.promptTokens == second.promptTokens || (e1.Canceled? <==> e2.Canceled?))
  {
    hide Sound, CommitStep, RefundStep, FromCap;
    var one := CommitStep(b, first.promptTokens, first.outputTokens).value;
    var both := CommitStep(one, second.promptTokens, second.outputTokens).value;
    CommitKeepsSound(b, first);
    CommitKeepsSound(one, second);
    RefundCosts(both, e1);
    RefundCosts(RefundStep(both, e1), e2);
    assert both.stack[..|both.stack| - 1] == one.stack && one.stack[..|one.stack| - 1] == b.stack;
  }

  lemma CommitKeepsSound(b: Budget, r: Reservation)
    requires Sound(b) && b.meter.limits.maxOutputPerCall >= 0
    requires r.promptTokens >= 0 && FromCap(b.meter.limits, r.outputTokens)
    requires CommitStep(b, r.promptTokens, r.outputTokens).Ok?
    ensures var after := CommitStep(b, r.promptTokens, r.outputTokens).value;
      && Sound(after) && after.meter.limits == b.meter.limits && after.stack == b.stack + [r]
      && after.meter.promptTokens == b.meter.promptTokens + r.promptTokens
      && after.meter.outputTokens == b.meter.outputTokens + r.outputTokens
  {
    hide Balanced, FromCap;
    var k := Books(b, b.meter.promptTokens - LivePrompt(b.stack), b.meter.outputTokens - LiveOutput(b.stack));
    EventKeepsBalance(k, Commit(r.promptTokens, r.outputTokens));
    StackedIsCharged(b, r.promptTokens, r.outputTokens);
    var after := CommitStep(b, r.promptTokens, r.outputTokens).value;
    assert after.stack[..|b.stack|] == b.stack;
  }

  /** A refund leaves what the popped reservation cost under the ending it was given. */
  lemma RefundCosts(b: Budget, ending: Ending)
    requires Sound(b) && b.meter.limits.maxOutputPerCall >= 0 && b.stack != []
    requires Admissible(b.meter.limits, Settle(ending))
    ensures var after, top := RefundStep(b, ending), b.stack[|b.stack| - 1];
      && Sound(after) && after.meter.limits == b.meter.limits && after.stack == b.stack[..|b.stack| - 1]
      && after.meter.promptTokens == b.meter.promptTokens - top.promptTokens + Cost(top, ending).promptTokens
      && after.meter.outputTokens == b.meter.outputTokens - top.outputTokens + Cost(top, ending).outputTokens
  {
    var k := Books(b, b.meter.promptTokens - LivePrompt(b.stack), b.meter.outputTokens - LiveOutput(b.stack));
    EventKeepsBalance(k, Settle(ending));
  }

  /** One call alone, in numbers: a cancelled one costs nothing, a failed one all it reserved, a
      successful one its prompt and the output it used up to its reserve. */
  lemma CallPays(b: Budget, r: Reservation, ending: Ending)
    requires Sound(b) && b.meter.limits.maxOutputPerCall >= 0
    requires r.promptTokens >= 0 && FromCap(b.meter.limits, r.outputTokens)
    requires Admissible(b.meter.limits, Settle(ending))
    requires CommitStep(b, r.promptTokens, r.outputTokens).Ok?
    ensures var end := RefundStep(CommitStep(b, r.promptTokens, r.outputTokens).value, ending);
      && end.stack == b.stack
      && (ending.Canceled? ==> end.meter == b.meter)
      && (ending.Failed? ==> end.meter.promptTokens == b.meter.promptTokens + r.promptTokens
                             && end.meter.outputTokens == b.meter.outputTokens + r.outputTokens)
      && (ending.Succeeded? ==>
            && end.meter.promptTokens == b.meter.promptTokens + r.promptTokens
            && end.meter.outputTokens == b.meter.outputTokens + Min(r.outputTokens, ending.completionTokens))
  {
    hide Sound, CommitStep, RefundStep, FromCap;
    CommitKeepsSound(b, r);
    var one := CommitStep(b, r.promptTokens, r.outputTokens).value;
    RefundCosts(one, ending);
    assert one.stack[..|one.stack| - 1] == b.stack;
  }

  // ----- whose reservation a refund pops

  /** A locked step, with the call it belongs to. */
  datatype Act = Begin(call: int, est: int, reserve: int) | End(call: int, ending: Ending)

  datatype Entry = Entry(call: int, amounts: Reservation)

  /** The bridge's books, with the owner of every stacked reservation (`owners`); beside it,
      what a settlement per call would know: the calls not yet refunded in the order they
      began (`live`), and what the refunded ones owe for their own reservations. */
  datatype Ledger = Ledger(books: Books, owners: seq<Entry>, live: seq<Entry>, owed: Reservation, begun: set<int>)

  function EventOf(a: Act): Event {
    match a
    case Begin(_, est, reserve) => Commit(est, reserve)
    case End(_, ending) => Settle(ending)
  }

  predicate IsLive(live: seq<Entry>, call: int) {
    exists k :: 0 <= k < |live| && live[k].call == call
  }

  function Without(live: seq<Entry>, call: int): seq<Entry> {
    if live == [] then []
    else Without(live[..|live| - 1], call) + (if live[|live| - 1].call == call then [] else [live[|live| - 1]])
  }

  /** What the latest entry of the call reserved. */
  function AmountsOf(live: seq<Entry>, call: int): Reservation {
    if live == [] then Reservation(0, 0)
    else if live[|live| - 1].call == call then live[|live| - 1].amounts
    else AmountsOf(live[..|live| - 1], call)
  }

  function Perform(l: Ledger, a: Act): Ledger {
    var books := Happen(l.books, EventOf(a));
    match a
    case Begin(call, est, reserve) =>
      var e := Entry(call, Reservation(est, reserve));
      if CommitStep(l.books.budget, est, reserve).Exhausted? then l.(begun := l.begun + {call})
      else Ledger(books, l.owners + [e], l.live + [e], l.owed, l.begun + {call})
    case End(call, ending) =>
      var cost := Cost(AmountsOf(l.live, call), ending);
      Ledger(books, if l.owners == [] then [] else l.owners[..|l.owners| - 1], Without(l.live, call),
             Reservation(l.owed.promptTokens + cost.promptTokens, l.owed.outputTokens + cost.outputTokens), l.begun)
  }

  /** A bridge over a meter that was charged before. */
  function Opened(m: Meter): Ledger {
    Ledger(Books(Budget(m, []), m.promptTokens, m.outputTokens), [], [], Reservation(m.promptTokens, m.outputTokens),
          {})
  }

  function History(m: Meter, acts: seq<Act>): Ledger {
    if acts == [] then Opened(m) else Perform(History(m, acts[..|acts| - 1]), acts[|acts| - 1])
  }

  /** A call begins once, and only a call whose reservation was granted is refunded, once. */
  ghost predicate Proper(m: Meter, acts: seq<Act>) {
    acts == [] ||
    var before, a := acts[..|acts| - 1], acts[|acts| - 1];
    Proper(m, before) &&
    match a
    case Begin(call, _, _) => call !in History(m, before).begun
    case End(call, _) => IsLive(History(m, before).live, call)
  }

  predicate LastIs(entries: seq<Entry>, call: int) {
    entries != [] && entries[|entries| - 1].call == call
  }

  /** Every refund pops the reservation its own call made. */
  ghost predicate PopsOwn(m: Meter, acts: seq<Act>) {
    acts == [] ||
    var before, a := acts[..|acts| - 1], acts[|acts| - 1];
    PopsOwn(m, before) && (a.End? ==> LastIs(History(m, before).owners, a.call))
  }

  /** No refund is issued while a call that began later is still not refunded. */
  ghost predicate LastInFirstOut(m: Meter, acts: seq<Act>) {
    acts == [] ||
    var before, a := acts[..|acts| - 1], acts[|acts| - 1];
    LastInFirstOut(m, before) && (a.End? ==> LastIs(History(m, before).live, a.call))
  }

  function Amounts(entries: seq<Entry>): seq<Reservation> {
    seq(|entries|, i requires 0 <= i < |entries| => entries[i].amounts)
  }

  /** What holds over every history. */
  ghost predicate Kept(l: Ledger) {
    && l.books.budget.stack == Amounts(l.owners) && |l.owners| == |l.live|
    && (forall k :: 0 <= k < |l.live| ==> l.live[k].call in l.begun)
    && (forall j, k :: 0 <= j < k < |l.live| ==> l.live[j].call != l.live[k].call)
  }

  lemma {:induction false} WithoutAbsent(live: seq<Entry>, call: int)
    requires !IsLive(live, call)
    ensures Without(live, call) == live
  {
    if live != [] {
      var n := |live| - 1;
      assert live[n].call != call;
      assert !IsLive(live[..n], call) by {
        assert forall k :: 0 <= k < n ==> live[..n][k] == live[k];
      }
      WithoutAbsent(live[..n], call);
    }
  }

  /** Taking one of distinct calls out leaves the others, in order, one fewer. */
  lemma {:induction false} WithoutOne(live: seq<Entry>, call: int)
    requires IsLive(live, call) && forall j, k :: 0 <= j < k < |live| ==> live[j].call != live[k].call
    ensures var r := Without(live, call);
      && |r| == |live| - 1
      && (forall k :: 0 <= k < |r| ==> r[k] in live)
      && (forall j, k :: 0 <= j < k < |r| ==> r[j].call != r[k].call)
      && (live[|live| - 1].call == call ==> r == live[..|live| - 1])
  {
    var n := |live| - 1;
    assert forall k :: 0 <= k < n ==> live[..n][k] == live[k];
    if live[n].call == call {
      WithoutAbsent(live[..n], call);
    } else {
      var k :| 0 <= k < |live| && live[k].call == call;
      assert live[..n][k].call == call;
      WithoutOne(live[..n], call);
      var r := Without(live[..n], call);
      assert Without(live, call) == r + [live[n]];
      forall j | 0 <= j < |r|
        ensures r[j] in live && r[j].call != live[n].call
      {
        var i :| 0 <= i < n && live[..n][i] == r[j];
        assert live[i] == r[j];
      }
    }
  }

  lemma PerformKeeps(l: Ledger, a: Act)
    requires Kept(l)
    requires match a case Begin(call, _, _) => call !in l.begun case End(call, _) => IsLive(l.live, call)
    ensures Kept(Perform(l, a))
  {
    match a
    case Begin(call, est, reserve) =>
    case End(call, ending) =>
      WithoutOne(l.live, call);
  }

  lemma {:induction false} HistoryKeeps(m: Meter, acts: seq<Act>)
    requires Proper(m, acts)
    ensures Kept(History(m, acts))
  {
    hide Kept, Perform, Opened;
    if acts == [] {
      OpenedKeeps(m);
    } else {
      HistoryKeeps(m, acts[..|acts| - 1]);
      PerformKeeps(History(m, acts[..|acts| - 1]), acts[|acts| - 1]);
    }
  }

  lemma OpenedKeeps(m: Meter)
    ensures Kept(Opened(m))
  {
  }

  /** The stack is the live calls, and what was settled is what was owed. */
  ghost predicate Fair(l: Ledger) {
    && l.owners == l.live
    && l.books.settledPrompt == l.owed.promptTokens && l.books.settledOutput == l.owed.outputTokens
  }

  lemma FairStep(l: Ledger, a: Act)
    requires Kept(l) && Fair(l)
    requires match a case Begin(call, _, _) => call !in l.begun case End(call, _) => LastIs(l.live, call)
    ensures Fair(Perform(l, a))
  {
    if a.End? {
      var n := |l.live| - 1;
      assert IsLive(l.live, a.call);
      WithoutOne(l.live, a.call);
      assert l.books.budget.stack[n] == l.live[n].amounts;
    }
  }

  /** Over any history of overlapping calls, every refund pops its own reservation if and only
      if no refund is issued while a later call is still not refunded; each call then pays for
      exactly its own reservation. */
  lemma {:induction false} OwnIffLastInFirstOut(m: Meter, acts: seq<Act>)
    requires Proper(m, acts)
    ensures PopsOwn(m, acts) <==> LastInFirstOut(m, acts)
    ensures LastInFirstOut(m, acts) ==> Fair(History(m, acts))
  {
    hide Perform, Kept;
    if acts != [] {
      var before, a := acts[..|acts| - 1], acts[|acts| - 1];
      OwnIffLastInFirstOut(m, before);
      HistoryKeeps(m, before);
      if LastInFirstOut(m, acts) {
        FairStep(History(m, before), a);
      }
    }
  }

  /** Each refund comes right after its call's reservation; refunds may be missing. */
  predicate OneAtATime(acts: seq<Act>) {
    forall k :: 0 <= k < |acts| && acts[k].End? ==> k > 0 && acts[k - 1].Begin? && acts[k - 1].call == acts[k].call
  }

  lemma {:induction false} OneAtATimeIsFair(m: Meter, acts: seq<Act>)
    requires Proper(m, acts) && OneAtATime(acts)
    ensures LastInFirstOut(m, acts) && Fair(History(m, acts))
  {
    hide Kept, Fair;
    OwnIffLastInFirstOut(m, acts);
    if acts != [] {
      var n := |acts| - 1;
      var before := acts[..n];
      assert forall k :: 0 <= k < n ==> before[k] == acts[k];
      OneAtATimeIsFair(m, before);
      if acts[n].End? {
        assert before[n - 1].call == acts[n].call;
        JustBegun(m, before);
      }
    }
  }

  lemma JustBegun(m: Meter, acts: seq<Act>)
    requires acts != [] && Proper(m, acts) && acts[|acts| - 1].Begin?
    requires IsLive(History(m, acts).live, acts[|acts| - 1].call)
    ensures LastIs(History(m, acts).live, acts[|acts| - 1].call)
  {
    HistoryKeeps(m, acts[..|acts| - 1]);
  }

  /** The meter over any such history: what the live calls hold plus what each refunded call
      owes for its own reservation. */
  lemma {:induction false} FairMeter(m: Meter, acts: seq<Act>)
    requires Proper(m, acts) && LastInFirstOut(m, acts)
    requires m.limits.maxOutputPerCall >= 0
    requires Balanced(Opened(m).books) && forall a :: a in acts ==> Admissible(m.limits, EventOf(a))
    ensures var l := History(m, acts);
      && l.books.budget.meter.promptTokens == LivePrompt(Amounts(l.live)) + l.owed.promptTokens
      && l.books.budget.meter.outputTokens == LiveOutput(Amounts(l.live)) + l.owed.outputTokens
  {
    OwnIffLastInFirstOut(m, acts);
    HistoryKeeps(m, acts);
    HistoryBalances(m, acts);
  }

  lemma {:induction false} HistoryBalances(m: Meter, acts: seq<Act>)
    requires m.limits.maxOutputPerCall >= 0
    requires Balanced(Opened(m).books) && forall a :: a in acts ==> Admissible(m.limits, EventOf(a))
    ensures Balanced(History(m, acts).books) && History(m, acts).books.budget.meter.limits == m.limits
  {
    hide Balanced, Admissible;
    if acts != [] {
      HistoryBalances(m, acts[..|acts| - 1]);
      EventKeepsBalance(History(m, acts[..|acts| - 1]).books, EventOf(acts[|acts| - 1]));
    }
  }

  // ----- the re-runs of one turn

  /** The meter of the next run: kept only when the run preserves it under the same
      limits. The bridge over it starts with an empty stack. */
  function NextMeter(kept: Option<Meter>, limits: Limits, preserve: bool): Meter {
    if kept.None? || !preserve || kept.value.limits != limits then Meter(limits, 0, 0) else kept.value
  }

  /** The next run goes on with the kept meter exactly when it preserves it and the limits are
      the same; otherwise it starts at nothing. */
  lemma NextMeterExactly(kept: Meter, limits: Limits, preserve: bool)
    ensures preserve && kept.limits == limits ==> NextMeter(Some(kept), limits, preserve) == kept
    ensures !preserve || kept.limits != limits ==> NextMeter(Some(kept), limits, preserve) == Meter(limits, 0, 0)
    ensures NextMeter(None, limits, preserve) == Meter(limits, 0, 0)
  {
  }

  function Reruns(m: Meter, runs: seq<seq<Event>>): Meter {
    if runs == [] then m
    else
      var before := Reruns(m, runs[..|runs| - 1]);
      Run(Books(Budget(NextMeter(Some(before), before.limits, true), []), 0, 0), runs[|runs| - 1]).budget.meter
  }

  /** A turn that preserves its meter across steered re-runs stays inside one set of
      limits however many runs it takes. */
  lemma {:induction false} RerunsShareOneBudget(limits: Limits, runs: seq<seq<Event>>)
    requires limits.maxOutputPerCall >= 0
    requires forall run, e :: run in runs && e in run ==> Admissible(limits, e)
    ensures var m := Reruns(Meter(limits, 0, 0), runs);
      && m.limits == limits && m.promptTokens >= 0 && m.outputTokens >= 0
      && (limits.maxPromptTokens > 0 ==> m.promptTokens <= limits.maxPromptTokens)
      && (limits.maxOutputTokens > 0 ==> m.outputTokens <= limits.maxOutputTokens)
  {
    if runs != [] {
      var earlier, last := runs[..|runs| - 1], runs[|runs| - 1];
      RerunsShareOneBudget(limits, earlier);
      var m := Reruns(Meter(limits, 0, 0), earlier);
      assert last in runs;
      EveryInterleavingBalances(Books(Budget(m, []), m.promptTokens, m.outputTokens), last);
      LiveNotNegative(Run(Books(Budget(m, []), m.promptTokens, m.outputTokens), last).budget.stack);
      BudgetIgnoresBooks(Budget(m, []), 0, 0, m.promptTokens, m.outputTokens, last);
    }
  }

  lemma {:induction false} BudgetIgnoresBooks(b: Budget, p: int, o: int, p': int, o': int, events: seq<Event>)
    ensures Run(Books(b, p, o), events).budget == Run(Books(b, p', o'), events).budget
  {
    if events != [] {
      BudgetIgnoresBooks(b, p, o, p', o', events[..|events| - 1]);
    }
  }
}
