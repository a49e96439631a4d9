/** How long one tool call may take (internal/agent/loop_limits.go and
    sdk_dispatcher_shim.go). Durations are 64-bit nanosecond counts; instants are unbounded. */
module Timeouts {
  import opened Basics

  const MIN_INT64 := -0x8000_0000_0000_0000
  const MAX_INT64 := 0x7FFF_FFFF_FFFF_FFFF

  newtype int64 = x: int | -0x8000_0000_0000_0000 <= x <= 0x7FFF_FFFF_FFFF_FFFF

  const SECOND := 1_000_000_000
  const MAX_DURATION_SECONDS := MAX_INT64 / SECOND
  const DEFAULT_TOOL_TIMEOUT: int64 := 60_000_000_000

  /** Two's-complement wrap-around. */
  function Wrap(x: int): int64 {
    var m := x % 0x1_0000_0000_0000_0000;
    if m > MAX_INT64 then (m - 0x1_0000_0000_0000_0000) as int64 else m as int64
  }

  /** A time difference saturates. */
  function Saturate(x: int): int64 {
    if x > MAX_INT64 then MAX_INT64 as int64 else if x < MIN_INT64 then MIN_INT64 as int64 else x as int64
  }

  function Resolve(defaultTimeout: int64, capabilityTimeout: int64): int64 {
    if capabilityTimeout > 0 then capabilityTimeout
    else if defaultTimeout > 0 then defaultTimeout
    else DEFAULT_TOOL_TIMEOUT
  }

  /** The model's request; `seconds` is absent when the parameters do not parse. */
  function Requested(seconds: Option<int64>): int64 {
    if seconds.None? || seconds.value <= 0 then 0
    else if seconds.value as int > MAX_DURATION_SECONDS then Wrap(MAX_DURATION_SECONDS * SECOND)
    else Wrap(seconds.value as int * SECOND)
  }

  function ClampToDeadline(now: int, deadline: Option<int>, budget: int64): int64 {
    if deadline.None? then budget
    else
      var remaining := Saturate(deadline.value - now);
      if remaining < budget then remaining else budget
  }

  function CallTimeout(now: int, deadline: Option<int>, defaultTimeout: int64, capabilityTimeout: int64,
                       seconds: Option<int64>): int64 {
    var resolved := Resolve(defaultTimeout, capabilityTimeout);
    if Requested(seconds) > resolved then
      var clamped := ClampToDeadline(now, deadline, Requested(seconds));
      if clamped > 0 then clamped else resolved
    else resolved
  }

  /** The deadline of a context narrowed by `timeout` at `now`. */
  function Narrowed(now: int, deadline: Option<int>, timeout: int64): int {
    if deadline.Some? && deadline.value < now + timeout as int then deadline.value else now + timeout as int
  }

  /** No request overflows: the duration is the exact product of the seconds, or of the most
      seconds a duration can hold. */
  lemma RequestExact(seconds: int64)
    requires seconds > 0
    ensures Requested(Some(seconds)) as int
         == (if seconds as int <= MAX_DURATION_SECONDS then seconds as int else MAX_DURATION_SECONDS) * SECOND
    ensures Requested(Some(seconds)) > 0
  {
  }

  /** The bound on the seconds is exact: one second more already wraps. */
  lemma BoundExact(seconds: int64)
    requires seconds > 0
    ensures Wrap(seconds as int * SECOND) as int == seconds as int * SECOND <==> seconds as int <= MAX_DURATION_SECONDS
  {
  }

  /** A longer request never gets a shorter duration. */
  lemma RequestsKeepOrder(a: int64, b: int64)
    requires a <= b
    ensures Requested(Some(a)) <= Requested(Some(b))
  {
    if a > 0 {
      RequestExact(a);
      RequestExact(b);
    }
  }

  /** Every call is bounded. The duration itself falls below the resolved budget exactly when
      a longer request meets a deadline nearer than that budget. */
  lemma CallIsBounded(now: int, deadline: Option<int>, defaultTimeout: int64, capabilityTimeout: int64,
        seconds: Option<int64>)
    ensures var resolved := Resolve(defaultTimeout, capabilityTimeout);
            var timeout := CallTimeout(now, deadline, defaultTimeout, capabilityTimeout, seconds);
            && resolved > 0 && timeout > 0
            && (capabilityTimeout > 0 ==> resolved == capabilityTimeout)
            && (timeout < resolved
                <==> Requested(seconds) > resolved && deadline.Some? && 0 < deadline.value - now < resolved as int)
  {
  }

  /** The budget without a request: the capability's when it declares one, else the session's
      when it sets one, else a minute. */
  lemma ResolvedExactly(defaultTimeout: int64, capabilityTimeout: int64)
    ensures capabilityTimeout > 0 ==> Resolve(defaultTimeout, capabilityTimeout) == capabilityTimeout
    ensures capabilityTimeout <= 0 < defaultTimeout ==> Resolve(defaultTimeout, capabilityTimeout) == defaultTimeout
    ensures capabilityTimeout <= 0 && defaultTimeout <= 0 ==>
              Resolve(defaultTimeout, capabilityTimeout) as int == 60 * SECOND
  {
  }

  /** No request, or none that asks for more than nothing, is no request. */
  lemma NoRequest(seconds: Option<int64>)
    requires seconds.Some? ==> seconds.value <= 0
    ensures Requested(seconds) == 0
  {
  }

  /** Exactly when the call must end: at the deadline it runs under, or when the larger of the
      requested and the resolved budget is spent, whichever comes first. */
  lemma EndsExactly(asked: int, armed: int, deadline: Option<int>, defaultTimeout: int64, capabilityTimeout: int64,
                    seconds: Option<int64>)
    requires asked <= armed
    ensures var resolved := Resolve(defaultTimeout, capabilityTimeout);
            var larger := if Requested(seconds) > resolved then Requested(seconds) else resolved;
            var timeout := CallTimeout(asked, deadline, defaultTimeout, capabilityTimeout, seconds);
            var end := Narrowed(armed, deadline, timeout);
            end == if deadline.Some? then Min(deadline.value, armed + larger as int) else armed + larger as int
  {
  }

  /** Where the call must end: never after the deadline it runs under, and never before the
      end it would have without the request. The clock may advance between the two readings. */
  lemma RequestOnlyExtends(asked: int, armed: int, deadline: Option<int>, defaultTimeout: int64,
                           capabilityTimeout: int64, seconds: Option<int64>)
    requires asked <= armed
    ensures var without := Narrowed(armed, deadline, Resolve(defaultTimeout, capabilityTimeout));
            var end := Narrowed(armed, deadline,
                  CallTimeout(asked, deadline, defaultTimeout, capabilityTimeout, seconds));
            && (deadline.Some? ==> end <= deadline.value)
            && without <= end
            && (end <= armed + Requested(seconds) as int
                || end <= armed + Resolve(defaultTimeout, capabilityTimeout) as int)
  {
  }
}
