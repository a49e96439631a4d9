/** Turn-level compaction accounting (internal/agent/context.go), the host's and the
    SDK's compactions feeding it (sdk_prepare.go, agentloop_adoption.go), and which
    of them are announced. */
module Compaction {
  import opened Basics

  datatype Token = Token(idempotencyKey: string, range: string)

  /** The four elision counters. */
  datatype Elided = Elided(messages: int, bytes: int, reasoningMessages: int, reasoningBytes: int)

  const NOTHING_ELIDED := Elided(0, 0, 0, 0)

  function Plus(a: Elided, b: Elided): Elided {
    Elided(a.messages + b.messages, a.bytes + b.bytes,
           a.reasoningMessages + b.reasoningMessages, a.reasoningBytes + b.reasoningBytes)
  }

  datatype Preparation = Preparation(compacted: bool, token: Token, beforeTokens: int, afterTokens: int, elided: Elided)

  const NO_PREPARATION := Preparation(false, Token("", ""), 0, 0, NOTHING_ELIDED)

  /** What the preparation manager answers. */
  datatype Outcome = Prepared(preparation: Preparation) | Failed(error: string)

  /** One SDK compaction waiting to be confirmed. */
  datatype Pending = Pending(key: string, summarized: bool, beforeTokens: int, afterTokens: int,
                             elidedMessages: int, elidedBytes: int)

  /** The range text never is empty, so a compaction always has an identity. */
  function Identity(token: Token): (key: string)
    ensures key != ""
  {
    if token.idempotencyKey != "" then token.idempotencyKey else "range:" + token.range
  }

  /** Two compactions count as one exactly when their idempotency keys agree, or, where neither
      has one, their ranges. */
  lemma SameIdentityIff(a: Token, b: Token)
    requires (a.idempotencyKey == "") == (b.idempotencyKey == "")
    ensures Identity(a) == Identity(b)
       <==> if a.idempotencyKey == "" then a.range == b.range else a.idempotencyKey == b.idempotencyKey
  {
    if a.idempotencyKey == "" && Identity(a) == Identity(b) {
      assert a.range == Identity(a)[6..] == Identity(b)[6..] == b.range;
    }
  }

  datatype Announcement = Announcement(key: string, beforeTokens: int, afterTokens: int, haveSummary: bool)

  /** The compaction fields of one Loop. */
  datatype TurnState = TurnState(
    compacted: bool, compactionKey: string, emitted: bool, lastEmittedKey: string,
    beforeTokens: int, afterTokens: int, elided: Elided,
    lastPreparation: Preparation, hasPreparation: bool, pending: Option<Pending>,
    announced: seq<Announcement>)

  /** What a step can do between two resets. Host carries whether a summary exists. */
  datatype Step =
    | Host(preparation: Preparation, haveSummary: bool)
    | Stash(pending: Pending)
    | Observe(bookkeeping: Option<Preparation>)
    | Discard

  // ----- the operations on values

  function Reset(s: TurnState): TurnState {
    s.(compacted := false, emitted := false, lastEmittedKey := "", beforeTokens := 0, afterTokens := 0,
       elided := NOTHING_ELIDED, compactionKey := "", pending := None)
  }

  function Discarded(s: TurnState): TurnState {
    s.(lastPreparation := if s.hasPreparation then NO_PREPARATION else s.lastPreparation, hasPreparation := false)
  }

  function Record(s: TurnState, p: Preparation): TurnState {
    var t := if !p.compacted then s else
      s.(compactionKey := Identity(p.token), compacted := true,
         beforeTokens := if s.compacted then s.beforeTokens else p.beforeTokens,
         afterTokens := p.afterTokens,
         elided := Plus(s.elided, p.elided));
    t.(lastPreparation := Overlay(t, p), hasPreparation := true)
  }

  function Overlay(t: TurnState, p: Preparation): Preparation {
    if !t.compacted then p
    else Preparation(true, p.token, t.beforeTokens, t.afterTokens, t.elided)
  }

  function Announce(s: TurnState, key: string, before: int, after: int, haveSummary: bool): TurnState {
    s.(lastEmittedKey := key, emitted := true,
          announced := s.announced + [Announcement(key, before, after, haveSummary)])
  }

  function HostPrepared(s: TurnState, p: Preparation, haveSummary: bool): TurnState {
    var t := Record(s, p);
    if p.compacted && Identity(p.token) != t.lastEmittedKey
    then Announce(t, Identity(p.token), p.beforeTokens, p.afterTokens, haveSummary)
    else t
  }

  /** The SDK compaction as the preparation it is recorded through. */
  function Grounded(s: TurnState, p: Pending): Preparation {
    Preparation(true, s.lastPreparation.token, p.beforeTokens, p.afterTokens,
                Elided(p.elidedMessages, p.elidedBytes, 0, 0))
  }

  predicate Confirms(s: TurnState) {
    s.pending.Some? && s.pending.value.key != "" && s.pending.value.key != s.lastEmittedKey
  }

  function Confirmed(s: TurnState): TurnState {
    var drained := s.(pending := None);
    if !Confirms(s) then drained
    else
      var p := s.pending.value;
      var t := Record(drained, Grounded(drained, p));
      Announce(t, p.key, t.lastPreparation.beforeTokens, t.lastPreparation.afterTokens, p.summarized)
  }

  function Apply(s: TurnState, step: Step): TurnState {
    match step
    case Host(p, haveSummary) => HostPrepared(s, p, haveSummary)
    case Stash(p) => s.(pending := Some(p))
    case Observe(None) => Confirmed(s)
    case Observe(Some(p)) => Confirmed(Record(s, p))
    case Discard => Discarded(s)
  }

  function Run(s: TurnState, steps: seq<Step>): TurnState {
    if steps == [] then s else Apply(Run(s, steps[..|steps| - 1]), steps[|steps| - 1])
  }

  // ----- the source's own form

  class Loop {
    var turnCompacted: bool
    var turnCompactionKey: string
    var turnCompactionEmitted: bool
    var lastEmittedCompactionKey: string
    var turnBeforeTokens: int
    var turnAfterTokens: int
    var turnElided: Elided
    var lastPreparation: Preparation
    var hasPreparation: bool
    var sdkPendingCompaction: Option<Pending>
    var announced: seq<Announcement>
    var preparationErr: Option<string>

    function State(): TurnState
      reads this
    {
      TurnState(turnCompacted, turnCompactionKey, turnCompactionEmitted, lastEmittedCompactionKey,
                turnBeforeTokens, turnAfterTokens, turnElided,
                lastPreparation, hasPreparation, sdkPendingCompaction, announced)
    }

    method RecordPreparation(preparation: Preparation)
      modifies this
      ensures State() == Record(old(State()), preparation) && preparationErr == old(preparationErr)
    {
      hide Identity, Plus;
      var p := preparation;
      if p.compacted {
        turnCompactionKey := Identity(p.token);
        if !turnCompacted {
          turnCompacted := true;
          turnBeforeTokens := p.beforeTokens;
        }
        turnAfterTokens := p.afterTokens;
        turnElided := Plus(turnElided, p.elided);
      }
      if turnCompacted {
        p := p.(compacted := true, beforeTokens := turnBeforeTokens, afterTokens := turnAfterTokens,
              elided := turnElided);
      }
      lastPreparation := p;
      hasPreparation := true;
    }

    method ResetTurnCompaction()
      modifies this
      ensures State() == Reset(old(State()))
    {
      turnCompacted := false;
      turnCompactionEmitted := false;
      lastEmittedCompactionKey := "";
      turnBeforeTokens := 0;
      turnAfterTokens := 0;
      turnElided := NOTHING_ELIDED;
      turnCompactionKey := "";
      sdkPendingCompaction := None;
    }

    method DiscardPreparation()
      modifies this
      ensures State() == Discarded(old(State()))
    {
      if !hasPreparation {
        return;
      }
      lastPreparation := NO_PREPARATION;
      hasPreparation := false;
    }

    method RecordAndAnnounce(preparation: Preparation, haveSummary: bool)
      modifies this
      ensures State() == HostPrepared(old(State()), preparation, haveSummary) && preparationErr == old(preparationErr)
    {
      RecordPreparation(preparation);
      if preparation.compacted {
        var key := Identity(preparation.token);
        if key != "" && key != lastEmittedCompactionKey {
          lastEmittedCompactionKey := key;
          announced := announced + [Announcement(key, preparation.beforeTokens, preparation.afterTokens, haveSummary)];
          turnCompactionEmitted := true;
        }
      }
    }

    /** One preparation pass. `again` is what a second attempt on a context of its own gives;
        it is made only when an interrupt failed the first one, the turn has no preparation
        yet and no deadline. A failed pass leaves the turn's totals alone. */
    method PrepareOnce(first: Outcome, interrupted: bool, hasDeadline: bool, again: Outcome, haveSummary: bool)
      returns (ok: bool)
      modifies this
      ensures var retries := !old(hasPreparation) && !hasDeadline && interrupted;
        && (ok <==> first.Prepared? || (retries && again.Prepared?))
        && State() == (if first.Prepared? then HostPrepared(old(State()), first.preparation, haveSummary)
                       else if ok then HostPrepared(old(State()), again.preparation, haveSummary)
                       else old(State()))
        && preparationErr == (if first.Prepared? then old(preparationErr)
                              else if ok then None
                              else Some(if retries then again.error else first.error))
    {
      if first.Failed? {
        preparationErr := Some(first.error);
        if !hasPreparation && !hasDeadline && interrupted {
          if again.Prepared? {
            RecordAndAnnounce(again.preparation, haveSummary);
            preparationErr := None;
            return true;
          }
          preparationErr := Some(again.error);
        }
        return false;
      }
      RecordAndAnnounce(first.preparation, haveSummary);
      return true;
    }

    method ConfirmSdkCompaction()
      modifies this
      ensures State() == Confirmed(old(State()))
    {
      var pending := sdkPendingCompaction;
      sdkPendingCompaction := None;
      if pending.None? || pending.value.key == "" || pending.value.key == lastEmittedCompactionKey {
        return;
      }
      var p := pending.value;
      RecordPreparation(Preparation(true, lastPreparation.token, p.beforeTokens, p.afterTokens,
                                    Elided(p.elidedMessages, p.elidedBytes, 0, 0)));
      lastEmittedCompactionKey := p.key;
      announced := announced +
            [Announcement(p.key, lastPreparation.beforeTokens, lastPreparation.afterTokens, p.summarized)];
      turnCompactionEmitted := true;
    }

    /** The observer of an adopted turn: bookkeeping first, then the confirmation. */
    method ObserveRequest(bookkeeping: Option<Preparation>)
      modifies this
      ensures State() == Apply(old(State()), Observe(bookkeeping))
    {
      if bookkeeping.Some? {
        RecordPreparation(bookkeeping.value);
      }
      ConfirmSdkCompaction();
    }
  }

  // ----- totals

  /** The preparations recorded during `steps`, in order; a stashed SDK compaction joins
      them only when an observer confirms it. */
  function Recorded(s: TurnState, steps: seq<Step>): seq<Preparation> {
    if steps == [] then []
    else
      var before := Run(s, steps[..|steps| - 1]);
      Recorded(s, steps[..|steps| - 1]) + RecordedBy(before, steps[|steps| - 1])
  }

  function RecordedBy(s: TurnState, step: Step): seq<Preparation> {
    match step
    case Host(p, _) => [p]
    case Stash(_) => []
    case Observe(None) => if Confirms(s) then [Grounded(s, s.pending.value)] else []
    case Observe(Some(p)) =>
      var t := Record(s, p);
      [p] + (if Confirms(t) then [Grounded(t, t.pending.value)] else [])
    case Discard => []
  }

  function Compactions(ps: seq<Preparation>): seq<Preparation> {
    if ps == [] then []
    else Compactions(ps[..|ps| - 1]) + (if ps[|ps| - 1].compacted then [ps[|ps| - 1]] else [])
  }

  function SumOf(ps: seq<Preparation>): Elided {
    if ps == [] then NOTHING_ELIDED else Plus(SumOf(ps[..|ps| - 1]), ps[|ps| - 1].elided)
  }

  /** The turn's counters are the first compaction's size before, the last one's size
      after, and the sums of what all of them elided. */
  ghost predicate Totals(s: TurnState, cs: seq<Preparation>) {
    && (s.compacted <==> cs != [])
    && (cs != [] ==> s.beforeTokens == cs[0].beforeTokens && s.afterTokens == cs[|cs| - 1].afterTokens)
    && (cs != [] ==> s.compactionKey == Identity(cs[|cs| - 1].token))
    && s.elided == SumOf(cs)
  }

  /** What the sealed record says of the turn so far, whichever step came last. */
  ghost predicate Sealed(s: TurnState, cs: seq<Preparation>) {
    s.hasPreparation ==>
      && (s.lastPreparation.compacted <==> cs != [])
      && (cs != [] ==>
            && s.lastPreparation.beforeTokens == cs[0].beforeTokens
            && s.lastPreparation.afterTokens == cs[|cs| - 1].afterTokens
            && s.lastPreparation.elided == SumOf(cs))
  }

  lemma CompactionsSnoc(ps: seq<Preparation>, p: Preparation)
    ensures Compactions(ps + [p]) == if p.compacted then Compactions(ps) + [p] else Compactions(ps)
  {
    assert (ps + [p])[..|ps|] == ps;
  }

  lemma RecordKeepsTotals(s: TurnState, ps: seq<Preparation>, p: Preparation)
    requires Totals(s, Compactions(ps))
    ensures Totals(Record(s, p), Compactions(ps + [p])) && Sealed(Record(s, p), Compactions(ps + [p]))
  {
    var cs := Compactions(ps);
    CompactionsSnoc(ps, p);
    assert (cs + [p])[..|cs|] == cs;
  }

  lemma ConfirmedKeepsTotals(s: TurnState, ps: seq<Preparation>)
    requires Totals(s, Compactions(ps)) && Sealed(s, Compactions(ps))
    ensures var ps' := ps + RecordedBy(s, Observe(None));
      Totals(Confirmed(s), Compactions(ps')) && Sealed(Confirmed(s), Compactions(ps'))
  {
    if Confirms(s) {
      RecordKeepsTotals(s.(pending := None), ps, Grounded(s, s.pending.value));
    } else {
      assert ps + RecordedBy(s, Observe(None)) == ps;
    }
  }

  lemma ObservedKeepsTotals(s: TurnState, ps: seq<Preparation>, p: Preparation)
    requires Totals(s, Compactions(ps))
    ensures var ps' := ps + RecordedBy(s, Observe(Some(p)));
      Totals(Confirmed(Record(s, p)), Compactions(ps')) && Sealed(Confirmed(Record(s, p)), Compactions(ps'))
  {
    hide Totals, Sealed, Record, Confirmed, Compactions;
    var t := Record(s, p);
    RecordKeepsTotals(s, ps, p);
    ConfirmedKeepsTotals(t, ps + [p]);
    assert ps + RecordedBy(s, Observe(Some(p))) == ps + [p] + RecordedBy(t, Observe(None));
  }

  lemma StepKeepsTotals(s: TurnState, ps: seq<Preparation>, step: Step)
    requires Totals(s, Compactions(ps)) && Sealed(s, Compactions(ps))
    ensures var ps' := ps + RecordedBy(s, step);
      Totals(Apply(s, step), Compactions(ps')) && Sealed(Apply(s, step), Compactions(ps'))
  {
    hide Record, Confirmed, Compactions, SumOf;
    match step
    case Host(p, _) => RecordKeepsTotals(s, ps, p);
    case Observe(None) => ConfirmedKeepsTotals(s, ps);
    case Observe(Some(p)) => ObservedKeepsTotals(s, ps, p);
    case Stash(_) => assert ps + RecordedBy(s, step) == ps;
    case Discard => assert ps + RecordedBy(s, step) == ps;
  }

  function SumBy(ps: seq<Preparation>, field: Elided -> int): int {
    if ps == [] then 0 else SumBy(ps[..|ps| - 1], field) + field(ps[|ps| - 1].elided)
  }

  /** The four counters of some elisions are the sums of each counter over the preparations. */
  predicate AddsUp(e: Elided, ps: seq<Preparation>) {
    && e.messages == SumBy(ps, (x: Elided) => x.messages)
    && e.bytes == SumBy(ps, (x: Elided) => x.bytes)
    && e.reasoningMessages == SumBy(ps, (x: Elided) => x.reasoningMessages)
    && e.reasoningBytes == SumBy(ps, (x: Elided) => x.reasoningBytes)
  }

  lemma {:induction false} SumOfAddsUp(ps: seq<Preparation>)
    ensures AddsUp(SumOf(ps), ps)
  {
    if ps != [] {
      SumOfAddsUp(ps[..|ps| - 1]);
    }
  }

  /** A turn starts by discarding the preparation and resetting the counters. */
  function Start(s: TurnState): TurnState {
    Reset(Discarded(s))
  }

  /** Over any sequence of steps of a turn, the counters and the recorded preparation
      describe exactly the compacting preparations recorded so far: none is lost to a
      later step that did not compact, nor to a discard, and a compaction overwritten
      before it was confirmed is not among them. */
  lemma {:induction false} TurnTotals(s: TurnState, steps: seq<Step>)
    ensures var t, cs := Run(Start(s), steps), Compactions(Recorded(Start(s), steps));
      Totals(t, cs) && Sealed(t, cs)
  {
    if steps != [] {
      TurnTotals(s, steps[..|steps| - 1]);
      StepKeepsTotals(Run(Start(s), steps[..|steps| - 1]), Recorded(Start(s), steps[..|steps| - 1]),
            steps[|steps| - 1]);
    }
  }

  /** Each of the four elision counters of the turn, and of its sealed record, is the sum of that
      counter over the compacting preparations of the turn. */
  lemma TurnSums(s: TurnState, steps: seq<Step>)
    ensures var t, cs := Run(Start(s), steps), Compactions(Recorded(Start(s), steps));
      && AddsUp(t.elided, cs)
      && (t.hasPreparation && cs != [] ==> AddsUp(t.lastPreparation.elided, cs))
  {
    hide AddsUp;
    TurnTotals(s, steps);
    SumOfAddsUp(Compactions(Recorded(Start(s), steps)));
  }

  /** A recorded preparation becomes the record under its own token, as it is while the turn has
      not compacted; one that did not compact leaves the turn's counters alone; announcing and
      confirming are other steps. */
  lemma RecordExactly(s: TurnState, p: Preparation)
    ensures var t := Record(s, p);
      && t.hasPreparation && t.lastPreparation.token == p.token
      && (t.compacted <==> s.compacted || p.compacted)
      && (!t.compacted ==> t.lastPreparation == p)
      && (!p.compacted ==> t.(lastPreparation := s.lastPreparation, hasPreparation := s.hasPreparation) == s)
      && t.announced == s.announced && t.emitted == s.emitted && t.lastEmittedKey == s.lastEmittedKey
      && t.pending == s.pending
  {
  }

  /** A discard drops the record and nothing else. */
  lemma DiscardDropsRecord(s: TurnState)
    ensures !Discarded(s).hasPreparation
    ensures Discarded(s).(hasPreparation := s.hasPreparation, lastPreparation := s.lastPreparation) == s
    ensures s.hasPreparation ==> Discarded(s).lastPreparation == NO_PREPARATION
    ensures !s.hasPreparation ==> Discarded(s) == s
  {
  }

  /** The next turn's start forgets all of it. */
  lemma ResetForgets(s: TurnState, steps: seq<Step>)
    ensures var t := Start(Run(s, steps));
      && !t.hasPreparation && !t.compacted && t.elided == NOTHING_ELIDED && t.pending == None
      && t.lastEmittedKey == "" && t.compactionKey == ""
      && t.beforeTokens == t.afterTokens == 0
  {
  }

  // ----- announcements

  /** The keys of the compactions that took effect, in order: the host's as they are
      prepared, the SDK's as they are confirmed. An SDK key equal to the last announced
      one is drained without effect, and an empty key never counts. */
  function Keys(s: TurnState, steps: seq<Step>): seq<string> {
    if steps == [] then []
    else Keys(s, steps[..|steps| - 1]) + KeysBy(Run(s, steps[..|steps| - 1]), steps[|steps| - 1])
  }

  function KeysBy(s: TurnState, step: Step): seq<string> {
    match step
    case Host(p, _) => if p.compacted then [Identity(p.token)] else []
    case Stash(_) => []
    case Observe(_) => if s.pending.Some? && s.pending.value.key != "" then [s.pending.value.key] else []
    case Discard => []
  }

  /** Drops every key equal to the one before it. */
  function Changes(keys: seq<string>): seq<string> {
    if keys == [] then []
    else
      var before := Changes(keys[..|keys| - 1]);
      if before != [] && before[|before| - 1] == keys[|keys| - 1] then before else before + [keys[|keys| - 1]]
  }

  function AnnouncedKeys(announced: seq<Announcement>): seq<string> {
    seq(|announced|, i requires 0 <= i < |announced| => announced[i].key)
  }

  ghost predicate Announcing(s: TurnState, from: seq<Announcement>, keys: seq<string>) {
    && from <= s.announced
    && AnnouncedKeys(s.announced[|from|..]) == Changes(keys)
    && s.lastEmittedKey == (if Changes(keys) == [] then "" else Changes(keys)[|Changes(keys)| - 1])
    && (s.emitted <==> Changes(keys) != [])
    && forall k :: k in keys ==> k != ""
  }

  lemma ChangesSnoc(keys: seq<string>, k: string)
    ensures Changes(keys + [k])
         == if Changes(keys) != [] && Changes(keys)[|Changes(keys)| - 1] == k then Changes(keys)
               else Changes(keys) + [k]
  {
    assert (keys + [k])[..|keys|] == keys;
  }

  lemma {:induction false} ChangesMembers(keys: seq<string>)
    ensures forall k :: k in Changes(keys) ==> k in keys
  {
    if keys != [] {
      ChangesMembers(keys[..|keys| - 1]);
    }
  }

  lemma AnnouncedKeysSnoc(announced: seq<Announcement>, a: Announcement)
    ensures AnnouncedKeys(announced + [a]) == AnnouncedKeys(announced) + [a.key]
  {
  }

  lemma AnnounceExtends(s: TurnState, t: TurnState, from: seq<Announcement>, keys: seq<string>, a: Announcement)
    requires Announcing(s, from, keys) && a.key != ""
    requires if a.key != s.lastEmittedKey
             then t.announced == s.announced + [a] && t.lastEmittedKey == a.key && t.emitted
             else t.announced == s.announced && t.lastEmittedKey == s.lastEmittedKey && t.emitted == s.emitted
    ensures Announcing(t, from, keys + [a.key])
  {
    hide Changes, AnnouncedKeys;
    ChangesSnoc(keys, a.key);
    ChangesMembers(keys);
    if a.key != s.lastEmittedKey {
      assert t.announced[|from|..] == s.announced[|from|..] + [a];
      AnnouncedKeysSnoc(s.announced[|from|..], a);
    }
  }

  ghost function ConfirmedAnnouncement(s: TurnState): Announcement
    requires s.pending.Some?
  {
    var drained := s.(pending := None);
    var p := s.pending.value;
    var last := Record(drained, Grounded(drained, p)).lastPreparation;
    Announcement(p.key, last.beforeTokens, last.afterTokens, p.summarized)
  }

  lemma ConfirmedAnnounces(s: TurnState, from: seq<Announcement>, keys: seq<string>)
    requires Announcing(s, from, keys)
    ensures Announcing(Confirmed(s), from, keys + KeysBy(s, Observe(None)))
  {
    hide Announcing;
    if s.pending.Some? && s.pending.value.key != "" {
      AnnounceExtends(s, Confirmed(s), from, keys, ConfirmedAnnouncement(s));
    } else {
      assert keys + KeysBy(s, Observe(None)) == keys;
      AnnouncingSame(s, Confirmed(s), from, keys);
    }
  }

  lemma AnnouncingSame(s: TurnState, t: TurnState, from: seq<Announcement>, keys: seq<string>)
    requires Announcing(s, from, keys)
    requires t.announced == s.announced && t.lastEmittedKey == s.lastEmittedKey && t.emitted == s.emitted
    ensures Announcing(t, from, keys)
  {
  }

  lemma StepAnnounces(s: TurnState, from: seq<Announcement>, keys: seq<string>, step: Step)
    requires Announcing(s, from, keys)
    ensures Announcing(Apply(s, step), from, keys + KeysBy(s, step))
  {
    hide Announcing, Confirmed;
    var t := Apply(s, step);
    match step
    case Host(p, _) =>
      if p.compacted {
        AnnounceExtends(s, t, from, keys,
              Announcement(Identity(p.token), p.beforeTokens, p.afterTokens, step.haveSummary));
      } else {
        assert keys + KeysBy(s, step) == keys;
        AnnouncingSame(s, t, from, keys);
      }
    case Observe(None) => ConfirmedAnnounces(s, from, keys);
    case Observe(Some(p)) =>
      AnnouncingSame(s, Record(s, p), from, keys);
      ConfirmedAnnounces(Record(s, p), from, keys);
    case Stash(_) =>
      assert keys + KeysBy(s, step) == keys;
      AnnouncingSame(s, t, from, keys);
    case Discard =>
      assert keys + KeysBy(s, step) == keys;
      AnnouncingSame(s, t, from, keys);
  }

  /** Over any mix of host and SDK compactions in a turn, the announcements are exactly
      the effective compactions' keys with repeats of the last one dropped: a compaction
      is announced if and only if its key differs from the last announced, and an SDK
      outcome overwritten before it is drained is never announced. */
  lemma {:induction false} AnnouncedOnChange(s: TurnState, steps: seq<Step>)
    ensures Announcing(Run(Reset(s), steps), s.announced, Keys(Reset(s), steps))
  {
    if steps != [] {
      var before := steps[..|steps| - 1];
      AnnouncedOnChange(s, before);
      StepAnnounces(Run(Reset(s), before), s.announced, Keys(Reset(s), before), steps[|steps| - 1]);
    } else {
      assert s.announced[|s.announced|..] == [];
    }
  }

  /** What a host compaction announces: its own sizes, and whether a summary stands in. */
  lemma HostAnnounces(s: TurnState, p: Preparation, haveSummary: bool)
    ensures var t := HostPrepared(s, p, haveSummary);
      t.announced == if p.compacted && Identity(p.token) != s.lastEmittedKey
                     then s.announced + [Announcement(Identity(p.token), p.beforeTokens, p.afterTokens, haveSummary)]
                     else s.announced
  {
  }

  /** What a confirmed SDK compaction records and announces: its own size after, the turn's first
      size before, its elisions on top of the turn's. */
  lemma ConfirmedExactly(s: TurnState)
    requires s.pending.Some? && s.pending.value.key != "" && s.pending.value.key != s.lastEmittedKey
    ensures var t, p := Confirmed(s), s.pending.value;
      var before := if s.compacted then s.beforeTokens else p.beforeTokens;
      && t.pending == None && t.lastEmittedKey == p.key && t.emitted && t.compacted && t.hasPreparation
      && t.announced == s.announced + [Announcement(p.key, before, p.afterTokens, p.summarized)]
      && t.lastPreparation.compacted && t.lastPreparation.token == s.lastPreparation.token
      && t.lastPreparation.beforeTokens == before && t.lastPreparation.afterTokens == p.afterTokens
      && t.elided == t.lastPreparation.elided
      && t.elided.messages == s.elided.messages + p.elidedMessages
      && t.elided.bytes == s.elided.bytes + p.elidedBytes
      && t.elided.reasoningMessages == s.elided.reasoningMessages
      && t.elided.reasoningBytes == s.elided.reasoningBytes
  {
    hide Identity;
  }

  /** Announcements never repeat back to back. */
  lemma {:induction false} NoRepeats(keys: seq<string>)
    ensures forall i :: 0 < i < |Changes(keys)| ==> Changes(keys)[i - 1] != Changes(keys)[i]
  {
    if keys != [] {
      NoRepeats(keys[..|keys| - 1]);
    }
  }

  lemma RecordIgnoresPending(s: TurnState, p: Option<Pending>, preparation: Preparation)
    ensures Record(s.(pending := p), preparation) == Record(s, preparation).(pending := p)
  {
    hide Identity, Plus;
  }

  lemma PendingUnread(s: TurnState, p: Option<Pending>, q: Option<Pending>, step: Step)
    requires !step.Observe?
    ensures Apply(s.(pending := p), step).(pending := q) == Apply(s, step).(pending := q)
  {
    hide Record, Identity;
    if step.Host? {
      RecordIgnoresPending(s, p, step.preparation);
    }
  }

  lemma {:induction false} PendingUnreadThrough(s: TurnState, p: Option<Pending>, q: Option<Pending>, mid: seq<Step>)
    requires forall step :: step in mid ==> !step.Observe?
    ensures Run(s.(pending := p), mid).(pending := q) == Run(s, mid).(pending := q)
    decreases |mid|
  {
    hide Apply;
    if mid != [] {
      var before, last := mid[..|mid| - 1], mid[|mid| - 1];
      var a, b := Run(s.(pending := p), before), Run(s, before);
      assert last in mid;
      PendingUnreadThrough(s, p, None, before);
      PendingUnread(a, None, q, last);
      PendingUnread(b, None, q, last);
    }
  }

  /** An SDK outcome overwritten before an observer drains it leaves no trace, whatever the
      host does in between. */
  lemma OverwrittenLeavesNoTrace(s: TurnState, lost: Pending, mid: seq<Step>, kept: Pending)
    requires forall step :: step in mid ==> !step.Observe?
    ensures Apply(Run(Apply(s, Stash(lost)), mid), Stash(kept)) == Apply(Run(s, mid), Stash(kept))
  {
    PendingUnreadThrough(s, Some(lost), Some(kept), mid);
  }
}
