/** Message history across one SDK run: the conversions between the two message shapes
    (internal/agent/agentloop_convert.go) and the write-back that replaces the carried
    history after a run (internal/agent/loop_dispatch.go). */
module History {
  import opened Basics

  const SUMMARY_NAME := "context-summary"

  /** Time zero means unknown. */
  type Time = nat

  datatype CliCall = CliCall(id: string, kind: string, name: string, arguments: string)

  datatype CliMessage = CliMessage(role: string, content: string, calls: seq<CliCall>, toolCallId: string,
                                   name: string, reasoning: string, createdAt: Time)

  datatype SdkCall = SdkCall(index: nat, id: string, name: string, arguments: string)

  datatype SdkBlock = SdkBlock(content: string, redacted: bool)

  datatype SdkMessage = SdkMessage(role: string, content: string, calls: seq<SdkCall>, toolCallId: string,
                                   name: string, blocks: seq<SdkBlock>)

  // ----- conversions

  function CallToCli(c: SdkCall): CliCall {
    CliCall(c.id, "function", c.name, c.arguments)
  }

  function BlocksToContent(blocks: seq<SdkBlock>): string {
    if blocks == [] then ""
    else
      BlocksToContent(blocks[..|blocks| - 1])
      + (if blocks[|blocks| - 1].redacted then "" else blocks[|blocks| - 1].content)
  }

  function ContentToBlocks(content: string): seq<SdkBlock> {
    if content == "" then [] else [SdkBlock(content, false)]
  }

  function ToCli(m: SdkMessage): CliMessage {
    CliMessage(m.role, m.content, seq(|m.calls|, i requires 0 <= i < |m.calls| => CallToCli(m.calls[i])),
               m.toolCallId, m.name, BlocksToContent(m.blocks), 0)
  }

  function ToSdk(m: CliMessage): SdkMessage {
    SdkMessage(m.role, m.content,
               seq(|m.calls|, i requires 0 <= i < |m.calls| => SdkCall(i, m.calls[i].id, m.calls[i].name,
                     m.calls[i].arguments)),
               m.toolCallId, m.name, ContentToBlocks(m.reasoning))
  }

  function AllToCli(ms: seq<SdkMessage>): seq<CliMessage> {
    seq(|ms|, i requires 0 <= i < |ms| => ToCli(ms[i]))
  }

  function AllToSdk(ms: seq<CliMessage>): seq<SdkMessage> {
    seq(|ms|, i requires 0 <= i < |ms| => ToSdk(ms[i]))
  }

  /** Both conversions keep a message's fields, and its calls one by one. */
  lemma ConversionsKeepFields(m: CliMessage, s: SdkMessage)
    ensures var r := ToSdk(m);
      && r.role == m.role && r.content == m.content && r.toolCallId == m.toolCallId && r.name == m.name
      && |r.calls| == |m.calls|
      && forall i :: 0 <= i < |m.calls| ==>
           && r.calls[i].index == i && r.calls[i].id == m.calls[i].id
           && r.calls[i].name == m.calls[i].name && r.calls[i].arguments == m.calls[i].arguments
    ensures var r := ToCli(s);
      && r.role == s.role && r.content == s.content && r.toolCallId == s.toolCallId && r.name == s.name
      && |r.calls| == |s.calls|
      && forall i :: 0 <= i < |s.calls| ==>
           && r.calls[i].kind == "function" && r.calls[i].id == s.calls[i].id
           && r.calls[i].name == s.calls[i].name && r.calls[i].arguments == s.calls[i].arguments
  {
  }

  /** The reasoning text is the blocks' text in order, redacted ones left out. */
  lemma {:induction false} ReasoningInOrder(a: seq<SdkBlock>, b: seq<SdkBlock>)
    ensures BlocksToContent(a + b) == BlocksToContent(a) + BlocksToContent(b)
    ensures |a| == 1 ==> BlocksToContent(a) == if a[0].redacted then "" else a[0].content
    decreases |b|
  {
    if |a| == 1 {
      OneBlock(a[0]);
      assert a == [a[0]];
    }
    if b == [] {
      assert a + b == a;
    } else {
      var before, last := b[..|b| - 1], b[|b| - 1];
      ReasoningInOrder(a, before);
      assert (a + b)[..|a + b| - 1] == a + before;
      var text := if last.redacted then "" else last.content;
      assert BlocksToContent(a + b) == BlocksToContent(a) + BlocksToContent(before) + text;
      assert BlocksToContent(b) == BlocksToContent(before) + text;
    }
  }

  lemma OneBlock(block: SdkBlock)
    ensures BlocksToContent([block]) == if block.redacted then "" else block.content
  {
    assert [block][..0] == [];
  }

  method MessagesToCli(ms: seq<SdkMessage>) returns (out: array<CliMessage>)
    ensures fresh(out) && out[..] == AllToCli(ms)
  {
    out := new CliMessage[|ms|](_ => CliMessage("", "", [], "", "", "", 0));
    for i := 0 to |ms|
      invariant out[..i] == AllToCli(ms)[..i]
    {
      out[i] := ToCli(ms[i]);
    }
  }

  /** A message comes back from the SDK shape with every field but its timestamp and
      the kinds of its calls, which become "function". */
  lemma MessageRoundTrip(m: CliMessage)
    ensures ToCli(ToSdk(m)) == m.(createdAt := 0, calls := ToCli(ToSdk(m)).calls)
    ensures |ToCli(ToSdk(m)).calls| == |m.calls|
    ensures forall i :: 0 <= i < |m.calls| ==> ToCli(ToSdk(m)).calls[i] == m.calls[i].(kind := "function")
    ensures ToCli(ToSdk(m)).calls == m.calls <==> forall c :: c in m.calls ==> c.kind == "function"
  {
    var r := ToCli(ToSdk(m));
    assert BlocksToContent(ContentToBlocks(m.reasoning)) == m.reasoning by {
      if m.reasoning != "" {
        assert ContentToBlocks(m.reasoning)[..0] == [];
      }
    }
    if r.calls == m.calls {
      forall c | c in m.calls
        ensures c.kind == "function"
      {
        var i :| 0 <= i < |m.calls| && m.calls[i] == c;
        assert r.calls[i] == m.calls[i];
      }
    }
    if forall c :: c in m.calls ==> c.kind == "function" {
      forall i | 0 <= i < |m.calls|
        ensures r.calls[i] == m.calls[i]
      {
        assert m.calls[i] in m.calls;
      }
      assert r.calls == m.calls;
    }
  }

  // ----- the repairs of a converted history

  predicate EmptyAssistant(m: CliMessage) {
    m.role == "assistant" && m.calls == [] && Blank(m.content) && Blank(m.reasoning)
  }

  predicate Keeps(m: CliMessage) {
    !EmptyAssistant(m) && m.name != SUMMARY_NAME
  }

  function Kept(ms: seq<CliMessage>): seq<CliMessage> {
    if ms == [] then []
    else Kept(ms[..|ms| - 1]) + (if Keeps(ms[|ms| - 1]) then [ms[|ms| - 1]] else [])
  }

  function WithoutEmpty(ms: seq<CliMessage>): seq<CliMessage> {
    if ms == [] then []
    else WithoutEmpty(ms[..|ms| - 1]) + (if EmptyAssistant(ms[|ms| - 1]) then [] else [ms[|ms| - 1]])
  }

  method DropEmptyAssistantTurns(ms: seq<CliMessage>) returns (out: seq<CliMessage>)
    ensures out == WithoutEmpty(ms)
  {
    var needsWork := false;
    for i := 0 to |ms|
      invariant !needsWork ==> WithoutEmpty(ms[..i]) == ms[..i]
    {
      assert ms[..i + 1][..i] == ms[..i];
      if EmptyAssistant(ms[i]) {
        needsWork := true;
        break;
      }
    }
    if !needsWork {
      assert ms[..|ms|] == ms;
      return ms;
    }
    out := [];
    for i := 0 to |ms|
      invariant out == WithoutEmpty(ms[..i])
    {
      assert ms[..i + 1][..i] == ms[..i];
      if !EmptyAssistant(ms[i]) {
        out := out + [ms[i]];
      }
    }
    assert ms[..|ms|] == ms;
  }

  method StripInjectedSummaryFrames(ms: seq<CliMessage>) returns (out: seq<CliMessage>)
    ensures out == Unnamed(ms)
  {
    out := [];
    for i := 0 to |ms|
      invariant out == Unnamed(ms[..i])
    {
      assert ms[..i + 1][..i] == ms[..i];
      if ms[i].name != SUMMARY_NAME {
        out := out + [ms[i]];
      }
    }
    assert ms[..|ms|] == ms;
  }

  ghost function Unnamed(ms: seq<CliMessage>): seq<CliMessage> {
    if ms == [] then []
    else Unnamed(ms[..|ms| - 1]) + (if ms[|ms| - 1].name != SUMMARY_NAME then [ms[|ms| - 1]] else [])
  }

  lemma {:induction false} TwoFilters(ms: seq<CliMessage>)
    ensures Unnamed(WithoutEmpty(ms)) == Kept(ms)
  {
    if ms != [] {
      var before, last := ms[..|ms| - 1], ms[|ms| - 1];
      TwoFilters(before);
      if EmptyAssistant(last) {
        assert WithoutEmpty(ms) == WithoutEmpty(before) && Kept(ms) == Kept(before);
      } else {
        assert (WithoutEmpty(before) + [last])[..|WithoutEmpty(before)|] == WithoutEmpty(before);
      }
    }
  }

  function Stamp(m: CliMessage, carried: seq<CliMessage>, i: nat, now: Time): CliMessage {
    if i < |carried| then m.(createdAt := carried[i].createdAt)
    else if m.createdAt == 0 then m.(createdAt := now)
    else m
  }

  /** A carried message gets its old time back; a new one keeps its time, or gets the current
      one when it has none; nothing else changes. */
  lemma StampExactly(m: CliMessage, carried: seq<CliMessage>, i: nat, now: Time)
    ensures var r := Stamp(m, carried, i, now);
      && r.(createdAt := m.createdAt) == m
      && (i < |carried| ==> r.createdAt == carried[i].createdAt)
      && (i >= |carried| ==> r.createdAt == if m.createdAt != 0 then m.createdAt else now)
  {
  }

  function Stamped(ms: seq<CliMessage>, carried: seq<CliMessage>, now: Time): seq<CliMessage> {
    seq(|ms|, i requires 0 <= i < |ms| => Stamp(ms[i], carried, i, now))
  }

  method RestoreTimestamps(a: array<CliMessage>, carried: seq<CliMessage>, now: Time)
    modifies a
    ensures a[..] == Stamped(old(a[..]), carried, now)
  {
    for i := 0 to a.Length
      invariant forall k :: 0 <= k < i ==> a[k] == Stamp(old(a[k]), carried, k, now)
      invariant forall k :: i <= k < a.Length ==> a[k] == old(a[k])
    {
      if i < |carried| {
        a[i] := a[i].(createdAt := carried[i].createdAt);
      } else if a[i].createdAt == 0 {
        a[i] := a[i].(createdAt := now);
      }
    }
  }

  // ----- write-back

  function WrittenBack(messages: seq<CliMessage>, history: seq<SdkMessage>, preLen: nat, now: Time): seq<CliMessage> {
    var pre := if preLen < |messages| then preLen else |messages|;
    (if history == [] then messages else Kept(Stamped(AllToCli(history), messages[..pre], now))) + messages[pre..]
  }

  class Loop {
    var messages: seq<CliMessage>

    constructor (messages: seq<CliMessage>)
      ensures this.messages == messages
    {
      this.messages := messages;
    }

    /** `messages` may have been pruned below `preLen`, or appended to, while the run
        was under way. */
    method WriteBackSdkHistory(history: seq<SdkMessage>, preLen: nat, now: Time)
      modifies this
      ensures messages == WrittenBack(old(messages), history, preLen, now)
    {
      var pre := if preLen < |messages| then preLen else |messages|;
      var extras := messages[pre..];
      if |history| > 0 {
        var converted := MessagesToCli(history);
        RestoreTimestamps(converted, messages[..pre], now);
        var repaired := DropEmptyAssistantTurns(converted[..]);
        messages := StripInjectedSummaryFrames(repaired);
        TwoFilters(converted[..]);
      }
      messages := messages + extras;
    }
  }

  // ----- what survives

  /** A carried message the write-back gives back unchanged. */
  predicate Carriable(m: CliMessage) {
    Keeps(m) && forall c :: c in m.calls ==> c.kind == "function"
  }

  lemma {:induction false} KeptAppend(a: seq<CliMessage>, b: seq<CliMessage>)
    ensures Kept(a + b) == Kept(a) + Kept(b)
  {
    if b == [] {
      assert a + b == a;
    } else {
      KeptAppend(a, b[..|b| - 1]);
      assert (a + b)[..|a + b| - 1] == a + b[..|b| - 1];
    }
  }

  /** The repair keeps, in order, every message that is neither named as a summary nor an
      assistant's without a call and with blank content and reasoning. */
  lemma KeptExactly(m: CliMessage, before: seq<CliMessage>, after: seq<CliMessage>)
    ensures Kept(before + [m] + after) == Kept(before) + Kept([m]) + Kept(after)
    ensures Kept([m]) == if m.name == "context-summary"
                            || (m.role == "assistant" && m.calls == [] && Blank(m.content) && Blank(m.reasoning))
                         then [] else [m]
  {
    KeptAppend(before + [m], after);
    KeptAppend(before, [m]);
    assert [m][..0] == [];
  }

  lemma {:induction false} KeptAll(ms: seq<CliMessage>)
    ensures |Kept(ms)| <= |ms|
    ensures |Kept(ms)| == |ms| ==> forall m :: m in ms ==> Keeps(m)
    ensures (forall m :: m in ms ==> Keeps(m)) ==> Kept(ms) == ms
  {
    if ms != [] {
      KeptAll(ms[..|ms| - 1]);
      assert ms == ms[..|ms| - 1] + [ms[|ms| - 1]];
    }
  }

  /** The carried prefix as it comes back: converted there and back, timestamps restored. */
  function Returned(carried: seq<CliMessage>): seq<CliMessage> {
    seq(|carried|, i requires 0 <= i < |carried| => ToCli(ToSdk(carried[i])).(createdAt := carried[i].createdAt))
  }

  lemma ReturnedKeeps(m: CliMessage)
    ensures Keeps(ToCli(ToSdk(m)).(createdAt := m.createdAt)) <==> Keeps(m)
    ensures ToCli(ToSdk(m)).(createdAt := m.createdAt) == m <==> forall c :: c in m.calls ==> c.kind == "function"
  {
    MessageRoundTrip(m);
  }

  /** The carried messages come back unchanged if and only if none of them is an empty
      assistant turn, a summary frame, or a call of another kind than "function". */
  lemma CarriedUnchangedIff(carried: seq<CliMessage>)
    ensures Kept(Returned(carried)) == carried <==> forall m :: m in carried ==> Carriable(m)
  {
    var back := Returned(carried);
    KeptAll(back);
    forall i | 0 <= i < |carried|
      ensures Keeps(back[i]) <==> Keeps(carried[i])
      ensures back[i] == carried[i] <==> forall c :: c in carried[i].calls ==> c.kind == "function"
    {
      ReturnedKeeps(carried[i]);
    }
    if Kept(back) == carried {
      assert Kept(back) == back by {
        KeptAll(back);
      }
      forall m | m in carried
        ensures Carriable(m)
      {
        var i :| 0 <= i < |carried| && carried[i] == m;
        assert back[i] in back;
      }
    }
    if forall m :: m in carried ==> Carriable(m) {
      forall i | 0 <= i < |carried|
        ensures back[i] == carried[i]
      {
        assert carried[i] in carried && Carriable(carried[i]);
      }
      assert back == carried;
    }
  }

  /** The new messages of a run, as they join the history. */
  function Arrivals(news: seq<SdkMessage>, now: Time): seq<CliMessage> {
    Kept(Stamped(AllToCli(news), [], now))
  }

  lemma StampedSplit(carried: seq<CliMessage>, news: seq<SdkMessage>, now: Time)
    ensures Stamped(AllToCli(AllToSdk(carried) + news), carried, now) ==
          Returned(carried) + Stamped(AllToCli(news), [], now)
  {
  }

  /** One run's write-back. When the run's history is the carried messages followed by
      new ones, the loop ends with the carried messages as they return, the new ones
      without summary frames and empty turns, and whatever was appended during the run. */
  lemma OneRunWriteBack(carried: seq<CliMessage>, news: seq<SdkMessage>, extras: seq<CliMessage>, now: Time)
    requires AllToSdk(carried) + news != []
    ensures WrittenBack(carried + extras, AllToSdk(carried) + news, |carried|, now)
         == Kept(Returned(carried)) + Arrivals(news, now) + extras
    ensures (forall m :: m in carried ==> Carriable(m)) ==>
              WrittenBack(carried + extras, AllToSdk(carried) + news, |carried|, now) ==
                    carried + Arrivals(news, now) + extras
  {
    assert (carried + extras)[..|carried|] == carried && (carried + extras)[|carried|..] == extras;
    StampedSplit(carried, news, now);
    KeptAppend(Returned(carried), Stamped(AllToCli(news), [], now));
    CarriedUnchangedIff(carried);
  }

  /** A run that reports no history loses nothing, but what was appended past the boundary
      meanwhile is appended again: nothing changes exactly when nothing was. */
  lemma EmptyHistoryKeepsIff(messages: seq<CliMessage>, preLen: nat, now: Time)
    ensures messages <= WrittenBack(messages, [], preLen, now)
    ensures WrittenBack(messages, [], preLen, now) == messages <==> |messages| <= preLen
  {
  }

  /** A first call cancelled while it streams: the partial reply is recorded, the result is
      empty, and the write-back records the partial a second time. */
  lemma CancelledPartialTwice(user: CliMessage, partial: CliMessage, now: Time)
    ensures WrittenBack([user, partial], [], 1, now) == [user, partial, partial]
  {
  }

  /** Nothing the run adds is a summary frame or an empty assistant turn. */
  lemma {:induction false} KeptIsClean(ms: seq<CliMessage>)
    ensures forall m :: m in Kept(ms) ==> Keeps(m) && m in ms
  {
    if ms != [] {
      KeptIsClean(ms[..|ms| - 1]);
    }
  }

  /** A run whose carried messages were pruned to no more than the boundary leaves its own
      repaired history and nothing after it. */
  lemma PrunedRun(messages: seq<CliMessage>, history: seq<SdkMessage>, preLen: nat, now: Time)
    requires |messages| <= preLen && history != []
    ensures WrittenBack(messages, history, preLen, now) == Kept(Stamped(AllToCli(history), messages, now))
  {
    assert messages[..|messages|] == messages;
  }

  // ----- a second run in the same turn

  /** What a steered re-run should leave: each part once. */
  function Intended(carried: seq<CliMessage>, first: seq<CliMessage>, second: seq<CliMessage>, extras: seq<CliMessage>)
    : seq<CliMessage>
  {
    carried + first + second + extras
  }

  /** The boundary is computed once per turn, so after a steered re-run everything the
      first run added is written twice: once inside the re-run's own history, once more
      as the tail past the boundary. It is written once exactly when the first run
      added nothing. */
  lemma RerunRepeatsTail(carried: seq<CliMessage>, first: seq<CliMessage>, news: seq<SdkMessage>,
                         extras: seq<CliMessage>, now: Time)
    requires carried != [] && forall m :: m in carried + first ==> Carriable(m)
    ensures var after := WrittenBack(carried + first + extras, AllToSdk(carried + first) + news, |carried|, now);
      && |after| == |Intended(carried, first, Arrivals(news, now), extras)| + |first|
      && after[..|carried|] == carried
      && after[|after| - |first + extras|..] == first + extras
      && (after == Intended(carried, first, Arrivals(news, now), extras) <==> first == [])
  {
    hide Kept, Arrivals, WrittenBack, Carriable;
    var tail := AllToSdk(first) + news;
    assert carried + first + extras == carried + (first + extras);
    assert AllToSdk(carried + first) + news == AllToSdk(carried) + tail;
    forall m | m in carried
      ensures Carriable(m)
    {
      assert m in carried + first;
    }
    OneRunWriteBack(carried, tail, first + extras, now);
    ArrivalsSplit(first, news, now);
    ReArrivalsLength(carried, first, now);
    TailTwice(carried, Arrivals(AllToSdk(first), now), Arrivals(news, now), first, extras);
  }

  lemma TailTwice<T>(carried: seq<T>, again: seq<T>, second: seq<T>, first: seq<T>, extras: seq<T>)
    requires |again| == |first|
    ensures var after := carried + (again + second) + (first + extras);
      && |after| == |carried + first + second + extras| + |first|
      && after[..|carried|] == carried
      && after[|after| - |first + extras|..] == first + extras
      && (after == carried + first + second + extras <==> first == [])
  {
    if first == [] {
      assert again == [] && first + extras == extras;
    }
  }

  lemma ArrivalsSplit(first: seq<CliMessage>, news: seq<SdkMessage>, now: Time)
    ensures Arrivals(AllToSdk(first) + news, now) == Arrivals(AllToSdk(first), now) + Arrivals(news, now)
  {
    var a, b := Stamped(AllToCli(AllToSdk(first)), [], now), Stamped(AllToCli(news), [], now);
    assert Stamped(AllToCli(AllToSdk(first) + news), [], now) == a + b;
    KeptAppend(a, b);
  }

  lemma ReArrivalsLength(carried: seq<CliMessage>, first: seq<CliMessage>, now: Time)
    requires forall m :: m in carried + first ==> Carriable(m)
    ensures |Arrivals(AllToSdk(first), now)| == |first|
    ensures first == [] ==> Arrivals(AllToSdk(first), now) == []
  {
    var back := Stamped(AllToCli(AllToSdk(first)), [], now);
    forall m | m in back
      ensures Keeps(m)
    {
      var i :| 0 <= i < |back| && back[i] == m;
      assert first[i] in carried + first;
      MessageRoundTrip(first[i]);
    }
    KeptAll(back);
  }

  // ----- a whole turn

  /** One run of a turn: what it adds to the history it was started on, if it reports one at
      all, and what other parts of the loop append meanwhile. */
  datatype TurnRun = TurnRun(news: Option<seq<SdkMessage>>, extras: seq<CliMessage>, now: Time)

  /** The loop's messages after the runs of a turn, each started on what the one before it
      left, all written back at the boundary the turn began with. */
  function After(carried: seq<CliMessage>, runs: seq<TurnRun>): seq<CliMessage> {
    if runs == [] then carried
    else
      var messages, r := After(carried, runs[..|runs| - 1]), runs[|runs| - 1];
      var history := if r.news.Some? then AllToSdk(messages) + r.news.value else [];
      WrittenBack(messages + r.extras, history, |carried|, r.now)
  }

  function Added(r: TurnRun): seq<CliMessage> {
    (if r.news.Some? then Arrivals(r.news.value, r.now) else []) + r.extras
  }

  /** Every message of the turn once. */
  function Once(runs: seq<TurnRun>): seq<CliMessage> {
    if runs == [] then [] else Once(runs[..|runs| - 1]) + Added(runs[|runs| - 1])
  }

  /** How many messages a run contributes: one without a history writes its own twice. */
  function Share(r: TurnRun): nat {
    if r.news.Some? then |Added(r)| else 2 * |Added(r)|
  }

  /** How long the turn's part of the history gets: every run doubles what was there. */
  function TailLength(runs: seq<TurnRun>): nat {
    if runs == [] then 0 else 2 * TailLength(runs[..|runs| - 1]) + Share(runs[|runs| - 1])
  }

  ghost predicate AllCarriable(ms: seq<CliMessage>) {
    forall m :: m in ms ==> Carriable(m)
  }

  ghost predicate CarriableExtras(runs: seq<TurnRun>) {
    forall r :: r in runs ==> AllCarriable(r.extras)
  }

  lemma ArrivalsCarriable(news: seq<SdkMessage>, now: Time)
    ensures AllCarriable(Arrivals(news, now))
  {
    var stamped := Stamped(AllToCli(news), [], now);
    KeptIsClean(stamped);
    forall m | m in stamped
      ensures forall c :: c in m.calls ==> c.kind == "function"
    {
      var i :| 0 <= i < |stamped| && stamped[i] == m;
    }
  }

  /** One more run on top of a history whose part past the boundary is `tail`: that part comes
      back re-stamped, and once more as it was. */
  lemma RunDoubles(carried: seq<CliMessage>, tail: seq<CliMessage>, news: seq<SdkMessage>, extras: seq<CliMessage>,
                   now: Time)
    requires carried != [] && AllCarriable(carried) && AllCarriable(tail) && AllCarriable(extras)
    ensures var again := Arrivals(AllToSdk(tail), now);
      && |again| == |tail|
      && WrittenBack(carried + tail + extras, AllToSdk(carried + tail) + news, |carried|, now)
         == carried + (again + Arrivals(news, now) + tail + extras)
      && AllCarriable(again + Arrivals(news, now) + tail + extras)
  {
    hide Kept, Arrivals, WrittenBack, Carriable;
    assert carried + tail + extras == carried + (tail + extras);
    assert AllToSdk(carried + tail) + news == AllToSdk(carried) + (AllToSdk(tail) + news);
    OneRunWriteBack(carried, AllToSdk(tail) + news, tail + extras, now);
    ArrivalsSplit(tail, news, now);
    ReArrivalsLength(carried, tail, now);
    ArrivalsCarriable(AllToSdk(tail), now);
    ArrivalsCarriable(news, now);
  }

  /** A run without a history repeats the whole part past the boundary, its own extras too. */
  lemma SilentRunDoubles(carried: seq<CliMessage>, tail: seq<CliMessage>, extras: seq<CliMessage>, now: Time)
    ensures WrittenBack(carried + tail + extras, [], |carried|, now) == carried + ((tail + extras) + (tail + extras))
  {
    var messages := carried + tail + extras;
    assert messages == carried + (tail + extras) && messages[|carried|..] == tail + extras;
  }

  /** Over any number of runs, with a history or without, the carried messages stay, and what
      follows them has exactly the doubling length. */
  lemma {:induction false} TurnDoubles(carried: seq<CliMessage>, runs: seq<TurnRun>) returns (tail: seq<CliMessage>)
    requires carried != [] && AllCarriable(carried) && CarriableExtras(runs)
    ensures After(carried, runs) == carried + tail && |tail| == TailLength(runs) && AllCarriable(tail)
    decreases |runs|
  {
    hide Arrivals, WrittenBack, Carriable;
    if runs == [] {
      tail := [];
    } else {
      var before, r := runs[..|runs| - 1], runs[|runs| - 1];
      assert r in runs;
      var earlier := TurnDoubles(carried, before);
      if r.news.Some? {
        RunDoubles(carried, earlier, r.news.value, r.extras, r.now);
        tail := Arrivals(AllToSdk(earlier), r.now) + Arrivals(r.news.value, r.now) + earlier + r.extras;
      } else {
        SilentRunDoubles(carried, earlier, r.extras, r.now);
        tail := (earlier + r.extras) + (earlier + r.extras);
      }
    }
  }

  function Pow2(n: nat): nat {
    if n == 0 then 1 else 2 * Pow2(n - 1)
  }

  /** What a run contributes is doubled by every run after it. */
  lemma {:induction false} CopiesOfFirst(r: TurnRun, more: seq<TurnRun>)
    ensures TailLength([r] + more) == Pow2(|more|) * Share(r) + TailLength(more)
    decreases |more|
  {
    var runs := [r] + more;
    if more == [] {
      assert runs[..0] == [];
    } else {
      assert runs[..|runs| - 1] == [r] + more[..|more| - 1];
      CopiesOfFirst(r, more[..|more| - 1]);
      Twice(Pow2(|more| - 1), Share(r));
    }
  }

  lemma Twice(p: nat, n: nat)
    ensures 2 * (p * n) == (2 * p) * n
  {
  }

  /** Every run but the last adds nothing, and the last one, if it reports no history, adds
      nothing either. */
  predicate OneRunWrites(runs: seq<TurnRun>) {
    && (forall k :: 0 <= k < |runs| - 1 ==> Added(runs[k]) == [])
    && (runs != [] && runs[|runs| - 1].news.None? ==> Added(runs[|runs| - 1]) == [])
  }

  lemma {:induction false} LengthOnceIff(runs: seq<TurnRun>)
    ensures TailLength(runs) >= |Once(runs)|
    ensures TailLength(runs) == 0 <==> forall k :: 0 <= k < |runs| ==> Added(runs[k]) == []
    ensures TailLength(runs) == |Once(runs)| <==> OneRunWrites(runs)
  {
    hide Added;
    if runs != [] {
      var before := runs[..|runs| - 1];
      LengthOnceIff(before);
      assert forall k :: 0 <= k < |before| ==> before[k] == runs[k];
    }
  }

  /** A turn writes each of its messages once if and only if at most its last run adds any,
      and that one reports a history. */
  lemma TurnWritesOnceIff(carried: seq<CliMessage>, runs: seq<TurnRun>)
    requires carried != [] && AllCarriable(carried) && CarriableExtras(runs)
    ensures After(carried, runs) == carried + Once(runs) <==> OneRunWrites(runs)
  {
    hide Arrivals, WrittenBack, Carriable, Added;
    var tail := TurnDoubles(carried, runs);
    LengthOnceIff(runs);
    if OneRunWrites(runs) && runs != [] {
      var before, r := runs[..|runs| - 1], runs[|runs| - 1];
      assert r in runs;
      LengthOnceIff(before);
      assert forall k :: 0 <= k < |before| ==> before[k] == runs[k];
      var earlier := TurnDoubles(carried, before);
      assert earlier == [] && Once(before) == [] && carried + [] == carried;
      LastRunOnly(carried, r);
    }
  }

  lemma LastRunOnly(carried: seq<CliMessage>, r: TurnRun)
    requires carried != [] && AllCarriable(carried) && AllCarriable(r.extras)
    requires r.news.None? ==> Added(r) == []
    ensures var history := if r.news.Some? then AllToSdk(carried) + r.news.value else [];
            WrittenBack(carried + r.extras, history, |carried|, r.now) == carried + Added(r)
  {
    hide WrittenBack, Kept;
    if r.news.Some? {
      OneRunWriteBack(carried, r.news.value, r.extras, r.now);
    } else {
      assert carried + [] + r.extras == carried + r.extras;
      SilentRunDoubles(carried, [], r.extras, r.now);
    }
  }
}
