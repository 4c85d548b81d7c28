/** Settling requests exactly once (src/gateway/mod.rs): the stream wrapper that settles at end of stream or on drop, and
    the settlement branches of the handler. */
module Settlement {
  import opened Prelude
  import opened Budgets
  import opened Channels
  import opened Cost
  import Money
  import opened Shuffle
  import opened SseTap
  import opened UsageJson
  import opened Utf8

  /** What polling the upstream stream yields. */
  datatype Poll = Pending | Chunk(bytes: seq<Byte>) | Failed | EndOfStream

  datatype SettleCtx = SettleCtx(
    keyId: string, modelSlug: string, channelId: string, prices: Prices, auditReq: Option<string>, subjects: seq<Subject>)

  function StreamInput(ctx: SettleCtx, usage: Usage, status: SettleStatus): SettleInput {
    SettleInput(ctx.keyId, ctx.modelSlug, Some(ctx.channelId), usage, ComputeCostMicro(usage, ctx.prices), status, None,
                ctx.auditReq, None, ctx.subjects)
  }

  // ----- the wrapped stream

  datatype StreamState = StreamState(tap: TapState, ctx: Option<SettleCtx>, spawned: seq<SettleInput>)

  function Settled(p: Protocol, d: Decoder, s: StreamState, status: SettleStatus): StreamState {
    if s.ctx.None? then s
    else
      var tap := FinishState(p, d, s.tap);
      StreamState(tap, None, s.spawned + [StreamInput(s.ctx.value, tap.usage, status)])
  }

  function Polled(p: Protocol, d: Decoder, s: StreamState, poll: Poll): StreamState {
    match poll
    case Chunk(bytes) => s.(tap := FeedState(p, d, s.tap, bytes))
    case EndOfStream => Settled(p, d, s, SettleStatus.Ok)
    case _ => s
  }

  /** Without a runtime the context is dropped unsettled. */
  function Dropped(p: Protocol, d: Decoder, s: StreamState, runtimeAlive: bool): StreamState {
    if runtimeAlive then Settled(p, d, s, ClientAbort) else s.(ctx := None)
  }

  /** The task tracker: settlements spawned so far, each to be run as one transaction. */
  class SettleTracker {
    var spawned: seq<SettleInput>

    constructor ()
      ensures spawned == []
    {
      spawned := [];
    }

    method Spawn(input: SettleInput)
      modifies this
      ensures spawned == old(spawned) + [input]
    {
      spawned := spawned + [input];
    }
  }

  /** The response body: forwards the upstream's chunks past the shared tap. */
  class SettleOnEnd {
    const tap: UsageTap
    const tracker: SettleTracker
    var ctx: Option<SettleCtx>

    constructor (tap: UsageTap, tracker: SettleTracker, ctx: SettleCtx)
      ensures this.tap == tap && this.tracker == tracker && this.ctx == Some(ctx)
    {
      this.tap, this.tracker, this.ctx := tap, tracker, Some(ctx);
    }

    ghost function View(): StreamState
      reads this, tap, tracker
    {
      StreamState(tap.State(), ctx, tracker.spawned)
    }

    method Settle(taken: SettleCtx, status: SettleStatus)
      modifies tap, tracker
      ensures tap.State() == FinishState(tap.protocol, tap.decoder, old(tap.State()))
      ensures tracker.spawned == old(tracker.spawned) + [StreamInput(taken, tap.usage, status)]
    {
      var usage := tap.Finish();
      var cost := ComputeCostMicro(usage, taken.prices);
      tracker.Spawn(SettleInput(taken.keyId, taken.modelSlug, Some(taken.channelId), usage, cost, status, None,
                                taken.auditReq, None, taken.subjects));
    }

    method PollNext(inner: Poll) returns (outer: Poll)
      modifies this, tap, tracker
      ensures View() == Polled(tap.protocol, tap.decoder, old(View()), inner) && outer == inner
    {
      outer := inner;
      match inner
      case Chunk(bytes) => tap.Feed(bytes);
      case EndOfStream =>
        if ctx.Some? {
          var taken := ctx.value;
          ctx := None;
          Settle(taken, SettleStatus.Ok);
        }
      case _ =>
    }

    method Drop(runtimeAlive: bool)
      modifies this, tap, tracker
      ensures View() == Dropped(tap.protocol, tap.decoder, old(View()), runtimeAlive)
    {
      if ctx.Some? {
        var taken := ctx.value;
        ctx := None;
        if !runtimeAlive {
          return;
        }
        Settle(taken, ClientAbort);
      }
    }
  }

  // ----- traces

  function PolledAll(p: Protocol, d: Decoder, s: StreamState, polls: seq<Poll>): StreamState {
    if polls == [] then s else Polled(p, d, PolledAll(p, d, s, polls[..|polls| - 1]), polls[|polls| - 1])
  }

  /** A stream from its first poll to its drop. */
  function WholeStream(p: Protocol, d: Decoder, ctx: SettleCtx, polls: seq<Poll>, runtimeAlive: bool): StreamState {
    Dropped(p, d, PolledAll(p, d, StreamState(FRESH, Some(ctx), []), polls), runtimeAlive)
  }

  /** The chunks forwarded before the first end of stream. */
  function Forwarded(polls: seq<Poll>): seq<seq<Byte>> {
    if polls == [] then []
    else
      var init, last := polls[..|polls| - 1], polls[|polls| - 1];
      if last.Chunk? && EndOfStream !in init then Forwarded(init) + [last.bytes] else Forwarded(init)
  }

  /** The state of the wrapper after some polls. */
  function AfterPolls(p: Protocol, d: Decoder, ctx: SettleCtx, polls: seq<Poll>): StreamState {
    PolledAll(p, d, StreamState(FRESH, Some(ctx), []), polls)
  }

  lemma {:induction false} BeforeEnd(p: Protocol, d: Decoder, ctx: SettleCtx, polls: seq<Poll>)
    requires EndOfStream !in polls
    ensures AfterPolls(p, d, ctx, polls) == StreamState(FeedAll(p, d, Forwarded(polls)), Some(ctx), [])
  {
    if polls != [] {
      var init, last := polls[..|polls| - 1], polls[|polls| - 1];
      BeforeEnd(p, d, ctx, init);
      var chunks := Forwarded(init);
      if last.Chunk? {
        assert (chunks + [last.bytes])[..|chunks|] == chunks;
      }
    }
  }

  lemma {:induction false} AfterEnd(p: Protocol, d: Decoder, ctx: SettleCtx, polls: seq<Poll>)
    requires EndOfStream in polls
    ensures var s := AfterPolls(p, d, ctx, polls);
            s.ctx.None? && s.spawned == [StreamInput(ctx, Tapped(p, d, Forwarded(polls)), SettleStatus.Ok)]
  {
    var init, last := polls[..|polls| - 1], polls[|polls| - 1];
    assert polls == init + [last];
    if EndOfStream in init {
      AfterEnd(p, d, ctx, init);
    } else {
      BeforeEnd(p, d, ctx, init);
    }
  }

  /** With a live runtime every stream is settled exactly once: as ok iff its end was polled, as a client abort
      otherwise, at the cost of what the tap read from the chunks forwarded until then.  Without a runtime it is settled
      iff its end was polled. */
  lemma SettledExactlyOnce(p: Protocol, d: Decoder, ctx: SettleCtx, polls: seq<Poll>, runtimeAlive: bool)
    ensures var ended := EndOfStream in polls;
            var status := if ended then SettleStatus.Ok else ClientAbort;
            WholeStream(p, d, ctx, polls, runtimeAlive).spawned
            == if ended || runtimeAlive then [StreamInput(ctx, Tapped(p, d, Forwarded(polls)), status)] else []
  {
    if EndOfStream in polls {
      AfterEnd(p, d, ctx, polls);
    } else {
      BeforeEnd(p, d, ctx, polls);
    }
  }

  lemma {:induction false} FailedForwardsNothing(polls: seq<Poll>, k: nat)
    requires k <= |polls|
    ensures Forwarded(polls[..k] + [Failed] + polls[k..]) == Forwarded(polls)
    ensures EndOfStream in polls[..k] + [Failed] + polls[k..] <==> EndOfStream in polls
    decreases |polls| - k, |polls|
  {
    var with := polls[..k] + [Failed] + polls[k..];
    if k == |polls| {
      assert with[..|with| - 1] == polls;
    } else {
      var n := |polls| - 1;
      assert with[..|with| - 1] == polls[..n][..k] + [Failed] + polls[..n][k..];
      FailedForwardsNothing(polls[..n], k);
    }
  }

  /** An error anywhere in a stream does not change how the stream is settled. */
  lemma ErrorsIrrelevant(p: Protocol, d: Decoder, ctx: SettleCtx, polls: seq<Poll>, k: nat, runtimeAlive: bool)
    requires k <= |polls|
    ensures WholeStream(p, d, ctx, polls[..k] + [Failed] + polls[k..], runtimeAlive).spawned
            == WholeStream(p, d, ctx, polls, runtimeAlive).spawned
  {
    FailedForwardsNothing(polls, k);
    SettledExactlyOnce(p, d, ctx, polls, runtimeAlive);
    SettledExactlyOnce(p, d, ctx, polls[..k] + [Failed] + polls[k..], runtimeAlive);
  }

  /** If no forwarded line exceeds the cap, the stream is billed for the one-shot parse of the forwarded bytes. */
  lemma StreamCost(p: Protocol, d: Decoder, ctx: SettleCtx, polls: seq<Poll>)
    requires LinesWithin(Flatten(Forwarded(polls)), 1_048_576)
    ensures var inputs := WholeStream(p, d, ctx, polls, true).spawned;
            var usage := OneShot(p, d, Flatten(Forwarded(polls)));
            |inputs| == 1 && inputs[0].usage == usage && inputs[0].costMicro == ComputeCostMicro(usage, ctx.prices)
  {
    SettledExactlyOnce(p, d, ctx, polls, true);
    ChunkingInvisible(p, d, Forwarded(polls));
  }

  // ----- the handler

  /** How forwarding a request ended. */
  datatype Forwarding =
    | NoUpstream
    | AllFailed
    | Passthrough(channelId: string, code: nat, response: Option<string>)
    | Buffered(channelId: string, usage: Usage, response: Option<string>)
    | Stream(channelId: string)

  /** What the handler knows of a request once key and model are resolved; bodies are kept only for audited keys. */
  datatype Request = Request(key: AuthedKey, modelSlug: string, prices: Prices, streamed: bool, auditReq: Option<string>)

  /** The body of an answer that is not streamed: its JSON, if it is JSON, and the text kept for the audit. */
  datatype Reply = Reply(json: Option<Json>, auditText: Option<string>)

  /** An answer outside 200..299 is passed through; a success is buffered or streamed. */
  function ForwardingOf(p: Protocol, r: Request, result: ForwardResult, replies: string -> Reply): Forwarding {
    match result
    case NoChannel => NoUpstream
    case UpstreamFailed => AllFailed
    case Answered(id, code) =>
      var reply := replies(id);
      if !(200 <= code < 300) then Passthrough(id, code, reply.auditText)
      else if r.streamed then Stream(id)
      else Buffered(id, if reply.json.Some? then ExtractUsage(p, reply.json.value) else ZERO_USAGE, reply.auditText)
  }

  /** What a handled request leaves behind: settlements spawned at once, and a stream still to be settled. */
  datatype Handling = Handling(inputs: seq<SettleInput>, stream: Option<SettleCtx>)

  function Input(r: Request, channelId: Option<string>, usage: Usage, cost: int, status: SettleStatus,
                 error: Option<string>, request: Option<string>, response: Option<string>): SettleInput {
    SettleInput(r.key.id, r.modelSlug, channelId, usage, cost, status, error, request, response, SubjectsForKey(r.key))
  }

  function Handled(r: Request, verdict: Verdict, f: Forwarding): Handling {
    if verdict.Exhausted? then
      Handling([Input(r, None, ZERO_USAGE, 0, Rejected, Some("budget_exhausted"), None, None)], None)
    else
      match f
      case NoUpstream => Handling([], None)
      case AllFailed =>
        Handling([Input(r, None, ZERO_USAGE, 0, UpstreamError, Some("upstream_failed"), r.auditReq, None)], None)
      case Passthrough(id, code, response) =>
        Handling([Input(r, Some(id), ZERO_USAGE, 0, UpstreamError, Some("upstream_" + Money.Digits(code, 1)), r.auditReq, response)],
                 None)
      case Buffered(id, usage, response) =>
        Handling([Input(r, Some(id), usage, ComputeCostMicro(usage, r.prices), SettleStatus.Ok, None, r.auditReq, response)],
                 None)
      case Stream(id) =>
        Handling([], Some(SettleCtx(r.key.id, r.modelSlug, id, r.prices, r.auditReq, SubjectsForKey(r.key))))
  }

  /** What the result of a forward says about the channels and their answers. */
  predicate OutcomeOf(result: ForwardResult, rows: seq<Channel>, p: Protocol, load: int, answers: string -> Answer) {
    && (result.NoChannel? <==> NoneLoaded(rows, p))
    && (result.Answered? <==> SomeoneAnswers(rows, p, load, answers))
    && (result.Answered? ==> answers(result.channelId) == Status(result.code) && !Retryable(Status(result.code)))
  }

  /** A request behind key and model: budget check, forwarding, and the settlement its outcome calls for. */
  method Handle(db: Database, channels: ChannelTable, tracker: SettleTracker, p: Protocol, r: Request, now: int, load: int,
                draws: seq<int>, answers: string -> Answer, clock: nat -> int, replies: string -> Reply)
    returns (stream: Option<SettleCtx>, ghost result: ForwardResult, ghost tried: seq<string>)
    requires Channels.UniqueIds(channels.rows) && ValidDraws(Usable(channels.rows, p, load), draws)
    modifies channels, tracker
    ensures Channels.UniqueIds(channels.rows)
    ensures var verdict := CheckVerdict(db.budgets, SubjectsForKey(r.key), now);
            var h := Handled(r, verdict, ForwardingOf(p, r, result, replies));
            && tracker.spawned == old(tracker.spawned) + h.inputs && stream == h.stream
            && (verdict.Exhausted? ==> channels.rows == old(channels.rows))
            && (verdict.Admitted? ==>
                  && OutcomeOf(result, old(channels.rows), p, load, answers)
                  && Attempts(tried, IdsOf(Shuffled(Usable(old(channels.rows), p, load), draws)), answers)
                  && (result.Answered? ==> AnsweredLast(result, tried, answers))
                  && RowsAfter(old(channels.rows), channels.rows, channels.config, tried, answers, clock))
  {
    var subjects := SubjectsForKey(r.key);
    stream, result, tried := None, NoChannel, [];
    var verdict := db.CheckBudgets(subjects, now);
    if verdict.Exhausted? {
      tracker.Spawn(SettleInput(r.key.id, r.modelSlug, None, ZERO_USAGE, 0, Rejected, Some("budget_exhausted"), None, None,
                                subjects));
      return;
    }
    var forwarded;
    forwarded, tried := channels.Forward(p, load, draws, answers, clock);
    result := forwarded;
    match ForwardingOf(p, r, forwarded, replies)
    case NoUpstream =>
    case AllFailed =>
      tracker.Spawn(SettleInput(r.key.id, r.modelSlug, None, ZERO_USAGE, 0, UpstreamError, Some("upstream_failed"),
                                r.auditReq, None, subjects));
    case Passthrough(id, code, response) =>
      tracker.Spawn(SettleInput(r.key.id, r.modelSlug, Some(id), ZERO_USAGE, 0, UpstreamError,
                                Some("upstream_" + Money.Digits(code, 1)), r.auditReq, response, subjects));
    case Buffered(id, usage, response) =>
      var cost := ComputeCostMicro(usage, r.prices);
      tracker.Spawn(SettleInput(r.key.id, r.modelSlug, Some(id), usage, cost, SettleStatus.Ok, None, r.auditReq, response,
                                subjects));
    case Stream(id) =>
      stream := Some(SettleCtx(r.key.id, r.modelSlug, id, r.prices, r.auditReq, subjects));
  }

  /** All settlements a request ever causes: those of the handler and, for a stream, that of its wrapper. */
  function AllInputs(r: Request, verdict: Verdict, f: Forwarding,
                     p: Protocol, d: Decoder, polls: seq<Poll>): seq<SettleInput> {
    var h := Handled(r, verdict, f);
    h.inputs + (match h.stream case Some(ctx) => WholeStream(p, d, ctx, polls, true).spawned case None => [])
  }

  /** What the settlement of every request says, whatever its outcome. */
  predicate FromRequest(input: SettleInput, r: Request) {
    && input.keyId == r.key.id && input.modelSlug == r.modelSlug
    && input.subjects == [Subject("key", r.key.id), Subject(r.key.ownerType, r.key.ownerId)]
  }

  /** A settlement without an answer to bill. */
  predicate Unbilled(input: SettleInput, status: SettleStatus, error: string) {
    input.status == status && input.errorCode == Some(error) && input.usage == Usage(0, 0, 0, 0) && input.costMicro == 0
  }

  /** A request over budget is recorded as rejected. */
  lemma RejectedRecord(p: Protocol, r: Request, verdict: Verdict, result: ForwardResult, replies: string -> Reply)
    requires verdict.Exhausted?
    ensures var h := Handled(r, verdict, ForwardingOf(p, r, result, replies));
            && h.stream.None? && |h.inputs| == 1 && FromRequest(h.inputs[0], r)
            && Unbilled(h.inputs[0], Rejected, "budget_exhausted") && h.inputs[0].channelId.None?
            && h.inputs[0].requestBody.None? && h.inputs[0].responseBody.None?
  {
  }

  /** A request no upstream answered is recorded as an upstream error; without an enabled channel nothing is recorded. */
  lemma UnansweredRecord(p: Protocol, r: Request, result: ForwardResult, replies: string -> Reply)
    requires !result.Answered?
    ensures var h := Handled(r, Admitted, ForwardingOf(p, r, result, replies));
            && h.stream.None? && |h.inputs| == (if result.NoChannel? then 0 else 1)
            && forall input | input in h.inputs ::
                 && FromRequest(input, r) && Unbilled(input, UpstreamError, "upstream_failed") && input.channelId.None?
                 && input.requestBody == r.auditReq && input.responseBody.None?
  {
  }

  /** An answer outside 200..299 is recorded with its status, and not billed. */
  lemma PassedThroughRecord(p: Protocol, r: Request, result: ForwardResult, replies: string -> Reply)
    requires result.Answered? && (result.code < 200 || result.code >= 300)
    ensures var h := Handled(r, Admitted, ForwardingOf(p, r, result, replies));
            && h.stream.None? && |h.inputs| == 1 && FromRequest(h.inputs[0], r)
            && (exists digits :: Money.AllDigits(digits) && Money.Value(digits) == result.code
                                 && Unbilled(h.inputs[0], UpstreamError, "upstream_" + digits))
            && h.inputs[0].channelId == Some(result.channelId) && h.inputs[0].requestBody == r.auditReq
            && h.inputs[0].responseBody == replies(result.channelId).auditText
  {
    assert Money.Value(Money.Digits(result.code, 1)) == result.code;
  }

  /** A success that is not streamed is billed for the usage its body reports, none if the body is not JSON. */
  lemma BufferedRecord(p: Protocol, r: Request, result: ForwardResult, replies: string -> Reply)
    requires result.Answered? && 200 <= result.code < 300 && !r.streamed
    ensures var h, reply := Handled(r, Admitted, ForwardingOf(p, r, result, replies)), replies(result.channelId);
            && h.stream.None? && |h.inputs| == 1 && FromRequest(h.inputs[0], r)
            && h.inputs[0].status == SettleStatus.Ok && h.inputs[0].errorCode.None?
            && h.inputs[0].channelId == Some(result.channelId)
            && h.inputs[0].usage == (match reply.json case Some(json) => ExtractUsage(p, json) case None => Usage(0, 0, 0, 0))
            && h.inputs[0].costMicro == ComputeCostMicro(h.inputs[0].usage, r.prices)
            && h.inputs[0].requestBody == r.auditReq && h.inputs[0].responseBody == reply.auditText
  {
  }

  /** A streamed success is left to the wrapper, and recorded by it: as ok or as a client abort, billed for what the tap
      read. */
  lemma StreamedRecord(p: Protocol, d: Decoder, r: Request, result: ForwardResult, replies: string -> Reply,
                       polls: seq<Poll>)
    requires result.Answered? && 200 <= result.code < 300 && r.streamed
    ensures var h := Handled(r, Admitted, ForwardingOf(p, r, result, replies));
            && h.inputs == [] && h.stream.Some?
            && var inputs := WholeStream(p, d, h.stream.value, polls, true).spawned;
               && |inputs| == 1 && FromRequest(inputs[0], r) && inputs[0].errorCode.None?
               && inputs[0].status == (if EndOfStream in polls then SettleStatus.Ok else ClientAbort)
               && inputs[0].channelId == Some(result.channelId)
               && inputs[0].usage == Tapped(p, d, Forwarded(polls))
               && inputs[0].costMicro == ComputeCostMicro(inputs[0].usage, r.prices)
               && inputs[0].requestBody == r.auditReq && inputs[0].responseBody.None?
  {
    SettledExactlyOnce(p, d, Handled(r, Admitted, ForwardingOf(p, r, result, replies)).stream.value, polls, true);
  }

  /** Every active budget of the key and of its owner counts less than its limit. */
  predicate WithinBudget(budgets: seq<Budget>, key: AuthedKey, now: int) {
    forall i | 0 <= i < |budgets| && budgets[i].status == BudgetStatus.Active && OfKey(budgets[i].subject, key) ::
      EffectiveUsed(budgets[i], now) < budgets[i].limitMicro
  }

  /** Every request that got past its key and model leaves exactly one usage record, except one within budget whose
      provider has no enabled channel.  It is charged only if every active budget of its key and owner counted less than
      its limit when it was checked, and the channel recorded answered it with success. */
  lemma RequestSettledOnce(p: Protocol, d: Decoder, r: Request, budgets: seq<Budget>, now: int, result: ForwardResult,
                           rows: seq<Channel>, load: int, answers: string -> Answer, replies: string -> Reply,
                           polls: seq<Poll>)
    requires CheckVerdict(budgets, SubjectsForKey(r.key), now) == Admitted ==> OutcomeOf(result, rows, p, load, answers)
    ensures var verdict := CheckVerdict(budgets, SubjectsForKey(r.key), now);
            var inputs := AllInputs(r, verdict, ForwardingOf(p, r, result, replies), p, d, polls);
            && |inputs| == (if WithinBudget(budgets, r.key, now) && NoneLoaded(rows, p) then 0 else 1)
            && forall input | input in inputs ::
                 && input.keyId == r.key.id && (forall s :: s in input.subjects <==> OfKey(s, r.key))
                 && (Accrues(input) ==>
                       && WithinBudget(budgets, r.key, now) && SomeoneAnswers(rows, p, load, answers)
                       && result.Answered? && 200 <= result.code < 300 && answers(result.channelId) == Status(result.code)
                       && input.channelId == Some(result.channelId))
  {
    var verdict := CheckVerdict(budgets, SubjectsForKey(r.key), now);
    var h := Handled(r, verdict, ForwardingOf(p, r, result, replies));
    SubjectsAreOfKey(r.key);
    AdmittedIff(budgets, SubjectsForKey(r.key), now);
    if h.stream.Some? {
      SettledExactlyOnce(p, d, h.stream.value, polls, true);
    }
  }
}
