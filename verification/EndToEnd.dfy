/** From the bytes of a stream to the budgets: tap, cost, settlement and ledger put together. */
module EndToEnd {
  import opened Prelude
  import opened Budgets
  import Channels
  import opened Cost
  import opened Ledger
  import opened Settlement
  import opened SseTap
  import opened UsageJson

  predicate RowCharged(b: Budget, b': Budget, key: AuthedKey, cost: int, now: int) {
    var hit := b.status == Active && OfKey(b.subject, key) && cost > 0;
    && EffectiveUsed(b', now) == EffectiveUsed(b, now) + (if hit then cost else 0)
    && (!hit ==> b' == b)
    && b' == b.(usedMicro := b'.usedMicro, periodStart := if hit && Outdated(b, now) then now else b.periodStart)
  }

  /** One settlement raises every active budget of its key and owner by its cost, changes nothing of them but the amount
      and the start of an outdated period, does not touch any other budget, and appends one usage record. */
  predicate ChargedOnce(t: Tables, t': Tables, key: AuthedKey, cost: int, status: SettleStatus, now: int) {
    && |t'.budgets| == |t.budgets| && t'.audit == t.audit
    && (forall i | 0 <= i < |t.budgets| :: RowCharged(t.budgets[i], t'.budgets[i], key, cost, now))
    && |t'.usage| == |t.usage| + 1 && t'.usage[..|t.usage|] == t.usage
    && t'.usage[|t.usage|].costMicro == cost && t'.usage[|t.usage|].status == status
    && t'.usage[|t.usage|].keyId == key.id
  }

  lemma SettlesRowOnce(b: Budget, key: AuthedKey, input: SettleInput, now: int)
    requires key.ownerType != "key" && input.subjects == [Subject("key", key.id), Subject(key.ownerType, key.ownerId)]
    requires input.status in {SettleStatus.Ok, ClientAbort} && 0 <= input.costMicro
    ensures RowCharged(b, SettleRow(b, input, now), key, input.costMicro, now)
  {
    assert multiset(input.subjects) == multiset{Subject("key", key.id), Subject(key.ownerType, key.ownerId)};
    assert Amount(input.subjects, b.subject, input.costMicro) == if OfKey(b.subject, key) then input.costMicro else 0;
  }

  lemma SettlesOnce(t: Tables, key: AuthedKey, input: SettleInput, now: int)
    requires key.ownerType != "key" && input.keyId == key.id
    requires input.subjects == [Subject("key", key.id), Subject(key.ownerType, key.ownerId)]
    requires input.status in {SettleStatus.Ok, ClientAbort} && 0 <= input.costMicro
    ensures ChargedOnce(t, Step(t, Settle(input, now)), key, input.costMicro, input.status, now)
  {
    StepRows(t, Settle(input, now));
    forall i | 0 <= i < |t.budgets|
      ensures RowCharged(t.budgets[i], SettleRow(t.budgets[i], input, now), key, input.costMicro, now)
    {
      SettlesRowOnce(t.budgets[i], key, input, now);
    }
  }

  /** However a stream was chunked and however it ended, its one settlement charges the exact cost of the one-shot parse
      of the forwarded bytes, once. */
  lemma StreamCharges(p: Protocol, d: Decoder, r: Request, result: Channels.ForwardResult, replies: string -> Reply,
                      polls: seq<Poll>, t: Tables, now: int)
    requires r.key.ownerType != "key" && r.streamed && result.Answered? && 200 <= result.code < 300
    requires LinesWithin(Flatten(Forwarded(polls)), 1_048_576)
    requires CostSum(OneShot(p, d, Flatten(Forwarded(polls))), r.prices) <= I64_MAX
    ensures var h := Handled(r, Admitted, ForwardingOf(p, r, result, replies));
            && h.inputs == [] && h.stream.Some?
            && var inputs := WholeStream(p, d, h.stream.value, polls, true).spawned;
               var cost := CostSum(OneShot(p, d, Flatten(Forwarded(polls))), r.prices);
               var status := if EndOfStream in polls then SettleStatus.Ok else ClientAbort;
               |inputs| == 1 && ChargedOnce(t, Step(t, Settle(inputs[0], now)), r.key, cost, status, now)
  {
    var ctx := Handled(r, Admitted, ForwardingOf(p, r, result, replies)).stream.value;
    StreamedRecord(p, d, r, result, replies, polls);
    StreamCost(p, d, ctx, polls);
    CostExactIffFits(OneShot(p, d, Flatten(Forwarded(polls))), r.prices);
    SettlesOnce(t, r.key, WholeStream(p, d, ctx, polls, true).spawned[0], now);
  }

  /** A success that is not streamed charges the exact cost of the usage its body reports, once. */
  lemma BufferedCharges(p: Protocol, r: Request, result: Channels.ForwardResult, replies: string -> Reply, json: Json,
                        t: Tables, now: int)
    requires r.key.ownerType != "key" && !r.streamed && result.Answered? && 200 <= result.code < 300
    requires replies(result.channelId).json == Some(json) && CostSum(ExtractUsage(p, json), r.prices) <= I64_MAX
    ensures var h := Handled(r, Admitted, ForwardingOf(p, r, result, replies));
            var cost := CostSum(ExtractUsage(p, json), r.prices);
            h.stream.None? && |h.inputs| == 1
            && ChargedOnce(t, Step(t, Settle(h.inputs[0], now)), r.key, cost, SettleStatus.Ok, now)
  {
    BufferedRecord(p, r, result, replies);
    CostExactIffFits(ExtractUsage(p, json), r.prices);
    SettlesOnce(t, r.key, Handled(r, Admitted, ForwardingOf(p, r, result, replies)).inputs[0], now);
  }

  /** Every other request leaves all budgets alone, and at most one record, of no cost. */
  lemma OthersChargeNothing(p: Protocol, r: Request, verdict: Verdict, result: Channels.ForwardResult,
                            replies: string -> Reply, t: Tables, now: int)
    requires verdict.Admitted? && result.Answered? ==> result.code < 200 || result.code >= 300
    ensures var h := Handled(r, verdict, ForwardingOf(p, r, result, replies));
            && h.stream.None? && |h.inputs| <= 1
            && forall input | input in h.inputs ::
                 var t' := Step(t, Settle(input, now));
                 && t'.budgets == t.budgets && |t'.usage| == |t.usage| + 1 && t'.usage[..|t.usage|] == t.usage
                 && t'.usage[|t.usage|].costMicro == 0 && t'.usage[|t.usage|].status in {Rejected, UpstreamError}
  {
  }
}
