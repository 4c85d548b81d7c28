/** The cooldown recovery job (src/jobs.rs) cannot be observed: runs of a channel with and without it route alike and
    back off alike, even with overlapping forwards that write from old snapshots. */
module Recovery {
  import opened Prelude
  import opened Channels

  /** What a forward remembers of the channel from load time. */
  datatype Snapshot = Snapshot(level: int, status: ChannelStatus)

  /** A channel and the forwards that hold a snapshot of it. */
  datatype System = System(channel: Channel, forwards: map<nat, Snapshot>)

  datatype Event =
    | Load(forward: nat, at: int)       // a forward loads the table, and may try the channel if it is routable
    | Fail(forward: nat, at: int)       // its attempt failed
    | Answer(forward: nat, at: int)     // its attempt was answered
    | Recover(at: int)                  // the recovery job runs
    | Admin(patch: ChannelPatch, at: int)

  function Step(s: System, cfg: Config, e: Event): System {
    match e
    case Load(f, at) =>
      if Routable(s.channel, at) then s.(forwards := s.forwards[f := Snapshot(s.channel.cooldownLevel, s.channel.status)])
      else s.(forwards := s.forwards - {f})
    case Fail(f, at) =>
      if f in s.forwards then
        System(MarkRow(s.channel, cfg, s.forwards[f].level, at), s.forwards - {f})
      else s
    case Answer(f, _) =>
      if f in s.forwards then
        System(ResetRow(s.channel, s.forwards[f].level, s.forwards[f].status), s.forwards - {f})
      else s
    case Recover(at) => s.(channel := RecoverRow(s.channel, at))
    case Admin(patch, _) => s.(channel := AdminRow(s.channel, patch))
  }

  const IDLE: map<nat, Snapshot> := map[]

  /** Overlapping forwards write from their own snapshots: two failures of forwards that both loaded level n leave n + 1, and
      a forward that loaded the channel at rest and is answered leaves a later cooldown alone. */
  lemma OverlapWritesSnapshots(c: Channel, cfg: Config, f: nat, g: nat, now: int, at: int, later: int)
    requires Routable(c, now) && f != g
    ensures var both := Step(Step(System(c, IDLE), cfg, Load(f, now)), cfg, Load(g, now));
            var failed := Step(both, cfg, Fail(f, at));
            && Step(failed, cfg, Fail(g, later)).channel
               == c.(status := Cooldown, cooldownUntil := Some(later + Backoff(cfg, c.cooldownLevel)),
                     cooldownLevel := c.cooldownLevel + 1)
            && (c.status == Active && c.cooldownLevel == 0 ==>
                  Step(failed, cfg, Event.Answer(g, later)).channel == failed.channel)
  {
  }

  /** What a forward does to a routable channel is a load, and then a failure, an answer, or nothing. */
  lemma ForwardIsSteps(c: Channel, cfg: Config, now: int, tried: seq<string>, answers: string -> Answer, clock: nat -> int,
                       f: nat)
    requires Routable(c, now)
    ensures var after := AfterForward(c, cfg, tried, answers, clock);
            var loaded, at := Step(System(c, IDLE), cfg, Load(f, now)), clock(PositionOf(tried, c.id));
            && loaded.channel == c
            && (c.id in tried && Retryable(answers(c.id)) ==> Step(loaded, cfg, Fail(f, at)) == System(after, IDLE))
            && (c.id in tried && !Retryable(answers(c.id)) ==> Step(loaded, cfg, Event.Answer(f, at)) == System(after, IDLE))
            && (c.id !in tried ==> after == c)
  {
    TriedAt(tried, c.id);
    assert map[f := Snapshot(c.cooldownLevel, c.status)] - {f} == IDLE;
  }

  function Run(s: System, cfg: Config, es: seq<Event>): System {
    if es == [] then s else Step(Run(s, cfg, es[..|es| - 1]), cfg, es[|es| - 1])
  }

  /** Event times never decrease, and none is later than `t`. */
  predicate Ordered(es: seq<Event>, t: int) {
    es == [] || (es[|es| - 1].at <= t && Ordered(es[..|es| - 1], es[|es| - 1].at))
  }

  /** The row is sound, and so is every snapshot of it. */
  predicate Sound(s: System) {
    && RowSound(s.channel)
    && forall f | f in s.forwards ::
         0 <= s.forwards[f].level && (s.forwards[f].status == Cooldown ==> 1 <= s.forwards[f].level)
  }

  /** Every reachable state is sound: a channel starts at rest, and each step keeps it. */
  lemma {:induction false} ReachableSound(s: System, cfg: Config, es: seq<Event>)
    requires Sound(s)
    ensures Sound(Run(s, cfg, es))
  {
    if es != [] {
      ReachableSound(s, cfg, es[..|es| - 1]);
    }
  }

  /** So every channel created by an admin stays sound, whatever happens to it. */
  lemma CreatedStaysSound(id: string, req: CreateReq, cfg: Config, es: seq<Event>)
    requires ValidateCreate(id, req).Done?
    ensures Sound(Run(System(ValidateCreate(id, req).value, IDLE), cfg, es))
  {
    ReachableSound(System(ValidateCreate(id, req).value, IDLE), cfg, es);
  }

  /** From `now` on the rows route alike: equal, or one recovered what the other still shows as an expired cooldown, or
      both disabled with different deadlines. */
  predicate AlikeRows(c: Channel, d: Channel, now: int) {
    && c.(status := d.status, cooldownUntil := d.cooldownUntil) == d
    && (|| (c.status == d.status && (c.cooldownUntil == d.cooldownUntil || c.status == Disabled))
        || (c.status == Active && c.cooldownUntil.None? && d.status == Cooldown && d.cooldownUntil.Some?
            && d.cooldownUntil.value <= now))
  }

  /** The snapshots agree in level; they differ in status only where a level above zero makes it irrelevant. */
  predicate AlikeForwards(a: map<nat, Snapshot>, b: map<nat, Snapshot>) {
    a.Keys == b.Keys
    && forall f | f in a :: a[f].level == b[f].level && (a[f].status == b[f].status || a[f].level >= 1)
  }

  predicate Alike(s: System, u: System, now: int) {
    AlikeRows(s.channel, u.channel, now) && AlikeForwards(s.forwards, u.forwards)
  }

  lemma StepAlike(s: System, u: System, cfg: Config, e: Event, now: int)
    requires Alike(s, u, now) && Sound(s) && Sound(u) && now <= e.at
    ensures Alike(Step(s, cfg, e), if e.Recover? then u else Step(u, cfg, e), e.at)
  {
  }

  function WithoutRecovery(es: seq<Event>): seq<Event> {
    if es == [] then []
    else
      var init := WithoutRecovery(es[..|es| - 1]);
      if es[|es| - 1].Recover? then init else init + [es[|es| - 1]]
  }

  lemma {:induction false} RunsAlike(s: System, cfg: Config, es: seq<Event>, t: int)
    requires Sound(s) && Ordered(es, t)
    ensures Alike(Run(s, cfg, es), Run(s, cfg, WithoutRecovery(es)), t)
  {
    if es != [] {
      var init, e := es[..|es| - 1], es[|es| - 1];
      RunsAlike(s, cfg, init, e.at);
      ReachableSound(s, cfg, init);
      ReachableSound(s, cfg, WithoutRecovery(init));
      StepAlike(Run(s, cfg, init), Run(s, cfg, WithoutRecovery(init)), cfg, e, e.at);
      var without := WithoutRecovery(es);
      assert !e.Recover? ==> without[..|without| - 1] == WithoutRecovery(init);
    }
  }

  /** Wherever recoveries fall in a run with a clock that never goes back, the channel is routable at the same times and
      at the same backoff level as in the run without them, and after a failure or an admin activation the two rows
      are the same. */
  lemma RecoveryInvisible(s: System, cfg: Config, es: seq<Event>, t: int, later: int)
    requires Sound(s) && Ordered(es, t) && t <= later
    ensures var a, b := Run(s, cfg, es).channel, Run(s, cfg, WithoutRecovery(es)).channel;
            && Routable(a, later) == Routable(b, later)
            && a.cooldownLevel == b.cooldownLevel
            && forall level :: MarkRow(a, cfg, level, later) == MarkRow(b, cfg, level, later)
  {
    RunsAlike(s, cfg, es, t);
  }

  /** After an answer to a forward that loaded the current state the two rows are the same, too. */
  lemma RecoveryForgottenByAnswer(s: System, cfg: Config, es: seq<Event>, t: int)
    requires Sound(s) && Ordered(es, t)
    ensures var a, b := Run(s, cfg, es).channel, Run(s, cfg, WithoutRecovery(es)).channel;
            Routable(a, t) ==> ResetRow(a, a.cooldownLevel, a.status) == ResetRow(b, b.cooldownLevel, b.status)
  {
    RunsAlike(s, cfg, es, t);
    ReachableSound(s, cfg, es);
    ReachableSound(s, cfg, WithoutRecovery(es));
  }

  /** If the clock goes back after a recovery, the recovered channel is tried while the other still cools. */
  lemma BackwardClockExposesRecovery(c: Channel, at: int, load: int)
    requires Recovers(c, at) && load < c.cooldownUntil.value
    ensures Routable(RecoverRow(c, at), load) && !Routable(c, load)
  {
  }
}
