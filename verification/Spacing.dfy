/** How often a failing channel is retried: attempts are spaced by the exponential backoff, whatever the recovery job and
    admin edits do before, between and during them (src/gateway/upstream.rs, src/jobs.rs). */
module Spacing {
  import opened Prelude
  import opened Channels

  /** What a forward that found the channel routable remembers: its level, and the time of the load. */
  datatype Pending = Pending(level: int, load: int)

  datatype State = State(channel: Channel, pending: Option<Pending>)

  /** The life of one channel while no forward succeeds on it and no admin activates it.  Times are read from the clock
      before the write they stamp, so a stamp may be older than what was written since. */
  datatype Happening =
    | Load(at: int)                   // a forward loads the table, at `at`, and may try the channel
    | Fail(sent: int, at: int)        // it tried the channel at `sent`, and noticed the failure at `at`
    | Leave                           // it ended without a failure here: not tried, or cancelled
    | Recovery(at: int)               // the recovery job runs
    | Edit(patch: ChannelPatch)       // an admin changes name or weight, or disables the channel

  function Step(s: State, cfg: Config, h: Happening): State {
    match h
    case Load(at) => s.(pending := Some(Pending(s.channel.cooldownLevel, at)))
    case Fail(_, at) =>
      if s.pending.None? then s else State(MarkRow(s.channel, cfg, s.pending.value.level, at), None)
    case Leave => s.(pending := None)
    case Recovery(at) => s.(channel := RecoverRow(s.channel, at))
    case Edit(patch) => s.(channel := AdminRow(s.channel, patch))
  }

  /** The latest stamp seen. */
  function Later(clock: int, h: Happening): int {
    match h
    case Fail(_, at) => Max(clock, at)
    case Recovery(at) => Max(clock, at)
    case _ => clock
  }

  /** Only routable channels are loaded, at a time no earlier than any stamp so far; forwards do not overlap; an attempt
      follows its load, and its failure follows the attempt.  Recoveries and edits may fall anywhere. */
  predicate Possible(s: State, cfg: Config, hs: seq<Happening>, clock: int)
    decreases hs
  {
    hs == []
    || var h := hs[0];
       && (match h
           case Load(at) => clock <= at && s.pending.None? && Routable(s.channel, at)
           case Fail(sent, at) => s.pending.Some? && s.pending.value.load <= sent <= at
           case Leave => s.pending.Some?
           case Recovery(_) => true
           case Edit(patch) => patch.activate != Some(true))
       && Possible(Step(s, cfg, h), cfg, hs[1..], Later(clock, h))
  }

  /** When the channel was tried and failed. */
  function Attempts(hs: seq<Happening>): seq<int> {
    if hs == [] then []
    else (if hs[0].Fail? then [hs[0].sent] else []) + Attempts(hs[1..])
  }

  /** A forward in which the channel is tried and fails is a load and a failure; one that does not try it is a load and a
      leave. */
  lemma ForwardIsAttempt(c: Channel, cfg: Config, now: int, tried: seq<string>, answers: string -> Answer, clock: nat -> int,
                         sent: int)
    ensures var s := Step(State(c, None), cfg, Load(now));
            var after := AfterForward(c, cfg, tried, answers, clock);
            && (c.id in tried && Retryable(answers(c.id)) ==>
                  State(after, None) == Step(s, cfg, Fail(sent, clock(PositionOf(tried, c.id)))))
            && (c.id !in tried ==> State(after, None) == Step(s, cfg, Leave))
  {
    var k := PositionOf(tried, c.id);
    assert forall j | 0 <= j < k :: tried[j] == tried[..k][j];
  }

  /** The waits after the next `k` failures of a channel at `level`. */
  function Waits(cfg: Config, level: int, k: nat): int
    decreases k
  {
    if k == 0 then 0 else Backoff(cfg, level) + Waits(cfg, level + 1, k - 1)
  }

  /** The channel will not be loaded before `ready`. */
  predicate Barred(c: Channel, clock: int, ready: int) {
    c.status == Disabled || (c.status == Cooldown && c.cooldownUntil == Some(ready)) || ready <= clock
  }

  /** A pending forward remembers the level the row still has: recoveries and edits leave it alone. */
  predicate Current(s: State) { s.pending.Some? ==> s.pending.value.level == s.channel.cooldownLevel }

  /** No attempt will come before `ready`. */
  predicate Held(s: State, clock: int, ready: int) {
    Current(s) && Barred(s.channel, clock, ready) && (s.pending.Some? ==> ready <= s.pending.value.load)
  }

  lemma HeldStep(s: State, cfg: Config, hs: seq<Happening>, clock: int, ready: int)
    requires hs != [] && Possible(s, cfg, hs, clock) && Held(s, clock, ready) && !hs[0].Fail?
    ensures Held(Step(s, cfg, hs[0]), Later(clock, hs[0]), ready)
    ensures Step(s, cfg, hs[0]).channel.cooldownLevel == s.channel.cooldownLevel
  {
  }

  /** A failure noticed at `at` holds the channel until its backoff has passed, at the next level. */
  lemma HeldByFailure(s: State, cfg: Config, h: Happening, clock: int)
    requires h.Fail? && s.pending.Some? && Current(s)
    ensures var s' := Step(s, cfg, h);
            && Held(s', Later(clock, h), h.at + Backoff(cfg, s.channel.cooldownLevel))
            && s'.channel.cooldownLevel == s.channel.cooldownLevel + 1
  {
  }

  /** Attempt k comes no sooner than k waits after the channel is ready. */
  lemma {:induction false} AttemptsWait(s: State, cfg: Config, hs: seq<Happening>, clock: int, ready: int, k: nat)
    requires Possible(s, cfg, hs, clock) && Held(s, clock, ready) && k < |Attempts(hs)|
    ensures Attempts(hs)[k] >= ready + Waits(cfg, s.channel.cooldownLevel, k)
    decreases hs
  {
    var h := hs[0];
    var s', clock' := Step(s, cfg, h), Later(clock, h);
    if !h.Fail? {
      HeldStep(s, cfg, hs, clock, ready);
      AttemptsWait(s', cfg, hs[1..], clock', ready, k);
    } else if k > 0 {
      HeldByFailure(s, cfg, h, clock);
      AttemptsWait(s', cfg, hs[1..], clock', h.at + Backoff(cfg, s.channel.cooldownLevel), k - 1);
    }
  }

  /** Attempt number k + 1 comes no sooner than the first k waits after the first attempt. */
  lemma {:induction false} RetrySpacing(s: State, cfg: Config, hs: seq<Happening>, clock: int, k: nat)
    requires Possible(s, cfg, hs, clock) && Current(s) && k < |Attempts(hs)|
    ensures Attempts(hs)[k] >= Attempts(hs)[0] + Waits(cfg, s.channel.cooldownLevel, k)
    decreases hs
  {
    var h := hs[0];
    var s', clock' := Step(s, cfg, h), Later(clock, h);
    if !h.Fail? {
      RetrySpacing(s', cfg, hs[1..], clock', k);
    } else if k > 0 {
      HeldByFailure(s, cfg, h, clock);
      AttemptsWait(s', cfg, hs[1..], clock', h.at + Backoff(cfg, s.channel.cooldownLevel), k - 1);
    }
  }

  /** Whoever may be loaded may be tried at once, and fail. */
  lemma {:induction false} LoadCouldFail(s: State, cfg: Config, hs: seq<Happening>, clock: int, t: int)
    requires Possible(s, cfg, hs + [Load(t)], clock)
    ensures Possible(s, cfg, hs + [Load(t), Fail(t, t)], clock)
    ensures Attempts(hs + [Load(t), Fail(t, t)]) == Attempts(hs) + [t]
    decreases hs
  {
    var longer, all := hs + [Load(t)], hs + [Load(t), Fail(t, t)];
    if hs == [] {
      assert all[1..] == [Fail(t, t)] && all[1..][1..] == [];
      assert Attempts([Fail(t, t)]) == [t] + Attempts([]);
    } else {
      assert longer[1..] == hs[1..] + [Load(t)] && all[1..] == hs[1..] + [Load(t), Fail(t, t)];
      LoadCouldFail(Step(s, cfg, hs[0]), cfg, hs[1..], Later(clock, hs[0]), t);
    }
  }

  /** So after k failures the channel is not even loaded before the k waits are over, whatever then becomes of that
      forward. */
  lemma LoadSpacing(s: State, cfg: Config, hs: seq<Happening>, clock: int, t: int)
    requires Possible(s, cfg, hs + [Load(t)], clock) && Current(s) && Attempts(hs) != []
    ensures t >= Attempts(hs)[0] + Waits(cfg, s.channel.cooldownLevel, |Attempts(hs)|)
  {
    LoadCouldFail(s, cfg, hs, clock, t);
    RetrySpacing(s, cfg, hs + [Load(t), Fail(t, t)], clock, |Attempts(hs)|);
  }

  // ----- the waits in closed form

  /** The largest power of two the backoff uses: the exponent is clamped to 32. */
  const CLAMP := 0x1_0000_0000

  lemma Pow2EightMore(k: nat)
    ensures Pow2(k + 8) == 256 * Pow2(k)
  {
    assert Pow2(k + 1) == 2 * Pow2(k) && Pow2(k + 2) == 2 * Pow2(k + 1);
    assert Pow2(k + 3) == 2 * Pow2(k + 2) && Pow2(k + 4) == 2 * Pow2(k + 3);
    assert Pow2(k + 5) == 2 * Pow2(k + 4) && Pow2(k + 6) == 2 * Pow2(k + 5);
    assert Pow2(k + 7) == 2 * Pow2(k + 6) && Pow2(k + 8) == 2 * Pow2(k + 7);
  }

  lemma ClampIsPower()
    ensures Pow2(32) == CLAMP
  {
    Pow2EightMore(24);
    Pow2EightMore(16);
    Pow2EightMore(8);
    Pow2EightMore(0);
  }

  lemma {:induction false} Pow2Monotone(j: nat, k: nat)
    requires j <= k
    ensures Pow2(j) <= Pow2(k)
  {
    if j < k {
      Pow2Monotone(j, k - 1);
    }
  }

  lemma Scaled(base: int, p: int, q: int)
    requires 0 < base && p <= q
    ensures base * p <= base * q
  {
  }

  /** Under the clamp the wait doubles with every level, up to the cap. */
  lemma BackoffDoubles(cfg: Config, level: nat)
    requires cfg.Valid() && cfg.maxSecs <= cfg.baseSecs * CLAMP
    ensures Backoff(cfg, level) == Min(cfg.baseSecs * Pow2(level), cfg.maxSecs)
  {
    if level > 32 {
      ClampIsPower();
      Pow2Monotone(32, level);
      Scaled(cfg.baseSecs, CLAMP, Pow2(level));
    }
  }

  lemma Doubled(a: int, b: int)
    requires 0 < a && 0 < b
    ensures a * (2 * b) > a * b
  {
    assert a * (2 * b) == a * b + a * b;
    assert 0 < a * b;
  }

  /** Beyond it, it stops doubling. */
  lemma BackoffStops(cfg: Config)
    requires cfg.Valid() && cfg.baseSecs * CLAMP < cfg.maxSecs
    ensures Backoff(cfg, 33) < Min(cfg.baseSecs * Pow2(33), cfg.maxSecs)
  {
    ClampIsPower();
    assert Pow2(33) == 2 * Pow2(32);
    Doubled(cfg.baseSecs, CLAMP);
  }

  /** The wait at every level is base * 2^level up to the cap exactly when the cap is at most base * 2^32. */
  lemma BackoffExactly(cfg: Config)
    requires cfg.Valid()
    ensures (forall level: nat :: Backoff(cfg, level) == Min(cfg.baseSecs * Pow2(level), cfg.maxSecs)) <==>
              cfg.maxSecs <= cfg.baseSecs * CLAMP
  {
    if cfg.maxSecs <= cfg.baseSecs * CLAMP {
      forall level: nat
        ensures Backoff(cfg, level) == Min(cfg.baseSecs * Pow2(level), cfg.maxSecs)
      {
        BackoffDoubles(cfg, level);
      }
    } else {
      var level: nat := 33;
      BackoffStops(cfg);
      assert Backoff(cfg, level) != Min(cfg.baseSecs * Pow2(level), cfg.maxSecs);
    }
  }

  /** The sum of base * 2^i up to the cap, for the k levels from `level` on. */
  function CappedDoublings(cfg: Config, level: nat, k: nat): int
    decreases k
  {
    if k == 0 then 0 else Min(cfg.baseSecs * Pow2(level), cfg.maxSecs) + CappedDoublings(cfg, level + 1, k - 1)
  }

  lemma {:induction false} WaitsDouble(cfg: Config, level: nat, k: nat)
    requires cfg.Valid() && cfg.maxSecs <= cfg.baseSecs * CLAMP
    ensures Waits(cfg, level, k) == CappedDoublings(cfg, level, k)
    decreases k
  {
    if k > 0 {
      BackoffDoubles(cfg, level);
      WaitsDouble(cfg, level + 1, k - 1);
    }
  }

  /** A fresh channel that keeps failing is retried after the documented doubling waits. */
  lemma DoublingSpacing(s: State, cfg: Config, hs: seq<Happening>, clock: int, k: nat)
    requires cfg.Valid() && cfg.maxSecs <= cfg.baseSecs * CLAMP
    requires Possible(s, cfg, hs, clock) && Current(s) && s.channel.cooldownLevel == 0 && k < |Attempts(hs)|
    ensures Attempts(hs)[k] >= Attempts(hs)[0] + CappedDoublings(cfg, 0, k)
  {
    RetrySpacing(s, cfg, hs, clock, k);
    WaitsDouble(cfg, 0, k);
  }

  lemma BackoffPositive(cfg: Config, level: int)
    requires cfg.Valid()
    ensures 1 <= Backoff(cfg, level) <= cfg.maxSecs
  {
    var p := Pow2(Min(Max(level, 0), 32));
    Scaled(cfg.baseSecs, 1, p);
  }

  /** Once base * 2^m reaches the cap, each wait from level m on is the cap. */
  lemma BackoffCapped(cfg: Config, m: nat, level: int)
    requires cfg.Valid() && m <= 32 && m <= level && cfg.maxSecs <= cfg.baseSecs * Pow2(m)
    ensures Backoff(cfg, level) == cfg.maxSecs
  {
    var shift := Min(level, 32);
    Pow2Monotone(m, shift);
    Scaled(cfg.baseSecs, Pow2(m), Pow2(shift));
  }

  /** So of k waits from some level on, all but those below level m last the cap. */
  lemma {:induction false} WaitsAtLeast(cfg: Config, m: nat, level: nat, k: nat)
    requires cfg.Valid() && m <= 32 && cfg.maxSecs <= cfg.baseSecs * Pow2(m)
    ensures Waits(cfg, level, k) >= Times(Max(k - Max(m - level, 0), 0), cfg.maxSecs)
    decreases k
  {
    if k > 0 {
      WaitsAtLeast(cfg, m, level + 1, k - 1);
      BackoffPositive(cfg, level);
      if m <= level {
        BackoffCapped(cfg, m, level);
      }
    }
  }

  /** A failing channel attempted within T seconds is attempted at most m + 1 + T / max times, where base * 2^m reaches
      the cap: each attempt beyond the first m + 1 takes a full cap of those seconds. */
  lemma AttemptsBounded(s: State, cfg: Config, hs: seq<Happening>, clock: int, m: nat, seconds: nat)
    requires cfg.Valid() && m <= 32 && cfg.maxSecs <= cfg.baseSecs * Pow2(m)
    requires Possible(s, cfg, hs, clock) && Current(s) && s.channel.cooldownLevel >= 0 && Attempts(hs) != []
    requires Attempts(hs)[|Attempts(hs)| - 1] <= Attempts(hs)[0] + seconds
    ensures Max(|Attempts(hs)| - 1 - m, 0) * cfg.maxSecs <= seconds
  {
    var n := |Attempts(hs)|;
    if n > m + 1 {
      RetrySpacing(s, cfg, hs, clock, n - 1);
      WaitsAtLeast(cfg, m, s.channel.cooldownLevel, n - 1);
      var full := Max(n - 1 - Max(m - s.channel.cooldownLevel, 0), 0);
      TimesMonotone(n - 1 - m, full, cfg.maxSecs);
      TimesIsProduct(n - 1 - m, cfg.maxSecs);
    }
  }
}
