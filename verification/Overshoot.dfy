/** Admission checks a budget before a request runs and charges it afterwards (src/gateway/mod.rs), so a budget can be
    overrun; by how much is bounded by the requests in flight. */
module Overshoot {
  import opened Prelude
  import opened Calendar
  import opened Budgets
  import opened Cost
  import opened Ledger

  /** The tables, the admitted and unfinished requests of the budget's subject, and the latest clock seen. */
  datatype Gate = Gate(tables: Tables, inFlight: nat, clock: int)

  datatype Move =
    | Admit(key: AuthedKey, now: int)              // the check read the subject's budgets, and passed
    | Finish(input: SettleInput, now: int)         // an admitted request settled
    | Lost(subjects: seq<Subject>)                 // an admitted request ended without a committed settlement
    | Background(event: Event)                     // rejections, jobs and admin operations

  function Departs(g: Gate, touched: bool): nat { if touched && g.inFlight > 0 then g.inFlight - 1 else g.inFlight }

  function Apply(g: Gate, mv: Move, i: nat): Gate
    requires i < |g.tables.budgets|
  {
    var s := g.tables.budgets[i].subject;
    match mv
    case Admit(key, now) =>
      g.(inFlight := g.inFlight + (if OfKey(s, key) then 1 else 0), clock := Max(g.clock, now))
    case Finish(input, now) =>
      Gate(Step(g.tables, Settle(input, now)), Departs(g, s in input.subjects), Max(g.clock, now))
    case Lost(subjects) => g.(inFlight := Departs(g, s in subjects))
    case Background(e) => g.(tables := Step(g.tables, e), clock := Max(g.clock, e.now))
  }

  /** The moves of a gateway that admits at most `n` requests of the subject at once, none costing more than `cap`,
      while the budget stays active and its limit is not lowered.  Clocks may be stamped in any order.  A check reads its
      subjects one after the other; a request is in flight from the read of the budget's subject on, and what the other
      subjects' budgets look like when they are read does not matter here. */
  ghost predicate Allowed(g: Gate, mv: Move, i: nat, n: nat, cap: nat)
    requires i < |g.tables.budgets|
  {
    var b := g.tables.budgets[i];
    match mv
    case Admit(key, now) =>
      && Timely(now) && Apply(g, mv, i).inFlight <= n
      && (OfKey(b.subject, key) ==> CheckVerdict(g.tables.budgets, [b.subject], now) == Admitted)
    case Finish(input, now) =>
      && Timely(now) && FromGateway(input) && input.costMicro <= cap
      && (b.subject in input.subjects ==> g.inFlight > 0)
    case Lost(subjects) => b.subject in subjects ==> g.inFlight > 0
    case Background(e) =>
      && Timely(e.now) && (e.Settle? ==> !Accrues(e.input))
      && RowStep(b, e).status == Active && RowStep(b, e).limitMicro >= b.limitMicro
  }

  /** What is counted and what may still be charged stay within the limit and `n` requests. */
  predicate Within(g: Gate, i: nat, n: nat, cap: nat) {
    && i < |g.tables.budgets| && g.inFlight <= n && Timely(g.clock)
    && var b := g.tables.budgets[i];
       && b.status == Active && Timely(b.periodStart) && 0 <= b.usedMicro
       && EffectiveUsed(b, g.clock) <= b.limitMicro - 1 + Times(n - g.inFlight, cap)
  }

  lemma EffectiveLater(b: Budget, s: int, t: int)
    requires Timely(b.periodStart) && Timely(s) && Timely(t) && s <= t && 0 <= b.usedMicro
    ensures EffectiveUsed(b, t) <= EffectiveUsed(b, s)
  {
    EffectiveByNumber(b, s);
    EffectiveByNumber(b, t);
    EarlierByNumber(s, t);
  }

  /** A charge raises what is counted at the latest clock by at most its amount, whatever its own stamp. */
  lemma ChargeRaises(b: Budget, e: Event, clock: int)
    requires e.Settle? && Timely(b.periodStart) && Timely(e.now) && Timely(clock) && e.now <= clock && 0 <= b.usedMicro
    ensures var b' := RowStep(b, e);
            && EffectiveUsed(b', clock) <= EffectiveUsed(b, clock) + ChargeOf(b, e)
            && Timely(b'.periodStart) && 0 <= b'.usedMicro && b'.limitMicro == b.limitMicro && b'.status == b.status
            && b'.subject == b.subject
  {
    SettleRowEffect(b, e);
    SettleLink(b, e);
    EarlierByNumber(b.periodStart, e.now);
    EarlierByNumber(e.now, clock);
    EffectiveByNumber(b, clock);
    EffectiveByNumber(RowStep(b, e), clock);
  }

  /** A request of the subject is charged at most once. */
  lemma ChargeAtMostCap(b: Budget, input: SettleInput, now: int, cap: nat)
    requires FromGateway(input) && input.costMicro <= cap
    ensures ChargeOf(b, Settle(input, now)) <= if b.subject in input.subjects then cap else 0
  {
    var k: AuthedKey :| k.id == input.keyId && k.ownerType != "key"
                         && input.subjects == [Subject("key", k.id), Subject(k.ownerType, k.ownerId)];
    assert multiset(input.subjects) == multiset{Subject("key", k.id), Subject(k.ownerType, k.ownerId)};
  }

  lemma FinishStays(g: Gate, mv: Move, i: nat, n: nat, cap: nat)
    requires Within(g, i, n, cap) && mv.Finish? && Allowed(g, mv, i, n, cap)
    ensures Within(Apply(g, mv, i), i, n, cap)
  {
    var b, e := g.tables.budgets[i], Settle(mv.input, mv.now);
    var clock := Max(g.clock, mv.now);
    StepRows(g.tables, e);
    EffectiveLater(b, g.clock, clock);
    ChargeRaises(b, e, clock);
    ChargeAtMostCap(b, mv.input, mv.now, cap);
  }

  lemma AdmitStays(g: Gate, mv: Move, i: nat, n: nat, cap: nat)
    requires Within(g, i, n, cap) && mv.Admit? && Allowed(g, mv, i, n, cap)
    ensures Within(Apply(g, mv, i), i, n, cap)
  {
    var b, g' := g.tables.budgets[i], Apply(g, mv, i);
    EffectiveLater(b, g.clock, g'.clock);
    if OfKey(b.subject, mv.key) {
      AdmittedIff(g.tables.budgets, [b.subject], mv.now);
      EffectiveLater(b, mv.now, g'.clock);
    }
  }

  /** A rollover never raises what is counted. */
  lemma RolloverNeverRaises(b: Budget, now: int, clock: int)
    requires Timely(b.periodStart) && Timely(now) && Timely(clock) && now <= clock && 0 <= b.usedMicro
    ensures var b' := RolloverRow(b, now);
            EffectiveUsed(b', clock) <= EffectiveUsed(b, clock) && Timely(b'.periodStart) && 0 <= b'.usedMicro
  {
    StartByNumber(b.periodStart, now);
    EarlierByNumber(now, clock);
    EffectiveByNumber(b, clock);
    EffectiveByNumber(RolloverRow(b, now), clock);
  }

  /** Nor does any background event. */
  lemma BackgroundNeverRaises(b: Budget, e: Event, clock: int)
    requires Timely(b.periodStart) && Timely(e.now) && Timely(clock) && e.now <= clock && 0 <= b.usedMicro
    requires e.Settle? ==> !Accrues(e.input)
    ensures var b' := RowStep(b, e);
            EffectiveUsed(b', clock) <= EffectiveUsed(b, clock) && Timely(b'.periodStart) && 0 <= b'.usedMicro
  {
    match e
    case Settle(_, _) => ChargeRaises(b, e, clock);
    case Rollover(now) => RolloverNeverRaises(b, now, clock);
    case _ =>
  }

  lemma BackgroundStays(g: Gate, mv: Move, i: nat, n: nat, cap: nat)
    requires Within(g, i, n, cap) && mv.Background? && Allowed(g, mv, i, n, cap)
    ensures Within(Apply(g, mv, i), i, n, cap)
  {
    var b, e := g.tables.budgets[i], mv.event;
    var clock := Max(g.clock, e.now);
    StepRows(g.tables, e);
    EffectiveLater(b, g.clock, clock);
    BackgroundNeverRaises(b, e, clock);
  }

  lemma MoveStays(g: Gate, mv: Move, i: nat, n: nat, cap: nat)
    requires Within(g, i, n, cap) && Allowed(g, mv, i, n, cap)
    ensures Within(Apply(g, mv, i), i, n, cap)
  {
    match mv
    case Admit(_, _) => AdmitStays(g, mv, i, n, cap);
    case Finish(_, _) => FinishStays(g, mv, i, n, cap);
    case Background(_) => BackgroundStays(g, mv, i, n, cap);
    case Lost(_) =>
  }

  function RunMoves(g: Gate, moves: seq<Move>, i: nat): Gate {
    if moves == [] then g
    else
      var h := RunMoves(g, moves[..|moves| - 1], i);
      if i < |h.tables.budgets| then Apply(h, moves[|moves| - 1], i) else h
  }

  ghost predicate AllAllowed(g: Gate, moves: seq<Move>, i: nat, n: nat, cap: nat) {
    moves == []
    || var h := RunMoves(g, moves[..|moves| - 1], i);
       && AllAllowed(g, moves[..|moves| - 1], i, n, cap)
       && i < |h.tables.budgets| && Allowed(h, moves[|moves| - 1], i, n, cap)
  }

  lemma WithinBound(g: Gate, i: nat, n: nat, cap: nat)
    requires Within(g, i, n, cap)
    ensures EffectiveUsed(g.tables.budgets[i], g.clock) <= g.tables.budgets[i].limitMicro - 1 + n * cap
  {
    TimesMonotone(n - g.inFlight, n, cap);
    TimesIsProduct(n, cap);
  }

  ghost predicate Reaches(g: Gate, moves: seq<Move>, i: nat, n: nat, cap: nat, h: Gate) {
    AllAllowed(g, moves, i, n, cap) && RunMoves(g, moves, i) == h
  }

  /** One more allowed move. */
  lemma AllowedSnoc(g: Gate, moves: seq<Move>, mv: Move, i: nat, n: nat, cap: nat, h: Gate)
    requires Reaches(g, moves, i, n, cap, h) && i < |h.tables.budgets| && Allowed(h, mv, i, n, cap)
    ensures Reaches(g, moves + [mv], i, n, cap, Apply(h, mv, i))
  {
    assert (moves + [mv])[..|moves|] == moves;
  }

  /** In every interleaving of checks, settlements, losses, jobs and admin operations, and for every order of their
      clocks, the usage counted at the latest clock never exceeds limit - 1 + n * cap. */
  lemma {:induction false} BoundedOvershoot(g: Gate, moves: seq<Move>, i: nat, n: nat, cap: nat)
    requires Within(g, i, n, cap) && AllAllowed(g, moves, i, n, cap)
    ensures Within(RunMoves(g, moves, i), i, n, cap)
    ensures var h := RunMoves(g, moves, i);
            EffectiveUsed(h.tables.budgets[i], h.clock) <= h.tables.budgets[i].limitMicro - 1 + n * cap
  {
    if moves != [] {
      var init, mv := moves[..|moves| - 1], moves[|moves| - 1];
      BoundedOvershoot(g, init, i, n, cap);
      var h := RunMoves(g, init, i);
      MoveStays(h, mv, i, n, cap);
    }
    WithinBound(RunMoves(g, moves, i), i, n, cap);
  }

  /** An active budget below its limit starts within the bound, however many requests of its subject are in flight. */
  lemma StartsWithin(g: Gate, i: nat, n: nat, cap: nat)
    requires i < |g.tables.budgets| && Timely(g.clock) && g.inFlight <= n
    requires var b := g.tables.budgets[i];
             b.status == Active && Timely(b.periodStart) && 0 <= b.usedMicro && EffectiveUsed(b, g.clock) < b.limitMicro
    ensures Within(g, i, n, cap)
  {
  }

  /** The gate right after a create, with `inFlight` requests of the new budget's subject admitted before. */
  function Created(t: Tables, e: Event, inFlight: nat, clock: int): Gate { Gate(Step(t, e), inFlight, Max(clock, e.now)) }

  /** From its creation on a budget is bounded, even if requests of its subject were already in flight. */
  lemma CreatedBounded(t: Tables, e: Event, inFlight: nat, clock: int, moves: seq<Move>, n: nat, cap: nat)
    requires e.Create? && Timely(e.now) && Timely(clock) && e.budget.limitMicro > 0 && inFlight <= n
    requires |Step(t, e).budgets| > |t.budgets|
    requires AllAllowed(Created(t, e, inFlight, clock), moves, |t.budgets|, n, cap)
    ensures var i, h := |t.budgets|, RunMoves(Created(t, e, inFlight, clock), moves, |t.budgets|);
            && i < |h.tables.budgets|
            && EffectiveUsed(h.tables.budgets[i], h.clock) <= h.tables.budgets[i].limitMicro - 1 + n * cap
  {
    var g, i := Created(t, e, inFlight, clock), |t.budgets|;
    StepRows(t, e);
    CreatedRow(t, e);
    EffectiveByNumber(g.tables.budgets[i], g.clock);
    StartsWithin(g, i, n, cap);
    BoundedOvershoot(g, moves, i, n, cap);
  }

  // ----- the bound is attained

  /** A budget one micro below its limit, nothing in flight, and a key of its subject the check lets through. */
  predicate AtTheBrink(g: Gate, i: nat, key: AuthedKey) {
    && i < |g.tables.budgets| && g.inFlight == 0 && Timely(g.clock) && key.ownerType != "key"
    && CheckVerdict(g.tables.budgets, SubjectsForKey(key), g.clock) == Admitted
    && var b := g.tables.budgets[i];
       && OfKey(b.subject, key) && b.status == Active && !Outdated(b, g.clock)
       && b.usedMicro == b.limitMicro - 1
  }

  function Bill(key: AuthedKey, cap: nat): SettleInput {
    SettleInput(key.id, "", None, ZERO_USAGE, cap, Ok, None, None, None, SubjectsForKey(key))
  }

  /** `a` requests admitted together. */
  function Admissions(key: AuthedKey, now: int, a: nat): seq<Move> {
    if a == 0 then [] else Admissions(key, now, a - 1) + [Admit(key, now)]
  }

  /** `n` requests admitted together, and `f` of them finished, each at the cap. */
  function Burst(key: AuthedKey, now: int, cap: nat, n: nat, f: nat): seq<Move> {
    if f == 0 then Admissions(key, now, n) else Burst(key, now, cap, n, f - 1) + [Finish(Bill(key, cap), now)]
  }

  /** One of the burst is admitted, while the tables are as they were at the brink. */
  lemma AdmitOne(g: Gate, h: Gate, i: nat, key: AuthedKey, n: nat, cap: nat)
    requires AtTheBrink(g, i, key) && h.tables == g.tables && h.clock == g.clock && h.inFlight < n
    ensures Allowed(h, Admit(key, g.clock), i, n, cap)
    ensures Apply(h, Admit(key, g.clock), i) == h.(inFlight := h.inFlight + 1)
  {
    SubjectsAreOfKey(key);
    AdmittedIff(g.tables.budgets, SubjectsForKey(key), g.clock);
    AdmittedIff(g.tables.budgets, [g.tables.budgets[i].subject], g.clock);
  }

  lemma BillCharges(b: Budget, key: AuthedKey, cap: nat, now: int)
    requires b.status == Active && OfKey(b.subject, key) && key.ownerType != "key" && !Outdated(b, now)
    ensures SettleRow(b, Bill(key, cap), now) == b.(usedMicro := b.usedMicro + cap)
  {
    SubjectsAreOfKey(key);
    assert Amount(SubjectsForKey(key), b.subject, cap) == cap;
  }

  /** One of the burst finishes. */
  lemma FinishOne(h: Gate, i: nat, key: AuthedKey, n: nat, cap: nat)
    requires i < |h.tables.budgets| && h.inFlight > 0 && Timely(h.clock) && key.ownerType != "key"
    requires var b := h.tables.budgets[i];
             OfKey(b.subject, key) && b.status == Active && !Outdated(b, h.clock)
    ensures var mv, b := Finish(Bill(key, cap), h.clock), h.tables.budgets[i];
            var h' := Apply(h, mv, i);
            && Allowed(h, mv, i, n, cap) && h'.inFlight == h.inFlight - 1 && h'.clock == h.clock
            && |h'.tables.budgets| == |h.tables.budgets|
            && h'.tables.budgets[i] == b.(usedMicro := b.usedMicro + cap)
  {
    BillCharges(h.tables.budgets[i], key, cap, h.clock);
    assert FromGateway(Bill(key, cap));
  }

  lemma {:induction false} AdmissionsRun(g: Gate, i: nat, key: AuthedKey, n: nat, cap: nat, a: nat)
    requires AtTheBrink(g, i, key) && a <= n
    ensures Reaches(g, Admissions(key, g.clock, a), i, n, cap, g.(inFlight := a))
  {
    if a > 0 {
      var h := g.(inFlight := a - 1);
      AdmissionsRun(g, i, key, n, cap, a - 1);
      AdmitOne(g, h, i, key, n, cap);
      AllowedSnoc(g, Admissions(key, g.clock, a - 1), Admit(key, g.clock), i, n, cap, h);
    }
  }

  /** The gate after `f` of the burst have finished. */
  predicate AfterFinishing(g: Gate, h: Gate, i: nat, n: nat, cap: nat, f: nat)
    requires i < |g.tables.budgets|
  {
    && h.inFlight == n - f && h.clock == g.clock && i < |h.tables.budgets|
    && var b := g.tables.budgets[i]; h.tables.budgets[i] == b.(usedMicro := b.usedMicro + Times(f, cap))
  }

  lemma {:induction false} BurstRun(g: Gate, i: nat, key: AuthedKey, n: nat, cap: nat, f: nat) returns (h: Gate)
    requires AtTheBrink(g, i, key) && f <= n
    ensures Reaches(g, Burst(key, g.clock, cap, n, f), i, n, cap, h) && AfterFinishing(g, h, i, n, cap, f)
  {
    if f == 0 {
      AdmissionsRun(g, i, key, n, cap, n);
      h := g.(inFlight := n);
    } else {
      var mv := Finish(Bill(key, cap), g.clock);
      var before := BurstRun(g, i, key, n, cap, f - 1);
      FinishOne(before, i, key, n, cap);
      AllowedSnoc(g, Burst(key, g.clock, cap, n, f - 1), mv, i, n, cap, before);
      h := Apply(before, mv, i);
    }
  }

  /** From the brink, `n` requests admitted together reach the bound exactly. */
  lemma BoundAttained(g: Gate, i: nat, key: AuthedKey, n: nat, cap: nat)
    requires AtTheBrink(g, i, key)
    ensures exists moves :: AllAllowed(g, moves, i, n, cap)
                            && var h := RunMoves(g, moves, i);
                               i < |h.tables.budgets|
                               && EffectiveUsed(h.tables.budgets[i], h.clock) == h.tables.budgets[i].limitMicro - 1 + n * cap
  {
    var h := BurstRun(g, i, key, n, cap, n);
    TimesIsProduct(n, cap);
    assert AllAllowed(g, Burst(key, g.clock, cap, n, n), i, n, cap);
  }
}
