/** The monthly rollover job (src/jobs.rs) persists what the read path already sees: it can be inserted anywhere in a
    run without changing a verdict or a later effective usage. */
module RolloverJob {
  import opened Prelude
  import opened Calendar
  import opened Budgets
  import opened Ledger
  import opened Sql

  /** What matters of a monthly row: the month it counts, and how much. */
  datatype Counter = Counter(counts: int, used: int) {
    function Effective(month: int): int { if counts < month then 0 else used }

    function Charge(month: int, cost: int): Counter {
      if counts < month then Counter(month, cost) else Counter(counts, used + cost)
    }

    function Roll(month: int): Counter { if counts < month then Counter(month, 0) else this }
  }

  /** The counters cannot be told apart from `month` on. */
  predicate SameFrom(c: Counter, d: Counter, month: int) {
    c.Effective(month) == d.Effective(month) && Max(c.counts, month) == Max(d.counts, month)
  }

  /** Indistinguishable counters stay so under later charges, later months, and a rollover of one of them. */
  lemma CountersStaySame(c: Counter, d: Counter, m: int, n: int, cost: int)
    requires SameFrom(c, d, m) && m <= n
    ensures SameFrom(c, d, n)
    ensures SameFrom(c.Charge(n, cost), d.Charge(n, cost), n)
    ensures SameFrom(c.Roll(n), d, n)
  {
  }

  function CounterOf(b: Budget): Counter { Counter(MonthOf(b.periodStart), b.usedMicro) }

  predicate Similar(a: Budget, b: Budget, month: int) {
    && Timely(a.periodStart) && Timely(b.periodStart)
    && a.(usedMicro := b.usedMicro, periodStart := b.periodStart) == b
    && (if a.period == Monthly then SameFrom(CounterOf(a), CounterOf(b), month) else a.usedMicro == b.usedMicro)
  }

  predicate SimilarRows(rows: seq<Budget>, others: seq<Budget>, month: int) {
    |rows| == |others| && forall i | 0 <= i < |rows| :: Similar(rows[i], others[i], month)
  }

  /** A settlement acts on a row's counter. */
  lemma SettleCounter(b: Budget, e: Event)
    requires e.Settle? && Timely(b.periodStart) && Timely(e.now)
    ensures var b' := RowStep(b, e);
            && Timely(b'.periodStart)
            && b' == b.(usedMicro := b'.usedMicro, periodStart := b'.periodStart)
            && (if ChargeOf(b, e) == 0 then b' == b
                else if b.period == Monthly then CounterOf(b') == CounterOf(b).Charge(MonthOf(e.now), ChargeOf(b, e))
                else b'.usedMicro == b.usedMicro + ChargeOf(b, e))
  {
    SettleRowEffect(b, e);
    EarlierByNumber(b.periodStart, e.now);
  }

  lemma RollCounter(b: Budget, now: int)
    requires Timely(b.periodStart) && Timely(now)
    ensures var b' := RolloverRow(b, now);
            && Timely(b'.periodStart)
            && b' == b.(usedMicro := b'.usedMicro, periodStart := b'.periodStart)
            && (b' == b || (b.period == Monthly && CounterOf(b') == CounterOf(b).Roll(MonthOf(now))))
  {
    StartByNumber(b.periodStart, now);
  }

  /** The same event keeps similar rows similar. */
  lemma SimilarStep(a: Budget, b: Budget, e: Event, month: int)
    requires Similar(a, b, month) && Timely(e.now) && month <= MonthOf(e.now) && !e.Rollover?
    ensures Similar(RowStep(a, e), RowStep(b, e), MonthOf(e.now))
  {
    if a.period == Monthly {
      CountersStaySame(CounterOf(a), CounterOf(b), month, MonthOf(e.now), ChargeOf(a, e));
    }
    if e.Settle? {
      SettleCounter(a, e);
      SettleCounter(b, e);
    }
  }

  /** A rollover keeps a row similar to one that does not roll over. */
  lemma SimilarRoll(a: Budget, b: Budget, now: int, month: int)
    requires Similar(a, b, month) && Timely(now) && month <= MonthOf(now)
    ensures Similar(RolloverRow(a, now), b, MonthOf(now))
  {
    if a.period == Monthly {
      CountersStaySame(CounterOf(a), CounterOf(b), month, MonthOf(now), 0);
    }
    RollCounter(a, now);
  }

  lemma SimilarTaken(rows: seq<Budget>, others: seq<Budget>, s: Subject, p: Period, month: int)
    requires SimilarRows(rows, others, month)
    ensures Taken(rows, s, p) == Taken(others, s, p)
  {
    forall i | 0 <= i < |rows|
      ensures rows[i].subject == others[i].subject && rows[i].period == others[i].period
    {
      assert Similar(rows[i], others[i], month);
    }
  }

  lemma SimilarTables(t: Tables, u: Tables, e: Event, month: int)
    requires SimilarRows(t.budgets, u.budgets, month) && Timely(e.now) && month <= MonthOf(e.now)
    ensures SimilarRows(Step(t, e).budgets, (if e.Rollover? then u else Step(u, e)).budgets, MonthOf(e.now))
  {
    StepRows(t, e);
    StepRows(u, e);
    forall i | 0 <= i < |t.budgets|
      ensures if e.Rollover? then Similar(RowStep(t.budgets[i], e), u.budgets[i], MonthOf(e.now))
              else Similar(RowStep(t.budgets[i], e), RowStep(u.budgets[i], e), MonthOf(e.now))
    {
      if e.Rollover? {
        SimilarRoll(t.budgets[i], u.budgets[i], e.now, month);
      } else {
        SimilarStep(t.budgets[i], u.budgets[i], e, month);
      }
    }
    if e.Create? {
      SimilarTaken(t.budgets, u.budgets, e.budget.subject, e.budget.period, month);
      if |Step(t, e).budgets| > |t.budgets| {
        CreatedRow(t, e);
      }
    }
  }

  lemma SimilarLater(a: Budget, b: Budget, m: int, n: int)
    requires Similar(a, b, m) && m <= n
    ensures Similar(a, b, n)
  {
    if a.period == Monthly {
      CountersStaySame(CounterOf(a), CounterOf(b), m, n, 0);
    }
  }

  function WithoutRollovers(es: seq<Event>): seq<Event> {
    if es == [] then []
    else
      var init, e := WithoutRollovers(es[..|es| - 1]), es[|es| - 1];
      if e.Rollover? then init else init + [e]
  }

  lemma {:induction false} RunsSimilar(es: seq<Event>, t: int)
    requires AllTimely(es) && Ordered(es, t) && Timely(t)
    ensures SimilarRows(Run(es).budgets, Run(WithoutRollovers(es)).budgets, MonthOf(t))
  {
    if es != [] {
      var init, e := es[..|es| - 1], es[|es| - 1];
      assert Timely(e.now) && AllTimely(init);
      RunsSimilar(init, e.now);
      SimilarTables(Run(init), Run(WithoutRollovers(init)), e, MonthOf(e.now));
      var without := WithoutRollovers(es);
      assert !e.Rollover? ==> without[..|without| - 1] == WithoutRollovers(init);
      EarlierByNumber(e.now, t);
      forall i | 0 <= i < |Run(es).budgets|
        ensures Similar(Run(es).budgets[i], Run(without).budgets[i], MonthOf(t))
      {
        SimilarLater(Run(es).budgets[i], Run(without).budgets[i], MonthOf(e.now), MonthOf(t));
      }
    }
  }

  lemma SimilarEffective(a: Budget, b: Budget, t: int)
    requires Similar(a, b, MonthOf(t)) && Timely(t)
    ensures EffectiveUsed(a, t) == EffectiveUsed(b, t)
  {
    EffectiveByNumber(a, t);
    EffectiveByNumber(b, t);
  }

  lemma {:induction false} SimilarVerdict(rows: seq<Budget>, others: seq<Budget>, subjects: seq<Subject>, t: int)
    requires SimilarRows(rows, others, MonthOf(t)) && Timely(t)
    ensures CheckVerdict(rows, subjects, t) == CheckVerdict(others, subjects, t)
    decreases subjects
  {
    if subjects != [] {
      forall i | 0 <= i < |rows|
        ensures Exhausts(rows[i], subjects[0], t) == Exhausts(others[i], subjects[0], t)
      {
        SimilarEffective(rows[i], others[i], t);
      }
      SimilarVerdict(rows, others, subjects[1..], t);
    }
  }

  /** Wherever rollovers fall in a run whose clock never goes back, the verdicts and the effective usages at the end
      of the run are those of the run without them. */
  lemma RolloverInvisible(es: seq<Event>, t: int, subjects: seq<Subject>)
    requires AllTimely(es) && Ordered(es, t) && Timely(t)
    ensures var rows, others := Run(es).budgets, Run(WithoutRollovers(es)).budgets;
            && CheckVerdict(rows, subjects, t) == CheckVerdict(others, subjects, t)
            && |rows| == |others|
            && forall i | 0 <= i < |rows| :: EffectiveUsed(rows[i], t) == EffectiveUsed(others[i], t)
  {
    var rows, others := Run(es).budgets, Run(WithoutRollovers(es)).budgets;
    RunsSimilar(es, t);
    SimilarVerdict(rows, others, subjects, t);
    forall i | 0 <= i < |rows|
      ensures EffectiveUsed(rows[i], t) == EffectiveUsed(others[i], t)
    {
      SimilarEffective(rows[i], others[i], t);
    }
  }

  lemma SettledMonth(b: Budget, e: Event, month: int)
    requires e.Settle? && b.period == Monthly && Timely(b.periodStart) && Timely(e.now)
    requires MonthOf(b.periodStart) < month && MonthOf(e.now) < month
    ensures MonthOf(RowStep(b, e).periodStart) < month && Timely(RowStep(b, e).periodStart)
  {
  }

  lemma EarlyOnOldRow(b: Budget, e: Event, now: int)
    requires b.period == Monthly && Timely(b.periodStart) && Timely(e.now) && Timely(now)
    requires e.Settle? && MonthOf(b.periodStart) <= MonthOf(e.now) < MonthOf(now)
    ensures EffectiveUsed(RowStep(b, e), now) == 0
  {
    SettledMonth(b, e, MonthOf(now));
    EffectiveByNumber(RowStep(b, e), now);
  }

  lemma RollsOverByNumber(b: Budget, now: int)
    requires b.period == Monthly && b.status == Active && Timely(b.periodStart) && Timely(now)
    requires MonthOf(b.periodStart) < MonthOf(now)
    ensures var r := RolloverRow(b, now);
            r == b.(usedMicro := 0, periodStart := r.periodStart) && Timely(r.periodStart)
            && MonthOf(r.periodStart) == MonthOf(now)
  {
    StartByNumber(b.periodStart, now);
  }

  lemma LateOnTurnedRow(r: Budget, e: Event, now: int)
    requires r.period == Monthly && r.usedMicro == 0 && Timely(r.periodStart) && Timely(e.now) && Timely(now)
    requires e.Settle? && ChargeOf(r, e) > 0 && MonthOf(e.now) < MonthOf(r.periodStart) == MonthOf(now)
    ensures EffectiveUsed(RowStep(r, e), now) == ChargeOf(r, e)
  {
    SettleCounter(r, e);
    EffectiveByNumber(RowStep(r, e), now);
  }

  /** A settlement stamped before a rollover but committed after it does tell them apart: it counts in the new month
      if the row was rolled over, and not at all if it was not. */
  lemma BackwardClockExposesRollover(b: Budget, rolled: Budget, e: Event, now: int)
    requires b.period == Monthly && b.status == Active && Timely(b.periodStart) && Timely(e.now) && Timely(now)
    requires e.Settle? && ChargeOf(b, e) > 0 && MonthOf(b.periodStart) <= MonthOf(e.now) < MonthOf(now)
    requires rolled == RolloverRow(b, now)
    ensures EffectiveUsed(RowStep(rolled, e), now) == ChargeOf(b, e)
    ensures EffectiveUsed(RowStep(b, e), now) == 0
  {
    RollsOverByNumber(b, now);
    LateOnTurnedRow(rolled, e, now);
    EarlyOnOldRow(b, e, now);
  }

  /** A second rollover at the same time changes no row. */
  lemma RolloverTwice(t: Tables, now: int)
    ensures RolloverTables(RolloverTables(t, now), now) == RolloverTables(t, now)
    ensures RolloverCount(RolloverTables(t, now).budgets, now) == 0
  {
    var rows := RolloverTables(t, now).budgets;
    SelectNone(rows, RollsOverAt(now));
    assert RolloverTables(RolloverTables(t, now), now).budgets == rows;
  }
}
