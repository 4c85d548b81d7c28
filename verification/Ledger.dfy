/** Runs of the budget tables: agreement of the incremental `used_micro` with what was charged, and with the
    usage records; invisibility of the rollover job. */
module Ledger {
  import opened Prelude
  import opened Calendar
  import opened Budgets

  /** One committed transaction. Budget checks write nothing and are stated about every state of a run. */
  datatype Event =
    | Create(id: string, budget: NewBudget, now: int)
    | Update(id: string, patch: Patch, now: int)
    | Settle(input: SettleInput, now: int)
    | Rollover(now: int)
    | Cleanup(retentionDays: int, now: int)

  function Step(t: Tables, e: Event): Tables {
    match e
    case Create(id, budget, now) => CreateTables(t, id, budget, now)
    case Update(id, patch, now) => UpdateTables(t, id, patch, now)
    case Settle(input, now) => SettleTables(t, input, now)
    case Rollover(now) => RolloverTables(t, now)
    case Cleanup(retentionDays, now) => CleanupTables(t, now, retentionDays)
  }

  /** The tables after the events, in commit order. */
  function Run(es: seq<Event>): Tables {
    if es == [] then EMPTY else Step(Run(es[..|es| - 1]), es[|es| - 1])
  }

  /** Clocks run after the Epoch and within the calendar. */
  predicate Timely(now: int) { 0 <= now <= MAX_TIMESTAMP }

  predicate AllTimely(es: seq<Event>) { forall i | 0 <= i < |es| :: Timely(es[i].now) }

  /** Events commit in clock order, none later than `t`. */
  predicate Ordered(es: seq<Event>, t: int) {
    es == [] || (es[|es| - 1].now <= t && Ordered(es[..|es| - 1], es[|es| - 1].now))
  }

  // ----- one row

  function RowStep(b: Budget, e: Event): Budget {
    match e
    case Update(id, patch, _) => if b.id == id then PatchedRow(b, patch) else b
    case Settle(input, now) => SettleRow(b, input, now)
    case Rollover(now) => RolloverRow(b, now)
    case _ => b
  }

  /** Every event acts row by row; only a create adds a row, and it starts unused. */
  lemma StepRows(t: Tables, e: Event)
    ensures var t' := Step(t, e);
            && |t.budgets| <= |t'.budgets| <= |t.budgets| + 1
            && (forall i | 0 <= i < |t.budgets| :: t'.budgets[i] == RowStep(t.budgets[i], e))
            && (|t'.budgets| > |t.budgets| ==>
                  e.Create? && t'.budgets[|t.budgets|] == NewRow(e.id, e.budget, e.now))
  {
  }

  /** What an event charges to a row. */
  function ChargeOf(b: Budget, e: Event): int {
    if e.Settle? && b.status == Active && Accrues(e.input) then Amount(e.input.subjects, b.subject, e.input.costMicro)
    else 0
  }

  lemma SettleRowEffect(b: Budget, e: Event)
    requires e.Settle?
    ensures var c := ChargeOf(b, e);
            0 <= c && SettleRow(b, e.input, e.now) == if c == 0 then b else ChargeRow(b, c, e.now)
  {
    if Accrues(e.input) {
      AmountNonneg(e.input.subjects, b.subject, e.input.costMicro);
    }
  }

  /** The table constraints: a subject has at most one budget of each period; amounts are never negative. */
  predicate Consistent(rows: seq<Budget>) {
    && (forall i, j | 0 <= i < j < |rows| :: rows[i].subject != rows[j].subject || rows[i].period != rows[j].period)
    && (forall i | 0 <= i < |rows| :: 0 <= rows[i].usedMicro)
  }

  /** Creates use ids not yet in the table. */
  predicate FreshIds(es: seq<Event>) {
    es == []
    || (FreshIds(es[..|es| - 1])
        && (es[|es| - 1].Create? ==> !HasId(Run(es[..|es| - 1]).budgets, es[|es| - 1].id)))
  }

  lemma RowKeeps(b: Budget, e: Event)
    ensures var b' := RowStep(b, e);
            && b'.id == b.id && b'.subject == b.subject && b'.period == b.period
            && (0 <= b.usedMicro ==> 0 <= b'.usedMicro)
  {
    if e.Settle? {
      SettleRowEffect(b, e);
    }
  }

  /** Every run keeps the constraints that settlements rely on. */
  lemma {:induction false} RunConsistent(es: seq<Event>)
    ensures Consistent(Run(es).budgets)
    ensures FreshIds(es) ==> UniqueIds(Run(es).budgets)
  {
    if es != [] {
      var t, e := Run(es[..|es| - 1]), es[|es| - 1];
      RunConsistent(es[..|es| - 1]);
      StepRows(t, e);
      forall i | 0 <= i < |t.budgets|
        ensures var b, b' := t.budgets[i], Run(es).budgets[i];
                b'.id == b.id && b'.subject == b.subject && b'.period == b.period && 0 <= b'.usedMicro
      {
        RowKeeps(t.budgets[i], e);
      }
    }
  }

  // ----- what was charged to a row over a run

  /** One event in the life of a row: the month it is stamped with, what it charges, and afterwards the month the row
      counts and the amount it stores. */
  datatype Link = Link(month: int, charge: int, counts: int, used: int)

  /** The life of row `i`, from the event that creates it. */
  function History(es: seq<Event>, i: nat): seq<Link> {
    if es == [] then []
    else
      var before, after, e := Run(es[..|es| - 1]).budgets, Run(es).budgets, es[|es| - 1];
      if i >= |after| then []
      else
        var charge := if i < |before| then ChargeOf(before[i], e) else 0;
        History(es[..|es| - 1], i) + [Link(MonthOf(e.now), charge, MonthOf(after[i].periodStart), after[i].usedMicro)]
  }

  /** The sum of the charges stamped in month `m`; `None` stands for all time. */
  function Charged(h: seq<Link>, m: Option<int>): int {
    if h == [] then 0
    else
      var l := h[|h| - 1];
      Charged(h[..|h| - 1], m) + if m.None? || m.value == l.month then l.charge else 0
  }

  /** Charges made since the row began to count its current month, stamped in an earlier month. */
  function Late(h: seq<Link>): int {
    if |h| <= 1 || h[|h| - 2].counts != h[|h| - 1].counts then 0
    else
      var l := h[|h| - 1];
      Late(h[..|h| - 1]) + if l.month < l.counts then l.charge else 0
  }

  /** What one event may do to a monthly row: turn to its own month and restart, or add to the month counted. */
  predicate Turns(k: Link, l: Link) {
    && 0 <= l.charge
    && (if k.counts < l.counts then l.counts == l.month && l.used == l.charge
        else l.counts == k.counts && l.used == k.used + l.charge && (l.charge > 0 ==> l.month <= k.counts))
  }

  predicate Adds(k: Link, l: Link) { 0 <= l.charge && l.used == k.used + l.charge }

  predicate WellKept(h: seq<Link>, p: Period) {
    h == []
    || var l := h[|h| - 1];
       && WellKept(h[..|h| - 1], p)
       && if |h| == 1 then l == Link(l.month, 0, l.month, 0)
          else if p == Monthly then Turns(h[|h| - 2], l)
          else Adds(h[|h| - 2], l)
  }

  lemma CreatedRow(t: Tables, e: Event)
    requires Timely(e.now) && |Step(t, e).budgets| > |t.budgets|
    ensures var b := Step(t, e).budgets[|t.budgets|];
            && Timely(b.periodStart) && b.periodStart <= e.now && MonthOf(b.periodStart) == MonthOf(e.now)
            && b.usedMicro == 0
  {
    StepRows(t, e);
    StartByNumber(e.now, e.now);
  }

  /** What one event does to the period and the amount of a row, whose month never goes back. */
  predicate Linked(b: Budget, b': Budget, month: int, charge: int, now: int) {
    var k, l := Link(0, 0, MonthOf(b.periodStart), b.usedMicro), Link(month, charge, MonthOf(b'.periodStart), b'.usedMicro);
    && Timely(b'.periodStart) && b'.period == b.period && b'.subject == b.subject
    && (b'.periodStart == b.periodStart || (b'.periodStart <= now && MonthOf(b'.periodStart) == month))
    && (if b.period == Monthly then Turns(k, l) else Adds(k, l))
  }

  lemma SettleLink(b: Budget, e: Event)
    requires e.Settle? && Timely(b.periodStart) && Timely(e.now)
    ensures Linked(b, SettleRow(b, e.input, e.now), MonthOf(e.now), ChargeOf(b, e), e.now)
  {
    SettleRowEffect(b, e);
    EarlierByNumber(b.periodStart, e.now);
  }

  lemma RolloverLink(b: Budget, now: int)
    requires Timely(b.periodStart) && Timely(now)
    ensures Linked(b, RolloverRow(b, now), MonthOf(now), 0, now)
  {
    StartByNumber(b.periodStart, now);
  }

  /** Every event links a row to its next state. */
  lemma RowLink(b: Budget, e: Event)
    requires Timely(b.periodStart) && Timely(e.now)
    ensures Linked(b, RowStep(b, e), MonthOf(e.now), ChargeOf(b, e), e.now)
  {
    match e
    case Settle(_, _) => SettleLink(b, e);
    case Rollover(now) => RolloverLink(b, now);
    case _ =>
  }

  /** How the history of a row grows with the run. */
  lemma HistoryStep(es: seq<Event>, i: nat)
    requires es != [] && i < |Run(es).budgets|
    ensures var t, e, b' := Run(es[..|es| - 1]), es[|es| - 1], Run(es).budgets[i];
            if i < |t.budgets| then
              && b' == RowStep(t.budgets[i], e)
              && History(es, i) == History(es[..|es| - 1], i)
                                   + [Link(MonthOf(e.now), ChargeOf(t.budgets[i], e), MonthOf(b'.periodStart), b'.usedMicro)]
            else
              && i == |t.budgets| && |Step(t, e).budgets| > |t.budgets| && b' == Step(t, e).budgets[i]
              && History(es, i) == [Link(MonthOf(e.now), 0, MonthOf(b'.periodStart), b'.usedMicro)]
  {
    StepRows(Run(es[..|es| - 1]), es[|es| - 1]);
  }

  predicate EndsAt(h: seq<Link>, b: Budget) {
    h != [] && WellKept(h, b.period) && h[|h| - 1].counts == MonthOf(b.periodStart) && h[|h| - 1].used == b.usedMicro
  }

  lemma HistoryExtends(h: seq<Link>, b: Budget, e: Event)
    requires EndsAt(h, b) && Timely(b.periodStart) && Timely(e.now)
    ensures var b' := RowStep(b, e);
            && EndsAt(h + [Link(MonthOf(e.now), ChargeOf(b, e), MonthOf(b'.periodStart), b'.usedMicro)], b')
            && Timely(b'.periodStart)
  {
    var b' := RowStep(b, e);
    var h' := h + [Link(MonthOf(e.now), ChargeOf(b, e), MonthOf(b'.periodStart), b'.usedMicro)];
    RowLink(b, e);
    assert h'[..|h'| - 1] == h && h'[|h'| - 2] == h[|h| - 1];
  }

  lemma {:induction false} HistoryKept(es: seq<Event>, i: nat)
    requires AllTimely(es) && i < |Run(es).budgets|
    ensures EndsAt(History(es, i), Run(es).budgets[i]) && Timely(Run(es).budgets[i].periodStart)
  {
    var init, e := es[..|es| - 1], es[|es| - 1];
    assert Timely(e.now) && AllTimely(init);
    if i < |Run(init).budgets| {
      HistoryKept(init, i);
      HistoryStep(es, i);
      HistoryExtends(History(init, i), Run(init).budgets[i], e);
    } else {
      HistoryStep(es, i);
      CreatedRow(Run(init), e);
    }
  }

  /** The month counted has had no charge stamped later. */
  lemma {:induction false} NothingLater(h: seq<Link>, m: int)
    requires WellKept(h, Monthly) && (h != [] ==> h[|h| - 1].counts < m)
    ensures Charged(h, Some(m)) == 0
  {
    if h != [] {
      NothingLater(h[..|h| - 1], m);
    }
  }

  lemma {:induction false} StoredOverLinks(h: seq<Link>)
    requires h != [] && WellKept(h, Monthly)
    ensures h[|h| - 1].used == Charged(h, Some(h[|h| - 1].counts)) + Late(h) && 0 <= Late(h)
  {
    if |h| > 1 {
      var init := h[..|h| - 1];
      assert init[|init| - 1] == h[|h| - 2];
      StoredOverLinks(init);
      if h[|h| - 2].counts < h[|h| - 1].counts {
        NothingLater(init, h[|h| - 1].counts);
      }
    }
  }

  lemma {:induction false} TotalOverLinks(h: seq<Link>)
    requires h != [] && WellKept(h, Total)
    ensures h[|h| - 1].used == Charged(h, None)
  {
    if |h| > 1 {
      var init := h[..|h| - 1];
      assert init[|init| - 1] == h[|h| - 2];
      TotalOverLinks(init);
    }
  }

  /** For every commit order: a monthly row stores what was charged in the month it counts, plus the charges that
      arrived late for earlier months; so never less than that month's charges, and exactly them iff none was late. */
  lemma StoredMonthly(es: seq<Event>, i: nat)
    requires AllTimely(es) && i < |Run(es).budgets| && Run(es).budgets[i].period == Monthly
    ensures var b, h := Run(es).budgets[i], History(es, i);
            var charged := Charged(h, Some(MonthOf(b.periodStart)));
            && b.usedMicro == charged + Late(h)
            && b.usedMicro >= charged
            && (b.usedMicro == charged <==> Late(h) == 0)
  {
    HistoryKept(es, i);
    StoredOverLinks(History(es, i));
  }

  /** A total row stores everything ever charged to it, for every commit order. */
  lemma StoredTotal(es: seq<Event>, i: nat)
    requires AllTimely(es) && i < |Run(es).budgets| && Run(es).budgets[i].period == Total
    ensures Run(es).budgets[i].usedMicro == Charged(History(es, i), None)
  {
    HistoryKept(es, i);
    TotalOverLinks(History(es, i));
  }

  lemma PunctualLink(h: seq<Link>, l: Link)
    requires h != [] && Late(h) == 0 && h[|h| - 1].counts <= l.month
    requires h[|h| - 1].counts == l.counts || l.counts == l.month
    ensures Late(h + [l]) == 0
  {
    var h' := h + [l];
    assert h'[..|h'| - 1] == h && h'[|h'| - 2] == h[|h| - 1];
  }

  lemma LateStep(h: seq<Link>, b: Budget, e: Event)
    requires EndsAt(h, b) && Late(h) == 0 && Timely(b.periodStart) && Timely(e.now) && b.periodStart <= e.now
    ensures var b' := RowStep(b, e);
            && Late(h + [Link(MonthOf(e.now), ChargeOf(b, e), MonthOf(b'.periodStart), b'.usedMicro)]) == 0
            && b'.periodStart <= e.now
  {
    var b' := RowStep(b, e);
    RowLink(b, e);
    EarlierByNumber(b.periodStart, e.now);
    PunctualLink(h, Link(MonthOf(e.now), ChargeOf(b, e), MonthOf(b'.periodStart), b'.usedMicro));
  }

  /** In clock order nothing is late. */
  lemma {:induction false} NothingLate(es: seq<Event>, i: nat, t: int)
    requires AllTimely(es) && Ordered(es, t) && i < |Run(es).budgets|
    ensures Late(History(es, i)) == 0 && Run(es).budgets[i].periodStart <= t
  {
    var init, e := es[..|es| - 1], es[|es| - 1];
    assert Timely(e.now) && AllTimely(init);
    if i < |Run(init).budgets| {
      HistoryKept(init, i);
      NothingLate(init, i, e.now);
      HistoryStep(es, i);
      LateStep(History(init, i), Run(init).budgets[i], e);
    } else {
      HistoryStep(es, i);
      CreatedRow(Run(init), e);
    }
  }

  lemma EffectiveByNumber(b: Budget, t: int)
    requires Timely(b.periodStart) && Timely(t)
    ensures EffectiveUsed(b, t) == if b.period == Monthly && MonthOf(b.periodStart) < MonthOf(t) then 0 else b.usedMicro
  {
    EarlierByNumber(b.periodStart, t);
  }

  lemma ExactOverLinks(h: seq<Link>, m: int)
    requires h != [] && WellKept(h, Monthly) && h[|h| - 1].counts <= m
    ensures var l := h[|h| - 1];
            (if l.counts < m then 0 else l.used) == Charged(h, Some(m)) <==> l.counts < m || Late(h) == 0
  {
    if h[|h| - 1].counts < m {
      NothingLater(h, m);
    } else {
      StoredOverLinks(h);
    }
  }

  /** For every commit order, what a monthly row counts at a clock in its month or later is exactly what was charged in
      that clock's month iff the month has turned since or nothing was late. */
  lemma EffectiveExactly(es: seq<Event>, i: nat, t: int)
    requires AllTimely(es) && Timely(t) && i < |Run(es).budgets| && Run(es).budgets[i].period == Monthly
    requires MonthOf(Run(es).budgets[i].periodStart) <= MonthOf(t)
    ensures var b, h := Run(es).budgets[i], History(es, i);
            EffectiveUsed(b, t) == Charged(h, Some(MonthOf(t))) <==> MonthOf(b.periodStart) < MonthOf(t) || Late(h) == 0
  {
    HistoryKept(es, i);
    EffectiveByNumber(Run(es).budgets[i], t);
    ExactOverLinks(History(es, i), MonthOf(t));
  }

  /** When transactions commit in clock order, every row counts exactly what was charged to it: in the current UTC
      month if it is monthly, ever if it is total; through updates, rollovers and cleanups. */
  lemma LedgerAgreement(es: seq<Event>, i: nat, t: int)
    requires AllTimely(es) && Ordered(es, t) && Timely(t) && i < |Run(es).budgets|
    ensures var b := Run(es).budgets[i];
            EffectiveUsed(b, t) == Charged(History(es, i), if b.period == Monthly then Some(MonthOf(t)) else None)
  {
    var b := Run(es).budgets[i];
    if b.period == Total {
      StoredTotal(es, i);
    } else {
      NothingLate(es, i, t);
      HistoryKept(es, i);
      EarlierByNumber(b.periodStart, t);
      EffectiveExactly(es, i, t);
    }
  }

  /** A settlement stamped in an earlier month than the row counts is billed to the later month. */
  lemma LateChargeMovesMonth(b: Budget, e: Event, t: int)
    requires e.Settle? && b.period == Monthly && Timely(b.periodStart) && Timely(e.now) && Timely(t)
    requires MonthOf(e.now) < MonthOf(b.periodStart) == MonthOf(t)
    ensures EffectiveUsed(RowStep(b, e), t) == EffectiveUsed(b, t) + ChargeOf(b, e)
  {
    SettleRowEffect(b, e);
    EarlierByNumber(b.periodStart, e.now);
    EarlierByNumber(b.periodStart, t);
  }

  // ----- agreement with the usage records of a key

  predicate InMonth(m: Option<int>, ts: int) { m.None? || m.value == MonthOf(ts) }

  predicate Billed(r: UsageRow, keyId: string, m: Option<int>) {
    r.keyId == keyId && r.status in {Ok, ClientAbort} && InMonth(m, r.createdAt)
  }

  /** SELECT SUM(cost_micro) over the usage records of a key. */
  function UsageSum(rows: seq<UsageRow>, keyId: string, m: Option<int>): int {
    if rows == [] then 0
    else
      var r := rows[|rows| - 1];
      UsageSum(rows[..|rows| - 1], keyId, m) + if Billed(r, keyId, m) then r.costMicro else 0
  }

  lemma {:induction false} CleanupKeepsSums(rows: seq<UsageRow>, cutoff: int, keyId: string, m: Option<int>)
    ensures UsageSum(CleanedRows(rows, cutoff), keyId, m) == UsageSum(rows, keyId, m)
  {
    if rows != [] {
      CleanupKeepsSums(rows[..|rows| - 1], cutoff, keyId, m);
      assert CleanedRows(rows, cutoff)[..|rows| - 1] == CleanedRows(rows[..|rows| - 1], cutoff);
    }
  }

  /** The gateway charges the key of the request and its owner, who is not a key. */
  ghost predicate FromGateway(input: SettleInput) {
    exists k: AuthedKey ::
      k.id == input.keyId && k.ownerType != "key"
      && input.subjects == [Subject("key", k.id), Subject(k.ownerType, k.ownerId)]
  }

  /** Whenever the last event charges key `keyId`, row `i` exists and is active. */
  predicate LastCovered(es: seq<Event>, i: nat, keyId: string)
    requires es != []
  {
    var rows, e := Run(es[..|es| - 1]).budgets, es[|es| - 1];
    e.Settle? && Accrues(e.input) && e.input.keyId == keyId ==> i < |rows| && rows[i].status == Active
  }

  predicate Covered(es: seq<Event>, i: nat, keyId: string) {
    es == [] || (LastCovered(es, i, keyId) && Covered(es[..|es| - 1], i, keyId))
  }

  ghost predicate AllFromGateway(es: seq<Event>) { forall j | 0 <= j < |es| && es[j].Settle? :: FromGateway(es[j].input) }

  lemma GatewayAmount(input: SettleInput, keyId: string)
    requires FromGateway(input) && input.costMicro > 0
    ensures Amount(input.subjects, Subject("key", keyId), input.costMicro)
            == if input.keyId == keyId then input.costMicro else 0
  {
    var k: AuthedKey :| k.id == input.keyId && k.ownerType != "key"
                         && input.subjects == [Subject("key", k.id), Subject(k.ownerType, k.ownerId)];
    assert multiset(input.subjects) == multiset{Subject("key", k.id), Subject(k.ownerType, k.ownerId)};
  }

  /** What an event adds to the sum of the key's records. */
  function RecordOf(e: Event, keyId: string, m: Option<int>): int {
    if e.Settle? && Billed(UsageRowOf(e.input, e.now), keyId, m) then Max(e.input.costMicro, 0) else 0
  }

  lemma RecordStep(t: Tables, e: Event, keyId: string, m: Option<int>)
    ensures UsageSum(Step(t, e).usage, keyId, m) == UsageSum(t.usage, keyId, m) + RecordOf(e, keyId, m)
  {
    if e.Settle? {
      assert Step(t, e).usage[..|t.usage|] == t.usage;
    } else if e.Cleanup? {
      CleanupKeepsSums(t.usage, e.now - e.retentionDays * 86_400, keyId, m);
    }
  }

  /** A row of key `keyId` is charged at most what the records gain, and exactly that if it is active. */
  lemma ChargeByRecord(b: Budget, e: Event, keyId: string, m: Option<int>)
    requires b.subject == Subject("key", keyId) && (e.Settle? ==> FromGateway(e.input))
    ensures var c := if InMonth(m, e.now) then ChargeOf(b, e) else 0;
            && c <= RecordOf(e, keyId, m)
            && (b.status == Active || !(e.Settle? && Accrues(e.input) && e.input.keyId == keyId) ==>
                  c == RecordOf(e, keyId, m))
  {
    if e.Settle? && Accrues(e.input) {
      GatewayAmount(e.input, keyId);
    }
  }

  /** The charges to a key's budget never exceed the sum of its usage records, and equal it when the budget was
      there and active whenever the key was charged. */
  lemma {:induction false} ChargedByRecords(es: seq<Event>, i: nat, keyId: string, m: Option<int>)
    requires AllTimely(es) && AllFromGateway(es)
    requires i < |Run(es).budgets| ==> Run(es).budgets[i].subject == Subject("key", keyId)
    ensures Charged(History(es, i), m) <= UsageSum(Run(es).usage, keyId, m)
    ensures Covered(es, i, keyId) ==> Charged(History(es, i), m) == UsageSum(Run(es).usage, keyId, m)
  {
    if es != [] {
      var init, e := es[..|es| - 1], es[|es| - 1];
      var t := Run(init);
      StepRows(t, e);
      RecordStep(t, e, keyId, m);
      if i < |t.budgets| {
        HistoryKept(init, i);
        RowLink(t.budgets[i], e);
        ChargeByRecord(t.budgets[i], e, keyId, m);
      }
      ChargedByRecords(init, i, keyId, m);
      if i < |Run(es).budgets| {
        HistoryStep(es, i);
        assert i < |t.budgets| ==> History(es, i)[..|History(es, i)| - 1] == History(init, i);
      }
    }
  }

  /** The aggregate agrees with the ledger: in clock order, a key budget that covered its key counts exactly the sum
      of the key's usage records, of the current month or of all time. */
  lemma KeyBudgetMatchesRecords(es: seq<Event>, i: nat, keyId: string, t: int)
    requires AllTimely(es) && Ordered(es, t) && Timely(t) && AllFromGateway(es)
    requires i < |Run(es).budgets| && Run(es).budgets[i].subject == Subject("key", keyId) && Covered(es, i, keyId)
    ensures var b := Run(es).budgets[i];
            EffectiveUsed(b, t)
            == UsageSum(Run(es).usage, keyId, if b.period == Monthly then Some(MonthOf(t)) else None)
  {
    LedgerAgreement(es, i, t);
    ChargedByRecords(es, i, keyId, if Run(es).budgets[i].period == Monthly then Some(MonthOf(t)) else None);
  }
}
