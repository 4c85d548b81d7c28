/** The budget tables and their operations: admission checks and settlement (src/billing.rs), the monthly rollover
    and audit cleanup jobs (src/jobs.rs), and the admin operations (src/admin/budgets.rs). */
module Budgets {
  import opened Prelude
  import opened Calendar
  import opened Cost
  import opened Sql
  import opened Text
  import Money

  datatype Subject = Subject(kind: string, id: string)

  datatype Period = Monthly | Total

  datatype BudgetStatus = Active | Disabled

  datatype Budget = Budget(
    id: string, subject: Subject, period: Period, limitMicro: int, usedMicro: int, periodStart: int,
    alertThreshold: Option<real>, status: BudgetStatus)

  datatype SettleStatus = Ok | Rejected | UpstreamError | ClientAbort

  /** How a request ended. */
  datatype SettleInput = SettleInput(
    keyId: string, modelSlug: string, channelId: Option<string>, usage: Usage, costMicro: int, status: SettleStatus,
    errorCode: Option<string>, requestBody: Option<string>, responseBody: Option<string>, subjects: seq<Subject>)

  /** A row of `usage_records`. */
  datatype UsageRow = UsageRow(
    keyId: string, modelSlug: string, channelId: Option<string>, usage: Usage, costMicro: int, status: SettleStatus,
    errorCode: Option<string>, requestBody: Option<string>, responseBody: Option<string>, createdAt: int)

  datatype AuthedKey = AuthedKey(id: string, ownerType: string, ownerId: string)

  /** The key itself and its owner. */
  function SubjectsForKey(key: AuthedKey): seq<Subject> {
    [Subject("key", key.id), Subject(key.ownerType, key.ownerId)]
  }

  /** The two subjects a request of the key counts against. */
  predicate OfKey(s: Subject, key: AuthedKey) {
    s == Subject("key", key.id) || s == Subject(key.ownerType, key.ownerId)
  }

  lemma SubjectsAreOfKey(key: AuthedKey)
    ensures forall s :: s in SubjectsForKey(key) <==> OfKey(s, key)
    ensures key.ownerType != "key" ==> forall s :: multiset(SubjectsForKey(key))[s] == if OfKey(s, key) then 1 else 0
  {
    assert multiset(SubjectsForKey(key)) == multiset{Subject("key", key.id), Subject(key.ownerType, key.ownerId)};
  }

  // ----- what one settlement does to one row

  /** Only successful outcomes with a positive cost are charged. */
  predicate Accrues(input: SettleInput) { input.status in {Ok, ClientAbort} && input.costMicro > 0 }

  /** Whether the row still counts an earlier month. */
  predicate Outdated(b: Budget, now: int) { b.period == Monthly && IsEarlierMonth(b.periodStart, now) }

  /** Charge a row once: a row of an earlier month restarts with the charge, at the time of the settlement. */
  function ChargeRow(b: Budget, cost: int, now: int): Budget {
    if Outdated(b, now) then b.(usedMicro := cost, periodStart := now) else b.(usedMicro := b.usedMicro + cost)
  }

  predicate Hit(b: Budget, s: Subject) { b.subject == s && b.status == Active }

  /** How much of a cost falls on one subject: the cost for each time it is listed. */
  function Amount(subjects: seq<Subject>, s: Subject, cost: int): int { multiset(subjects)[s] * cost }

  /** The net effect of charging for every listed subject in turn. */
  function ChargeAll(b: Budget, subjects: seq<Subject>, cost: int, now: int): Budget {
    var amount := Amount(subjects, b.subject, cost);
    if b.status == Active && amount != 0 then ChargeRow(b, amount, now) else b
  }

  lemma AmountNonneg(subjects: seq<Subject>, s: Subject, cost: int)
    requires cost > 0
    ensures Amount(subjects, s, cost) >= 0
  {
  }

  /** One more subject: what the inner loop of a settlement does to each row. */
  lemma ChargeOneMore(b: Budget, subjects: seq<Subject>, s: Subject, cost: int, now: int)
    requires cost > 0
    ensures ChargeAll(b, subjects + [s], cost, now)
            == var c := ChargeAll(b, subjects, cost, now); if Hit(c, s) then ChargeRow(c, cost, now) else c
  {
    AmountNonneg(subjects, b.subject, cost);
    var n := multiset(subjects)[b.subject];
    assert (n + 1) * cost == n * cost + cost;
  }

  function SettleRow(b: Budget, input: SettleInput, now: int): Budget {
    if Accrues(input) then ChargeAll(b, input.subjects, input.costMicro, now) else b
  }

  function UsageRowOf(input: SettleInput, now: int): UsageRow {
    UsageRow(input.keyId, input.modelSlug, input.channelId, input.usage, Max(input.costMicro, 0), input.status,
             input.errorCode, input.requestBody, input.responseBody, now)
  }

  // ----- the read path

  /** What the row counts against its limit at `now`: nothing once the month has turned. */
  function EffectiveUsed(b: Budget, now: int): int { if Outdated(b, now) then 0 else b.usedMicro }

  predicate Exhausts(b: Budget, s: Subject, now: int) { Hit(b, s) && b.limitMicro - EffectiveUsed(b, now) <= 0 }

  predicate SubjectExhausted(rows: seq<Budget>, s: Subject, now: int) {
    exists i | 0 <= i < |rows| :: Exhausts(rows[i], s, now)
  }

  datatype Verdict = Admitted | Exhausted(subject: Subject)

  /** The first exhausted subject decides. */
  function CheckVerdict(rows: seq<Budget>, subjects: seq<Subject>, now: int): Verdict {
    if subjects == [] then Admitted
    else if SubjectExhausted(rows, subjects[0], now) then Exhausted(subjects[0])
    else CheckVerdict(rows, subjects[1..], now)
  }

  /** A request is admitted exactly when every active budget of every subject has something left. */
  lemma {:induction false} AdmittedIff(rows: seq<Budget>, subjects: seq<Subject>, now: int)
    ensures CheckVerdict(rows, subjects, now) == Admitted <==>
              forall i | 0 <= i < |rows| && rows[i].status == Active && rows[i].subject in subjects ::
                EffectiveUsed(rows[i], now) < rows[i].limitMicro
    decreases subjects
  {
    if subjects != [] {
      AdmittedIff(rows, subjects[1..], now);
      assert forall s :: s in subjects <==> s == subjects[0] || s in subjects[1..];
      assert forall i | 0 <= i < |rows| ::
          Exhausts(rows[i], subjects[0], now) <==>
            rows[i].status == Active && rows[i].subject == subjects[0] && EffectiveUsed(rows[i], now) >= rows[i].limitMicro;
    }
  }

  /** The subject has an active budget with nothing left. */
  predicate Spent(rows: seq<Budget>, s: Subject, now: int) {
    exists i | 0 <= i < |rows| ::
      rows[i].subject == s && rows[i].status == Active && EffectiveUsed(rows[i], now) >= rows[i].limitMicro
  }

  lemma SpentIsExhausted(rows: seq<Budget>, s: Subject, now: int)
    ensures Spent(rows, s, now) <==> SubjectExhausted(rows, s, now)
  {
    if i :| 0 <= i < |rows| && rows[i].subject == s && rows[i].status == Active
            && EffectiveUsed(rows[i], now) >= rows[i].limitMicro {
      assert Exhausts(rows[i], s, now);
    }
  }

  /** A spent budget of the key stops a request, otherwise one of its owner, and nothing else does. */
  lemma KeyVerdict(rows: seq<Budget>, key: AuthedKey, now: int)
    ensures CheckVerdict(rows, SubjectsForKey(key), now)
            == if Spent(rows, Subject("key", key.id), now) then Exhausted(Subject("key", key.id))
               else if Spent(rows, Subject(key.ownerType, key.ownerId), now) then
                 Exhausted(Subject(key.ownerType, key.ownerId))
               else Admitted
  {
    var subjects, own, owner := SubjectsForKey(key), Subject("key", key.id), Subject(key.ownerType, key.ownerId);
    assert subjects[0] == own && subjects[1..] == [owner] && [owner][1..] == [];
    SpentIsExhausted(rows, own, now);
    SpentIsExhausted(rows, owner, now);
    assert CheckVerdict(rows, [owner], now) == if SubjectExhausted(rows, owner, now) then Exhausted(owner) else Admitted;
  }

  /** Otherwise the verdict names the first subject that has an exhausted budget. */
  lemma {:induction false} FirstExhausted(rows: seq<Budget>, subjects: seq<Subject>, now: int)
    requires CheckVerdict(rows, subjects, now).Exhausted?
    ensures exists k :: 0 <= k < |subjects| && CheckVerdict(rows, subjects, now) == Exhausted(subjects[k])
                        && SubjectExhausted(rows, subjects[k], now)
                        && forall j | 0 <= j < k :: !SubjectExhausted(rows, subjects[j], now)
    decreases subjects
  {
    if !SubjectExhausted(rows, subjects[0], now) {
      FirstExhausted(rows, subjects[1..], now);
      var k :| 0 <= k < |subjects[1..]| && CheckVerdict(rows, subjects[1..], now) == Exhausted(subjects[1..][k])
               && SubjectExhausted(rows, subjects[1..][k], now)
               && forall j | 0 <= j < k :: !SubjectExhausted(rows, subjects[1..][j], now);
      assert subjects[k + 1] == subjects[1..][k];
      forall j | 0 <= j < k + 1
        ensures !SubjectExhausted(rows, subjects[j], now)
      {
        assert j > 0 ==> subjects[j] == subjects[1..][j - 1];
      }
    }
  }

  // ----- admin requests

  datatype CreateReq = CreateReq(
    subjectType: string, subjectId: string, period: string, limitCny: string, alertThreshold: Option<real>)

  datatype UpdateReq = UpdateReq(
    limitCny: Option<string>, alertThreshold: Option<Option<real>>, status: Option<string>)

  predicate ThresholdOk(t: Option<real>) { t.Some? ==> 0.0 <= t.value <= 1.0 }

  predicate Taken(rows: seq<Budget>, s: Subject, p: Period) {
    exists i | 0 <= i < |rows| :: rows[i].subject == s && rows[i].period == p
  }

  /** A validated create request. */
  datatype NewBudget = NewBudget(subject: Subject, period: Period, limitMicro: int, alertThreshold: Option<real>)

  /** A validated update: the fields to write. */
  datatype Patch = Patch(limitMicro: Option<int>, alertThreshold: Option<Option<real>>, status: Option<BudgetStatus>)

  function ValidateCreate(req: CreateReq, subjectExists: bool): Outcome<NewBudget> {
    if req.subjectType !in {"user", "team", "key"} then Refused(BadRequest)
    else if !subjectExists then Refused(NotFound)
    else if req.period !in {"monthly", "total"} then Refused(BadRequest)
    else
      match Money.ParseCny(req.limitCny)
      case Rejected(_) => Refused(BadRequest)
      case Micro(limit) =>
        if limit <= 0 || !ThresholdOk(req.alertThreshold) then Refused(BadRequest)
        else Done(NewBudget(Subject(req.subjectType, req.subjectId),
                            if req.period == "monthly" then Monthly else Total, limit, req.alertThreshold))
  }

  /** A budget can be created exactly for an existing subject, a known period, a positive decimal of 64 bits, and a
      threshold between 0 and 1. */
  lemma CreateAccepts(req: CreateReq, subjectExists: bool)
    ensures ValidateCreate(req, subjectExists).Done? <==>
              && req.subjectType in {"user", "team", "key"} && subjectExists && req.period in {"monthly", "total"}
              && (req.alertThreshold.Some? ==> 0.0 <= req.alertThreshold.value <= 1.0)
              && Money.PositiveAmount(req.limitCny)
    ensures ValidateCreate(req, subjectExists) == Refused(NotFound) <==>
              req.subjectType in {"user", "team", "key"} && !subjectExists
    ensures ValidateCreate(req, subjectExists) != Refused(Conflict)
  {
    Money.PositiveParses(req.limitCny);
  }

  function ValidateLimit(limitCny: Option<string>): Outcome<Option<int>> {
    if limitCny.None? then Done(None)
    else
      match Money.ParseCny(limitCny.value)
      case Rejected(_) => Refused(BadRequest)
      case Micro(limit) => if limit <= 0 then Refused(BadRequest) else Done(Some(limit))
  }

  function ValidateUpdate(req: UpdateReq): Outcome<Patch> {
    if req.limitCny.None? && req.alertThreshold.None? && req.status.None? then Refused(BadRequest)
    else
      match ValidateLimit(req.limitCny)
      case Refused(error) => Refused(error)
      case Done(limit) =>
        if req.alertThreshold.Some? && !ThresholdOk(req.alertThreshold.value) then Refused(BadRequest)
        else if req.status.Some? && req.status.value !in {"active", "disabled"} then Refused(BadRequest)
        else Done(Patch(limit, req.alertThreshold,
                        if req.status.None? then None
                        else Some(if req.status.value == "active" then Active else Disabled)))
  }

  /** A budget can be updated exactly when some field is given and each given field is valid. */
  lemma UpdateAccepts(req: UpdateReq)
    ensures ValidateUpdate(req).Done? <==>
              && (req.limitCny.Some? || req.alertThreshold.Some? || req.status.Some?)
              && (req.limitCny.Some? ==> Money.PositiveAmount(req.limitCny.value))
              && (forall t: real | req.alertThreshold == Some(Some(t)) :: 0.0 <= t <= 1.0)
              && (req.status.Some? ==> req.status.value == "active" || req.status.value == "disabled")
    ensures ValidateUpdate(req).Refused? ==> ValidateUpdate(req).error == BadRequest
  {
    if req.limitCny.Some? {
      Money.PositiveParses(req.limitCny.value);
    }
    var t := req.alertThreshold.GetOr(None);
    assert forall x: real :: req.alertThreshold == Some(Some(x)) <==> req.alertThreshold.Some? && t == Some(x);
    assert t.Some? && req.alertThreshold.Some? ==> req.alertThreshold == Some(Some(t.value));
  }

  /** The row a valid create request inserts. */
  function NewRow(id: string, n: NewBudget, now: int): Budget {
    Budget(id, n.subject, n.period, n.limitMicro, 0, if n.period == Monthly then MonthStartEpoch(now) else now,
           n.alertThreshold, Active)
  }

  function PatchedRow(b: Budget, p: Patch): Budget {
    b.(limitMicro := p.limitMicro.GetOr(b.limitMicro), alertThreshold := p.alertThreshold.GetOr(b.alertThreshold),
       status := p.status.GetOr(b.status))
  }

  // ----- background jobs

  predicate RollsOver(b: Budget, now: int) {
    b.period == Monthly && b.status == Active && b.periodStart < MonthStartEpoch(now)
  }

  function RolloverRow(b: Budget, now: int): Budget {
    if RollsOver(b, now) then b.(usedMicro := 0, periodStart := MonthStartEpoch(now)) else b
  }

  predicate Expired(r: UsageRow, cutoff: int) {
    r.createdAt < cutoff && (r.requestBody.Some? || r.responseBody.Some?)
  }

  function CleanedRow(r: UsageRow, cutoff: int): UsageRow {
    if Expired(r, cutoff) then r.(requestBody := None, responseBody := None) else r
  }

  datatype AuditEvent = AuditEvent(action: string, createdAt: int)

  /** WHERE clauses. */
  function HitBy(s: Subject): Budget -> bool { (b: Budget) => Hit(b, s) }
  function RollsOverAt(now: int): Budget -> bool { (b: Budget) => RollsOver(b, now) }
  function ExpiredBy(cutoff: int): UsageRow -> bool { (r: UsageRow) => Expired(r, cutoff) }
  function KeptSince(cutoff: int): AuditEvent -> bool { (e: AuditEvent) => e.createdAt >= cutoff }

  // ----- keys

  /** The primary key. */
  predicate UniqueIds(rows: seq<Budget>) { forall i, j | 0 <= i < j < |rows| :: rows[i].id != rows[j].id }

  // ----- the tables

  datatype Tables = Tables(budgets: seq<Budget>, usage: seq<UsageRow>, audit: seq<AuditEvent>)

  const EMPTY := Tables([], [], [])

  function SettleTables(t: Tables, input: SettleInput, now: int): Tables {
    t.(budgets := seq(|t.budgets|, i requires 0 <= i < |t.budgets| => SettleRow(t.budgets[i], input, now)),
       usage := t.usage + [UsageRowOf(input, now)])
  }

  /** A budget is created unless its subject already has one of that period. */
  function CreateTables(t: Tables, id: string, n: NewBudget, now: int): Tables {
    if Taken(t.budgets, n.subject, n.period) then t
    else t.(budgets := t.budgets + [NewRow(id, n, now)], audit := t.audit + [AuditEvent("budget.create", now)])
  }

  predicate HasId(rows: seq<Budget>, id: string) { exists i | 0 <= i < |rows| :: rows[i].id == id }

  function UpdateTables(t: Tables, id: string, p: Patch, now: int): Tables {
    if HasId(t.budgets, id) then
      t.(budgets := UpdateWhere(t.budgets, (b: Budget) => b.id == id, (b: Budget) => PatchedRow(b, p)),
         audit := t.audit + [AuditEvent("budget.update", now)])
    else t
  }

  function RolloverTables(t: Tables, now: int): Tables {
    t.(budgets := seq(|t.budgets|, i requires 0 <= i < |t.budgets| => RolloverRow(t.budgets[i], now)))
  }

  function CleanedRows(rows: seq<UsageRow>, cutoff: int): (r: seq<UsageRow>)
    ensures |r| == |rows| && forall i | 0 <= i < |rows| :: r[i] == CleanedRow(rows[i], cutoff)
  {
    seq(|rows|, i requires 0 <= i < |rows| => CleanedRow(rows[i], cutoff))
  }

  function CleanupTables(t: Tables, now: int, retentionDays: int): Tables {
    var cutoff := now - retentionDays * 86_400;
    t.(usage := CleanedRows(t.usage, cutoff),
       audit := SelectWhere(t.audit, KeptSince(cutoff)))
  }

  /** Rows a rollover at `now` changes. */
  function RolloverCount(rows: seq<Budget>, now: int): nat {
    |SelectWhere(rows, RollsOverAt(now))|
  }

  /** The rows after some of them have been charged. */
  predicate ChargedRows(before: seq<Budget>, rows: seq<Budget>, charged: seq<Budget>, cost: int, now: int) {
    |rows| == |before|
    && forall i | 0 <= i < |rows| :: rows[i] == if before[i] in charged then ChargeRow(before[i], cost, now) else before[i]
  }

  /** One UPDATE by id, which decides by the period read before, charges the selected row and no other. */
  lemma ChargeNext(before: seq<Budget>, mid: seq<Budget>, rows: seq<Budget>, charged: seq<Budget>, row: Budget, cost: int,
                   now: int)
    requires UniqueIds(before) && ChargedRows(before, mid, charged, cost, now) && row in before && row !in charged
    requires |rows| == |mid| && forall i | 0 <= i < |rows| ::
                                  rows[i] == if mid[i].id != row.id then mid[i]
                                             else if row.period == Monthly && IsEarlierMonth(row.periodStart, now) then
                                               mid[i].(usedMicro := cost, periodStart := now)
                                             else mid[i].(usedMicro := mid[i].usedMicro + cost)
    ensures ChargedRows(before, rows, charged + [row], cost, now)
  {
    forall i | 0 <= i < |rows|
      ensures rows[i] == if before[i] in charged + [row] then ChargeRow(before[i], cost, now) else before[i]
    {
      if before[i].id == row.id {
        SameByKey(before, (b: Budget) => b.id, before[i], row);
      }
      assert mid[i].id == before[i].id;
    }
  }

  // ----- what the operations do to a row, field by field

  /** The record of a settlement keeps everything it is given; a negative cost becomes zero. */
  lemma RecordKeeps(input: SettleInput, now: int)
    ensures var r := UsageRowOf(input, now);
            && r.keyId == input.keyId && r.modelSlug == input.modelSlug && r.channelId == input.channelId
            && r.usage == input.usage && r.status == input.status && r.errorCode == input.errorCode
            && r.requestBody == input.requestBody && r.responseBody == input.responseBody && r.createdAt == now
            && r.costMicro >= 0 && (input.costMicro >= 0 ==> r.costMicro == input.costMicro)
            && (input.costMicro < 0 ==> r.costMicro == 0)
  {
  }

  /** The amount of a limit the parser accepted. */
  ghost predicate LimitOf(text: string, limit: int) {
    exists a, f :: Money.IsDecimal(Trim(text), a, f) && limit == Money.MicroValue(a, f)
  }

  lemma ParsedLimit(text: string)
    requires Money.ParseCny(text).Micro?
    ensures LimitOf(text, Money.ParseCny(text).value)
  {
    Money.ParseMeaning(text, Money.ParseCny(text).value);
  }

  /** A valid create adds one unused active row, for the requested subject, period, limit and threshold, that counts from
      the first second of the month if monthly and from now on if total; unless the subject has a budget of that period. */
  lemma CreateInserts(t: Tables, id: string, req: CreateReq, now: int)
    requires ValidateCreate(req, true).Done?
    ensures var t' := CreateTables(t, id, ValidateCreate(req, true).value, now);
            if exists i | 0 <= i < |t.budgets| :: t.budgets[i].subject == Subject(req.subjectType, req.subjectId)
                                                && (t.budgets[i].period == Monthly <==> req.period == "monthly") then
              t' == t
            else
              && |t'.budgets| == |t.budgets| + 1 && t'.budgets[..|t.budgets|] == t.budgets && t'.usage == t.usage
              && t'.audit == t.audit + [AuditEvent("budget.create", now)]
              && var b := t'.budgets[|t.budgets|];
                 && b.id == id && b.subject == Subject(req.subjectType, req.subjectId) && b.status == Active
                 && (b.period == Monthly <==> req.period == "monthly") && (b.period == Total <==> req.period == "total")
                 && b.usedMicro == 0 && LimitOf(req.limitCny, b.limitMicro) && b.alertThreshold == req.alertThreshold
                 && b.periodStart == if req.period == "monthly" then MonthStartEpoch(now) else now
  {
    ParsedLimit(req.limitCny);
  }

  /** A valid update writes the given fields and no others; an explicitly empty threshold is cleared. */
  lemma UpdateWrites(t: Tables, id: string, req: UpdateReq, now: int, i: nat)
    requires ValidateUpdate(req).Done? && i < |t.budgets|
    ensures var t', b := UpdateTables(t, id, ValidateUpdate(req).value, now), t.budgets[i];
            && |t'.budgets| == |t.budgets| && t'.usage == t.usage
            && var b' := t'.budgets[i];
               && (b.id != id ==> b' == b)
               && b' == b.(limitMicro := b'.limitMicro, alertThreshold := b'.alertThreshold, status := b'.status)
               && (b.id == id ==>
                     && t'.audit == t.audit + [AuditEvent("budget.update", now)]
                     && (if req.limitCny.Some? then LimitOf(req.limitCny.value, b'.limitMicro)
                         else b'.limitMicro == b.limitMicro)
                     && b'.alertThreshold == (if req.alertThreshold.Some? then req.alertThreshold.value
                                              else b.alertThreshold)
                     && (req.status == Some("active") ==> b'.status == Active)
                     && (req.status == Some("disabled") ==> b'.status == Disabled)
                     && (req.status == None ==> b'.status == b.status))
  {
    if req.limitCny.Some? {
      ParsedLimit(req.limitCny.value);
    }
  }

  /** The rollover restarts exactly the active monthly rows that count an earlier month, from the first second of the
      month of `now`, and reports how many rows it changed. */
  lemma RolloverExactly(t: Tables, now: int, i: nat)
    requires i < |t.budgets| && InRange(t.budgets[i].periodStart) && InRange(now)
    ensures var b, b' := t.budgets[i], RolloverTables(t, now).budgets[i];
            if b.status == Active && b.period == Monthly && YearMonth(b.periodStart).Before(YearMonth(now)) then
              b' == b.(usedMicro := 0, periodStart := MonthStartEpoch(now))
            else b' == b
  {
    MonthTestsAgree(t.budgets[i].periodStart, now);
  }

  lemma RolloverCounts(t: Tables, now: int)
    ensures RolloverCount(t.budgets, now) == Changed(t.budgets, RolloverTables(t, now).budgets)
  {
    MatchedAreChanged(t.budgets, RolloverTables(t, now).budgets, RollsOverAt(now));
  }

  /** The cleanup clears the bodies of exactly the records from before the retention period, changes nothing else of them,
      and deletes exactly the audit events from before it ... */
  lemma CleanupExactly(t: Tables, now: int, retentionDays: int)
    ensures var t', cutoff := CleanupTables(t, now, retentionDays), now - retentionDays * 24 * 60 * 60;
            && t'.budgets == t.budgets && |t'.usage| == |t.usage|
            && (forall i | 0 <= i < |t.usage| ::
                  t'.usage[i] == if t.usage[i].createdAt < cutoff then t.usage[i].(requestBody := None, responseBody := None)
                                 else t.usage[i])
            && (forall e :: e in t'.audit <==> e in t.audit && e.createdAt >= cutoff)
  {
    assert retentionDays * 24 * 60 * 60 == retentionDays * 86_400;
  }

  /** ... and reports how many records it changed. */
  lemma CleanupCounts(rows: seq<UsageRow>, cutoff: int)
    ensures |SelectWhere(rows, ExpiredBy(cutoff))| == Changed(rows, CleanedRows(rows, cutoff))
  {
    MatchedAreChanged(rows, CleanedRows(rows, cutoff), ExpiredBy(cutoff));
  }

  class Database {
    var budgets: seq<Budget>
    var usage: seq<UsageRow>
    var audit: seq<AuditEvent>

    constructor ()
      ensures View() == EMPTY
    {
      budgets, usage, audit := [], [], [];
    }

    ghost function View(): Tables
      reads this
    {
      Tables(budgets, usage, audit)
    }

    /** The read path; it writes nothing. */
    method CheckBudgets(subjects: seq<Subject>, now: int) returns (verdict: Verdict)
      ensures verdict == CheckVerdict(budgets, subjects, now)
    {
      for k := 0 to |subjects|
        invariant CheckVerdict(budgets, subjects, now) == CheckVerdict(budgets, subjects[k..], now)
      {
        var s := subjects[k];
        var rows := SelectWhere(budgets, HitBy(s));
        for j := 0 to |rows|
          invariant forall i | 0 <= i < j :: !Exhausts(rows[i], s, now)
        {
          var b := rows[j];
          assert b in rows;
          var remaining := if b.period == Monthly && IsEarlierMonth(b.periodStart, now)
                           then b.limitMicro else b.limitMicro - b.usedMicro;
          if remaining <= 0 {
            assert subjects[k..][0] == s && b in budgets;
            return Exhausted(s);
          }
        }
        assert subjects[k..][1..] == subjects[k + 1..];
        assert forall i | 0 <= i < |budgets| && Exhausts(budgets[i], s, now) :: budgets[i] in rows;
      }
      return Admitted;
    }

    /** The UPDATE for one selected row, which decides by the period read in the SELECT. */
    method ChargeById(id: string, period: Period, periodStart: int, cost: int, now: int)
      modifies this`budgets
      ensures |budgets| == |old(budgets)|
      ensures forall i | 0 <= i < |budgets| ::
                var b := old(budgets)[i];
                budgets[i] == if b.id != id then b
                              else if period == Monthly && IsEarlierMonth(periodStart, now) then
                                b.(usedMicro := cost, periodStart := now)
                              else b.(usedMicro := b.usedMicro + cost)
    {
      if period == Monthly && IsEarlierMonth(periodStart, now) {
        budgets := UpdateWhere(budgets, (b: Budget) => b.id == id,
                               (b: Budget) => b.(usedMicro := cost, periodStart := now));
      } else {
        budgets := UpdateWhere(budgets, (b: Budget) => b.id == id,
                               (b: Budget) => b.(usedMicro := b.usedMicro + cost));
      }
    }

    /** The inner loop of a settlement: the rows selected first, then one UPDATE by id for each. */
    method ChargeActive(s: Subject, cost: int, now: int)
      requires UniqueIds(budgets)
      modifies this`budgets
      ensures |budgets| == |old(budgets)| && UniqueIds(budgets)
      ensures forall i | 0 <= i < |budgets| ::
                var b := old(budgets)[i]; budgets[i] == if Hit(b, s) then ChargeRow(b, cost, now) else b
    {
      ghost var before := budgets;
      var rows := SelectWhere(budgets, HitBy(s));
      assert UniqueIds(rows) by {
        SelectUnique(budgets, HitBy(s), (b: Budget) => b.id);
      }
      for j := 0 to |rows|
        invariant ChargedRows(before, budgets, rows[..j], cost, now)
      {
        var row := rows[j];
        assert row in rows && row !in rows[..j];
        ghost var mid := budgets;
        ChargeById(row.id, row.period, row.periodStart, cost, now);
        ChargeNext(before, mid, budgets, rows[..j], row, cost, now);
        assert rows[..j + 1] == rows[..j] + [row];
      }
      assert rows[..|rows|] == rows;
      forall i | 0 <= i < |before|
        ensures before[i] in rows <==> Hit(before[i], s)
      {
        assert before[i] in before;
      }
    }

    /** One transaction: the usage record, then every active budget of every subject. */
    method SettleUsage(input: SettleInput, now: int)
      requires UniqueIds(budgets)
      modifies this
      ensures View() == SettleTables(old(View()), input, now)
    {
      usage := usage + [UsageRowOf(input, now)];
      if Accrues(input) {
        ghost var before := budgets;
        for k := 0 to |input.subjects|
          invariant |budgets| == |before| && UniqueIds(budgets)
          invariant forall i | 0 <= i < |before| ::
                      budgets[i] == ChargeAll(before[i], input.subjects[..k], input.costMicro, now)
          invariant usage == old(usage) + [UsageRowOf(input, now)] && audit == old(audit)
        {
          ChargeActive(input.subjects[k], input.costMicro, now);
          assert input.subjects[..k + 1] == input.subjects[..k] + [input.subjects[k]];
          forall i | 0 <= i < |before|
            ensures budgets[i] == ChargeAll(before[i], input.subjects[..k + 1], input.costMicro, now)
          {
            ChargeOneMore(before[i], input.subjects[..k], input.subjects[k], input.costMicro, now);
          }
        }
        assert input.subjects[..|input.subjects|] == input.subjects;
      }
      assert View() == SettleTables(old(View()), input, now);
    }

    method Create(id: string, req: CreateReq, subjectExists: bool, now: int) returns (r: Outcome<Budget>)
      modifies this
      ensures ValidateCreate(req, subjectExists).Refused? ==>
                View() == old(View()) && r == Refused(ValidateCreate(req, subjectExists).error)
      ensures ValidateCreate(req, subjectExists).Done? ==>
                var n := ValidateCreate(req, subjectExists).value;
                && View() == CreateTables(old(View()), id, n, now)
                && r == if Taken(old(budgets), n.subject, n.period) then Refused(Conflict) else Done(NewRow(id, n, now))
    {
      if req.subjectType !in {"user", "team", "key"} {
        return Refused(BadRequest);
      }
      if !subjectExists {
        return Refused(NotFound);
      }
      if req.period !in {"monthly", "total"} {
        return Refused(BadRequest);
      }
      var limit := Money.ParseCny(req.limitCny);
      if limit.Rejected? || limit.value <= 0 || !ThresholdOk(req.alertThreshold) {
        return Refused(BadRequest);
      }
      var s := Subject(req.subjectType, req.subjectId);
      var p := if req.period == "monthly" then Monthly else Total;
      var periodStart := if p == Monthly then MonthStartEpoch(now) else now;
      if Taken(budgets, s, p) {
        return Refused(Conflict);
      }
      var row := Budget(id, s, p, limit.value, 0, periodStart, req.alertThreshold, Active);
      budgets := budgets + [row];
      audit := audit + [AuditEvent("budget.create", now)];
      return Done(row);
    }

    method Update(id: string, req: UpdateReq, now: int) returns (r: Outcome<()>)
      modifies this
      ensures ValidateUpdate(req).Refused? ==> View() == old(View()) && r == Refused(ValidateUpdate(req).error)
      ensures ValidateUpdate(req).Done? ==>
                && View() == UpdateTables(old(View()), id, ValidateUpdate(req).value, now)
                && r == if HasId(old(budgets), id) then Done(()) else Refused(NotFound)
    {
      if req.limitCny.None? && req.alertThreshold.None? && req.status.None? {
        return Refused(BadRequest);
      }
      var limit: Option<int> := None;
      if req.limitCny.Some? {
        var parsed := Money.ParseCny(req.limitCny.value);
        if parsed.Rejected? || parsed.value <= 0 {
          return Refused(BadRequest);
        }
        limit := Some(parsed.value);
      }
      if req.alertThreshold.Some? && !ThresholdOk(req.alertThreshold.value) {
        return Refused(BadRequest);
      }
      if req.status.Some? && req.status.value !in {"active", "disabled"} {
        return Refused(BadRequest);
      }
      if !HasId(budgets, id) {
        return Refused(NotFound);
      }
      budgets := UpdateWhere(budgets, (b: Budget) => b.id == id, (b: Budget) =>
        b.(limitMicro := limit.GetOr(b.limitMicro), alertThreshold := req.alertThreshold.GetOr(b.alertThreshold),
           status := if req.status.None? then b.status else if req.status.value == "active" then Active else Disabled));
      audit := audit + [AuditEvent("budget.update", now)];
      assert View() == UpdateTables(old(View()), id, ValidateUpdate(req).value, now);
      r := Done(());
    }

    method RunMonthlyRolloverOnce(now: int) returns (changed: nat)
      modifies this`budgets
      ensures View() == RolloverTables(old(View()), now) && changed == RolloverCount(old(budgets), now)
    {
      var monthStart := MonthStartEpoch(now);
      changed := |SelectWhere(budgets, RollsOverAt(now))|;
      budgets := UpdateWhere(budgets,
                             (b: Budget) => b.period == Monthly && b.status == Active && b.periodStart < monthStart,
                             (b: Budget) => b.(usedMicro := 0, periodStart := monthStart));
      assert View() == RolloverTables(old(View()), now);
    }

    method RunAuditCleanupOnce(now: int, retentionDays: int) returns (changed: nat)
      modifies this`usage, this`audit
      ensures View() == CleanupTables(old(View()), now, retentionDays)
      ensures changed == |SelectWhere(old(usage), ExpiredBy(now - retentionDays * 86_400))|
    {
      var cutoff := now - retentionDays * 86_400;
      changed := |SelectWhere(usage, ExpiredBy(cutoff))|;
      usage := UpdateWhere(usage, ExpiredBy(cutoff),
                           (r: UsageRow) => r.(requestBody := None, responseBody := None));
      audit := SelectWhere(audit, KeptSince(cutoff));
      assert View() == CleanupTables(old(View()), now, retentionDays);
    }
  }
}
