/** Concurrent logins (src/admin/api.rs): a login checks the limiter, works for a while, and then records its failure under
    the time stamp of its check.  Failures of one key are therefore recorded late and in any order. */
module Logins {
  import opened Prelude
  import opened Limiter

  /** The limiter, the logins of one key that passed the check and have not ended, each with its stamp, the stamps of the
      failures recorded for that key, and the time. */
  datatype Desk = Desk(table: Table, open: map<nat, int>, log: seq<int>, clock: int)

  datatype Move =
    | Begin(login: nat, now: int)                     // the check lets the key through
    | Fail(login: nat, now: int)                      // the failure is recorded
    | Leave(login: nat, now: int)                     // the login ends without a word to the limiter
    | OtherFail(other: string, stamp: int, now: int)  // another key fails
    | OtherClear(other: string, now: int)             // another key succeeds

  function Apply(d: Desk, mv: Move, key: string): Desk {
    match mv
    case Begin(login, now) => d.(open := d.open[login := now], clock := now)
    case Fail(login, now) =>
      if login in d.open then
        Desk(AfterFailure(d.table, key, d.open[login]), d.open - {login}, d.log + [d.open[login]], now)
      else d.(clock := now)
    case Leave(login, now) => d.(open := d.open - {login}, clock := now)
    case OtherFail(other, stamp, now) => d.(table := AfterFailure(d.table, other, stamp), clock := now)
    case OtherClear(other, now) => d.(table := d.table - {other}, clock := now)
  }

  /** Time does not go back, stamps are not in the future, and at most `n` logins of the key are open at once. */
  predicate Allowed(d: Desk, mv: Move, key: string, n: nat) {
    d.clock <= mv.now
    && match mv
       case Begin(login, now) => login !in d.open && |d.open| < n && CheckAnswer(d.table, key, now) == None
       case Fail(login, _) => login in d.open
       case Leave(login, _) => login in d.open
       case OtherFail(other, stamp, now) => other != key && stamp <= now
       case OtherClear(other, _) => other != key
  }

  function RunMoves(d: Desk, moves: seq<Move>, key: string): Desk {
    if moves == [] then d else Apply(RunMoves(d, moves[..|moves| - 1], key), moves[|moves| - 1], key)
  }

  predicate AllAllowed(d: Desk, moves: seq<Move>, key: string, n: nat) {
    moves == []
    || (AllAllowed(d, moves[..|moves| - 1], key, n)
        && Allowed(RunMoves(d, moves[..|moves| - 1], key), moves[|moves| - 1], key, n))
  }

  // ----- counting an interval

  predicate Within(stamp: int, from: int) { from <= stamp < from + 900 }

  /** How many of the stamps lie in the interval of 900 seconds. */
  function Inside(log: seq<int>, from: int): nat {
    if log == [] then 0
    else Inside(log[..|log| - 1], from) + if Within(log[|log| - 1], from) then 1 else 0
  }

  /** Open logins from before the interval, and from inside it. */
  function OldOnes(open: map<nat, int>, from: int): set<nat> { set l | l in open && open[l] < from }

  function NewOnes(open: map<nat, int>, from: int): set<nat> { set l | l in open && Within(open[l], from) }

  lemma {:induction false} Subset(a: set<nat>, b: set<nat>)
    requires a <= b
    ensures |a| <= |b|
  {
    if x :| x in a {
      Subset(a - {x}, b - {x});
    }
  }

  lemma OpenSplit(open: map<nat, int>, from: int)
    ensures |OldOnes(open, from)| + |NewOnes(open, from)| <= |open|
  {
    var both := OldOnes(open, from) + NewOnes(open, from);
    assert OldOnes(open, from) !! NewOnes(open, from);
    Subset(both, open.Keys);
  }

  lemma OpenLess(open: map<nat, int>, login: nat, from: int)
    requires login in open
    ensures var less := open - {login};
            && |less| == |open| - 1
            && |OldOnes(less, from)| == |OldOnes(open, from)| - (if open[login] < from then 1 else 0)
            && |NewOnes(less, from)| == |NewOnes(open, from)| - (if Within(open[login], from) then 1 else 0)
  {
    var less := open - {login};
    assert less.Keys == open.Keys - {login};
    assert OldOnes(less, from) == OldOnes(open, from) - {login};
    assert NewOnes(less, from) == NewOnes(open, from) - {login};
  }

  lemma OldSame(open: map<nat, int>, login: nat, now: int, from: int)
    requires login !in open && from <= now
    ensures OldOnes(open[login := now], from) == OldOnes(open, from)
  {
  }

  lemma NewMore(open: map<nat, int>, login: nat, now: int, from: int)
    requires login !in open
    ensures NewOnes(open[login := now], from) == NewOnes(open, from) + if Within(now, from) then {login} else {}
  {
  }

  lemma OpenMore(open: map<nat, int>, login: nat, now: int, from: int)
    requires login !in open && from <= now
    ensures var more := open[login := now];
            && |more| == |open| + 1
            && |OldOnes(more, from)| == |OldOnes(open, from)|
            && |NewOnes(more, from)| == |NewOnes(open, from)| + (if Within(now, from) then 1 else 0)
  {
    assert open[login := now].Keys == open.Keys + {login};
    OldSame(open, login, now, from);
    NewMore(open, login, now, from);
  }

  // ----- how many more the limiter may let through

  /** What one more open login from before the interval is worth: recorded at the fifth count, its old stamp replaces the
      lock and lets five more through, and as many as may be open. */
  function Worth(n: nat): nat { n + 4 }

  /** At most this many further logins of the key pass the check in the interval, with `early` logins open from before it and
      `free` more that may open: up to the next lock, plus four if the window may still start again in the interval. */
  function Room(e: Entry, from: int, n: nat, early: nat, free: int): int {
    var again := if e.windowStart >= from then 0 else 4;
    Times(early, Worth(n))
    + if e.lockedUntil >= from + 900 then again
      else if from - e.windowStart > WINDOW_SECS then 4 + free
      else 4 - e.count + again + free
  }

  /** A failure stamped inside the interval leaves room for as many. */
  lemma NewFailureRoom(e: Entry, stamp: int, from: int, n: nat, early: nat, free: int)
    requires 0 <= e.count <= 4 && Within(stamp, from) && 0 <= free
    ensures Room(e.Bump(stamp), from, n, early, free + 1) <= Room(e, from, n, early, free)
    ensures 0 <= e.Bump(stamp).count <= 4
  {
  }

  /** A failure stamped before it may unlock, and uses up one login from before. */
  lemma OldFailureRoom(e: Entry, stamp: int, from: int, n: nat, early: nat, free: int)
    requires 0 <= e.count <= 4 && stamp < from && 1 <= early && 0 <= free && free + early <= n
    ensures Room(e.Bump(stamp), from, n, early - 1, free + 1) <= Room(e, from, n, early, free)
    ensures 0 <= e.Bump(stamp).count <= 4
  {
    assert Times(early, Worth(n)) == Worth(n) + Times(early - 1, Worth(n));
  }

  /** An eviction within the interval makes no room. */
  lemma EvictionRoom(e: Entry, stamp: int, from: int, n: nat, early: nat, free: int)
    requires 0 <= e.count <= 4 && e.Stale(stamp) && stamp < from + 900 && WINDOW_SECS < from
    ensures Room(DEFAULT, from, n, early, free) <= Room(e, from, n, early, free)
  {
  }

  /** What other keys do to this key's entry: nothing, or evict it when it is stale. */
  lemma OtherKey(table: Table, key: string, other: string, stamp: int)
    requires other != key
    ensures var e, f := Lookup(table, key), Lookup(AfterFailure(table, other, stamp), key);
            f == e || (f == DEFAULT && e.Stale(stamp))
    ensures Lookup(table - {other}, key) == Lookup(table, key)
  {
  }

  /** The numbers behind `Bounded`: the failures inside so far, the open logins from before and from inside the interval. */
  predicate Counts(e: Entry, inside: nat, early: nat, late: nat, clock: int, from: int, n: nat, max: int) {
    && 0 <= e.count <= 4
    && inside + late + (if clock < from + 900 then Room(e, from, n, early, n - early - late) else 0) <= max
  }

  /** The failures of the interval, those still open, and those there is room for never exceed `max`. */
  predicate Bounded(d: Desk, key: string, from: int, n: nat, max: int) {
    && |d.open| <= n && (forall l | l in d.open :: d.open[l] <= d.clock)
    && Counts(Lookup(d.table, key), Inside(d.log, from), |OldOnes(d.open, from)|, |NewOnes(d.open, from)|, d.clock, from, n,
              max)
  }

  lemma RoomHolds(e: Entry, from: int, n: nat, early: nat, free: int)
    requires 0 <= e.count <= 4 && 0 <= free
    ensures 0 <= Room(e, from, n, early, free)
  {
  }

  lemma RoomNonneg(d: Desk, key: string, from: int, n: nat)
    requires 0 <= Lookup(d.table, key).count <= 4 && |d.open| <= n
    ensures var early, late := |OldOnes(d.open, from)|, |NewOnes(d.open, from)|;
            0 <= n - early - late && 0 <= Room(Lookup(d.table, key), from, n, early, n - early - late)
  {
    OpenSplit(d.open, from);
  }

  lemma BeginBounded(d: Desk, mv: Move, key: string, from: int, n: nat, max: int)
    requires Bounded(d, key, from, n, max) && mv.Begin? && Allowed(d, mv, key, n) && WINDOW_SECS < from <= mv.now
    ensures Bounded(Apply(d, mv, key), key, from, n, max)
  {
    RoomNonneg(d, key, from, n);
    OpenMore(d.open, mv.login, mv.now, from);
  }

  lemma FailCounts(e: Entry, stamp: int, inside: nat, early: nat, late: nat, clock: int, now: int, from: int, n: nat,
                   max: int)
    requires Counts(e, inside, early, late, clock, from, n, max) && early + late <= n && stamp <= clock <= now
    requires (stamp < from ==> 1 <= early) && (Within(stamp, from) ==> 1 <= late)
    ensures if stamp < from then Counts(e.Bump(stamp), inside, early - 1, late, now, from, n, max)
            else if Within(stamp, from) then Counts(e.Bump(stamp), inside + 1, early, late - 1, now, from, n, max)
            else Counts(e.Bump(stamp), inside, early, late, now, from, n, max)
  {
    var free := n - early - late;
    RoomHolds(e, from, n, early, free);
    if stamp < from {
      OldFailureRoom(e, stamp, from, n, early, free);
    } else if Within(stamp, from) {
      NewFailureRoom(e, stamp, from, n, early, free);
    }
  }

  lemma InsideSnoc(log: seq<int>, stamp: int, from: int)
    ensures Inside(log + [stamp], from) == Inside(log, from) + if Within(stamp, from) then 1 else 0
  {
    assert (log + [stamp])[..|log|] == log;
  }

  lemma RecordedLookup(table: Table, key: string, stamp: int)
    ensures Lookup(AfterFailure(table, key, stamp), key) == Lookup(table, key).Bump(stamp)
  {
    RecordedSurvives(table, key, stamp);
  }

  /** What recording a failure does to the desk. */
  lemma FailEffect(d: Desk, mv: Move, key: string)
    requires mv.Fail? && mv.login in d.open
    ensures var d', stamp := Apply(d, mv, key), d.open[mv.login];
            && Lookup(d'.table, key) == Lookup(d.table, key).Bump(stamp)
            && d'.open == d.open - {mv.login} && d'.clock == mv.now && d'.log == d.log + [stamp]
  {
    RecordedLookup(d.table, key, d.open[mv.login]);
  }

  lemma RecordedBounded(d: Desk, d': Desk, login: nat, key: string, from: int, n: nat, max: int)
    requires Bounded(d, key, from, n, max) && login in d.open && d.clock <= d'.clock
    requires Lookup(d'.table, key) == Lookup(d.table, key).Bump(d.open[login]) && d'.open == d.open - {login}
    requires d'.log == d.log + [d.open[login]]
    ensures Bounded(d', key, from, n, max)
  {
    InsideSnoc(d.log, d.open[login], from);
    OpenSplit(d.open, from);
    OpenLess(d.open, login, from);
    FailCounts(Lookup(d.table, key), d.open[login], Inside(d.log, from), |OldOnes(d.open, from)|, |NewOnes(d.open, from)|,
               d.clock, d'.clock, from, n, max);
  }

  lemma FailBounded(d: Desk, mv: Move, key: string, from: int, n: nat, max: int)
    requires Bounded(d, key, from, n, max) && mv.Fail? && Allowed(d, mv, key, n) && from <= mv.now
    ensures Bounded(Apply(d, mv, key), key, from, n, max)
  {
    FailEffect(d, mv, key);
    RecordedBounded(d, Apply(d, mv, key), mv.login, key, from, n, max);
  }

  lemma LeaveBounded(d: Desk, mv: Move, key: string, from: int, n: nat, max: int)
    requires Bounded(d, key, from, n, max) && mv.Leave? && Allowed(d, mv, key, n) && from <= mv.now
    ensures Bounded(Apply(d, mv, key), key, from, n, max)
  {
    RoomNonneg(d, key, from, n);
    OpenLess(d.open, mv.login, from);
  }

  lemma OtherBounded(d: Desk, mv: Move, key: string, from: int, n: nat, max: int)
    requires Bounded(d, key, from, n, max) && (mv.OtherFail? || mv.OtherClear?) && Allowed(d, mv, key, n)
    requires WINDOW_SECS < from <= mv.now
    ensures Bounded(Apply(d, mv, key), key, from, n, max)
  {
    var e, early, late := Lookup(d.table, key), |OldOnes(d.open, from)|, |NewOnes(d.open, from)|;
    RoomNonneg(d, key, from, n);
    OtherKey(d.table, key, mv.other, if mv.OtherFail? then mv.stamp else 0);
    if mv.OtherFail? && mv.now < from + 900 && e.Stale(mv.stamp) {
      EvictionRoom(e, mv.stamp, from, n, early, n - early - late);
    }
  }

  /** The bound: nine for one login at a time, one more for each further login that may be open at once, and `n` + 3 for
      each login that was open when the interval began. */
  function Most(n: nat, open: nat): nat { 8 + n + Times(open, n + 3) }

  lemma MostInFull(n: nat, open: nat)
    ensures Most(n, open) == 8 + n + open * (n + 3)
  {
    TimesIsProduct(open, n + 3);
  }

  lemma {:induction false} TimesPlus(k: nat, x: int)
    ensures Times(k, x + 1) == Times(k, x) + k
  {
    if k > 0 {
      TimesPlus(k - 1, x);
    }
  }

  lemma StartBounded(d: Desk, key: string, from: int, n: nat)
    requires 0 <= Lookup(d.table, key).count <= 4 && |d.open| <= n
    requires Inside(d.log, from) == 0 && forall l | l in d.open :: d.open[l] < from && d.open[l] <= d.clock
    ensures Bounded(d, key, from, n, Most(n, |d.open|))
  {
    assert OldOnes(d.open, from) == d.open.Keys;
    assert NewOnes(d.open, from) == {};
    TimesPlus(|d.open|, n + 3);
  }

  lemma BoundedInside(d: Desk, key: string, from: int, n: nat, max: int)
    requires Bounded(d, key, from, n, max)
    ensures Inside(d.log, from) <= max
  {
    RoomNonneg(d, key, from, n);
  }

  lemma MoveBounded(d: Desk, mv: Move, key: string, from: int, n: nat, max: int)
    requires Bounded(d, key, from, n, max) && Allowed(d, mv, key, n) && WINDOW_SECS < from <= mv.now
    ensures Bounded(Apply(d, mv, key), key, from, n, max)
  {
    match mv
    case Begin(_, _) => BeginBounded(d, mv, key, from, n, max);
    case Fail(_, _) => FailBounded(d, mv, key, from, n, max);
    case Leave(_, _) => LeaveBounded(d, mv, key, from, n, max);
    case _ => OtherBounded(d, mv, key, from, n, max);
  }

  lemma {:induction false} RunBounded(d: Desk, moves: seq<Move>, key: string, from: int, n: nat, max: int)
    requires Bounded(d, key, from, n, max) && AllAllowed(d, moves, key, n) && WINDOW_SECS < from
    requires forall i | 0 <= i < |moves| :: from <= moves[i].now
    ensures Bounded(RunMoves(d, moves, key), key, from, n, max)
  {
    if moves != [] {
      var init := moves[..|moves| - 1];
      RunBounded(d, init, key, from, n, max);
      MoveBounded(RunMoves(d, init, key), moves[|moves| - 1], key, from, n, max);
    }
  }

  // ----- whole runs

  const FIRST := Desk(map[], map[], [], 0)

  /** What every run before the interval leaves. */
  predicate Before(d: Desk, key: string, from: int, n: nat) {
    && 0 <= Lookup(d.table, key).count <= 4 && |d.open| <= n && d.clock < from
    && (forall l | l in d.open :: d.open[l] <= d.clock)
    && (forall i | 0 <= i < |d.log| :: d.log[i] < from)
  }

  lemma {:induction false} NothingInside(log: seq<int>, from: int)
    requires forall i | 0 <= i < |log| :: log[i] < from
    ensures Inside(log, from) == 0
  {
    if log != [] {
      NothingInside(log[..|log| - 1], from);
    }
  }

  lemma OpenBefore(d: Desk, mv: Move, key: string, from: int, n: nat)
    requires Before(d, key, from, n) && Allowed(d, mv, key, n) && mv.now < from
    requires mv.Begin? || mv.Leave?
    ensures Before(Apply(d, mv, key), key, from, n)
  {
    if mv.Begin? {
      OpenMore(d.open, mv.login, mv.now, mv.now);
    } else {
      OpenLess(d.open, mv.login, from);
    }
  }

  lemma FailBefore(d: Desk, mv: Move, key: string, from: int, n: nat)
    requires Before(d, key, from, n) && Allowed(d, mv, key, n) && mv.now < from && mv.Fail?
    ensures Before(Apply(d, mv, key), key, from, n)
  {
    OpenLess(d.open, mv.login, from);
    RecordedSurvives(d.table, key, d.open[mv.login]);
  }

  lemma MoveBefore(d: Desk, mv: Move, key: string, from: int, n: nat)
    requires Before(d, key, from, n) && Allowed(d, mv, key, n) && mv.now < from
    ensures Before(Apply(d, mv, key), key, from, n)
  {
    match mv
    case OtherFail(other, stamp, _) => OtherKey(d.table, key, other, stamp);
    case OtherClear(other, _) => OtherKey(d.table, key, other, 0);
    case Fail(_, _) => FailBefore(d, mv, key, from, n);
    case _ => OpenBefore(d, mv, key, from, n);
  }

  lemma {:induction false} RunBefore(moves: seq<Move>, key: string, from: int, n: nat)
    requires AllAllowed(FIRST, moves, key, n) && 0 < from
    requires forall i | 0 <= i < |moves| :: moves[i].now < from
    ensures Before(RunMoves(FIRST, moves, key), key, from, n)
  {
    if moves != [] {
      var init := moves[..|moves| - 1];
      RunBefore(init, key, from, n);
      MoveBefore(RunMoves(FIRST, init, key), moves[|moves| - 1], key, from, n);
    }
  }

  lemma IntervalBound(d: Desk, moves: seq<Move>, key: string, from: int, n: nat)
    requires Before(d, key, from, n) && AllAllowed(d, moves, key, n) && WINDOW_SECS < from
    requires forall i | 0 <= i < |moves| :: from <= moves[i].now
    ensures Inside(RunMoves(d, moves, key).log, from) <= Most(n, |d.open|)
  {
    NothingInside(d.log, from);
    StartBounded(d, key, from, n);
    RunBounded(d, moves, key, from, n, Most(n, |d.open|));
    BoundedInside(RunMoves(d, moves, key), key, from, n, Most(n, |d.open|));
  }

  /** With at most `n` logins of a key open at once, an interval of 900 seconds holds at most 8 + n of its failures, by the
      stamps they are recorded under, and n + 3 more for each login that was open when the interval began. */
  lemma ConcurrentBound(earlier: seq<Move>, later: seq<Move>, key: string, from: int, n: nat)
    requires WINDOW_SECS < from && AllAllowed(FIRST, earlier, key, n)
    requires AllAllowed(RunMoves(FIRST, earlier, key), later, key, n)
    requires forall i | 0 <= i < |earlier| :: earlier[i].now < from
    requires forall i | 0 <= i < |later| :: from <= later[i].now
    ensures var d := RunMoves(FIRST, earlier, key);
            Inside(RunMoves(d, later, key).log, from) <= Most(n, |d.open|)
  {
    var d := RunMoves(FIRST, earlier, key);
    RunBefore(earlier, key, from, n);
    IntervalBound(d, later, key, from, n);
  }

  // ----- the bound is attained

  /** Allowed moves lead from one desk to another, all within these times. */
  predicate Reaches(start: Desk, moves: seq<Move>, d: Desk, key: string, n: nat, lo: int, hi: int) {
    && AllAllowed(start, moves, key, n) && RunMoves(start, moves, key) == d
    && forall i | 0 <= i < |moves| :: lo <= moves[i].now <= hi
  }

  lemma ReachesNext(start: Desk, moves: seq<Move>, d: Desk, mv: Move, key: string, n: nat, lo: int, hi: int)
    requires Reaches(start, moves, d, key, n, lo, hi) && Allowed(d, mv, key, n) && lo <= mv.now <= hi
    ensures Reaches(start, moves + [mv], Apply(d, mv, key), key, n, lo, hi)
  {
    assert (moves + [mv])[..|moves|] == moves;
  }

  lemma ReachesTwo(start: Desk, moves: seq<Move>, d: Desk, a: Move, b: Move, key: string, n: nat, lo: int, hi: int)
    requires Reaches(start, moves, d, key, n, lo, hi) && lo <= a.now <= hi && lo <= b.now <= hi
    requires Allowed(d, a, key, n) && Allowed(Apply(d, a, key), b, key, n)
    ensures Reaches(start, moves + [a] + [b], Apply(Apply(d, a, key), b, key), key, n, lo, hi)
  {
    ReachesNext(start, moves, d, a, key, n, lo, hi);
    ReachesNext(start, moves + [a], Apply(d, a, key), b, key, n, lo, hi);
  }

  lemma {:induction false} RepeatSnoc(t: int, k: nat)
    requires 0 < k
    ensures Repeat(t, k) == Repeat(t, k - 1) + [t]
  {
  }

  /** Only this key is known, nobody is logging in, and its entry is `e`. */
  predicate Quiet(d: Desk, key: string, e: Entry) {
    d.open == map[] && d.table.Keys <= {key} && Lookup(d.table, key) == e
  }

  /** One login fails within a second. */
  lemma FailsOnce(d: Desk, key: string, n: nat, e: Entry, t: int)
    requires Quiet(d, key, e) && e.lockedUntil <= t && d.clock <= t && 1 <= n
    ensures Allowed(d, Begin(0, t), key, n)
    ensures var begun := Apply(d, Begin(0, t), key);
            var after := Apply(begun, Fail(0, t), key);
            && Allowed(begun, Fail(0, t), key, n) && Quiet(after, key, e.Bump(t))
            && after.log == d.log + [t] && after.clock == t
  {
    assert Recorded(d.table, key, t) == map[key := e.Bump(t)];
    assert d.open[0 := t] - {0} == map[];
  }

  /** The same at the end of a run. */
  lemma OneInTurn(start: Desk, moves: seq<Move>, d: Desk, key: string, n: nat, lo: int, hi: int, e: Entry, t: int)
    returns (longer: seq<Move>, after: Desk)
    requires Reaches(start, moves, d, key, n, lo, hi) && Quiet(d, key, e) && e.lockedUntil <= t && d.clock <= t
    requires 1 <= n && lo <= t <= hi
    ensures Reaches(start, longer, after, key, n, lo, hi) && Quiet(after, key, e.Bump(t))
    ensures after.log == d.log + [t] && after.clock == t
  {
    FailsOnce(d, key, n, e, t);
    ReachesTwo(start, moves, d, Begin(0, t), Fail(0, t), key, n, lo, hi);
    longer, after := moves + [Begin(0, t)] + [Fail(0, t)], Apply(Apply(d, Begin(0, t), key), Fail(0, t), key);
  }

  /** The entry after `k` failures at `t`, up to a lock. */
  function AfterSecond(e: Entry, t: int, k: nat): Entry {
    var o := Opened(e, t);
    if k == 0 then e
    else if o.count + k == MAX_FAILS then o.(count := 0, lockedUntil := t + LOCK_SECS)
    else o.(count := o.count + k)
  }

  lemma BumpInSecond(e: Entry, t: int, k: nat)
    requires 0 < k && 0 <= e.count && e.lockedUntil <= t && Opened(e, t).count + k <= MAX_FAILS
    ensures AfterSecond(e, t, k - 1).Bump(t) == AfterSecond(e, t, k) && AfterSecond(e, t, k - 1).lockedUntil <= t
  {
  }

  /** One login after the other fails within a second. */
  lemma {:induction false} FailsInTurn(start: Desk, moves: seq<Move>, d: Desk, key: string, n: nat, lo: int, hi: int,
                                       e: Entry, t: int, k: nat)
    returns (longer: seq<Move>, after: Desk)
    requires Reaches(start, moves, d, key, n, lo, hi) && Quiet(d, key, e) && e.lockedUntil <= t && d.clock <= t
    requires 1 <= n && lo <= t <= hi && 0 <= e.count && Opened(e, t).count + k <= MAX_FAILS
    ensures Reaches(start, longer, after, key, n, lo, hi) && Quiet(after, key, AfterSecond(e, t, k))
    ensures after.log == d.log + Repeat(t, k) && after.clock <= t
    decreases k
  {
    if k == 0 {
      longer, after := moves, d;
    } else {
      var before;
      longer, before := FailsInTurn(start, moves, d, key, n, lo, hi, e, t, k - 1);
      var last := AfterSecond(e, t, k - 1);
      BumpInSecond(e, t, k);
      longer, after := OneInTurn(start, longer, before, key, n, lo, hi, last, t);
      RepeatSnoc(t, k);
      Regroup(d.log, Repeat(t, k - 1), [t]);
    }
  }

  /** `k` logins open at `t`. */
  function Crowd(t: int, k: nat): (open: map<nat, int>)
    ensures |open| == k && forall l: nat :: l in open <==> l < k
    ensures forall l | l in open :: open[l] == t
  {
    if k == 0 then map[] else Crowd(t, k - 1)[k - 1 := t]
  }

  lemma {:induction false} AllBegin(start: Desk, moves: seq<Move>, d: Desk, key: string, n: nat, lo: int, hi: int,
                                    t: int, k: nat)
    returns (longer: seq<Move>, after: Desk)
    requires Reaches(start, moves, d, key, n, lo, hi) && d.open == map[] && d.clock <= t && lo <= t <= hi && k <= n
    requires CheckAnswer(d.table, key, t) == None
    ensures Reaches(start, longer, after, key, n, lo, hi)
    ensures after.table == d.table && after.log == d.log && after.open == Crowd(t, k) && after.clock <= t
    decreases k
  {
    longer, after := moves, d;
    if k > 0 {
      var before;
      longer, before := AllBegin(start, moves, d, key, n, lo, hi, t, k - 1);
      var mv := Begin(k - 1, t);
      assert Allowed(before, mv, key, n);
      ReachesNext(start, longer, before, mv, key, n, lo, hi);
      longer, after := longer + [mv], Apply(before, mv, key);
    }
  }

  lemma OneLess(d: Desk, key: string, n: nat, t: int, k: nat)
    requires 0 < k && d.open == Crowd(t, k) && d.clock <= t
    ensures var mv := Fail(k - 1, t);
            && Allowed(d, mv, key, n) && Apply(d, mv, key).open == Crowd(t, k - 1)
            && Apply(d, mv, key).log == d.log + [t] && Apply(d, mv, key).clock == t
  {
    assert Crowd(t, k) - {k - 1} == Crowd(t, k - 1);
  }

  lemma {:induction false} AllFail(start: Desk, moves: seq<Move>, d: Desk, key: string, n: nat, lo: int, hi: int,
                                    t: int, k: nat)
    returns (longer: seq<Move>, after: Desk)
    requires Reaches(start, moves, d, key, n, lo, hi) && d.open == Crowd(t, k) && d.clock <= t && lo <= t <= hi
    ensures Reaches(start, longer, after, key, n, lo, hi) && after.log == d.log + Repeat(t, k)
    decreases k
  {
    longer, after := moves, d;
    if k > 0 {
      var mv := Fail(k - 1, t);
      OneLess(d, key, n, t, k);
      ReachesNext(start, moves, d, mv, key, n, lo, hi);
      longer, after := AllFail(start, moves + [mv], Apply(d, mv, key), key, n, lo, hi, t, k - 1);
      Regroup(d.log, [t], Repeat(t, k - 1));
    }
  }

  lemma {:induction false} InsideRepeat(log: seq<int>, t: int, k: nat, from: int)
    ensures Inside(log + Repeat(t, k), from) == Inside(log, from) + if Within(t, from) then k else 0
  {
    if k == 0 {
      assert log + Repeat(t, 0) == log;
    } else {
      var longer := log + Repeat(t, k);
      RepeatSnoc(t, k);
      assert longer[..|longer| - 1] == log + Repeat(t, k - 1) && longer[|longer| - 1] == t;
      InsideRepeat(log, t, k - 1, from);
    }
  }

  /** The same, counted. */
  lemma FailsCounted(start: Desk, moves: seq<Move>, d: Desk, key: string, n: nat, lo: int, hi: int, e: Entry, t: int, k: nat,
                     f: Entry, from: int)
    returns (longer: seq<Move>, after: Desk)
    requires Reaches(start, moves, d, key, n, lo, hi) && Quiet(d, key, e) && e.lockedUntil <= t && d.clock <= t
    requires 1 <= n && lo <= t <= hi && 0 <= e.count && Opened(e, t).count + k <= MAX_FAILS && f == AfterSecond(e, t, k)
    ensures Reaches(start, longer, after, key, n, lo, hi) && Quiet(after, key, f) && after.clock <= t
    ensures Inside(after.log, from) == Inside(d.log, from) + if Within(t, from) then k else 0
  {
    longer, after := FailsInTurn(start, moves, d, key, n, lo, hi, e, t, k);
    InsideRepeat(d.log, t, k, from);
  }

  lemma ReachesSelf(d: Desk, key: string, n: nat, lo: int, hi: int)
    ensures Reaches(d, [], d, key, n, lo, hi)
  {
  }

  /** The entry in three steps: locked by five failures at `t`, full after four in the second the lock ends, and full again
      after four in the next, which starts a new window. */
  lemma Steps(t: int)
    requires WINDOW_SECS < t
    ensures AfterSecond(DEFAULT, t, 5) == Entry(0, t, t + 900) && Opened(DEFAULT, t).count == 0
    ensures AfterSecond(Entry(0, t, t + 900), t + 900, 4) == Entry(4, t, t + 900)
    ensures AfterSecond(Entry(4, t, t + 900), t + 901, 4) == Entry(4, t + 901, t + 900)
    ensures Opened(Entry(0, t, t + 900), t + 900).count == 0 && Opened(Entry(4, t, t + 900), t + 901).count == 0
  {
  }

  /** Failures in one second, and then in another. */
  lemma TwoSeconds(d: Desk, key: string, n: nat, t: int, k: nat, u: int, j: nat, e: Entry, f: Entry, g: Entry, from: int)
    returns (moves: seq<Move>, after: Desk)
    requires 1 <= n && Quiet(d, key, e) && d.clock <= t <= u && e.lockedUntil <= t && f.lockedUntil <= u
    requires 0 <= e.count && Opened(e, t).count + k <= MAX_FAILS && f == AfterSecond(e, t, k)
    requires 0 <= f.count && Opened(f, u).count + j <= MAX_FAILS && g == AfterSecond(f, u, j)
    requires Within(t, from) && Within(u, from)
    ensures Reaches(d, moves, after, key, n, t, u) && Quiet(after, key, g) && after.clock <= u
    ensures Inside(after.log, from) == Inside(d.log, from) + k + j
  {
    ReachesSelf(d, key, n, t, u);
    var first, between := FailsCounted(d, [], d, key, n, t, u, e, t, k, f, from);
    moves, after := FailsCounted(d, first, between, key, n, t, u, f, u, j, g, from);
  }

  /** All `n` logins fail at once. */
  lemma AllAtOnce(start: Desk, moves: seq<Move>, d: Desk, key: string, n: nat, lo: int, hi: int, from: int)
    returns (longer: seq<Move>, after: Desk)
    requires Reaches(start, moves, d, key, n, lo, hi) && d.open == map[] && d.clock <= hi && lo <= hi && Within(hi, from)
    requires CheckAnswer(d.table, key, hi) == None
    ensures Reaches(start, longer, after, key, n, lo, hi) && Inside(after.log, from) == Inside(d.log, from) + n
  {
    var begun, crowded := AllBegin(start, moves, d, key, n, lo, hi, hi, n);
    longer, after := AllFail(start, begun, crowded, key, n, lo, hi, hi, n);
    InsideRepeat(d.log, hi, n, from);
  }

  /** A run with no login open at `t` + 900: locked by five failures at `t`. */
  lemma LockedFirst(key: string, n: nat, t: int, first: Desk) returns (moves: seq<Move>, d: Desk)
    requires 1 <= n && WINDOW_SECS < t && first == FIRST
    ensures Reaches(first, moves, d, key, n, t, t) && Quiet(d, key, Entry(0, t, t + 900))
    ensures d.clock <= t && Inside(d.log, t + 900) == 0
  {
    Steps(t);
    ReachesSelf(first, key, n, t, t);
    moves, d := FailsCounted(first, [], first, key, n, t, t, DEFAULT, t, 5, Entry(0, t, t + 900), t + 900);
  }

  /** Eight failures one after the other, and then all `n` logins at once. */
  lemma EightAndAll(d: Desk, key: string, n: nat, t: int) returns (moves: seq<Move>, after: Desk)
    requires 1 <= n && WINDOW_SECS < t && Quiet(d, key, Entry(0, t, t + 900)) && d.clock <= t
    ensures Reaches(d, moves, after, key, n, t + 900, t + 901)
    ensures Inside(after.log, t + 900) == Inside(d.log, t + 900) + 8 + n
  {
    var from, again := t + 900, Entry(4, t + 901, t + 900);
    Steps(t);
    var eight, between := TwoSeconds(d, key, n, from, 4, t + 901, 4, Entry(0, t, from), Entry(4, t, from), again, from);
    moves, after := AllAtOnce(d, eight, between, key, n, from, t + 901, from);
  }

  /** With no login open when the interval begins, 8 + n cannot be lowered. */
  lemma ConcurrentAttained(key: string, n: nat, t: int)
    returns (earlier: seq<Move>, d: Desk, later: seq<Move>, after: Desk)
    requires 1 <= n && WINDOW_SECS < t
    ensures Reaches(FIRST, earlier, d, key, n, t, t) && d.open == map[]
    ensures Reaches(d, later, after, key, n, t + 900, t + 901) && Inside(after.log, t + 900) == 8 + n
  {
    earlier, d := LockedFirst(key, n, t, FIRST);
    later, after := EightAndAll(d, key, n, t);
  }
}
