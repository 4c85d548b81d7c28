/** The login limiter (src/admin/limiter.rs): failure windows, locks, and eviction of stale entries. */
module Limiter {
  import opened Prelude

  const WINDOW_SECS := 900
  const MAX_FAILS := 5
  const LOCK_SECS := 900
  const MAX_ENTRIES := 1000

  datatype Entry = Entry(count: int, windowStart: int, lockedUntil: int) {
    /** One more failure at `now`. */
    function Bump(now: int): Entry {
      var e := if now - windowStart > WINDOW_SECS then this.(count := 0, windowStart := now) else this;
      if e.count + 1 >= MAX_FAILS then e.(count := 0, lockedUntil := now + LOCK_SECS)
      else e.(count := e.count + 1)
    }

    predicate Resets(now: int) { now - windowStart > WINDOW_SECS }

    predicate Locks(now: int) { (if Resets(now) then 0 else count) + 1 >= MAX_FAILS }

    predicate Stale(now: int) { lockedUntil <= now && now - windowStart > WINDOW_SECS }
  }

  const DEFAULT := Entry(0, 0, 0)

  type Table = map<string, Entry>

  function Lookup(m: Table, key: string): Entry { if key in m then m[key] else DEFAULT }

  /** The time until which `key` is locked, if it is. */
  function CheckAnswer(m: Table, key: string, now: int): Option<int> {
    if key in m && m[key].lockedUntil > now then Some(m[key].lockedUntil) else None
  }

  /** The table without eviction. */
  function Recorded(m: Table, key: string, now: int): Table { m[key := Lookup(m, key).Bump(now)] }

  function Retained(m: Table, now: int): Table { map k | k in m && !m[k].Stale(now) :: m[k] }

  function AfterFailure(m: Table, key: string, now: int): Table {
    var r := Recorded(m, key, now);
    if |r| > MAX_ENTRIES then Retained(r, now) else r
  }

  class LoginLimiter {
    var table: Table

    constructor ()
      ensures table == map[]
    {
      table := map[];
    }

    method Check(key: string, now: int) returns (locked: Option<int>)
      ensures locked == CheckAnswer(table, key, now)
    {
      if key in table && table[key].lockedUntil > now {
        return Some(table[key].lockedUntil);
      }
      return None;
    }

    method RecordFailure(key: string, now: int)
      modifies this
      ensures table == AfterFailure(old(table), key, now)
    {
      var e := if key in table then table[key] else DEFAULT;
      if now - e.windowStart > WINDOW_SECS {
        e := e.(count := 0, windowStart := now);
      }
      e := e.(count := e.count + 1);
      if e.count >= MAX_FAILS {
        e := e.(lockedUntil := now + LOCK_SECS, count := 0);
      }
      table := table[key := e];
      if |table| > MAX_ENTRIES {
        table := map k | k in table
                     && (table[k].lockedUntil > now || now - table[k].windowStart <= WINDOW_SECS) :: table[k];
      }
    }

    method Clear(key: string)
      modifies this
      ensures table == old(table) - {key}
    {
      table := table - {key};
    }
  }

  // ----- runs

  datatype Op = Check(key: string, at: int) | Failure(key: string, at: int) | Clear(key: string)

  function Apply(m: Table, op: Op): Table {
    match op
    case Check(_, _) => m
    case Failure(key, at) => AfterFailure(m, key, at)
    case Clear(key) => m - {key}
  }

  /** The limiter that never evicts. */
  function ApplyUnbounded(m: Table, op: Op): Table {
    match op
    case Failure(key, at) => Recorded(m, key, at)
    case _ => Apply(m, op)
  }

  function Run(m: Table, ops: seq<Op>): Table {
    if ops == [] then m else Apply(Run(m, ops[..|ops| - 1]), ops[|ops| - 1])
  }

  function RunUnbounded(m: Table, ops: seq<Op>): Table {
    if ops == [] then m else ApplyUnbounded(RunUnbounded(m, ops[..|ops| - 1]), ops[|ops| - 1])
  }

  /** No operation is stamped later than `clock`, and stamps never decrease. */
  predicate ClockedBy(ops: seq<Op>, clock: int) {
    ops == []
    || var op := ops[|ops| - 1];
       if op.Clear? then ClockedBy(ops[..|ops| - 1], clock)
       else op.at <= clock && ClockedBy(ops[..|ops| - 1], op.at)
  }

  lemma {:induction false} ClockedLater(ops: seq<Op>, clock: int, later: int)
    requires ClockedBy(ops, clock) && clock <= later
    ensures ClockedBy(ops, later)
  {
    if ops != [] && ops[|ops| - 1].Clear? {
      ClockedLater(ops[..|ops| - 1], clock, later);
    }
  }

  // ----- eviction cannot be observed

  /** From `now` on, the entries behave alike: same count and window, same lock unless both have expired. */
  predicate SameEntry(e: Entry, f: Entry, now: int) {
    && e.count == f.count && e.windowStart == f.windowStart
    && (e.lockedUntil == f.lockedUntil || (e.lockedUntil <= now && f.lockedUntil <= now))
  }

  /** `full` holds everything `m` holds; what `m` lacks is stale. */
  predicate Simulates(m: Table, full: Table, now: int) {
    && (forall k | k in m :: k in full && SameEntry(m[k], full[k], now))
    && (forall k | k in full && k !in m :: full[k].Stale(now))
    && (forall k | k in full :: full[k].windowStart == 0 || full[k].windowStart > WINDOW_SECS)
  }

  lemma FailureSimulates(m: Table, full: Table, key: string, now: int)
    requires Simulates(m, full, now)
    ensures Simulates(Recorded(m, key, now), Recorded(full, key, now), now)
  {
    var e, f := Lookup(m, key), Lookup(full, key);
    assert SameEntry(e.Bump(now), f.Bump(now), now);
  }

  /** One operation keeps the simulation, eviction included. */
  lemma StepSimulates(m: Table, full: Table, op: Op, now: int)
    requires Simulates(m, full, now) && (op.Clear? || op.at == now)
    ensures Simulates(Apply(m, op), ApplyUnbounded(full, op), now)
  {
    if op.Failure? {
      FailureSimulates(m, full, op.key, now);
    }
  }

  lemma SimulatesLater(m: Table, full: Table, s: int, t: int)
    requires Simulates(m, full, s) && s <= t
    ensures Simulates(m, full, t)
  {
  }

  lemma {:induction false} RunSimulates(ops: seq<Op>, clock: int)
    requires ClockedBy(ops, clock)
    ensures Simulates(Run(map[], ops), RunUnbounded(map[], ops), clock)
  {
    if ops != [] {
      var init, op := ops[..|ops| - 1], ops[|ops| - 1];
      var now := if op.Clear? then clock else op.at;
      RunSimulates(init, now);
      StepSimulates(Run(map[], init), RunUnbounded(map[], init), op, now);
      SimulatesLater(Run(map[], ops), RunUnbounded(map[], ops), now, clock);
    }
  }

  /** At any later time both limiters give every key the same answer, whatever the run. */
  lemma EvictionInvisible(ops: seq<Op>, key: string, now: int)
    requires ClockedBy(ops, now)
    ensures CheckAnswer(Run(map[], ops), key, now) == CheckAnswer(RunUnbounded(map[], ops), key, now)
  {
    RunSimulates(ops, now);
  }

  /** The key just recorded is never evicted. */
  lemma RecordedSurvives(m: Table, key: string, now: int)
    ensures key in AfterFailure(m, key, now)
    ensures AfterFailure(m, key, now)[key] == Lookup(m, key).Bump(now)
  {
    var e := Lookup(m, key).Bump(now);
    assert !e.Stale(now);
  }

  /** Nothing is evicted up to 1000 keys; beyond, exactly the keys that are neither locked nor in a window of 900 seconds. */
  lemma EvictsExactly(m: Table, key: string, now: int)
    ensures var r, a := Recorded(m, key, now), AfterFailure(m, key, now);
            && (|r| <= 1000 ==> a == r)
            && (|r| > 1000 ==> forall k :: k in a <==> k in r && (r[k].lockedUntil > now || now - r[k].windowStart <= 900))
            && forall k | k in a :: a[k] == r[k]
  {
  }

  /** A clock that runs backwards does expose eviction: an entry recorded at 2000 is stale at 3000, and a
      failure stamped 2100 after that counts in the old window only if the entry was kept. */
  lemma BackwardClockExposesEviction()
    ensures var e := DEFAULT.Bump(2000);
            e.Stale(3000) && e.Bump(2100).count == 2 && DEFAULT.Bump(2100).count == 1
  {
  }

  // ----- the rate bound

  function FailureTimes(ops: seq<Op>, key: string): seq<int> {
    if ops == [] then []
    else
      var op := ops[|ops| - 1];
      var before := FailureTimes(ops[..|ops| - 1], key);
      if op.Failure? && op.key == key then before + [op.at] else before
  }

  /** Each failure of `key` is recorded at a time (past the Epoch) when the limiter lets the key through,
      and the key is never cleared. */
  predicate Guarded(ops: seq<Op>, key: string) {
    ops == []
    || var init, op := ops[..|ops| - 1], ops[|ops| - 1];
       && Guarded(init, key)
       && op != Op.Clear(key)
       && (op.Failure? && op.key == key ==> 0 <= op.at && CheckAnswer(Run(map[], init), key, op.at) == None)
  }

  function Bumps(e: Entry, times: seq<int>): Entry
    decreases times
  {
    if times == [] then e else Bumps(e.Bump(times[0]), times[1..])
  }

  /** Failure times that never decrease, none before the lock of the entry has expired. */
  predicate Admissible(e: Entry, times: seq<int>)
    decreases times
  {
    times != [] ==>
      && e.lockedUntil <= times[0]
      && (|times| > 1 ==> times[0] <= times[1])
      && Admissible(e.Bump(times[0]), times[1..])
  }

  lemma {:induction false} AdmissibleAppend(e: Entry, a: seq<int>, b: seq<int>)
    requires Admissible(e, a) && Admissible(Bumps(e, a), b)
    requires a != [] && b != [] ==> a[|a| - 1] <= b[0]
    ensures Admissible(e, a + b) && Bumps(e, a + b) == Bumps(Bumps(e, a), b)
    decreases a
  {
    if a == [] {
      assert a + b == b;
    } else {
      assert (a + b)[1..] == a[1..] + b;
      AdmissibleAppend(e.Bump(a[0]), a[1..], b);
    }
  }

  /** A key's entry in the limiter that never evicts is the fold of its own failures, and those are admissible. */
  lemma {:induction false} KeyHistory(ops: seq<Op>, key: string, clock: int)
    requires Guarded(ops, key) && ClockedBy(ops, clock)
    ensures var times := FailureTimes(ops, key);
            && Lookup(RunUnbounded(map[], ops), key) == Bumps(DEFAULT, times)
            && Admissible(DEFAULT, times)
            && (times != [] ==> times[|times| - 1] <= clock)
  {
    if ops != [] {
      var init, op := ops[..|ops| - 1], ops[|ops| - 1];
      KeyHistory(init, key, if op.Clear? then clock else op.at);
      if op.Failure? && op.key == key {
        EvictionInvisible(init, key, op.at);
        AdmissibleAppend(DEFAULT, FailureTimes(init, key), [op.at]);
      }
    }
  }

  // ----- ten consecutive failures span at least 900 seconds

  predicate NoLock(e: Entry, times: seq<int>)
    decreases times
  {
    times != [] ==> !e.Locks(times[0]) && NoLock(e.Bump(times[0]), times[1..])
  }

  lemma {:induction false} AdmissibleDrop(e: Entry, times: seq<int>, k: nat)
    requires Admissible(e, times) && k <= |times|
    ensures Admissible(Bumps(e, times[..k]), times[k..])
    ensures 0 < k ==> times[0] <= times[k - 1]
    decreases times
  {
    if k > 0 {
      assert times[..k][1..] == times[1..][..k - 1] && times[1..][k - 1..] == times[k..];
      AdmissibleDrop(e.Bump(times[0]), times[1..], k - 1);
    }
  }

  lemma OrderedTimes(e: Entry, times: seq<int>, i: nat, j: nat)
    requires Admissible(e, times) && i <= j < |times|
    ensures times[i] <= times[j]
  {
    AdmissibleDrop(e, times, i);
    AdmissibleDrop(Bumps(e, times[..i]), times[i..], j - i + 1);
  }

  /** The failure after a lock waits for it. */
  lemma {:induction false} LockGap(e: Entry, times: seq<int>, n: nat)
    requires Admissible(e, times) && n < |times| && !NoLock(e, times[..n])
    ensures times[n] - times[0] >= LOCK_SECS
    decreases times
  {
    assert times[..n][1..] == times[1..][..n - 1];
    if e.Locks(times[0]) {
      OrderedTimes(e.Bump(times[0]), times[1..], 0, n - 1);
    } else {
      LockGap(e.Bump(times[0]), times[1..], n - 1);
    }
  }

  /** Without a lock, a window with `count` failures resets within the next 5 - count. */
  lemma {:induction false} ResetSoon(e: Entry, times: seq<int>) returns (p: nat)
    requires e.count <= 4 && |times| >= 5 - e.count && NoLock(e, times)
    ensures p <= 4 - e.count && times[p] - e.windowStart > WINDOW_SECS
    ensures Bumps(e, times[..p + 1]).count == 1 && Bumps(e, times[..p + 1]).windowStart == times[p]
    ensures NoLock(Bumps(e, times[..p + 1]), times[p + 1..])
    decreases times
  {
    if e.Resets(times[0]) {
      p := 0;
      assert times[..1][1..] == [];
    } else {
      p := ResetSoon(e.Bump(times[0]), times[1..]);
      assert times[..p + 2][1..] == times[1..][..p + 1] && times[1..][p + 1..] == times[p + 2..];
      p := p + 1;
    }
  }

  lemma TenSpan(e: Entry, times: seq<int>)
    requires 0 <= e.count <= 4 && |times| >= 10 && Admissible(e, times)
    ensures times[9] - times[0] >= 900
  {
    if !NoLock(e, times[..9]) {
      LockGap(e, times, 9);
    } else {
      var nine := times[..9];
      var p := ResetSoon(e, nine);
      var rest := nine[p + 1..];
      var q := ResetSoon(Bumps(e, nine[..p + 1]), rest);
      assert rest[q] == times[p + 1 + q];
      OrderedTimes(e, times, 0, p);
      OrderedTimes(e, times, p + 1 + q, 9);
    }
  }

  lemma {:induction false} BumpsBounded(e: Entry, times: seq<int>)
    requires 0 <= e.count <= 4
    ensures 0 <= Bumps(e, times).count <= 4
    decreases times
  {
    if times != [] {
      BumpsBounded(e.Bump(times[0]), times[1..]);
    }
  }

  /** In every guarded run with a clock that never goes back, ten consecutive failures of one key
      span at least 900 seconds. */
  lemma RateBound(ops: seq<Op>, key: string, clock: int, i: nat)
    requires Guarded(ops, key) && ClockedBy(ops, clock)
    requires i + 9 < |FailureTimes(ops, key)|
    ensures FailureTimes(ops, key)[i + 9] >= FailureTimes(ops, key)[i] + 900
  {
    var times := FailureTimes(ops, key);
    KeyHistory(ops, key, clock);
    AdmissibleDrop(DEFAULT, times, i);
    BumpsBounded(DEFAULT, times[..i]);
    TenSpan(Bumps(DEFAULT, times[..i]), times[i..]);
  }

  /** Hence a half-open interval of 900 seconds contains at most nine recorded failures of a key. */
  lemma AtMostNine(ops: seq<Op>, key: string, clock: int, from: int)
    requires Guarded(ops, key) && ClockedBy(ops, clock)
    ensures var times := FailureTimes(ops, key);
            |set i | 0 <= i < |times| && from <= times[i] < from + 900| <= 9
  {
    var times := FailureTimes(ops, key);
    var inside := set i | 0 <= i < |times| && from <= times[i] < from + 900;
    if first :| first in inside {
      var lo := Least(inside, first);
      forall j | j in inside
        ensures j < lo + 9
      {
        if lo + 9 < |times| {
          RateBound(ops, key, clock, lo);
        }
        if j > lo + 9 {
          KeyHistory(ops, key, clock);
          OrderedTimes(DEFAULT, times, lo + 9, j);
        }
      }
      WithinRange(inside, lo, 9);
    }
  }

  // ----- the bound is attained

  function Repeat(t: int, k: nat): (times: seq<int>)
    ensures |times| == k && forall i | 0 <= i < k :: times[i] == t
  {
    if k == 0 then [] else [t] + Repeat(t, k - 1)
  }

  /** The entry as a failure at `t` finds it. */
  function Opened(e: Entry, t: int): Entry { if e.Resets(t) then e.(count := 0, windowStart := t) else e }

  /** Failures in one second count up, and the fifth locks. */
  lemma {:induction false} InOneSecond(e: Entry, t: int, k: nat)
    requires 0 <= e.count && 1 <= k && Opened(e, t).count + k <= MAX_FAILS && e.lockedUntil <= t
    ensures Admissible(e, Repeat(t, k))
    ensures var o := Opened(e, t);
            Bumps(e, Repeat(t, k)) == if o.count + k == MAX_FAILS then o.(count := 0, lockedUntil := t + LOCK_SECS)
                                      else o.(count := o.count + k)
    decreases k
  {
    assert Repeat(t, k)[1..] == Repeat(t, k - 1);
    if k > 1 {
      InOneSecond(e.Bump(t), t, k - 1);
    }
  }

  lemma {:induction false} CountsUp(e: Entry, times: seq<int>)
    requires 0 < e.count && e.count + |times| <= MAX_FAILS
    requires e.count < MAX_FAILS && forall i | 0 <= i < |times| :: times[i] <= e.windowStart + WINDOW_SECS
    ensures Bumps(e, times).lockedUntil
            == if e.count + |times| < MAX_FAILS then e.lockedUntil else times[|times| - 1] + LOCK_SECS
    decreases times
  {
    if |times| > 1 {
      CountsUp(e.Bump(times[0]), times[1..]);
    }
  }

  /** A first window locks at its fifth failure and not before. */
  lemma FifthLocks(times: seq<int>)
    requires 1 <= |times| <= 5 && times[0] > 900
    requires forall i | 0 <= i < |times| :: times[0] <= times[i] <= times[0] + 900
    ensures Bumps(DEFAULT, times).lockedUntil == if |times| < 5 then 0 else times[4] + 900
  {
    CountsUp(DEFAULT.Bump(times[0]), times[1..]);
  }

  lemma {:induction false} AdmissiblePrefix(e: Entry, times: seq<int>, n: nat)
    requires Admissible(e, times) && n <= |times|
    ensures Admissible(e, times[..n])
    decreases times
  {
    if n > 0 {
      assert times[..n][1..] == times[1..][..n - 1];
      AdmissiblePrefix(e.Bump(times[0]), times[1..], n - 1);
    }
  }

  /** The last of some admissible failures. */
  lemma LastAdmissible(times: seq<int>)
    requires Admissible(DEFAULT, times) && times != []
    ensures var n := |times| - 1;
            && Admissible(DEFAULT, times[..n]) && Bumps(DEFAULT, times[..n]).lockedUntil <= times[n]
            && Bumps(DEFAULT, times) == Bumps(DEFAULT, times[..n]).Bump(times[n])
            && times[0] <= times[n] && (n > 0 ==> times[n - 1] <= times[n])
  {
    var n := |times| - 1;
    var init, last := times[..n], times[n];
    AdmissibleDrop(DEFAULT, times, n);
    AdmissiblePrefix(DEFAULT, times, n);
    OrderedTimes(DEFAULT, times, 0, n);
    if n > 0 {
      OrderedTimes(DEFAULT, times, n - 1, n);
    }
    assert times[n..] == [last] && init + [last] == times;
    AdmissibleAppend(DEFAULT, init, [last]);
    assert [last][1..] == [];
  }

  /** A guarded run of nothing but failures of `key`, at these times. */
  predicate Replays(ops: seq<Op>, key: string, times: seq<int>) {
    && Guarded(ops, key) && FailureTimes(ops, key) == times
    && ClockedBy(ops, if times == [] then 0 else times[|times| - 1])
    && Run(map[], ops) == if times == [] then map[] else map[key := Bumps(DEFAULT, times)]
  }

  lemma ReplayNext(ops: seq<Op>, key: string, times: seq<int>, t: int)
    requires Replays(ops, key, times) && 0 <= t && (times != [] ==> times[|times| - 1] <= t)
    requires Bumps(DEFAULT, times).lockedUntil <= t
    requires Bumps(DEFAULT, times + [t]) == Bumps(DEFAULT, times).Bump(t)
    ensures Replays(ops + [Failure(key, t)], key, times + [t])
  {
    var longer := ops + [Failure(key, t)];
    assert longer[..|longer| - 1] == ops && longer[|longer| - 1] == Failure(key, t);
    ClockedLater(ops, if times == [] then 0 else times[|times| - 1], t);
    assert Recorded(Run(map[], ops), key, t) == map[key := Bumps(DEFAULT, times + [t])];
  }

  /** Admissible failures are those of a guarded run. */
  lemma {:induction false} AdmissibleRuns(key: string, times: seq<int>) returns (ops: seq<Op>)
    requires Admissible(DEFAULT, times) && (times != [] ==> 0 <= times[0])
    ensures Replays(ops, key, times)
    decreases |times|
  {
    if times == [] {
      ops := [];
    } else {
      var n := |times| - 1;
      LastAdmissible(times);
      ops := AdmissibleRuns(key, times[..n]);
      assert times[..n] + [times[n]] == times;
      ReplayNext(ops, key, times[..n], times[n]);
      ops := ops + [Failure(key, times[n])];
    }
  }

  /** Five failures at `t`, four in the second the lock ends, and five in the next. */
  function Fourteen(t: int): (times: seq<int>)
    ensures |times| == 14 && times[13] == t + 901 && times[0] == t
    ensures forall i | 5 <= i < 14 :: t + 900 <= times[i] < t + 1800
  {
    Repeat(t, 5) + Repeat(t + 900, 4) + Repeat(t + 901, 5)
  }

  lemma FourteenAdmissible(t: int)
    requires t > WINDOW_SECS
    ensures Admissible(DEFAULT, Fourteen(t))
  {
    var a, b, c := Repeat(t, 5), Repeat(t + 900, 4), Repeat(t + 901, 5);
    InOneSecond(DEFAULT, t, 5);
    InOneSecond(Entry(0, t, t + 900), t + 900, 4);
    InOneSecond(Entry(4, t, t + 900), t + 901, 5);
    AdmissibleAppend(DEFAULT, a, b);
    AdmissibleAppend(DEFAULT, a + b, c);
  }

  /** Nine cannot be lowered: some guarded run has nine failures within 900 seconds. */
  lemma NineAttained(key: string, t: int)
    requires t > WINDOW_SECS
    ensures exists ops :: Guarded(ops, key) && ClockedBy(ops, t + 901) && FailureTimes(ops, key) == Fourteen(t)
  {
    FourteenAdmissible(t);
    var ops := AdmissibleRuns(key, Fourteen(t));
  }
}
