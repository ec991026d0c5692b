/**
 * The login backoff: five failures for one key lock it for thirty seconds,
 * and a key's failures are forgotten fifteen minutes after its last one.
 * Times are milliseconds of one process's clock; keys are lower-cased already.
 */
module RateLimit {
  const WINDOW := 30_000
  const MAX_FAILURES := 5
  const FORGET := 900_000
  const MAX_ENTRIES := 10_000

  datatype Entry = Entry(failures: nat, lockedUntil: int, expiresAt: int)
  type Table = map<string, Entry>

  /** The table once `key`'s entry is dropped if its failures are forgotten. */
  function Live(t: Table, key: string, now: int): Table {
    if key in t && t[key].expiresAt <= now then t - {key} else t
  }

  predicate Allowed(t: Table, key: string, now: int) {
    var live := Live(t, key, now);
    key !in live || live[key].lockedUntil <= now
  }

  /** One more failure; `pruned` is what the full table gives up to make room for a new key. */
  function Failed(t: Table, key: string, now: int, pruned: set<string>): Table {
    var live := Live(t, key, now);
    var roomy := if key !in live && |live| >= MAX_ENTRIES then live - pruned else live;
    var failures := (if key in live then live[key].failures else 0) + 1;
    var locked := if key in live then live[key].lockedUntil else 0;
    roomy[key := if failures >= MAX_FAILURES then Entry(0, now + WINDOW, now + FORGET)
                 else Entry(failures, locked, now + FORGET)]
  }

  // ---- Runs ----

  /**
   * An allowed check starts an attempt; a wrong password ends it with a
   * failure, a right one with a success, and an error with neither.
   */
  datatype Step =
    | Check(key: string, now: int)
    | Fail(key: string, now: int, pruned: set<string>)
    | Succeed(key: string, now: int)
    | GiveUp(key: string, now: int)

  function Next(t: Table, s: Step): Table {
    match s
    case Check(key, now) => Live(t, key, now)
    case Fail(key, now, pruned) => Failed(t, key, now, pruned)
    case Succeed(key, _) => t - {key}
    case GiveUp(_, _) => t
  }

  function Run(steps: seq<Step>): Table {
    if steps == [] then map[] else Next(Run(steps[..|steps| - 1]), steps[|steps| - 1])
  }

  predicate InOrder(steps: seq<Step>) {
    forall i, j :: 0 <= i < j < |steps| ==> steps[i].now <= steps[j].now
  }

  /** How many allowed attempts of `key` wait for their end after `s`. */
  function PendingNext(t: Table, pending: nat, s: Step, key: string): nat {
    match s
    case Check(k, now) => if k == key && Allowed(t, key, now) then pending + 1 else pending
    case Fail(k, _, _) => if k == key && pending > 0 then pending - 1 else pending
    case GiveUp(k, _) => if k == key && pending > 0 then pending - 1 else pending
    case Succeed(k, _) => if k == key && pending > 0 then pending - 1 else pending
  }

  function Pending(steps: seq<Step>, key: string): nat {
    if steps == [] then 0
    else
      var before := steps[..|steps| - 1];
      PendingNext(Run(before), Pending(before, key), steps[|steps| - 1], key)
  }

  /**
   * A failure, a success and a giving up of `key` each end an allowed attempt,
   * and the table gives the key up to no other before it is forgotten.
   */
  predicate Proper(t: Table, pending: nat, s: Step, key: string) {
    match s
    case Check(_, _) => true
    case Fail(k, now, pruned) => if k == key then pending > 0 else key in pruned ==> key !in Live(t, key, now)
    case GiveUp(k, _) => k == key ==> pending > 0
    case Succeed(k, _) => k == key ==> pending > 0
  }

  /** Never more than `m` attempts of `key` are pending at once. */
  predicate AtMostPending(steps: seq<Step>, key: string, m: nat) {
    steps == [] ||
    var before := steps[..|steps| - 1];
    && AtMostPending(before, key, m)
    && Proper(Run(before), Pending(before, key), steps[|steps| - 1], key)
    && Pending(steps, key) <= m
  }

  /** The times of the key's failures since its last success, which clears them. */
  function FailuresNext(times: seq<int>, s: Step, key: string): seq<int> {
    if s.Fail? && s.key == key then times + [s.now]
    else if s.Succeed? && s.key == key then []
    else times
  }

  function Failures(steps: seq<Step>, key: string): seq<int> {
    if steps == [] then [] else FailuresNext(Failures(steps[..|steps| - 1], key), steps[|steps| - 1], key)
  }

  // ---- What every run keeps ----

  predicate Sorted(times: seq<int>) {
    forall i, j :: 0 <= i <= j < |times| ==> times[i] <= times[j]
  }

  /** From any failure, the `k`th one after it is at least a whole window later. */
  predicate Spaced(times: seq<int>, k: nat) {
    forall i, j :: 0 <= i && i + k <= j < |times| ==> times[j] >= times[i] + WINDOW
  }

  /** What the key's entry says of its failures so far: its count goes back to the last lock, or the last forgetting. */
  predicate Tells(t: Table, key: string, times: seq<int>, now: int) {
    if key !in t then times == [] || times[|times| - 1] + FORGET <= now
    else
      var e, n := t[key], |times|;
      && e.failures < MAX_FAILURES && e.failures <= n && n > 0
      && e.expiresAt == times[n - 1] + FORGET
      && (|| n == e.failures
          || e.lockedUntil == times[n - e.failures - 1] + WINDOW
          || (e.failures > 0 && times[n - e.failures] >= times[n - e.failures - 1] + FORGET))
  }

  /**
   * Since five failures less than a window old there was a lock, and with it
   * no new attempt: what failed since the first of them and what is still
   * pending were bounded then.
   */
  predicate Crowded(times: seq<int>, pending: nat, m: nat, now: int) {
    forall i :: 0 <= i && i + MAX_FAILURES <= |times| && now < times[i] + WINDOW ==>
      |times| - i + pending <= m + MAX_FAILURES - 1
  }

  predicate InTime(times: seq<int>, now: int) { Sorted(times) && (times == [] || times[|times| - 1] <= now) }

  lemma FailureTells(t: Table, key: string, times: seq<int>, was: int, now: int, pruned: set<string>)
    requires Tells(t, key, times, was) && InTime(times, was) && was <= now
    ensures Tells(Failed(t, key, now, pruned), key, times + [now], now) && InTime(times + [now], now)
  {
  }

  lemma FailureSpaces(times: seq<int>, pending: nat, m: nat, was: int, now: int)
    requires InTime(times, was) && Crowded(times, pending, m, was) && was <= now && 0 < pending <= m
    requires Spaced(times, m + MAX_FAILURES - 1)
    ensures Crowded(times + [now], pending - 1, m, now)
    ensures Spaced(times + [now], m + MAX_FAILURES - 1)
  {
    var n := |times|;
    forall i | 0 <= i && i + m + MAX_FAILURES - 1 <= n ensures now >= times[i] + WINDOW {
      assert i + MAX_FAILURES <= n && n - i + pending > m + MAX_FAILURES - 1;
    }
  }

  /** Five failures less than a window old leave a lock standing. */
  lemma FiveLock(t: Table, key: string, times: seq<int>, was: int, now: int)
    requires Tells(t, key, times, was) && InTime(times, was) && was <= now
    requires |times| >= MAX_FAILURES && now < times[|times| - MAX_FAILURES] + WINDOW
    ensures !Allowed(t, key, now)
  {
    var n := |times|;
    assert times[n - MAX_FAILURES] <= times[n - 1] && key in t;
    var r := n - t[key].failures - 1;
    assert times[n - MAX_FAILURES] <= times[r] <= times[n - 1];
  }

  lemma CheckCrowds(t: Table, key: string, times: seq<int>, pending: nat, m: nat, was: int, now: int)
    requires Tells(t, key, times, was) && InTime(times, was) && was <= now
    requires Crowded(times, pending, m, was) && Allowed(t, key, now)
    ensures Crowded(times, pending + 1, m, now)
  {
    var n := |times|;
    forall i | 0 <= i && i + MAX_FAILURES <= n ensures now >= times[i] + WINDOW {
      assert times[i] <= times[n - MAX_FAILURES];
      if now < times[i] + WINDOW { FiveLock(t, key, times, was, now); }
    }
  }

  lemma OthersTell(t: Table, key: string, times: seq<int>, was: int, s: Step)
    requires Tells(t, key, times, was) && was <= s.now && !(s.Fail? && s.key == key) && !(s.Succeed? && s.key == key)
    requires s.Fail? && key in s.pruned ==> key !in Live(t, key, s.now)
    ensures Tells(Next(t, s), key, times, s.now)
  {
  }

  function Now(steps: seq<Step>): int { if steps == [] then 0 else steps[|steps| - 1].now }

  predicate Kept(t: Table, key: string, times: seq<int>, pending: nat, m: nat, now: int) {
    && Tells(t, key, times, now) && InTime(times, now)
    && Crowded(times, pending, m, now) && pending <= m
    && Spaced(times, m + MAX_FAILURES - 1)
  }

  lemma OthersCrowd(t: Table, key: string, times: seq<int>, pending: nat, m: nat, was: int, s: Step)
    requires Kept(t, key, times, pending, m, was) && Proper(t, pending, s, key) && was <= s.now
    requires !(s.Fail? && s.key == key) && !(s.Succeed? && s.key == key)
    ensures Crowded(times, PendingNext(t, pending, s, key), m, s.now)
  {
    if s.Check? && s.key == key && Allowed(t, key, s.now) {
      CheckCrowds(t, key, times, pending, m, was, s.now);
    }
  }

  lemma StepKeeps(t: Table, key: string, times: seq<int>, pending: nat, m: nat, was: int, s: Step)
    requires Kept(t, key, times, pending, m, was) && Proper(t, pending, s, key) && was <= s.now
    requires PendingNext(t, pending, s, key) <= m
    ensures Kept(Next(t, s), key, FailuresNext(times, s, key), PendingNext(t, pending, s, key), m, s.now)
  {
    if s.Fail? && s.key == key {
      FailureTells(t, key, times, was, s.now, s.pruned);
      FailureSpaces(times, pending, m, was, s.now);
    } else if s.Succeed? && s.key == key {
    } else {
      OthersTell(t, key, times, was, s);
      OthersCrowd(t, key, times, pending, m, was, s);
    }
  }

  lemma {:induction false} RunKeeps(steps: seq<Step>, key: string, m: nat)
    requires InOrder(steps) && AtMostPending(steps, key, m)
    ensures Kept(Run(steps), key, Failures(steps, key), Pending(steps, key), m, Now(steps))
  {
    if steps == [] {
    } else {
      var n := |steps| - 1;
      var before, s := steps[..n], steps[n];
      RunKeeps(before, key, m);
      assert n > 0 ==> before[n - 1] == steps[n - 1];
      var was := if n > 0 then Now(before) else s.now;
      StepKeeps(Run(before), key, Failures(before, key), Pending(before, key), m, was, s);
    }
  }

  // ---- The bound ----

  /** How many of the failures fall in the window that opens at `from`. */
  function InWindow(times: seq<int>, from: int): nat {
    if times == [] then 0
    else InWindow(times[..|times| - 1], from) + (if from <= times[|times| - 1] < from + WINDOW then 1 else 0)
  }

  lemma {:induction false} NoneBefore(times: seq<int>, from: int)
    requires forall i :: 0 <= i < |times| ==> times[i] < from
    ensures InWindow(times, from) == 0
  {
    if times == [] {
    } else {
      NoneBefore(times[..|times| - 1], from);
    }
  }

  lemma {:induction false} AtMostLast(times: seq<int>, from: int, k: nat)
    requires k <= |times|
    ensures InWindow(times, from) <= InWindow(times[..|times| - k], from) + k
  {
    if k == 0 {
      assert times[..|times|] == times;
    } else {
      var head := times[..|times| - 1];
      AtMostLast(head, from, k - 1);
      assert head[..|head| - (k - 1)] == times[..|times| - k];
    }
  }

  lemma {:induction false} SpacedBounds(times: seq<int>, k: nat, from: int)
    requires Sorted(times) && Spaced(times, k) && k > 0
    ensures InWindow(times, from) <= k
  {
    var n := |times|;
    if n <= k {
      AtMostLast(times, from, n);
    } else if times[n - 1] < from + WINDOW {
      var early := times[..n - k];
      assert times[n - 1 - k] + WINDOW <= times[n - 1];
      assert forall i :: 0 <= i < |early| ==> early[i] == times[i] <= times[n - 1 - k];
      NoneBefore(early, from);
      AtMostLast(times, from, k);
    } else {
      SpacedBounds(times[..n - 1], k, from);
    }
  }

  /**
   * With at most `m` attempts pending at once, no thirty seconds ever hold
   * more than `m + 4` failures without a success between them, whatever
   * batches, unlocks, forgettings, successes and other keys came before.
   */
  lemma AtMostPerWindow(steps: seq<Step>, key: string, m: nat, from: int)
    requires InOrder(steps) && AtMostPending(steps, key, m)
    ensures InWindow(Failures(steps, key), from) <= m + MAX_FAILURES - 1
  {
    RunKeeps(steps, key, m);
    assert Sorted(Failures(steps, key)) && Spaced(Failures(steps, key), m + MAX_FAILURES - 1);
    SpacedBounds(Failures(steps, key), m + MAX_FAILURES - 1, from);
  }

  // ---- The bound is reached ----

  /** `k` single failures, then `a` attempts checked together, of which `b` have failed. */
  function Singles(key: string, k: nat): seq<Step> {
    if k == 0 then [] else Singles(key, k - 1) + [Check(key, 0)] + [Fail(key, 0, {})]
  }

  function Together(key: string, a: nat, b: nat): seq<Step> {
    if b > 0 then Together(key, a, b - 1) + [Fail(key, 0, {})]
    else if a > 0 then Together(key, a - 1, 0) + [Check(key, 0)]
    else Singles(key, MAX_FAILURES - 1)
  }

  /** Where such a run stands. */
  predicate Stands(steps: seq<Step>, key: string, m: nat, failed: nat, pending: nat) {
    && (forall i :: 0 <= i < |steps| ==> steps[i].now == 0)
    && AtMostPending(steps, key, m) && Pending(steps, key) == pending
    && InWindow(Failures(steps, key), 0) == failed
  }

  lemma OneMoreCheck(steps: seq<Step>, key: string, m: nat, failed: nat, pending: nat)
    requires Stands(steps, key, m, failed, pending) && Allowed(Run(steps), key, 0) && pending < m
    ensures Stands(steps + [Check(key, 0)], key, m, failed, pending + 1)
    ensures Run(steps + [Check(key, 0)]) == Live(Run(steps), key, 0)
  {
    assert (steps + [Check(key, 0)])[..|steps|] == steps;
  }

  lemma {:induction false} OneMoreFailure(steps: seq<Step>, key: string, m: nat, failed: nat, pending: nat)
    requires Stands(steps, key, m, failed, pending) && pending > 0
    ensures Stands(steps + [Fail(key, 0, {})], key, m, failed + 1, pending - 1)
    ensures Run(steps + [Fail(key, 0, {})]) == Failed(Run(steps), key, 0, {})
  {
    var all := steps + [Fail(key, 0, {})];
    assert all[..|steps|] == steps;
    var times := Failures(steps, key);
    assert Failures(all, key) == times + [0];
    assert (times + [0])[..|times|] == times;
  }

  /** The key after `k` single failures at time 0. */
  function CountedTo(key: string, k: nat): Table { if k == 0 then map[] else map[key := Entry(k, 0, FORGET)] }

  lemma CountsOne(key: string, k: nat)
    requires k + 1 < MAX_FAILURES
    ensures Allowed(CountedTo(key, k), key, 0) && Live(CountedTo(key, k), key, 0) == CountedTo(key, k)
    ensures Failed(CountedTo(key, k), key, 0, {}) == CountedTo(key, k + 1)
  {
    if k == 0 { assert |CountedTo(key, 0)| == 0; }
  }

  lemma NothingStands(key: string, m: nat)
    ensures Stands([], key, m, 0, 0) && Run([]) == map[]
  {
  }

  lemma OneMoreSingle(key: string, k: nat, m: nat)
    requires k + 1 < MAX_FAILURES && m > 0
    requires Stands(Singles(key, k), key, m, k, 0) && Run(Singles(key, k)) == CountedTo(key, k)
    ensures Stands(Singles(key, k + 1), key, m, k + 1, 0) && Run(Singles(key, k + 1)) == CountedTo(key, k + 1)
  {
    CountsOne(key, k);
    OneMoreCheck(Singles(key, k), key, m, k, 0);
    OneMoreFailure(Singles(key, k) + [Check(key, 0)], key, m, k, 1);
  }

  lemma {:induction false} SinglesStand(key: string, k: nat, m: nat)
    requires k < MAX_FAILURES && m > 0
    ensures Stands(Singles(key, k), key, m, k, 0) && Run(Singles(key, k)) == CountedTo(key, k)
  {
    if k > 0 {
      SinglesStand(key, k - 1, m);
      OneMoreSingle(key, k - 1, m);
    } else {
      NothingStands(key, m);
    }
  }

  lemma {:induction false} TogetherStands(key: string, a: nat, b: nat, m: nat)
    requires b <= a <= m && m > 0
    ensures Stands(Together(key, a, b), key, m, b + MAX_FAILURES - 1, a - b)
    ensures b == 0 ==> Run(Together(key, a, b)) == CountedTo(key, MAX_FAILURES - 1)
    decreases a + b
  {
    if b > 0 {
      TogetherStands(key, a, b - 1, m);
      OneMoreFailure(Together(key, a, b - 1), key, m, b + MAX_FAILURES - 2, a - b + 1);
    } else if a > 0 {
      TogetherStands(key, a - 1, 0, m);
      OneMoreCheck(Together(key, a - 1, 0), key, m, MAX_FAILURES - 1, a - 1);
    } else {
      SinglesStand(key, MAX_FAILURES - 1, m);
    }
  }

  /** Four single failures and then `m` attempts checked together make `m + 4` in one window. */
  lemma BoundIsReached(key: string, m: nat)
    requires m > 0
    ensures InOrder(Together(key, m, m)) && AtMostPending(Together(key, m, m), key, m)
    ensures InWindow(Failures(Together(key, m, m), key), 0) == m + MAX_FAILURES - 1
  {
    TogetherStands(key, m, m, m);
  }

  /** The promise: no thirty seconds hold a sixth failure. */
  ghost predicate KeepsFive(key: string, m: nat) {
    forall steps, from :: InOrder(steps) && AtMostPending(steps, key, m) ==>
      InWindow(Failures(steps, key), from) <= MAX_FAILURES
  }

  /** It is kept by every run with at most `m` attempts pending if and only if they come one at a time. */
  lemma FiveExactlyOneAtATime(key: string, m: nat)
    ensures KeepsFive(key, m) <==> m <= 1
  {
    if m <= 1 {
      forall steps, from | InOrder(steps) && AtMostPending(steps, key, m)
        ensures InWindow(Failures(steps, key), from) <= MAX_FAILURES
      {
        AtMostPerWindow(steps, key, m, from);
      }
    } else {
      BoundIsReached(key, m);
    }
  }

  // ---- What one call does to its key and to the others ----

  /** A failure is remembered for fifteen minutes, and no longer unless another follows. */
  lemma FailureIsRemembered(t: Table, key: string, now: int, pruned: set<string>, later: int)
    ensures key in Live(Failed(t, key, now, pruned), key, later) <==> later < now + 15 * 60_000
  {
  }

  /** The fifth remembered failure in a row locks the key for thirty seconds and starts the count again. */
  lemma FifthLocks(t: Table, key: string, now: int, pruned: set<string>, later: int)
    requires key in Live(t, key, now) && t[key].failures == 4 && now <= later
    ensures Allowed(Failed(t, key, now, pruned), key, later) <==> later >= now + 30_000
    ensures Failed(t, key, now, pruned)[key].failures == 0
  {
  }

  /** An earlier one is counted and leaves a lock as it stands. */
  lemma EarlierFailureCounts(t: Table, key: string, now: int, pruned: set<string>)
    requires key in Live(t, key, now) ==> t[key].failures < 4
    ensures var e := Failed(t, key, now, pruned)[key];
      if key in Live(t, key, now) then e.failures == t[key].failures + 1 && e.lockedUntil == t[key].lockedUntil
      else e.failures == 1 && e.lockedUntil <= 0
  {
  }

  /** A success forgets its key and nothing else: the next attempt is allowed. */
  lemma SuccessForgets(t: Table, key: string, now: int, later: int, other: string)
    requires other != key
    ensures var after := Next(t, Succeed(key, now));
      && key !in after && Allowed(after, key, later)
      && (other in after <==> other in t) && (other in t ==> after[other] == t[other])
  {
  }

  /** No step but a prune of the full table touches another key. */
  lemma OthersAreLeft(t: Table, s: Step, other: string)
    requires other != s.key && (s.Fail? && |Live(t, s.key, s.now)| >= 10_000 ==> other !in s.pruned)
    ensures other in Next(t, s) <==> other in t
    ensures other in t ==> Next(t, s)[other] == t[other]
  {
  }

  lemma Shrinks(t: Table, keys: set<string>)
    ensures |t - keys| <= |t|
  {
    assert t.Keys == (t - keys).Keys + (t.Keys * keys);
  }

  lemma FailureFits(t: Table, key: string, now: int, pruned: set<string>)
    requires |t| <= 10_000 && |Live(t, key, now) - pruned| < 10_000
    ensures |Failed(t, key, now, pruned)| <= 10_000
  {
    var live := Live(t, key, now);
    Shrinks(t, {key});
    var e := Failed(t, key, now, pruned)[key];
    if key in live {
      assert Failed(t, key, now, pruned) == live[key := e];
    } else {
      assert Failed(t, key, now, pruned) == (if |live| >= 10_000 then live - pruned else live)[key := e];
    }
  }

  /** Where a prune of the full table gives something up, the table never holds more than ten thousand keys. */
  lemma StaysBounded(t: Table, s: Step)
    requires |t| <= 10_000
    requires s.Fail? ==> |Live(t, s.key, s.now) - s.pruned| < 10_000
    ensures |Next(t, s)| <= 10_000
  {
    if s.Fail? { FailureFits(t, s.key, s.now, s.pruned); } else { Shrinks(t, {s.key}); }
  }

  // ---- The module's own table ----

  class Throttle {
    var entries: Table

    constructor ()
      ensures entries == map[]
    {
      entries := map[];
    }

    method CheckAllowed(key: string, now: int) returns (allowed: bool)
      modifies this
      ensures entries == Next(old(entries), Check(key, now))
      ensures allowed == Allowed(old(entries), key, now)
    {
      if key in entries && entries[key].expiresAt <= now { entries := entries - {key}; }
      allowed := key !in entries || entries[key].lockedUntil <= now;
    }

    method RecordFailure(key: string, now: int, pruned: set<string>)
      modifies this
      ensures entries == Next(old(entries), Fail(key, now, pruned))
    {
      if key in entries && entries[key].expiresAt <= now { entries := entries - {key}; }
      var e := Entry(0, 0, 0);
      if key in entries {
        e := entries[key];
      } else if |entries| >= MAX_ENTRIES {
        entries := entries - pruned;
      }
      e := e.(failures := e.failures + 1);
      if e.failures >= MAX_FAILURES {
        e := e.(lockedUntil := now + WINDOW, failures := 0);
      }
      entries := entries[key := e.(expiresAt := now + FORGET)];
    }

    method RecordSuccess(key: string, now: int)
      modifies this
      ensures entries == Next(old(entries), Succeed(key, now))
    {
      entries := entries - {key};
    }
  }
}
