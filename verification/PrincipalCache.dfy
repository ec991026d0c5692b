/**
 * The principal cache under concurrent requests. A request that misses loads
 * the principal while others run; changes commit, and only then forget the
 * entries they affect. The database is known by how many changes it has
 * committed, so a principal carries how many it was read after.
 */
module PrincipalCache {
  import opened Base

  datatype Identity = Identity(session: string, person: string)

  datatype Principal = Principal(id: Identity, guests: seq<int>, readAfter: nat)

  /** What a change made through the API affects: one session, or every session of one person. */
  datatype Change = OfSession(session: string) | OfPerson(person: string)

  /** A cache entry; `access` and `keptAt` say what `expiresAt` was made from. */
  datatype Entry = Entry(principal: Principal, access: int, keptAt: int, expiresAt: int)

  /** A request between its miss and its answer; `owed` are the changes forgotten before it began. */
  datatype Load = Load(key: string, started: nat, owed: set<nat>, read: Option<(Principal, int)>)

  datatype Response = Response(key: string, principal: Principal, owed: set<nat>, hit: Option<(Entry, int)>)

  datatype State = State(
    entries: map<string, Entry>, generation: nat,
    committed: seq<Change>, forgotten: set<nat>,  // changes in commit order, and which of them have been forgotten
    loads: map<nat, Load>, answered: seq<Response>)

  const START := State(map[], 0, [], {}, map[], [])

  /** The time an entry may be served until: the cache's own limit, the access expiry, and each guest grant's. */
  function Earliest(limit: int, guests: seq<int>): int {
    if guests == [] then limit
    else
      var rest := Earliest(limit, guests[..|guests| - 1]);
      if guests[|guests| - 1] < rest then guests[|guests| - 1] else rest
  }

  function ExpiresAt(ttl: int, now: int, access: int, guests: seq<int>): int {
    Earliest(if access < now + ttl then access else now + ttl, guests)
  }

  predicate Matches(c: Change, id: Identity) {
    match c
    case OfSession(s) => id.session == s
    case OfPerson(p) => id.person == p
  }

  function Without(entries: map<string, Entry>, c: Change): map<string, Entry> {
    map k | k in entries && !Matches(c, entries[k].principal.id) :: entries[k]
  }

  /** What forgetting drops: a session's change every entry of the session, a person's every entry of the person. */
  lemma ForgetsExactly(entries: map<string, Entry>, id: string)
    ensures forall k :: k in Without(entries, OfSession(id)) <==> k in entries && entries[k].principal.id.session != id
    ensures forall k :: k in Without(entries, OfPerson(id)) <==> k in entries && entries[k].principal.id.person != id
    ensures forall c, k :: k in Without(entries, c) ==> Without(entries, c)[k] == entries[k]
  {
  }

  const MAX_ENTRIES := 10000

  /** At the limit a prune leaves only the keys `spared`. */
  function Pruned(entries: map<string, Entry>, spared: set<string>): map<string, Entry> {
    if |entries| >= MAX_ENTRIES then map k | k in entries && k in spared :: entries[k] else entries
  }

  /** The cache after a load may keep its principal: only if nothing was forgotten since it began. */
  function Keep(entries: map<string, Entry>, generation: nat, ttl: int, key: string, started: nat,
                p: Principal, access: int, now: int, spared: set<string>): map<string, Entry>
  {
    if ttl > 0 && started == generation then
      Pruned(entries, spared)[key := Entry(p, access, now, ExpiresAt(ttl, now, access, p.guests))]
    else entries
  }

  datatype Step =
    | Begin(request: nat, key: string, now: int)            // look up; on a miss, start to load
    | Read(request: nat, guests: seq<int>, access: int)     // the load's transaction reads the database
    | Finish(request: nat, now: int, spared: set<string>)   // the load ends; `spared` survive a prune
    | Commit(change: Change)
    | Forget(index: nat)                                    // forget what a committed change affects

  predicate Enabled(s: State, step: Step) {
    match step
    case Begin(r, _, _) => r !in s.loads
    case Read(r, _, _) => r in s.loads && s.loads[r].read.None?
    case Finish(r, _, _) => r in s.loads && s.loads[r].read.Some?
    case Commit(_) => true
    case Forget(i) => i < |s.committed|
  }

  function Next(who: string -> Identity, ttl: int, s: State, step: Step): State
    requires Enabled(s, step)
  {
    match step
    case Begin(r, key, now) =>
      if key in s.entries && s.entries[key].expiresAt > now then
        s.(answered := s.answered + [Response(key, s.entries[key].principal, s.forgotten, Some((s.entries[key], now)))])
      else s.(entries := s.entries - {key}, loads := s.loads[r := Load(key, s.generation, s.forgotten, None)])
    case Read(r, guests, access) =>
      var l := s.loads[r];
      s.(loads := s.loads[r := l.(read := Some((Principal(who(l.key), guests, |s.committed|), access)))])
    case Finish(r, now, spared) =>
      var l := s.loads[r];
      var (p, access) := l.read.value;
      s.(entries := Keep(s.entries, s.generation, ttl, l.key, l.started, p, access, now, spared),
         loads := s.loads - {r}, answered := s.answered + [Response(l.key, p, l.owed, None)])
    case Commit(c) => s.(committed := s.committed + [c])
    case Forget(i) =>
      s.(entries := Without(s.entries, s.committed[i]), generation := s.generation + 1, forgotten := s.forgotten + {i})
  }

  // ---- What every interleaving keeps ----

  /** No change forgotten in `owed` that affects `key` is missing from `p`. */
  predicate Fresh(who: string -> Identity, committed: seq<Change>, owed: set<nat>, key: string, p: Principal) {
    forall i :: i in owed && i < |committed| && Matches(committed[i], who(key)) ==> i < p.readAfter
  }

  /** A cached answer is served before its access expiry, each guest grant's expiry, and the cache's own limit. */
  predicate InTime(ttl: int, e: Entry, now: int) {
    && now < e.access && now < e.keptAt + ttl
    && forall g :: g in e.principal.guests ==> now < g
  }

  predicate EntryGood(who: string -> Identity, ttl: int, s: State, key: string)
    requires key in s.entries
  {
    var e := s.entries[key];
    && e.principal.id == who(key)
    && Fresh(who, s.committed, s.forgotten, key, e.principal)
    && e.expiresAt == ExpiresAt(ttl, e.keptAt, e.access, e.principal.guests)
  }

  predicate LoadGood(who: string -> Identity, s: State, l: Load) {
    && l.started <= s.generation
    && (forall i :: i in l.owed ==> i < |s.committed|)
    && (l.read.Some? ==>
          var p := l.read.value.0;
          && p.id == who(l.key) && p.readAfter <= |s.committed|
          && (forall i :: i in l.owed ==> i < p.readAfter)
          && (forall i :: i in s.forgotten && p.readAfter <= i ==> l.started < s.generation))
  }

  predicate AnswerGood(who: string -> Identity, ttl: int, committed: seq<Change>, a: Response) {
    && (forall i :: i in a.owed ==> i < |committed|)
    && Fresh(who, committed, a.owed, a.key, a.principal)
    && (a.hit.Some? ==> InTime(ttl, a.hit.value.0, a.hit.value.1) && a.hit.value.0.principal == a.principal)
  }

  predicate Good(who: string -> Identity, ttl: int, s: State) {
    && (forall i :: i in s.forgotten ==> i < |s.committed|)
    && (forall k :: k in s.entries ==> EntryGood(who, ttl, s, k))
    && (forall r :: r in s.loads ==> LoadGood(who, s, s.loads[r]))
    && (forall a :: a in s.answered ==> AnswerGood(who, ttl, s.committed, a))
  }

  lemma {:induction false} EarliestBounds(limit: int, guests: seq<int>)
    ensures Earliest(limit, guests) <= limit
    ensures forall g :: g in guests ==> Earliest(limit, guests) <= g
    ensures Earliest(limit, guests) == limit || Earliest(limit, guests) in guests
  {
    if guests == [] {
    } else {
      EarliestBounds(limit, guests[..|guests| - 1]);
      assert guests == guests[..|guests| - 1] + [guests[|guests| - 1]];
    }
  }

  /**
   * A loaded principal is served again exactly when the cache is on, nothing
   * was forgotten since the load began, and none of its limits has passed;
   * every other entry stays unless the table was full.
   */
  lemma LoadIsKeptExactly(entries: map<string, Entry>, generation: nat, ttl: int, key: string, started: nat,
                          p: Principal, access: int, now: int, spared: set<string>, at: int)
    requires key !in entries
    ensures var after := Keep(entries, generation, ttl, key, started, p, access, now, spared);
      && (key in after && after[key].principal == p && after[key].expiresAt > at <==>
            && ttl > 0 && started == generation
            && at < access && at < now + ttl && forall g :: g in p.guests ==> at < g)
      && (forall k :: k in after && k != key ==> k in entries && after[k] == entries[k])
      && (|entries| < 10_000 || started != generation ==> entries.Keys <= after.Keys)
  {
    EarliestBounds(if access < now + ttl then access else now + ttl, p.guests);
  }

  lemma BeginKeeps(who: string -> Identity, ttl: int, s: State, step: Step)
    requires Good(who, ttl, s) && step.Begin? && Enabled(s, step)
    ensures Good(who, ttl, Next(who, ttl, s, step))
  {
    if step.key in s.entries {
      var e := s.entries[step.key];
      assert EntryGood(who, ttl, s, step.key);
      EarliestBounds(if e.access < e.keptAt + ttl then e.access else e.keptAt + ttl, e.principal.guests);
    }
  }

  lemma FinishKeeps(who: string -> Identity, ttl: int, s: State, step: Step)
    requires Good(who, ttl, s) && step.Finish? && Enabled(s, step)
    ensures Good(who, ttl, Next(who, ttl, s, step))
  {
    var l := s.loads[step.request];
    assert LoadGood(who, s, l);
    var after := Next(who, ttl, s, step);
    forall k | k in after.entries ensures EntryGood(who, ttl, after, k) {
      if k in s.entries { assert EntryGood(who, ttl, s, k); }
    }
    forall r | r in after.loads ensures LoadGood(who, after, after.loads[r]) { assert LoadGood(who, s, s.loads[r]); }
  }

  lemma CommitKeeps(who: string -> Identity, ttl: int, s: State, c: Change)
    requires Good(who, ttl, s)
    ensures Good(who, ttl, Next(who, ttl, s, Commit(c)))
  {
    var after := Next(who, ttl, s, Commit(c));
    forall k | k in after.entries ensures EntryGood(who, ttl, after, k) { assert EntryGood(who, ttl, s, k); }
    forall a | a in after.answered ensures AnswerGood(who, ttl, after.committed, a) {
      assert AnswerGood(who, ttl, s.committed, a);
    }
  }

  lemma ForgetKeeps(who: string -> Identity, ttl: int, s: State, i: nat)
    requires Good(who, ttl, s) && i < |s.committed|
    ensures Good(who, ttl, Next(who, ttl, s, Forget(i)))
  {
    var after := Next(who, ttl, s, Forget(i));
    forall k | k in after.entries ensures EntryGood(who, ttl, after, k) { assert EntryGood(who, ttl, s, k); }
    forall r | r in after.loads ensures LoadGood(who, after, after.loads[r]) { assert LoadGood(who, s, s.loads[r]); }
  }

  lemma ReadKeeps(who: string -> Identity, ttl: int, s: State, step: Step)
    requires Good(who, ttl, s) && step.Read? && Enabled(s, step)
    ensures Good(who, ttl, Next(who, ttl, s, step))
  {
    var after := Next(who, ttl, s, step);
    forall k | k in after.entries ensures EntryGood(who, ttl, after, k) { assert EntryGood(who, ttl, s, k); }
    forall r | r in after.loads ensures LoadGood(who, after, after.loads[r]) { assert LoadGood(who, s, s.loads[r]); }
  }

  predicate CanRun(who: string -> Identity, ttl: int, s: State, steps: seq<Step>)
    decreases |steps|
  {
    steps == [] || (Enabled(s, steps[0]) && CanRun(who, ttl, Next(who, ttl, s, steps[0]), steps[1..]))
  }

  function Run(who: string -> Identity, ttl: int, s: State, steps: seq<Step>): State
    requires CanRun(who, ttl, s, steps)
    decreases |steps|
  {
    if steps == [] then s else Run(who, ttl, Next(who, ttl, s, steps[0]), steps[1..])
  }

  lemma {:induction false} RunKeeps(who: string -> Identity, ttl: int, s: State, steps: seq<Step>)
    requires Good(who, ttl, s) && CanRun(who, ttl, s, steps)
    ensures Good(who, ttl, Run(who, ttl, s, steps))
    decreases |steps|
  {
    if steps == [] {
    } else {
      match steps[0] {
        case Begin(_, _, _) => BeginKeeps(who, ttl, s, steps[0]);
        case Read(_, _, _) => ReadKeeps(who, ttl, s, steps[0]);
        case Finish(_, _, _) => FinishKeeps(who, ttl, s, steps[0]);
        case Commit(c) => CommitKeeps(who, ttl, s, c);
        case Forget(i) => ForgetKeeps(who, ttl, s, i);
      }
      RunKeeps(who, ttl, Next(who, ttl, s, steps[0]), steps[1..]);
    }
  }

  /**
   * In every interleaving, a request that began after a change to its session,
   * or to its person, was forgotten gets a principal read after that change,
   * and no cached answer outlives its access expiry, a guest grant it carries,
   * or the limit.
   */
  lemma EveryAnswerIsFresh(who: string -> Identity, ttl: int, steps: seq<Step>, n: nat)
    requires CanRun(who, ttl, START, steps) && n < |Run(who, ttl, START, steps).answered|
    ensures var s := Run(who, ttl, START, steps);
      var a := s.answered[n];
      && (forall i :: i in a.owed ==> i < |s.committed|)
      && (forall i :: i in a.owed && s.committed[i] == OfSession(who(a.key).session) ==> i < a.principal.readAfter)
      && (forall i :: i in a.owed && s.committed[i] == OfPerson(who(a.key).person) ==> i < a.principal.readAfter)
      && (a.hit.Some? ==>
            var (e, now) := a.hit.value;
            && e.principal == a.principal && now < e.access && now < e.keptAt + ttl
            && forall g :: g in a.principal.guests ==> now < g)
  {
    RunKeeps(who, ttl, START, steps);
    assert AnswerGood(who, ttl, Run(who, ttl, START, steps).committed, Run(who, ttl, START, steps).answered[n]);
  }

  // ---- Which changes a request is owed ----

  /** What was forgotten stays so. */
  lemma {:induction false} ForgottenStays(who: string -> Identity, ttl: int, s: State, steps: seq<Step>, i: nat)
    requires CanRun(who, ttl, s, steps) && (i in s.forgotten || Forget(i) in steps)
    ensures i in Run(who, ttl, s, steps).forgotten
    decreases |steps|
  {
    if steps == [] {
    } else {
      assert steps == [steps[0]] + steps[1..];
      ForgottenStays(who, ttl, Next(who, ttl, s, steps[0]), steps[1..], i);
    }
  }

  predicate Ends(step: Step, r: nat) { step.Finish? && step.request == r }

  /** A load keeps its key and what it is owed until it ends. */
  lemma {:induction false} LoadStays(who: string -> Identity, ttl: int, s: State, steps: seq<Step>, r: nat)
    requires CanRun(who, ttl, s, steps) && r in s.loads && forall x :: x in steps ==> !Ends(x, r)
    ensures var after := Run(who, ttl, s, steps);
      r in after.loads && after.loads[r].key == s.loads[r].key && after.loads[r].owed == s.loads[r].owed
    decreases |steps|
  {
    if steps == [] {
    } else {
      assert steps[0] in steps && forall x :: x in steps[1..] ==> x in steps;
      LoadStays(who, ttl, Next(who, ttl, s, steps[0]), steps[1..], r);
    }
  }

  /** A principal that misses no change to its session or its person among those forgotten in `before`. */
  predicate ReadAfterAll(id: Identity, before: seq<Step>, committed: seq<Change>, p: Principal) {
    && p.id == id
    && forall i: nat :: Forget(i) in before && i < |committed| ==>
         (committed[i] == OfSession(id.session) || committed[i] == OfPerson(id.person) ==> i < p.readAfter)
  }

  /** A request that finds an entry is answered at once, with a principal read after all that was forgotten before. */
  lemma HitIsFresh(who: string -> Identity, ttl: int, before: seq<Step>, r: nat, key: string, now: int)
    requires CanRun(who, ttl, START, before) && Enabled(Run(who, ttl, START, before), Begin(r, key, now))
    ensures var s := Run(who, ttl, START, before);
      var after := Next(who, ttl, s, Begin(r, key, now));
      r !in after.loads ==>
        && |after.answered| == |s.answered| + 1
        && ReadAfterAll(who(key), before, s.committed, after.answered[|s.answered|].principal)
  {
    var s := Run(who, ttl, START, before);
    RunKeeps(who, ttl, START, before);
    forall i | Forget(i) in before ensures i in s.forgotten { ForgottenStays(who, ttl, START, before, i); }
    if key in s.entries { assert EntryGood(who, ttl, s, key); }
  }

  /** One that finds none is answered when its load ends, with a principal read after all that was forgotten before. */
  lemma LoadIsFresh(
      who: string -> Identity, ttl: int, before: seq<Step>, r: nat, key: string, now: int, between: seq<Step>,
      end: Step)
    requires CanRun(who, ttl, START, before) && Enabled(Run(who, ttl, START, before), Begin(r, key, now))
    requires var begun := Next(who, ttl, Run(who, ttl, START, before), Begin(r, key, now));
      && r in begun.loads && CanRun(who, ttl, begun, between) && (forall x :: x in between ==> !Ends(x, r))
      && Ends(end, r) && Enabled(Run(who, ttl, begun, between), end)
    ensures var s := Run(who, ttl, Next(who, ttl, Run(who, ttl, START, before), Begin(r, key, now)), between);
      var after := Next(who, ttl, s, end);
      && |after.answered| == |s.answered| + 1 && r !in after.loads
      && ReadAfterAll(who(key), before, after.committed, after.answered[|s.answered|].principal)
  {
    var s0 := Run(who, ttl, START, before);
    var begun := Next(who, ttl, s0, Begin(r, key, now));
    RunKeeps(who, ttl, START, before);
    BeginKeeps(who, ttl, s0, Begin(r, key, now));
    RunKeeps(who, ttl, begun, between);
    LoadStays(who, ttl, begun, between, r);
    var s := Run(who, ttl, begun, between);
    assert LoadGood(who, s, s.loads[r]);
    forall i | Forget(i) in before ensures i in s0.forgotten { ForgottenStays(who, ttl, START, before, i); }
  }
}
