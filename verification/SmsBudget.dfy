/**
 * The gateway's hourly budget of replies and confirmation codes together. The
 * reader counts under its lock, a request for a code counts without it, so
 * whatever has counted and not yet committed is out of the others' sight.
 */
module SmsBudget {
  import opened Base
  import opened Sms

  function CodesInHour(codes: seq<int>, end: int): nat {
    if codes == [] then 0
    else CodesInHour(codes[..|codes| - 1], end) + (if InHourTo(end, codes[|codes| - 1]) then 1 else 0)
  }

  /** What the gateway sent in the hour that ends at `end`. */
  function SentInHour(db: Db, end: int): nat { RepliesInHour(db.rows, end) + CodesInHour(db.codes, end) }

  /** Whatever has counted, or is about to, and has not ended. */
  function Pending(s: State): nat { |s.db.asked| + (if s.holder.Some? then 1 else 0) }

  function AskedInHour(asked: map<nat, int>, end: int): set<nat> { set r | r in asked && InHourTo(end, asked[r]) }

  /** The reader would answer its text in that hour, by what it counted. */
  predicate Replies(s: State, end: int) {
    s.holder.Some? && InHourTo(end, s.holder.value.now) && MaySend(s.db, s.holder.value.now, s.holder.value.codes)
  }

  /** What may yet be sent in that hour by what has counted already. */
  function Coming(s: State, end: int): nat {
    |AskedInHour(s.db.asked, end)| + (if Replies(s, end) then 1 else 0)
  }

  predicate InBudget(s: State, m: nat, end: int) { SentInHour(s.db, end) + Coming(s, end) < REPLIES_PER_HOUR + m }

  ghost predicate Kept(s: State, m: nat) {
    && (s.holder.Some? ==> s.holder.value.codes <= |s.db.codes|)
    && forall end :: InBudget(s, m, end)
  }

  // ---- Counting ----

  lemma {:induction false} RepliesCounted(rows: seq<Row>, end: int, after: int)
    requires after <= end - HOUR
    ensures RepliesInHour(rows, end) <= RepliesAfter(rows, after)
  {
    if rows == [] {
    } else {
      RepliesCounted(rows[..|rows| - 1], end, after);
    }
  }

  lemma {:induction false} CodesCounted(codes: seq<int>, end: int, after: int)
    requires after <= end - HOUR
    ensures CodesInHour(codes, end) <= CodesAfter(codes, after)
  {
    if codes == [] {
    } else {
      CodesCounted(codes[..|codes| - 1], end, after);
    }
  }

  /** A count with every code in sight that leaves room leaves it in each hour its moment is in. */
  lemma RoomLeft(db: Db, now: int, end: int)
    requires MaySend(db, now, |db.codes|) && InHourTo(end, now)
    ensures SentInHour(db, end) < REPLIES_PER_HOUR
  {
    assert db.codes[..|db.codes|] == db.codes;
    RepliesCounted(db.rows, end, now - HOUR);
    CodesCounted(db.codes, end, now - HOUR);
  }

  lemma SubsetSize(a: set<nat>, b: set<nat>)
    requires a <= b
    ensures |a| <= |b|
  {
    assert b == a + (b - a);
  }

  lemma ComingIsPending(s: State, end: int)
    ensures Coming(s, end) <= Pending(s)
  {
    SubsetSize(AskedInHour(s.db.asked, end), s.db.asked.Keys);
    assert |s.db.asked.Keys| == |s.db.asked|;
  }

  // ---- Rows and codes that are added ----

  lemma RowSends(rows: seq<Row>, row: Row, end: int, after: int)
    ensures RepliesInHour(rows + [row], end)
         == RepliesInHour(rows, end) + (if row.reply && InHourTo(end, row.readAt) then 1 else 0)
    ensures RepliesAfter(rows + [row], after)
         == RepliesAfter(rows, after) + (if row.reply && row.readAt > after then 1 else 0)
  {
    assert (rows + [row])[..|rows|] == rows;
  }

  lemma CodeSends(codes: seq<int>, at: int, end: int)
    ensures CodesInHour(codes + [at], end) == CodesInHour(codes, end) + (if InHourTo(end, at) then 1 else 0)
  {
    assert (codes + [at])[..|codes|] == codes;
  }

  /** A row without an answer changes no count. */
  lemma KeepSends(db: Db, row: Row, end: int, after: int)
    ensures RepliesInHour(Keep(db, row).rows, end)
         <= RepliesInHour(db.rows, end) + (if row.reply && InHourTo(end, row.readAt) then 1 else 0)
    ensures !row.reply ==> RepliesAfter(Keep(db, row).rows, after) == RepliesAfter(db.rows, after)
  {
    RowSends(db.rows, row, end, after);
  }

  // ---- Steps ----

  /** The rows after a commit hold at most one more reply, and only where the reader would answer. */
  predicate SendsOne(db: Db, t: Txn, rows: seq<Row>, end: int) {
    RepliesInHour(rows, end) <=
      RepliesInHour(db.rows, end) + (if InHourTo(end, t.now) && MaySend(db, t.now, t.codes) then 1 else 0)
  }

  lemma FiledSends(db: Db, t: Txn, number: string, answered: bool, end: int)
    requires Recent(db.rows, number, t.now - HOUR) < TEXTS_PER_HOUR
    ensures SendsOne(db, t, Decided(db, t, Entry(number, true, answered)).rows, end)
  {
    FilingAdds(db, t, number, answered);
    var row := Row(t.text.id, t.text.sender, t.now, Some(number), true, MaySend(db, t.now, t.codes), false);
    RowSends(db.rows, row, end, 0);
  }

  lemma RefusedSends(db: Db, t: Txn, number: string, answered: bool, end: int)
    requires Recent(db.rows, number, t.now - HOUR) < TEXTS_PER_HOUR
    ensures SendsOne(db, t, Decided(db, t, Entry(number, false, answered)).rows, end)
  {
    var reply := answered && MaySend(db, t.now, t.codes);
    KeepSends(db, Row(t.text.id, t.text.sender, t.now, Some(number), false, reply, false), end, 0);
  }

  lemma DecidedSends(db: Db, t: Txn, d: Decision, end: int)
    ensures SendsOne(db, t, Decided(db, t, d).rows, end)
  {
    if d.Entry? && Recent(db.rows, d.number, t.now - HOUR) < TEXTS_PER_HOUR {
      if d.filed {
        FiledSends(db, t, d.number, d.answered, end);
      } else {
        RefusedSends(db, t, d.number, d.answered, end);
      }
    } else {
      KeepSends(db, Silence(t, if d.Silent? then None else Some(d.number)), end, 0);
    }
  }

  lemma DecidedLeaves(db: Db, t: Txn, d: Decision)
    ensures Decided(db, t, d).codes == db.codes && Decided(db, t, d).asked == db.asked
  {
  }

  lemma CommitKeeps(s: State, d: Decision, m: nat, end: int)
    requires Enabled(s, Commit(d)) && InBudget(s, m, end)
    ensures InBudget(Next(s, Commit(d)), m, end)
  {
    DecidedSends(s.db, s.holder.value, d, end);
    DecidedLeaves(s.db, s.holder.value, d);
  }

  lemma CountKeeps(s: State, step: Step, m: nat, end: int)
    requires Enabled(s, step) && (step.Begin? || step.Count?) && InBudget(s, m, end) && Pending(Next(s, step)) <= m
    ensures InBudget(Next(s, step), m, end)
  {
    var after := Next(s, step);
    if Replies(after, end) {
      RoomLeft(after.db, after.holder.value.now, end);
      ComingIsPending(after, end);
    }
  }

  lemma AskKeeps(s: State, r: nat, now: int, m: nat, end: int)
    requires Enabled(s, AskCode(r, now)) && InBudget(s, m, end) && Pending(Next(s, AskCode(r, now))) <= m
    ensures InBudget(Next(s, AskCode(r, now)), m, end)
  {
    var after := Next(s, AskCode(r, now));
    if MaySend(s.db, now, |s.db.codes|) {
      if InHourTo(end, now) {
        RoomLeft(s.db, now, end);
        ComingIsPending(after, end);
      } else {
        assert AskedInHour(after.db.asked, end) == AskedInHour(s.db.asked, end);
      }
    }
  }

  lemma EndKeeps(s: State, step: Step, m: nat, end: int)
    requires Kept(s, m) && Enabled(s, step) && (step.SendCode? || step.DropCode?)
    ensures InBudget(Next(s, step), m, end)
  {
    var after, r := Next(s, step), step.request;
    assert InBudget(s, m, end);
    assert AskedInHour(after.db.asked, end) == AskedInHour(s.db.asked, end) - {r};
    CodeSends(s.db.codes, s.db.asked[r], end);
    assert s.holder.Some? ==>
      InSight(after.db.codes, s.holder.value.codes) == InSight(s.db.codes, s.holder.value.codes);
  }

  lemma NoteKeeps(s: State, text: Text, now: int, m: nat, end: int)
    requires InBudget(s, m, end)
    ensures InBudget(Next(s, NoteFailed(text, now)), m, end)
  {
    var row := Row(text.id, text.sender, now, None, false, false, true);
    KeepSends(s.db, row, end, if s.holder.Some? then s.holder.value.now - HOUR else 0);
  }

  lemma StepKeeps(s: State, step: Step, m: nat)
    requires Kept(s, m) && Enabled(s, step) && Pending(Next(s, step)) <= m
    ensures Kept(Next(s, step), m)
  {
    forall end ensures InBudget(Next(s, step), m, end) {
      assert InBudget(s, m, end);
      match step {
        case Commit(d) => CommitKeeps(s, d, m, end);
        case Begin(_, _) => CountKeeps(s, step, m, end);
        case Count => CountKeeps(s, step, m, end);
        case AskCode(r, now) => AskKeeps(s, r, now, m, end);
        case NoteFailed(text, now) => NoteKeeps(s, text, now, m, end);
        case Abort =>
        case _ => EndKeeps(s, step, m, end);
      }
    }
  }

  // ---- Runs ----

  /** A run in which at most `m` transactions that count are under way at any time. */
  ghost predicate RunsWith(run: seq<State>, steps: seq<Step>, m: nat) {
    IsRun(run, steps) && forall i :: 0 <= i < |run| ==> Pending(run[i]) <= m
  }

  lemma {:induction false} RunKeeps(run: seq<State>, steps: seq<Step>, m: nat)
    requires RunsWith(run, steps, m)
    ensures Kept(run[|steps|], m)
  {
    if steps == [] {
      assert forall end :: AskedInHour(INIT.db.asked, end) == {};
    } else {
      var n := |steps| - 1;
      RunKeeps(run[..n + 1], steps[..n], m);
      assert Pending(run[n + 1]) <= m;
      StepKeeps(run[n], steps[n], m);
    }
  }

  ghost predicate ReachedWith(s: State, m: nat) {
    exists run: seq<State>, steps: seq<Step> :: RunsWith(run, steps, m) && run[|steps|] == s
  }

  /** With at most `m` of them under way no hour sees more than `299 + m` replies and codes sent. */
  lemma SentIsBounded(s: State, m: nat, end: int)
    requires ReachedWith(s, m)
    ensures SentInHour(s.db, end) < REPLIES_PER_HOUR + m
  {
    var run: seq<State>, steps: seq<Step> :| RunsWith(run, steps, m) && run[|steps|] == s;
    RunKeeps(run, steps, m);
    assert InBudget(s, m, end);
  }

  // ---- The bound is reached ----

  function Zeros(k: nat): seq<int> { seq(k, _ => 0) }

  /** The first `a` requests, all asked at time 0. */
  function Askers(a: nat): map<nat, int> { if a == 0 then map[] else Askers(a - 1)[a - 1 := 0] }

  /** `k` codes issued at time 0 and `a` requests that have counted. */
  function Busy(k: nat, a: nat): State { State(Db([], [], Zeros(k), Askers(a)), None) }

  lemma {:induction false} ZerosCount(k: nat)
    ensures CodesInHour(Zeros(k), 0) == k && CodesAfter(Zeros(k), -HOUR) == k
  {
    if k == 0 {
    } else {
      ZerosCount(k - 1);
      assert Zeros(k)[..k - 1] == Zeros(k - 1);
    }
  }

  lemma {:induction false} AskerIs(a: nat, r: nat)
    ensures r in Askers(a) <==> r < a
  {
    if a == 0 {
    } else {
      AskerIs(a - 1, r);
    }
  }

  lemma {:induction false} AskersCount(a: nat)
    ensures |Askers(a)| == a
  {
    if a == 0 {
    } else {
      AskersCount(a - 1);
      AskerIs(a - 1, a - 1);
    }
  }

  lemma LastAskerEnds(a: nat)
    requires a > 0
    ensures Askers(a) - {a - 1} == Askers(a - 1)
  {
    AskerIs(a - 1, a - 1);
  }

  lemma ReachesNext(s: State, step: Step, m: nat)
    requires ReachedWith(s, m) && Enabled(s, step) && Pending(Next(s, step)) <= m
    ensures ReachedWith(Next(s, step), m)
  {
    var run: seq<State>, steps: seq<Step> :| RunsWith(run, steps, m) && run[|steps|] == s;
    var longer, more := run + [Next(s, step)], steps + [step];
    assert RunsWith(longer, more, m) && longer[|more|] == Next(s, step);
  }

  lemma OneMoreAsks(k: nat, a: nat, m: nat)
    requires ReachedWith(Busy(k, a), m) && k < REPLIES_PER_HOUR && a < m
    ensures ReachedWith(Busy(k, a + 1), m)
  {
    ZerosCount(k);
    AskerIs(a, a);
    AskersCount(a + 1);
    assert Zeros(k)[..k] == Zeros(k);
    assert Next(Busy(k, a), AskCode(a, 0)) == Busy(k, a + 1);
    ReachesNext(Busy(k, a), AskCode(a, 0), m);
  }

  lemma SendIs(k: nat, a: nat)
    requires a > 0
    ensures Enabled(Busy(k, a), SendCode(a - 1)) && Next(Busy(k, a), SendCode(a - 1)) == Busy(k + 1, a - 1)
  {
    LastAskerEnds(a);
    AskerIs(a, a - 1);
    assert Zeros(k) + [0] == Zeros(k + 1);
  }

  lemma OneMoreSends(k: nat, a: nat, m: nat)
    requires ReachedWith(Busy(k, a), m) && 0 < a <= m
    ensures ReachedWith(Busy(k + 1, a - 1), m)
  {
    SendIs(k, a);
    AskersCount(a - 1);
    ReachesNext(Busy(k, a), SendCode(a - 1), m);
  }

  /** Codes one at a time. */
  lemma {:induction false} SinglesReach(k: nat, m: nat)
    requires k <= REPLIES_PER_HOUR && m > 0
    ensures ReachedWith(Busy(k, 0), m)
  {
    if k == 0 {
      assert Zeros(0) == [] && Askers(0) == map[];
      var steps: seq<Step> := [];
      assert RunsWith([INIT], steps, m) && [INIT][|steps|] == Busy(0, 0);
    } else {
      SinglesReach(k - 1, m);
      OneMoreAsks(k - 1, 0, m);
      OneMoreSends(k - 1, 1, m);
    }
  }

  lemma {:induction false} AskersReach(k: nat, a: nat, m: nat)
    requires k < REPLIES_PER_HOUR && a <= m && m > 0
    ensures ReachedWith(Busy(k, a), m)
  {
    if a == 0 {
      SinglesReach(k, m);
    } else {
      AskersReach(k, a - 1, m);
      OneMoreAsks(k, a - 1, m);
    }
  }

  lemma {:induction false} SendersReach(k: nat, a: nat, m: nat)
    requires ReachedWith(Busy(k, a), m) && a <= m
    ensures ReachedWith(Busy(k + a, 0), m)
    decreases a
  {
    if a == 0 {
    } else {
      OneMoreSends(k, a, m);
      SendersReach(k + 1, a - 1, m);
      assert k + 1 + (a - 1) == k + a;
    }
  }

  /** After 299 codes, `m` requests that count together all issue theirs. */
  lemma BudgetIsReached(m: nat)
    requires m > 0
    ensures var s := Busy(REPLIES_PER_HOUR - 1 + m, 0);
      ReachedWith(s, m) && SentInHour(s.db, 0) == REPLIES_PER_HOUR - 1 + m
  {
    AskersReach(REPLIES_PER_HOUR - 1, m, m);
    SendersReach(REPLIES_PER_HOUR - 1, m, m);
    ZerosCount(REPLIES_PER_HOUR - 1 + m);
  }

  /** The promise: no hour sees a three hundred and first. */
  ghost predicate KeepsBudget(m: nat) {
    forall s: State, end: int :: ReachedWith(s, m) ==> SentInHour(s.db, end) <= REPLIES_PER_HOUR
  }

  /** It is kept with at most `m` of them under way if and only if they come one at a time. */
  lemma BudgetExactlyOneAtATime(m: nat)
    ensures KeepsBudget(m) <==> m <= 1
  {
    if m <= 1 {
      forall s: State, end: int | ReachedWith(s, m) ensures SentInHour(s.db, end) <= REPLIES_PER_HOUR {
        SentIsBounded(s, m, end);
      }
    } else {
      BudgetIsReached(m);
    }
  }
}
