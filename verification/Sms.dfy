/**
 * Inbound texts of one jurisdiction's gateway: each is kept once and files at
 * most one activity record, however many readers list it, fail on it or race
 * for it. A reader works on a text in a transaction under the jurisdiction's
 * lock; only the note that a text failed is kept without the lock.
 */
module Sms {
  import opened Base

  const HOUR := 3_600_000
  const TEXTS_PER_HOUR := 20
  const REPLIES_PER_HOUR := 300

  /** A kept text. `number` is the registered number it was decided for, if any. */
  datatype Row = Row(
    id: string,
    sender: string,
    readAt: int,
    number: Option<string>,
    logged: bool,
    reply: bool,
    failed: bool)

  /** An activity record: the message it came in, the registered number it was filed for, and when it was read. */
  datatype Filing = Filing(id: string, number: string, at: int)

  /**
   * `codes` are the times confirmation codes were issued. `asked` are the
   * requests for a code that have been counted and have not ended, with their
   * times: they take no reader lock, and what they issue shows when they commit.
   */
  datatype Db = Db(rows: seq<Row>, records: seq<Filing>, codes: seq<int>, asked: map<nat, int>)

  /** A text as the gateway lists it, with the gateway's time for it. */
  datatype Text = Text(id: string, sender: string, receivedAt: int)

  /** The transaction that holds the reader lock, with the time it began and how many codes it has seen issued. */
  datatype Txn = Txn(text: Text, now: int, codes: nat)

  datatype State = State(db: Db, holder: Option<Txn>)

  /**
   * What the rules make of a text short of the hourly limits: kept in silence,
   * or a marked text of the registered `number`, filed or refused, that the
   * gateway would answer or not. An entry that is filed is always answered.
   */
  datatype Decision = Silent | Entry(number: string, filed: bool, answered: bool)

  // ---- Numbers ----

  function Digits(s: string): string {
    if s == "" then "" else (if '0' <= s[0] <= '9' then [s[0]] else "") + Digits(s[1..])
  }

  /** The digit strings a registered number may be stored as for this sender. */
  function NumberForms(sender: string): Option<seq<string>> {
    var digits := Digits(sender);
    if |digits| < 10 || |digits| > 15 then None
    else Some(if |digits| == 10 then [digits, "1" + digits] else [digits])
  }

  /** The sender forms counted against a registered number, given as its digits. */
  function SenderForms(number: string): seq<string> {
    if |number| == 11 && number[0] == '1' then [number, number[1..]] else [number]
  }

  predicate Matches(sender: string, number: string) {
    NumberForms(sender).Some? && number in NumberForms(sender).value
  }

  /** Every sender that may file as a number is counted against that number. */
  lemma FormsAgree(sender: string, number: string)
    requires Matches(sender, number)
    ensures Digits(sender) in SenderForms(number)
  {
    var digits := Digits(sender);
    assert ("1" + digits)[1..] == digits;
    assert SenderForms(number)[0] == number;
  }

  // ---- Hourly counts ----

  predicate Counts(r: Row, number: string) { (r.logged || r.reply) && Digits(r.sender) in SenderForms(number) }

  function Recent(rows: seq<Row>, number: string, after: int): nat {
    if rows == [] then 0
    else
      var r := rows[|rows| - 1];
      Recent(rows[..|rows| - 1], number, after) + (if Counts(r, number) && r.readAt > after then 1 else 0)
  }

  function RepliesAfter(rows: seq<Row>, after: int): nat {
    if rows == [] then 0
    else
      var r := rows[|rows| - 1];
      RepliesAfter(rows[..|rows| - 1], after) + (if r.reply && r.readAt > after then 1 else 0)
  }

  function CodesAfter(codes: seq<int>, after: int): nat {
    if codes == [] then 0
    else CodesAfter(codes[..|codes| - 1], after) + (if codes[|codes| - 1] > after then 1 else 0)
  }

  function InSight(codes: seq<int>, n: nat): seq<int> { if n <= |codes| then codes[..n] else codes }

  /** The gateway's budget of replies and codes together, with the first `codes` of the codes in sight. */
  predicate MaySend(db: Db, now: int, codes: nat) {
    RepliesAfter(db.rows, now - HOUR) + CodesAfter(InSight(db.codes, codes), now - HOUR) < REPLIES_PER_HOUR
  }

  // ---- Steps ----

  predicate IsKept(db: Db, id: string) { exists i :: 0 <= i < |db.rows| && db.rows[i].id == id }

  /** Insert, or do nothing when the message is there already. */
  function Keep(db: Db, row: Row): Db { if IsKept(db, row.id) then db else db.(rows := db.rows + [row]) }

  function Silence(t: Txn, number: Option<string>): Row {
    Row(t.text.id, t.text.sender, t.now, number, false, false, false)
  }

  /** What the locked transaction leaves when it commits. */
  function Decided(db: Db, t: Txn, d: Decision): Db {
    match d
    case Silent => Keep(db, Silence(t, None))
    case Entry(number, filed, answered) =>
      if Recent(db.rows, number, t.now - HOUR) >= TEXTS_PER_HOUR then Keep(db, Silence(t, Some(number)))
      else
        var reply := (filed || answered) && MaySend(db, t.now, t.codes);
        var row := Row(t.text.id, t.text.sender, t.now, Some(number), filed, reply, false);
        Keep(if filed then db.(records := db.records + [Filing(t.text.id, number, t.now)]) else db, row)
  }

  function Failed(db: Db, text: Text, now: int): Db {
    Keep(db, Row(text.id, text.sender, now, None, false, false, true))
  }

  datatype Step =
    | Begin(text: Text, now: int)
    | Commit(decision: Decision)
    | Abort
    | Count                               // the reader counts what the gateway sent, replies and codes
    | NoteFailed(failed: Text, at: int)
    | AskCode(request: nat, askedAt: int) // a request for a code counts the same, without the lock
    | SendCode(request: nat)              // and issues it
    | DropCode(request: nat)              // or fails

  predicate Enabled(s: State, step: Step) {
    match step
    case Begin(text, _) => s.holder.None? && !IsKept(s.db, text.id)
    case Commit(d) => s.holder.Some? && (d.Entry? ==> Matches(s.holder.value.text.sender, d.number))
    case Abort => s.holder.Some?
    case Count => s.holder.Some?
    case NoteFailed(_, _) => true
    case AskCode(r, _) => r !in s.db.asked
    case SendCode(r) => r in s.db.asked
    case DropCode(r) => r in s.db.asked
  }

  function Next(s: State, step: Step): State
    requires Enabled(s, step)
  {
    match step
    case Begin(text, now) => s.(holder := Some(Txn(text, now, |s.db.codes|)))
    case Commit(d) => State(Decided(s.db, s.holder.value, d), None)
    case Abort => s.(holder := None)
    case Count => s.(holder := Some(s.holder.value.(codes := |s.db.codes|)))
    case NoteFailed(text, now) => s.(db := Failed(s.db, text, now))
    case AskCode(r, now) =>
      if MaySend(s.db, now, |s.db.codes|) then s.(db := s.db.(asked := s.db.asked[r := now])) else s
    case SendCode(r) => s.(db := s.db.(codes := s.db.codes + [s.db.asked[r]], asked := s.db.asked - {r}))
    case DropCode(r) => s.(db := s.db.(asked := s.db.asked - {r}))
  }

  const INIT := State(Db([], [], [], map[]), None)

  ghost predicate IsRun(run: seq<State>, steps: seq<Step>) {
    && |run| == |steps| + 1 && run[0] == INIT
    && forall i :: 0 <= i < |steps| ==> Enabled(run[i], steps[i]) && run[i + 1] == Next(run[i], steps[i])
  }

  // ---- Kept once, filed once ----

  predicate OneRowEach(rows: seq<Row>) { forall i, j :: 0 <= i < j < |rows| ==> rows[i].id != rows[j].id }

  predicate OneRecordEach(records: seq<Filing>) {
    forall i, j :: 0 <= i < j < |records| ==> records[i].id != records[j].id
  }

  predicate IsFiled(records: seq<Filing>, id: string) { exists i :: 0 <= i < |records| && records[i].id == id }

  /** At most one row and one record of a message, and no record without its row. */
  ghost predicate EachOnce(db: Db) {
    OneRowEach(db.rows) && OneRecordEach(db.records) && forall id :: IsFiled(db.records, id) ==> IsKept(db, id)
  }

  /** A row kept for the text a reader holds can only be a note that it failed. */
  predicate OnlyNotes(rows: seq<Row>, id: string) {
    forall i :: 0 <= i < |rows| && rows[i].id == id ==> rows[i].failed && !rows[i].logged
  }

  ghost predicate Kept(s: State) {
    && EachOnce(s.db)
    && (s.holder.Some? ==>
          && !IsFiled(s.db.records, s.holder.value.text.id)
          && OnlyNotes(s.db.rows, s.holder.value.text.id))
  }

  lemma KeepKeeps(db: Db, row: Row)
    requires OneRowEach(db.rows)
    ensures OneRowEach(Keep(db, row).rows) && IsKept(Keep(db, row), row.id)
    ensures Keep(db, row).records == db.records
    ensures forall id :: IsKept(db, id) ==> IsKept(Keep(db, row), id)
  {
    var after := Keep(db, row);
    if !IsKept(db, row.id) { assert after.rows[|db.rows|] == row; }
    forall id | IsKept(db, id) ensures IsKept(after, id) {
      var i :| 0 <= i < |db.rows| && db.rows[i].id == id;
      assert after.rows[i].id == id;
    }
  }

  lemma RowKeeps(db: Db, row: Row)
    requires EachOnce(db)
    ensures EachOnce(Keep(db, row))
  {
    KeepKeeps(db, row);
  }

  lemma FiledKeeps(db: Db, row: Row, f: Filing)
    requires EachOnce(db) && !IsFiled(db.records, row.id) && f.id == row.id
    ensures EachOnce(Keep(db.(records := db.records + [f]), row))
  {
    var filed := db.(records := db.records + [f]);
    assert forall id :: IsKept(db, id) ==> IsKept(filed, id);
    forall id | IsFiled(filed.records, id) ensures id == row.id || IsFiled(db.records, id) {
      var i :| 0 <= i < |filed.records| && filed.records[i].id == id;
      assert i < |db.records| ==> db.records[i].id == id;
    }
    KeepKeeps(filed, row);
  }

  lemma DecidedKeeps(db: Db, t: Txn, d: Decision)
    requires EachOnce(db) && !IsFiled(db.records, t.text.id)
    ensures EachOnce(Decided(db, t, d))
  {
    if d.Entry? && Recent(db.rows, d.number, t.now - HOUR) < TEXTS_PER_HOUR {
      var reply := (d.filed || d.answered) && MaySend(db, t.now, t.codes);
      var row := Row(t.text.id, t.text.sender, t.now, Some(d.number), d.filed, reply, false);
      if d.filed { FiledKeeps(db, row, Filing(t.text.id, d.number, t.now)); } else { RowKeeps(db, row); }
    } else {
      RowKeeps(db, Silence(t, if d.Silent? then None else Some(d.number)));
    }
  }

  lemma StepKeeps(s: State, step: Step)
    requires Kept(s) && Enabled(s, step)
    ensures Kept(Next(s, step))
  {
    match step {
      case Commit(d) => DecidedKeeps(s.db, s.holder.value, d);
      case NoteFailed(text, now) => RowKeeps(s.db, Row(text.id, text.sender, now, None, false, false, true));
      case _ => assert forall id :: IsKept(s.db, id) ==> IsKept(Next(s, step).db, id);
    }
  }

  lemma {:induction false} RunKeeps(run: seq<State>, steps: seq<Step>)
    requires IsRun(run, steps)
    ensures Kept(run[|steps|])
  {
    if steps == [] {
    } else {
      var n := |steps| - 1;
      RunKeeps(run[..n + 1], steps[..n]);
      StepKeeps(run[n], steps[n]);
    }
  }

  /** In every run each message id has at most one kept row and at most one filed record, and a filed one is kept. */
  lemma KeptAndFiledOnce(run: seq<State>, steps: seq<Step>)
    requires IsRun(run, steps)
    ensures EachOnce(run[|steps|].db)
  {
    RunKeeps(run, steps);
  }

  /** A filing that is within the limits commits. */
  predicate Files(s: State, d: Decision) {
    && Enabled(s, Commit(d)) && d.Entry? && d.filed
    && Recent(s.db.rows, d.number, s.holder.value.now - HOUR) < TEXTS_PER_HOUR
  }

  /**
   * What becomes of a filed text: its record is there, and it is kept as
   * logged exactly when no reader noted it as failed after this one began on it.
   */
  lemma FiledIsLoggedExactly(s: State, d: Decision)
    requires Kept(s) && Files(s, d)
    ensures IsFiled(Next(s, Commit(d)).db.records, s.holder.value.text.id)
    ensures (exists r :: r in Next(s, Commit(d)).db.rows && r.id == s.holder.value.text.id && r.logged)
       <==> !IsKept(s.db, s.holder.value.text.id)
  {
    var t := s.holder.value;
    var after := Next(s, Commit(d)).db;
    assert after.records[|s.db.records|].id == t.text.id;
    if IsKept(s.db, t.text.id) {
      assert IsKept(s.db.(records := after.records), t.text.id);
      assert after.rows == s.db.rows && OnlyNotes(after.rows, t.text.id);
    } else {
      assert after.rows[|s.db.rows|].logged && after.rows[|s.db.rows|] in after.rows;
    }
  }

  lemma FilingAdds(db: Db, t: Txn, number: string, answered: bool)
    requires Recent(db.rows, number, t.now - HOUR) < TEXTS_PER_HOUR
    ensures var rows := Decided(db, t, Entry(number, true, answered)).rows;
      if IsKept(db, t.text.id) then rows == db.rows
      else
        var reply := MaySend(db, t.now, t.codes);
        rows == db.rows + [Row(t.text.id, t.text.sender, t.now, Some(number), true, reply, false)]
  {
    var filed := db.(records := db.records + [Filing(t.text.id, number, t.now)]);
    assert IsKept(filed, t.text.id) <==> IsKept(db, t.text.id);
  }

  lemma OneMoreRecent(rows: seq<Row>, row: Row, number: string, after: int)
    ensures Recent(rows + [row], number, after) ==
      Recent(rows, number, after) + (if Counts(row, number) && row.readAt > after then 1 else 0)
  {
    assert (rows + [row])[..|rows|] == rows;
  }

  /** A filing counts against its number's limit exactly when its text was not noted as failed meanwhile. */
  lemma FilingCountsExactly(s: State, d: Decision, after: int)
    requires Kept(s) && Files(s, d) && after < s.holder.value.now
    ensures Recent(Next(s, Commit(d)).db.rows, d.number, after)
         == Recent(s.db.rows, d.number, after) + (if IsKept(s.db, s.holder.value.text.id) then 0 else 1)
  {
    var t := s.holder.value;
    FilingAdds(s.db, t, d.number, d.answered);
    FormsAgree(t.text.sender, d.number);
    var row := Row(t.text.id, t.text.sender, t.now, Some(d.number), true, MaySend(s.db, t.now, t.codes), false);
    OneMoreRecent(s.db.rows, row, d.number, after);
  }

  // ---- Hourly limits ----

  /** The limits a kept row was held to when it was kept. */
  predicate WithinLimits(before: seq<Row>, r: Row) {
    && (r.logged || r.reply ==> r.number.Some? && Digits(r.sender) in SenderForms(r.number.value)
                                && Recent(before, r.number.value, r.readAt - HOUR) < TEXTS_PER_HOUR)
    && (r.reply ==> RepliesAfter(before, r.readAt - HOUR) < REPLIES_PER_HOUR)
  }

  predicate AllWithinLimits(rows: seq<Row>) {
    rows == [] || (AllWithinLimits(rows[..|rows| - 1]) && WithinLimits(rows[..|rows| - 1], rows[|rows| - 1]))
  }

  lemma KeepHolds(db: Db, row: Row)
    requires AllWithinLimits(db.rows) && WithinLimits(db.rows, row)
    ensures AllWithinLimits(Keep(db, row).rows)
  {
    assert (db.rows + [row])[..|db.rows|] == db.rows;
  }

  lemma EntryHolds(s: State, number: string, filed: bool, answered: bool)
    requires Enabled(s, Commit(Entry(number, filed, answered))) && AllWithinLimits(s.db.rows)
    requires Recent(s.db.rows, number, s.holder.value.now - HOUR) < TEXTS_PER_HOUR
    ensures AllWithinLimits(Decided(s.db, s.holder.value, Entry(number, filed, answered)).rows)
  {
    var t := s.holder.value;
    var reply := (filed || answered) && MaySend(s.db, t.now, t.codes);
    var row := Row(t.text.id, t.text.sender, t.now, Some(number), filed, reply, false);
    FormsAgree(t.text.sender, number);
    assert WithinLimits(s.db.rows, row);
    KeepHolds(if filed then s.db.(records := s.db.records + [Filing(t.text.id, number, t.now)]) else s.db, row);
  }

  lemma StepHolds(s: State, step: Step)
    requires Enabled(s, step) && AllWithinLimits(s.db.rows)
    ensures AllWithinLimits(Next(s, step).db.rows)
  {
    match step {
      case Commit(Silent) => KeepHolds(s.db, Silence(s.holder.value, None));
      case Commit(Entry(number, filed, answered)) =>
        if Recent(s.db.rows, number, s.holder.value.now - HOUR) >= TEXTS_PER_HOUR {
          KeepHolds(s.db, Silence(s.holder.value, Some(number)));
        } else {
          EntryHolds(s, number, filed, answered);
        }
      case NoteFailed(text, now) => KeepHolds(s.db, Row(text.id, text.sender, now, None, false, false, true));
      case _ =>
    }
  }

  lemma {:induction false} RunHolds(run: seq<State>, steps: seq<Step>)
    requires IsRun(run, steps)
    ensures AllWithinLimits(run[|steps|].db.rows)
  {
    if steps == [] {
    } else {
      var n := |steps| - 1;
      RunHolds(run[..n + 1], steps[..n]);
      StepHolds(run[n], steps[n]);
    }
  }

  predicate InHourTo(end: int, at: int) { end - HOUR < at <= end }

  /** Texts kept as logged, or answered without being logged, for `number` in the hour that ends at `end`. */
  function LoggedInHour(rows: seq<Row>, number: string, end: int): nat {
    if rows == [] then 0
    else
      var r := rows[|rows| - 1];
      LoggedInHour(rows[..|rows| - 1], number, end)
      + (if r.logged && r.number == Some(number) && InHourTo(end, r.readAt) then 1 else 0)
  }

  function AnsweredInHour(rows: seq<Row>, number: string, end: int): nat {
    if rows == [] then 0
    else
      var r := rows[|rows| - 1];
      AnsweredInHour(rows[..|rows| - 1], number, end)
      + (if r.reply && !r.logged && r.number == Some(number) && InHourTo(end, r.readAt) then 1 else 0)
  }

  /** The records filed for `number` in that hour, and those of them whose text was kept as failed. */
  function FiledInHour(records: seq<Filing>, number: string, end: int): nat {
    if records == [] then 0
    else
      var f := records[|records| - 1];
      FiledInHour(records[..|records| - 1], number, end) + (if f.number == number && InHourTo(end, f.at) then 1 else 0)
  }

  predicate IsNoted(rows: seq<Row>, id: string) { exists i :: 0 <= i < |rows| && rows[i].id == id && rows[i].failed }

  function NotedInHour(rows: seq<Row>, records: seq<Filing>, number: string, end: int): nat {
    if records == [] then 0
    else
      var f := records[|records| - 1];
      NotedInHour(rows, records[..|records| - 1], number, end)
      + (if f.number == number && InHourTo(end, f.at) && IsNoted(rows, f.id) then 1 else 0)
  }

  function RepliesInHour(rows: seq<Row>, end: int): nat {
    if rows == [] then 0
    else
      var r := rows[|rows| - 1];
      RepliesInHour(rows[..|rows| - 1], end) + (if r.reply && InHourTo(end, r.readAt) then 1 else 0)
  }

  /** What an hour holds is among what a check made at any earlier moment counts. */
  lemma {:induction false} HourIsCounted(rows: seq<Row>, number: string, end: int, after: int)
    requires AllWithinLimits(rows) && after <= end - HOUR
    ensures LoggedInHour(rows, number, end) + AnsweredInHour(rows, number, end) <= Recent(rows, number, after)
    ensures RepliesInHour(rows, end) <= RepliesAfter(rows, after)
  {
    if rows == [] {
    } else {
      HourIsCounted(rows[..|rows| - 1], number, end, after);
    }
  }

  lemma {:induction false} HoursAreBounded(rows: seq<Row>, number: string, end: int)
    requires AllWithinLimits(rows)
    ensures LoggedInHour(rows, number, end) + AnsweredInHour(rows, number, end) <= TEXTS_PER_HOUR
    ensures RepliesInHour(rows, end) <= REPLIES_PER_HOUR
  {
    if rows == [] {
    } else {
      var before, r := rows[..|rows| - 1], rows[|rows| - 1];
      HoursAreBounded(before, number, end);
      if r.readAt <= end { HourIsCounted(before, number, end, r.readAt - HOUR); }
    }
  }

  // ---- Every record is logged or noted ----

  predicate Balanced(db: Db, number: string, end: int) {
    FiledInHour(db.records, number, end)
      == LoggedInHour(db.rows, number, end) + NotedInHour(db.rows, db.records, number, end)
  }

  lemma NotedOfOther(rows: seq<Row>, row: Row, id: string)
    requires row.id != id || !row.failed
    ensures IsNoted(rows + [row], id) <==> IsNoted(rows, id)
  {
    var all := rows + [row];
    if IsNoted(rows, id) {
      var i :| 0 <= i < |rows| && rows[i].id == id && rows[i].failed;
      assert all[i] == rows[i];
    }
    if IsNoted(all, id) {
      var i :| 0 <= i < |all| && all[i].id == id && all[i].failed;
      assert rows[i] == all[i];
    }
  }

  lemma {:induction false} NotedStays(rows: seq<Row>, row: Row, records: seq<Filing>, number: string, end: int)
    requires !IsFiled(records, row.id)
    ensures NotedInHour(rows + [row], records, number, end) == NotedInHour(rows, records, number, end)
  {
    if records == [] {
    } else {
      var n := |records| - 1;
      assert records[n].id != row.id;
      assert forall i :: 0 <= i < n ==> records[..n][i] == records[i];
      NotedStays(rows, row, records[..n], number, end);
      NotedOfOther(rows, row, records[n].id);
    }
  }

  /** A row that files nothing leaves the balance. */
  lemma RowBalances(db: Db, row: Row, number: string, end: int)
    requires EachOnce(db) && Balanced(db, number, end) && !row.logged
    ensures Balanced(Keep(db, row), number, end)
  {
    if !IsKept(db, row.id) {
      NotedStays(db.rows, row, db.records, number, end);
      assert (db.rows + [row])[..|db.rows|] == db.rows;
    }
  }

  /** A filing adds a record and either its logged row or, where the text was noted as failed, a noted record. */
  lemma FilingBalances(db: Db, row: Row, f: Filing, number: string, end: int)
    requires EachOnce(db) && Balanced(db, number, end) && OnlyNotes(db.rows, row.id) && !IsFiled(db.records, row.id)
    requires row.logged && !row.failed && f == Filing(row.id, f.number, row.readAt) && row.number == Some(f.number)
    ensures Balanced(Keep(db.(records := db.records + [f]), row), number, end)
  {
    var filed := db.(records := db.records + [f]);
    assert filed.records[..|db.records|] == db.records;
    if IsKept(filed, row.id) {
      var i :| 0 <= i < |db.rows| && db.rows[i].id == row.id;
      assert IsNoted(db.rows, row.id);
    } else {
      var rows := db.rows + [row];
      assert rows[..|db.rows|] == db.rows;
      NotedStays(db.rows, row, db.records, number, end);
      NotedOfOther(db.rows, row, row.id);
      assert !IsNoted(db.rows, row.id);
    }
  }

  lemma DecidedBalances(db: Db, t: Txn, d: Decision, number: string, end: int)
    requires EachOnce(db) && Balanced(db, number, end)
    requires !IsFiled(db.records, t.text.id) && OnlyNotes(db.rows, t.text.id)
    ensures Balanced(Decided(db, t, d), number, end)
  {
    if d.Entry? && Recent(db.rows, d.number, t.now - HOUR) < TEXTS_PER_HOUR {
      var reply := (d.filed || d.answered) && MaySend(db, t.now, t.codes);
      var row := Row(t.text.id, t.text.sender, t.now, Some(d.number), d.filed, reply, false);
      if d.filed {
        FilingBalances(db, row, Filing(t.text.id, d.number, t.now), number, end);
      } else {
        RowBalances(db, row, number, end);
      }
    } else {
      RowBalances(db, Silence(t, if d.Silent? then None else Some(d.number)), number, end);
    }
  }

  lemma {:induction false} RunBalances(run: seq<State>, steps: seq<Step>, number: string, end: int)
    requires IsRun(run, steps)
    ensures Balanced(run[|steps|].db, number, end)
  {
    if steps == [] {
    } else {
      var n := |steps| - 1;
      RunBalances(run[..n + 1], steps[..n], number, end);
      RunKeeps(run[..n + 1], steps[..n]);
      match steps[n] {
        case Commit(d) => DecidedBalances(run[n].db, run[n].holder.value, d, number, end);
        case NoteFailed(text, now) =>
          RowBalances(run[n].db, Row(text.id, text.sender, now, None, false, false, true), number, end);
        case _ =>
      }
    }
  }

  /**
   * In every run, an hour holds at most twenty texts filed or answered for one
   * registered number beyond those filed although they were noted as failed,
   * and at most three hundred replies. Read times need not come in order: a
   * check counts whatever is later, too.
   */
  lemma HourlyLimits(run: seq<State>, steps: seq<Step>, number: string, end: int)
    requires IsRun(run, steps)
    ensures var db := run[|steps|].db;
      && FiledInHour(db.records, number, end) + AnsweredInHour(db.rows, number, end)
           <= TEXTS_PER_HOUR + NotedInHour(db.rows, db.records, number, end)
      && RepliesInHour(db.rows, end) <= REPLIES_PER_HOUR
  {
    RunHolds(run, steps);
    RunBalances(run, steps, number, end);
    HoursAreBounded(run[|steps|].db.rows, number, end);
  }

  // ---- Filings the limit does not see ----

  function Id(k: nat): string { seq(k, _ => 'x') }

  /**
   * `m` texts filed although each was noted as failed meanwhile, then `k`
   * texts filed as they should be, all at time 0.
   */
  function Flooded(sender: string, number: string, m: nat, k: nat): Db {
    if k > 0 then
      var db := Flooded(sender, number, m, k - 1);
      db.(rows := db.rows + [Row(Id(m + k - 1), sender, 0, Some(number), true, true, false)],
          records := db.records + [Filing(Id(m + k - 1), number, 0)])
    else if m > 0 then
      var db := Flooded(sender, number, m - 1, 0);
      db.(rows := db.rows + [Row(Id(m - 1), sender, 0, None, false, false, true)],
          records := db.records + [Filing(Id(m - 1), number, 0)])
    else Db([], [], [], map[])
  }

  /** What such a database counts up to, all its texts being read at time 0. */
  predicate Adds(db: Db, number: string, records: nat, logged: nat) {
    && (forall i :: 0 <= i < |db.rows| ==> |db.rows[i].id| < records)
    && Recent(db.rows, number, -HOUR) == logged && RepliesAfter(db.rows, -HOUR) == logged && db.codes == []
    && FiledInHour(db.records, number, 0) == records && LoggedInHour(db.rows, number, 0) == logged
  }

  lemma AddsCounted(db: Db, sender: string, number: string, records: nat, logged: nat, id: string)
    requires Adds(db, number, records, logged) && Matches(sender, number) && |id| == records
    ensures Adds(db.(rows := db.rows + [Row(id, sender, 0, Some(number), true, true, false)],
                     records := db.records + [Filing(id, number, 0)]), number, records + 1, logged + 1)
  {
    FormsAgree(sender, number);
    var row := Row(id, sender, 0, Some(number), true, true, false);
    assert (db.rows + [row])[..|db.rows|] == db.rows;
    assert (db.records + [Filing(id, number, 0)])[..|db.records|] == db.records;
  }

  lemma AddsNoted(db: Db, sender: string, number: string, records: nat, logged: nat, id: string)
    requires Adds(db, number, records, logged) && |id| == records
    ensures Adds(db.(rows := db.rows + [Row(id, sender, 0, None, false, false, true)],
                     records := db.records + [Filing(id, number, 0)]), number, records + 1, logged)
  {
    var row := Row(id, sender, 0, None, false, false, true);
    assert (db.rows + [row])[..|db.rows|] == db.rows;
    assert (db.records + [Filing(id, number, 0)])[..|db.records|] == db.records;
  }

  lemma {:induction false} FloodedIs(sender: string, number: string, m: nat, k: nat)
    requires Matches(sender, number)
    ensures Adds(Flooded(sender, number, m, k), number, m + k, k)
    decreases m + k
  {
    if k > 0 {
      FloodedIs(sender, number, m, k - 1);
      AddsCounted(Flooded(sender, number, m, k - 1), sender, number, m + k - 1, k - 1, Id(m + k - 1));
    } else if m > 0 {
      FloodedIs(sender, number, m - 1, 0);
      AddsNoted(Flooded(sender, number, m - 1, 0), sender, number, m - 1, 0, Id(m - 1));
    }
  }

  ghost predicate Reached(s: State) {
    exists run: seq<State>, steps: seq<Step> :: IsRun(run, steps) && run[|steps|] == s
  }

  lemma ReachesNext(s: State, step: Step)
    requires Reached(s) && Enabled(s, step)
    ensures Reached(Next(s, step))
  {
    var run: seq<State>, steps: seq<Step> :| IsRun(run, steps) && run[|steps|] == s;
    var longer, more := run + [Next(s, step)], steps + [step];
    assert IsRun(longer, more) && longer[|more|] == Next(s, step);
  }

  /** One more text filed while it was noted as failed. */
  lemma OneMoreNoted(sender: string, number: string, m: nat)
    requires Matches(sender, number)
    ensures var text, s := Text(Id(m), sender, 0), State(Flooded(sender, number, m, 0), None);
      && Enabled(s, Begin(text, 0))
      && var held := Next(s, Begin(text, 0));
      && var noted := Next(held, NoteFailed(text, 0));
      && Enabled(noted, Commit(Entry(number, true, true)))
      && Next(noted, Commit(Entry(number, true, true))) == State(Flooded(sender, number, m + 1, 0), None)
  {
    FloodedIs(sender, number, m, 0);
    var db := Flooded(sender, number, m, 0);
    var row := Row(Id(m), sender, 0, None, false, false, true);
    var noted := db.(rows := db.rows + [row]);
    assert Failed(db, Text(Id(m), sender, 0), 0) == noted;
    assert noted.rows[..|db.rows|] == db.rows && Recent(noted.rows, number, -HOUR) == 0;
    assert noted.rows[|db.rows|].id == Id(m);
    var filed := noted.(records := db.records + [Filing(Id(m), number, 0)]);
    assert filed.rows[|db.rows|].id == Id(m) && IsKept(filed, Id(m));
  }

  lemma OneMoreCounted(sender: string, number: string, m: nat, k: nat)
    requires Matches(sender, number) && k < TEXTS_PER_HOUR
    ensures var text, s := Text(Id(m + k), sender, 0), State(Flooded(sender, number, m, k), None);
      && Enabled(s, Begin(text, 0))
      && Enabled(Next(s, Begin(text, 0)), Commit(Entry(number, true, true)))
      && Next(Next(s, Begin(text, 0)), Commit(Entry(number, true, true))) ==
        State(Flooded(sender, number, m, k + 1), None)
  {
    FloodedIs(sender, number, m, k);
    var db := Flooded(sender, number, m, k);
    assert MaySend(db, 0, |db.codes|);
    assert !IsKept(db.(records := db.records + [Filing(Id(m + k), number, 0)]), Id(m + k));
  }

  lemma CountedIsReached(sender: string, number: string, m: nat, k: nat)
    requires Matches(sender, number) && k < TEXTS_PER_HOUR && Reached(State(Flooded(sender, number, m, k), None))
    ensures Reached(State(Flooded(sender, number, m, k + 1), None))
  {
    OneMoreCounted(sender, number, m, k);
    var s, begin := State(Flooded(sender, number, m, k), None), Begin(Text(Id(m + k), sender, 0), 0);
    ReachesNext(s, begin);
    ReachesNext(Next(s, begin), Commit(Entry(number, true, true)));
  }

  lemma NotedIsReached(sender: string, number: string, m: nat)
    requires Matches(sender, number) && Reached(State(Flooded(sender, number, m, 0), None))
    ensures Reached(State(Flooded(sender, number, m + 1, 0), None))
  {
    OneMoreNoted(sender, number, m);
    var s, text := State(Flooded(sender, number, m, 0), None), Text(Id(m), sender, 0);
    ReachesNext(s, Begin(text, 0));
    ReachesNext(Next(s, Begin(text, 0)), NoteFailed(text, 0));
    ReachesNext(Next(Next(s, Begin(text, 0)), NoteFailed(text, 0)), Commit(Entry(number, true, true)));
  }

  lemma {:induction false} FloodedIsReached(sender: string, number: string, m: nat, k: nat)
    requires Matches(sender, number) && k <= TEXTS_PER_HOUR
    ensures Reached(State(Flooded(sender, number, m, k), None))
    decreases m + k
  {
    if k > 0 {
      FloodedIsReached(sender, number, m, k - 1);
      CountedIsReached(sender, number, m, k - 1);
    } else if m > 0 {
      FloodedIsReached(sender, number, m - 1, 0);
      NotedIsReached(sender, number, m - 1);
    } else {
      assert IsRun([INIT], []) && [INIT][0] == INIT;
    }
  }

  /** What a run has reached keeps to the hourly limits as every run does. */
  lemma ReachedHolds(s: State, number: string, end: int)
    requires Reached(s)
    ensures Balanced(s.db, number, end)
    ensures FiledInHour(s.db.records, number, end) + AnsweredInHour(s.db.rows, number, end)
         <= TEXTS_PER_HOUR + NotedInHour(s.db.rows, s.db.records, number, end)
  {
    var run: seq<State>, steps: seq<Step> :| IsRun(run, steps) && run[|steps|] == s;
    RunBalances(run, steps, number, end);
    HourlyLimits(run, steps, number, end);
  }

  /** The bound is reached: any number of noted filings, and twenty counted ones after them, in one hour. */
  lemma LimitIsReached(sender: string, number: string, m: nat)
    requires Matches(sender, number)
    ensures var db := Flooded(sender, number, m, TEXTS_PER_HOUR);
      && Reached(State(db, None))
      && FiledInHour(db.records, number, 0) == TEXTS_PER_HOUR + m && NotedInHour(db.rows, db.records, number, 0) == m
  {
    FloodedIsReached(sender, number, m, TEXTS_PER_HOUR);
    FloodedIs(sender, number, m, TEXTS_PER_HOUR);
    ReachedHolds(State(Flooded(sender, number, m, TEXTS_PER_HOUR), None), number, 0);
  }

  /**
   * Any number of texts filed in an hour, twenty-one say, all kept as failed,
   * and none of which the limit has counted.
   */
  lemma FiledButKeptAsFailed(sender: string, number: string, m: nat)
    requires Matches(sender, number)
    ensures var db := Flooded(sender, number, m, 0);
      && Reached(State(db, None))
      && FiledInHour(db.records, number, 0) == m && NotedInHour(db.rows, db.records, number, 0) == m
      && Recent(db.rows, number, -HOUR) == 0
  {
    FloodedIsReached(sender, number, m, 0);
    FloodedIs(sender, number, m, 0);
    ReachedHolds(State(Flooded(sender, number, m, 0), None), number, 0);
  }

  /**
   * However a run goes, an hour in which at most `m` filings of `number` were
   * noted as failed holds at most twenty texts.
   */
  ghost predicate KeepsTwenty(number: string, m: nat) {
    forall s: State, end: int :: Reached(s) && NotedInHour(s.db.rows, s.db.records, number, end) <= m ==>
      FiledInHour(s.db.records, number, end) + AnsweredInHour(s.db.rows, number, end) <= TEXTS_PER_HOUR
  }

  /** The limit of twenty is kept if and only if no filed text was noted as failed while it was held. */
  lemma TwentyExactlyWithoutNotes(sender: string, number: string, m: nat)
    requires Matches(sender, number)
    ensures KeepsTwenty(number, m) <==> m == 0
  {
    if m == 0 {
      forall s: State, end: int | Reached(s) && NotedInHour(s.db.rows, s.db.records, number, end) <= m
        ensures FiledInHour(s.db.records, number, end) + AnsweredInHour(s.db.rows, number, end) <= TEXTS_PER_HOUR
      {
        ReachedHolds(s, number, end);
      }
    } else {
      LimitIsReached(sender, number, m);
    }
  }
}
