/**
 * What one committed text leaves, with the hourly counts taken from the rows as
 * they stand: how many there are, whatever their order.
 */
module SmsLaws {
  import opened Base
  import opened Sms

  // ---- Numbers ----

  lemma Associates(a: string, b: string, c: string)
    ensures a + (b + c) == a + b + c
  {
  }

  lemma {:induction false} DigitsJoin(a: string, b: string)
    ensures Digits(a + b) == Digits(a) + Digits(b)
  {
    if a == "" {
      assert a + b == b;
    } else {
      var more := a[1..];
      DigitsJoin(more, b);
      assert (a + b)[1..] == more + b;
      Associates(if '0' <= a[0] <= '9' then [a[0]] else "", Digits(more), Digits(b));
    }
  }

  /** A character counts exactly when it is one of the ten digits. */
  lemma DigitIs(c: char)
    ensures Digits([c]) == if c in "0123456789" then [c] else ""
  {
    assert [c][1..] == "";
  }

  /** A sender files as the number its digits are, or, of ten digits, as those after a 1. */
  lemma MatchesExactly(sender: string, number: string)
    ensures var d := Digits(sender);
      Matches(sender, number) <==> 10 <= |d| <= 15 && (number == d || (|d| == 10 && number == "1" + d))
  {
    var d := Digits(sender);
    assert number in [d, "1" + d] <==> number == d || number == "1" + d;
  }

  /** Counted against a registered number are exactly the senders that may file as it. */
  lemma CountedExactly(sender: string, number: string)
    requires 10 <= |number| <= 15
    ensures Digits(sender) in SenderForms(number) <==> Matches(sender, number)
  {
    var d := Digits(sender);
    MatchesExactly(sender, number);
    if Matches(sender, number) { FormsAgree(sender, number); }
    if |number| == 11 && number[0] == '1' {
      assert number == "1" + number[1..];
      assert d in [number, number[1..]] <==> d == number || d == number[1..];
    }
  }

  // ---- Counts ----

  /** The rows filed or answered that count against `number`, read after `after`. */
  function Against(rows: seq<Row>, number: string, after: int): set<nat> {
    set i: nat | i < |rows| && (rows[i].logged || rows[i].reply) && rows[i].readAt > after
      && Digits(rows[i].sender) in SenderForms(number)
  }

  function Replied(rows: seq<Row>, after: int): set<nat> {
    set i: nat | i < |rows| && rows[i].reply && rows[i].readAt > after
  }

  /** The first `n` codes issued after `after`. */
  function Issued(codes: seq<int>, n: nat, after: int): set<nat> {
    set i: nat | i < |codes| && i < n && codes[i] > after
  }

  lemma AgainstOneMore(rows: seq<Row>, n: nat, number: string, after: int)
    requires |rows| == n + 1
    ensures Against(rows, number, after)
         == Against(rows[..n], number, after) + if Counts(rows[n], number) && rows[n].readAt > after then {n} else {}
  {
  }

  lemma {:induction false} RecentCounts(rows: seq<Row>, number: string, after: int)
    ensures Recent(rows, number, after) == |Against(rows, number, after)|
  {
    if rows == [] {
    } else {
      var n := |rows| - 1;
      RecentCounts(rows[..n], number, after);
      AgainstOneMore(rows, n, number, after);
    }
  }

  lemma {:induction false} RepliesCount(rows: seq<Row>, after: int)
    ensures RepliesAfter(rows, after) == |Replied(rows, after)|
  {
    if rows == [] {
    } else {
      var n := |rows| - 1;
      RepliesCount(rows[..n], after);
      assert Replied(rows, after)
        == Replied(rows[..n], after) + if rows[n].reply && rows[n].readAt > after then {n} else {};
    }
  }

  lemma {:induction false} CodesCount(codes: seq<int>, after: int)
    ensures CodesAfter(codes, after) == |Issued(codes, |codes|, after)|
  {
    if codes == [] {
    } else {
      var n := |codes| - 1;
      CodesCount(codes[..n], after);
      assert Issued(codes, |codes|, after) == Issued(codes[..n], n, after) + if codes[n] > after then {n} else {};
    }
  }

  /** The budget holds while replies and codes of the hour before, codes as far as they are in sight, are below 300. */
  lemma MaySendExactly(db: Db, now: int, codes: nat)
    ensures MaySend(db, now, codes) <==>
      |Replied(db.rows, now - 3_600_000)| + |Issued(db.codes, codes, now - 3_600_000)| < 300
  {
    var seen := InSight(db.codes, codes);
    RepliesCount(db.rows, now - HOUR);
    CodesCount(seen, now - HOUR);
    assert Issued(seen, |seen|, now - HOUR) == Issued(db.codes, codes, now - HOUR);
  }

  // ---- One committed text ----

  /** An entry is heard while fewer than twenty texts of the hour before count against its number. */
  predicate Heard(db: Db, t: Txn, d: Decision) {
    d.Entry? && |Against(db.rows, d.number, t.now - 3_600_000)| < 20
  }

  /** It is answered if it is filed or would be answered anyway, as far as the budget goes. */
  predicate IsAnswered(db: Db, t: Txn, d: Decision) {
    && Heard(db, t, d) && (d.filed || d.answered)
    && |Replied(db.rows, t.now - 3_600_000)| + |Issued(db.codes, t.codes, t.now - 3_600_000)| < 300
  }

  lemma KeptIs(db: Db, id: string)
    ensures IsKept(db, id) <==> exists r :: r in db.rows && r.id == id
  {
    if r :| r in db.rows && r.id == id {
      var i :| 0 <= i < |db.rows| && db.rows[i] == r;
      assert db.rows[i].id == id;
    }
  }

  /** What the text becomes, by how the counts stand. */
  lemma DecidedIs(db: Db, t: Txn, d: Decision)
    requires Heard(db, t, d) <==> d.Entry? && Recent(db.rows, d.number, t.now - HOUR) < TEXTS_PER_HOUR
    requires IsAnswered(db, t, d) <==> Heard(db, t, d) && (d.filed || d.answered) && MaySend(db, t.now, t.codes)
    ensures var after := Decided(db, t, d);
      && after.codes == db.codes && after.asked == db.asked
      && after.records == db.records + (if Heard(db, t, d) && d.filed then [Filing(t.text.id, d.number, t.now)] else [])
      && after.rows == db.rows + (if IsKept(db, t.text.id) then [] else
           [Row(t.text.id, t.text.sender, t.now, if d.Entry? then Some(d.number) else None,
                Heard(db, t, d) && d.filed, IsAnswered(db, t, d), false)])
  {
  }

  /**
   * A commit files the entry exactly when it is heard and to be filed, and
   * keeps the text, if it is not kept already, with what became of it.
   */
  lemma CommitIs(s: State, d: Decision)
    requires Enabled(s, Commit(d))
    ensures var (db, t, after) := (s.db, s.holder.value, Next(s, Commit(d)));
      && after.holder.None? && after.db.codes == db.codes && after.db.asked == db.asked
      && after.db.records
           == db.records + (if Heard(db, t, d) && d.filed then [Filing(t.text.id, d.number, t.now)] else [])
      && after.db.rows == db.rows + (if exists r :: r in db.rows && r.id == t.text.id then [] else
           [Row(t.text.id, t.text.sender, t.now, if d.Entry? then Some(d.number) else None,
                Heard(db, t, d) && d.filed, IsAnswered(db, t, d), false)])
  {
    var db, t := s.db, s.holder.value;
    if d.Entry? { RecentCounts(db.rows, d.number, t.now - HOUR); }
    MaySendExactly(db, t.now, t.codes);
    KeptIs(db, t.text.id);
    DecidedIs(db, t, d);
  }

  /** A note that a text failed is kept only where nothing is, and files nothing. */
  lemma NoteIs(s: State, text: Text, at: int)
    ensures var after := Next(s, NoteFailed(text, at));
      && after.holder == s.holder && after.db.records == s.db.records
      && after.db.rows == s.db.rows + (if exists r :: r in s.db.rows && r.id == text.id then [] else
           [Row(text.id, text.sender, at, None, false, false, true)])
  {
    KeptIs(s.db, text.id);
  }

  /** A request for a code goes on exactly when the budget it sees has room, and issues it for the time it asked. */
  lemma CodeIsAskedExactly(s: State, request: nat, at: int)
    requires Enabled(s, AskCode(request, at))
    ensures var after := Next(s, AskCode(request, at));
      && (request in after.db.asked <==>
            |Replied(s.db.rows, at - 3_600_000)| + |Issued(s.db.codes, |s.db.codes|, at - 3_600_000)| < 300)
      && (request in after.db.asked ==>
            Next(after, SendCode(request)) == s.(db := s.db.(codes := s.db.codes + [at])))
  {
    MaySendExactly(s.db, at, |s.db.codes|);
  }
}
