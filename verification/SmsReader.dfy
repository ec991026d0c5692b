/**
 * One reader at work between the others: the loop over a gateway's listing and
 * the tries on one text. What each does to the tables is a sequence of the
 * steps whose runs are proved about in `Sms`.
 */
module SmsReader {
  import opened Base
  import opened Sms

  const TRIES := 3

  /**
   * How one try at a text goes: a failure worth another try, any other failure
   * and whether the note of it is kept, or a decision that commits.
   */
  datatype Attempt = Transient | Breaks(noted: bool) | Decides(d: Decision)

  predicate Proper(text: Text, attempts: seq<Attempt>) {
    && |attempts| == TRIES
    && forall i :: 0 <= i < TRIES && attempts[i].Decides? && attempts[i].d.Entry? ==>
      Matches(text.sender, attempts[i].d.number)
  }

  predicate AllTransient(attempts: seq<Attempt>) { forall i :: 0 <= i < |attempts| ==> attempts[i].Transient? }

  ghost predicate LeadsTo(from: State, steps: seq<Step>, after: State)
    decreases |steps|
  {
    if steps == [] then from == after
    else Enabled(from, steps[0]) && LeadsTo(Next(from, steps[0]), steps[1..], after)
  }

  /** `steps` lead from one state of the tables to another, the lock being free at both ends. */
  ghost predicate Leads(from: Db, steps: seq<Step>, after: Db)
    decreases |steps|
  {
    LeadsTo(State(from, None), steps, State(after, None))
  }

  lemma {:induction false} LeadsOn(from: State, steps: seq<Step>, mid: State, more: seq<Step>, after: State)
    requires LeadsTo(from, steps, mid) && LeadsTo(mid, more, after)
    ensures LeadsTo(from, steps + more, after)
    decreases |steps|
  {
    if steps == [] {
      assert steps + more == more;
    } else {
      LeadsOn(Next(from, steps[0]), steps[1..], mid, more, after);
      assert (steps + more)[1..] == steps[1..] + more;
    }
  }

  lemma OneMore(from: State, steps: seq<Step>, mid: State, step: Step)
    requires LeadsTo(from, steps, mid) && Enabled(mid, step)
    ensures LeadsTo(from, steps + [step], Next(mid, step))
  {
    assert LeadsTo(Next(mid, step), [], Next(mid, step));
    assert [step][1..] == [];
    assert LeadsTo(mid, [step], Next(mid, step));
    LeadsOn(from, steps, mid, [step], Next(mid, step));
  }

  /** A run followed by steps that lead on is a run: what every run keeps holds after each reader's call. */
  lemma {:induction false} LeadsExtendRun(
      run: seq<State>, steps: seq<Step>, more: seq<Step>, after: State) returns (longer: seq<State>)
    requires IsRun(run, steps) && LeadsTo(run[|steps|], more, after)
    ensures IsRun(longer, steps + more) && longer[|steps + more|] == after
    decreases |more|
  {
    if more == [] {
      assert steps + more == steps;
      longer := run;
    } else {
      longer := LeadsExtendRun(run + [Next(run[|steps|], more[0])], steps + [more[0]], more[1..], after);
      assert steps + [more[0]] + more[1..] == steps + more;
    }
  }

  /** The first try that is not cut short. */
  function Decisive(attempts: seq<Attempt>): Option<Attempt> {
    if attempts == [] then None else if attempts[0].Transient? then Decisive(attempts[1..]) else Some(attempts[0])
  }

  /** The tries leave a row: the decisive one decides, or fails and its note is kept. */
  predicate Settles(attempts: seq<Attempt>) {
    Decisive(attempts).Some? && (Decisive(attempts).value.Breaks? ==> Decisive(attempts).value.noted)
  }

  lemma {:induction false} DecisiveIs(attempts: seq<Attempt>, k: nat)
    requires k <= |attempts| && AllTransient(attempts[..k])
    ensures Decisive(attempts) ==
      if k < |attempts| && !attempts[k].Transient? then Some(attempts[k]) else Decisive(attempts[k..])
  {
    if k == 0 {
      assert attempts[0..] == attempts;
    } else {
      assert attempts[..k][0] == attempts[0];
      var rest := attempts[1..][..k - 1];
      forall i | 0 <= i < |rest| ensures rest[i].Transient? { assert rest[i] == attempts[..k][i + 1]; }
      DecisiveIs(attempts[1..], k - 1);
      assert attempts[1..][k - 1..] == attempts[k..];
    }
  }

  /** What one text leaves behind: nothing more once it is kept, else what its decisive try makes of it. */
  function OneRead(db: Db, text: Text, now: int, attempts: seq<Attempt>): Db {
    if IsKept(db, text.id) then db
    else match Decisive(attempts)
      case Some(Breaks(noted)) => if noted then Failed(db, text, now) else db
      case Some(Decides(d)) => Decided(db, Txn(text, now, |db.codes|), d)
      case _ => db
  }

  /** A listing in order, each message once. */
  function AllRead(db: Db, texts: seq<Text>, now: int, attempts: seq<seq<Attempt>>, seen: set<string>): Db
    requires |attempts| == |texts|
    decreases |texts|
  {
    if texts == [] then db
    else if texts[0].id in seen then AllRead(db, texts[1..], now, attempts[1..], seen)
    else AllRead(OneRead(db, texts[0], now, attempts[0]), texts[1..], now, attempts[1..], seen + {texts[0].id})
  }

  /** `text` after every one of `sorted` that is not younger. */
  function Placed(sorted: seq<Text>, text: Text): (r: seq<Text>)
    ensures |r| == |sorted| + 1
  {
    if sorted == [] || sorted[|sorted| - 1].receivedAt <= text.receivedAt then sorted + [text]
    else Placed(sorted[..|sorted| - 1], text) + [sorted[|sorted| - 1]]
  }

  /** The listing oldest first; texts received at one time keep their order. */
  function OldestFirst(texts: seq<Text>): (sorted: seq<Text>)
    ensures |sorted| == |texts|
  {
    if texts == [] then [] else Placed(OldestFirst(texts[..|texts| - 1]), texts[|texts| - 1])
  }

  predicate ByAge(texts: seq<Text>) {
    forall i, j :: 0 <= i < j < |texts| ==> texts[i].receivedAt <= texts[j].receivedAt
  }

  /** The texts received at one time, in their order. */
  function ReceivedAt(texts: seq<Text>, at: int): seq<Text> {
    if texts == [] then []
    else
      var last := texts[|texts| - 1];
      ReceivedAt(texts[..|texts| - 1], at) + (if last.receivedAt == at then [last] else [])
  }

  lemma {:induction false} PlacedHolds(sorted: seq<Text>, text: Text)
    ensures forall t :: t in Placed(sorted, text) <==> t in sorted || t == text
  {
    if sorted == [] {
    } else {
      var n := |sorted| - 1;
      PlacedHolds(sorted[..n], text);
      assert sorted == sorted[..n] + [sorted[n]];
    }
  }

  lemma {:induction false} PlacedIsByAge(sorted: seq<Text>, text: Text)
    requires ByAge(sorted)
    ensures ByAge(Placed(sorted, text))
  {
    if sorted != [] && sorted[|sorted| - 1].receivedAt > text.receivedAt {
      var n := |sorted| - 1;
      var before := Placed(sorted[..n], text);
      PlacedIsByAge(sorted[..n], text);
      PlacedHolds(sorted[..n], text);
      forall i | 0 <= i < |before| ensures before[i].receivedAt <= sorted[n].receivedAt { assert before[i] in before; }
    }
  }

  lemma OneMoreReceived(texts: seq<Text>, text: Text, at: int)
    ensures ReceivedAt(texts + [text], at) == ReceivedAt(texts, at) + (if text.receivedAt == at then [text] else [])
  {
    assert (texts + [text])[..|texts|] == texts;
  }

  lemma {:induction false} PlacedKeepsTies(sorted: seq<Text>, text: Text, at: int)
    ensures ReceivedAt(Placed(sorted, text), at) == ReceivedAt(sorted, at) +
      (if text.receivedAt == at then [text] else [])
  {
    if sorted == [] || sorted[|sorted| - 1].receivedAt <= text.receivedAt {
      OneMoreReceived(sorted, text, at);
    } else {
      var n := |sorted| - 1;
      PlacedKeepsTies(sorted[..n], text, at);
      OneMoreReceived(Placed(sorted[..n], text), sorted[n], at);
      if text.receivedAt == at { assert ReceivedAt(sorted, at) == ReceivedAt(sorted[..n], at) + []; }
    }
  }

  /** The sort is one: every text of the listing, by age, ties in the listing's order. */
  lemma {:induction false} OldestFirstSorts(texts: seq<Text>, at: int)
    ensures ByAge(OldestFirst(texts)) && forall t :: t in OldestFirst(texts) <==> t in texts
    ensures ReceivedAt(OldestFirst(texts), at) == ReceivedAt(texts, at)
  {
    if texts == [] {
    } else {
      var n := |texts| - 1;
      OldestFirstSorts(texts[..n], at);
      PlacedHolds(OldestFirst(texts[..n]), texts[n]);
      PlacedIsByAge(OldestFirst(texts[..n]), texts[n]);
      PlacedKeepsTies(OldestFirst(texts[..n]), texts[n], at);
      assert texts == texts[..n] + [texts[n]];
    }
  }

  function Known(db: Db, texts: seq<Text>): set<string> { set t | t in texts && IsKept(db, t.id) :: t.id }

  predicate FirstListing(texts: seq<Text>, i: nat)
    requires i < |texts|
  {
    forall h :: 0 <= h < i ==> texts[h].id != texts[i].id
  }

  lemma DecidedAdds(db: Db, t: Txn, d: Decision)
    requires !IsKept(db, t.text.id)
    ensures var rows := Decided(db, t, d).rows;
      |rows| == |db.rows| + 1 && rows[..|db.rows|] == db.rows && rows[|db.rows|].id == t.text.id
  {
    assert forall records :: !IsKept(db.(records := records), t.text.id);
  }

  lemma {:induction false} DecisiveIsNotCut(attempts: seq<Attempt>)
    ensures Decisive(attempts).Some? ==> !Decisive(attempts).value.Transient?
  {
    if attempts == [] {
    } else {
      DecisiveIsNotCut(attempts[1..]);
    }
  }

  lemma OneRowMore(before: Db, after: Db, id: string)
    requires |after.rows| == |before.rows| + 1 && after.rows[..|before.rows|] == before.rows
    ensures IsKept(after, id) <==> IsKept(before, id) || after.rows[|before.rows|].id == id
  {
    if IsKept(before, id) {
      var i :| 0 <= i < |before.rows| && before.rows[i].id == id;
      assert after.rows[i] == before.rows[i];
    }
    if IsKept(after, id) {
      var i :| 0 <= i < |after.rows| && after.rows[i].id == id;
      assert i < |before.rows| ==> before.rows[i] == after.rows[i];
    }
  }

  /** One text changes what is kept of its own message only: it is kept after exactly when its tries leave a row. */
  lemma OneReadKeeps(db: Db, text: Text, now: int, attempts: seq<Attempt>, id: string)
    ensures IsKept(OneRead(db, text, now, attempts), id) <==>
      IsKept(db, id) || (id == text.id && Settles(attempts))
  {
    DecisiveIsNotCut(attempts);
    var after := OneRead(db, text, now, attempts);
    if !IsKept(db, text.id) && Settles(attempts) {
      var decisive := Decisive(attempts).value;
      if decisive.Decides? { DecidedAdds(db, Txn(text, now, |db.codes|), decisive.d); }
      OneRowMore(db, after, id);
    }
  }

  /** Once a message was seen, the rest of the listing leaves it as it is; it never keeps one that is not listed. */
  lemma {:induction false} SeenIsLeft(
      db: Db, texts: seq<Text>, now: int, attempts: seq<seq<Attempt>>, seen: set<string>, id: string)
    requires |attempts| == |texts| && (id in seen || forall t :: t in texts ==> t.id != id)
    ensures IsKept(AllRead(db, texts, now, attempts, seen), id) <==> IsKept(db, id)
    decreases |texts|
  {
    if texts == [] {
    } else {
      assert texts[0] in texts && forall t :: t in texts[1..] ==> t in texts;
      if texts[0].id in seen {
        SeenIsLeft(db, texts[1..], now, attempts[1..], seen, id);
      } else {
        OneReadKeeps(db, texts[0], now, attempts[0], id);
        SeenIsLeft(OneRead(db, texts[0], now, attempts[0]), texts[1..], now, attempts[1..], seen + {texts[0].id}, id);
      }
    }
  }

  /**
   * A message is kept after a listing exactly when it was kept before or the
   * tries at its first place in the listing leave a row: the first that is not
   * cut short decides, or fails and the note of that is kept.
   */
  lemma {:induction false} ListingSettles(
      db: Db, texts: seq<Text>, now: int, attempts: seq<seq<Attempt>>, seen: set<string>, i: nat)
    requires |attempts| == |texts| && i < |texts| && FirstListing(texts, i) && texts[i].id !in seen
    ensures IsKept(AllRead(db, texts, now, attempts, seen), texts[i].id)
       <==> IsKept(db, texts[i].id) || Settles(attempts[i])
    decreases |texts|
  {
    var id := texts[i].id;
    var rest, more := texts[1..], attempts[1..];
    if i == 0 {
      OneReadKeeps(db, texts[0], now, attempts[0], id);
      SeenIsLeft(OneRead(db, texts[0], now, attempts[0]), rest, now, more, seen + {id}, id);
    } else {
      assert forall h :: 0 <= h < i - 1 ==> rest[h] == texts[h + 1];
      assert rest[i - 1] == texts[i] && more[i - 1] == attempts[i] && texts[0].id != id;
      if texts[0].id in seen {
        ListingSettles(db, rest, now, more, seen, i - 1);
      } else {
        OneReadKeeps(db, texts[0], now, attempts[0], id);
        ListingSettles(OneRead(db, texts[0], now, attempts[0]), rest, now, more, seen + {texts[0].id}, i - 1);
      }
    }
  }

  function Answers(rows: seq<Row>): seq<string> {
    if rows == [] then []
    else Answers(rows[..|rows| - 1]) + (if rows[|rows| - 1].reply then [rows[|rows| - 1].id] else [])
  }

  predicate Tallied(was: seq<Row>, rows: seq<Row>, added: seq<Row>, read: nat, replies: seq<string>) {
    rows == was + added && read == |added| && replies == Answers(added)
  }

  lemma OneMoreTallied(was: seq<Row>, rows: seq<Row>, added: seq<Row>, read: nat, replies: seq<string>, row: Row)
    requires Tallied(was, rows, added, read, replies)
    ensures Tallied(was, rows + [row], added + [row], read + 1, if row.reply then replies + [row.id] else replies)
  {
    assert (added + [row])[..|added|] == added;
    assert replies + [] == replies;
  }

  lemma AllReadNext(db: Db, texts: seq<Text>, now: int, attempts: seq<seq<Attempt>>, seen: set<string>, n: nat)
    requires |attempts| == |texts| && n < |texts|
    ensures AllRead(db, texts[n..], now, attempts[n..], seen) ==
      if texts[n].id in seen then AllRead(db, texts[n + 1..], now, attempts[n + 1..], seen)
      else
        AllRead(OneRead(db, texts[n], now, attempts[n]), texts[n + 1..], now, attempts[n + 1..], seen + {texts[n].id})
  {
    assert texts[n..][1..] == texts[n + 1..] && attempts[n..][1..] == attempts[n + 1..];
  }

  class Reader {
    var db: Db

    constructor (db: Db)
      ensures this.db == db
    {
      this.db := db;
    }

    /**
     * Up to three tries at one text. A text left for the next read changes
     * nothing: one kept by another reader, cut short each time, or failed on
     * without its note.
     */
    method ReadOne(text: Text, now: int, attempts: seq<Attempt>) returns (kept: Option<Row>, ghost steps: seq<Step>)
      requires Proper(text, attempts)
      modifies this
      ensures Leads(old(db), steps, db)
      ensures db == OneRead(old(db), text, now, attempts)
      ensures kept.None? <==> IsKept(old(db), text.id) || !Settles(attempts)
      ensures kept.None? ==> db == old(db)
      ensures kept.Some? ==> kept.value.id == text.id && db.rows == old(db.rows) + [kept.value]
    {
      steps := [];
      ghost var start := State(db, None);
      for tries := 0 to TRIES
        invariant db == old(db) && LeadsTo(start, steps, start)
        invariant forall i :: 0 <= i < tries ==> attempts[i].Transient?
        invariant tries > 0 ==> !IsKept(db, text.id)
      {
        if IsKept(db, text.id) { return None, steps; }
        DecisiveIs(attempts, tries);
        OneMore(start, steps, start, Begin(text, now));
        steps := steps + [Begin(text, now)];
        ghost var inside := State(db, Some(Txn(text, now, |db.codes|)));
        match attempts[tries] {
          case Transient =>
            OneMore(start, steps, inside, Abort);
            steps := steps + [Abort];
          case Breaks(noted) =>
            OneMore(start, steps, inside, Abort);
            if !noted { return None, steps + [Abort]; }
            OneMore(start, steps + [Abort], start, NoteFailed(text, now));
            steps := steps + [Abort] + [NoteFailed(text, now)];
            db := Failed(db, text, now);
            return Some(db.rows[|db.rows| - 1]), steps;
          case Decides(d) =>
            OneMore(start, steps, inside, Commit(d));
            steps := steps + [Commit(d)];
            DecidedAdds(db, Txn(text, now, |db.codes|), d);
            db := Decided(db, Txn(text, now, |db.codes|), d);
            return Some(db.rows[|db.rows| - 1]), steps;
        }
      }
      DecisiveIs(attempts, TRIES);
      return None, steps;
    }

    /**
     * The whole listing, oldest first: each row added is counted once, and the
     * replies to send are those the added rows say. `attempts` are the tries
     * at each text in the order they are read.
     */
    method ReadReplies(listing: seq<Text>, now: int, attempts: seq<seq<Attempt>>)
      returns (read: nat, replies: seq<string>, ghost added: seq<Row>, ghost steps: seq<Step>)
      requires |attempts| == |listing|
      requires forall i :: 0 <= i < |listing| ==> Proper(OldestFirst(listing)[i], attempts[i])
      modifies this
      ensures Leads(old(db), steps, db)
      ensures db == AllRead(old(db), OldestFirst(listing), now, attempts, Known(old(db), OldestFirst(listing)))
      ensures db.rows == old(db.rows) + added && read == |added| && replies == Answers(added)
    {
      var texts := OldestFirst(listing);
      var seen := Known(db, texts);
      read, replies, added, steps := 0, [], [], [];
      ghost var was, spec := db, AllRead(db, texts, now, attempts, seen);
      assert texts[0..] == texts && attempts[0..] == attempts;
      for n := 0 to |texts|
        invariant Leads(was, steps, db)
        invariant AllRead(db, texts[n..], now, attempts[n..], seen) == spec
        invariant Tallied(was.rows, db.rows, added, read, replies)
      {
        var text := texts[n];
        AllReadNext(db, texts, now, attempts, seen, n);
        if text.id !in seen {
          ghost var before := db;
          seen := seen + {text.id};
          var kept, more := ReadOne(text, now, attempts[n]);
          LeadsOn(State(was, None), steps, State(before, None), more, State(db, None));
          steps := steps + more;
          if kept.Some? {
            OneMoreTallied(was.rows, before.rows, added, read, replies, kept.value);
            added := added + [kept.value];
            read := read + 1;
            if kept.value.reply { replies := replies + [kept.value.id]; }
          }
        }
      }
    }
  }
}
