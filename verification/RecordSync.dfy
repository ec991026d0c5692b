/**
 * The sync log of one scope and the writer that appends to it. The scope's
 * advisory lock lets one transaction append at a time; within it savepoints
 * nest, and commit callbacks run later, one by one. `Elsewhere` stands for
 * every other use of the process's client ids and of the log's sequence.
 */
module RecordSync {
  import opened Base

  /** A log row: an update of `client` covering clocks `start` to `start + len`. */
  datatype Row = Row(at: nat, client: nat, start: nat, len: nat)

  /** The in-memory writer; `clock` is the next clock of its document. */
  datatype Writer = Writer(client: nat, clock: nat, lastSeq: Option<nat>, confirmed: bool)

  /** What a transaction or one of its savepoints holds until it ends: rows, and whose commit callbacks. */
  datatype Frame = Frame(rows: seq<Row>, hooks: seq<nat>)

  datatype State = State(
    lastClientId: nat, nextSeq: nat, log: seq<Row>, writer: Option<Writer>,
    frames: seq<Frame>,  // the transaction that holds the lock, outermost first; none when the lock is free
    due: seq<nat>)       // callbacks of committed transactions that have not run yet

  const START := State(0, 0, [], None, [], [])

  datatype Step =
    | Begin                                  // a transaction takes the scope's lock
    | Append(fields: nat, draw: nat, kept: bool)  // one write; `kept` is false when its insert fails
    | Savepoint | Release | RollbackTo
    | Commit | Rollback
    | RunCallback
    | Elsewhere(ids: nat, seqs: nat)

  function FrameRows(frames: seq<Frame>): seq<Row> {
    if frames == [] then [] else FrameRows(frames[..|frames| - 1]) + frames[|frames| - 1].rows
  }

  function FrameHooks(frames: seq<Frame>): seq<nat> {
    if frames == [] then [] else FrameHooks(frames[..|frames| - 1]) + frames[|frames| - 1].hooks
  }

  /** The rows the lock's transaction reads: the committed log and its own. */
  function Visible(s: State): seq<Row> { s.log + FrameRows(s.frames) }

  predicate Holds(rows: seq<Row>, q: Option<nat>) {
    q.Some? && exists row :: row in rows && row.at == q.value
  }

  /** A client id never issued before: above the last one, and not below the clock's draw. */
  function NewClient(s: State, draw: nat): nat {
    if draw > s.lastClientId + 1 then draw else s.lastClientId + 1
  }

  /**
   * The scope's writer for the next write: the one there, unless its last
   * write is neither confirmed nor in the log.
   */
  function WriterFor(s: State, draw: nat): (State, Writer) {
    if s.writer.Some? && (s.writer.value.confirmed || Holds(Visible(s), s.writer.value.lastSeq)) then
      (s, s.writer.value)
    else
      var id := NewClient(s, draw);
      (s.(lastClientId := id), Writer(id, 0, None, true))
  }

  /** A write of `fields` values: the writer's document moves first, the row follows if its insert is taken. */
  function Write(s: State, fields: nat, draw: nat, kept: bool): State
    requires s.frames != []
  {
    var (ready, w) := WriterFor(s, draw);
    var moved := w.(clock := w.clock + fields, confirmed := false, lastSeq := None);
    if !kept then ready.(writer := Some(moved))
    else
      var n := |s.frames| - 1;
      var top := s.frames[n];
      ready.(
        nextSeq := s.nextSeq + 1,
        writer := Some(moved.(lastSeq := Some(s.nextSeq))),
        frames := s.frames[..n] +
          [Frame(top.rows + [Row(s.nextSeq, w.client, w.clock, fields)], top.hooks + [w.client])])
  }

  predicate Enabled(s: State, step: Step) {
    match step
    case Begin => s.frames == []
    case Append(fields, _, _) => s.frames != [] && fields > 0
    case Savepoint => s.frames != []
    case Release => |s.frames| > 1
    case RollbackTo => |s.frames| > 1
    case Commit => |s.frames| == 1
    case Rollback => s.frames != []
    case RunCallback => s.due != []
    case Elsewhere(_, _) => true
  }

  function Confirmed(w: Option<Writer>, client: nat): Option<Writer> {
    if w.Some? && w.value.client == client then Some(w.value.(confirmed := true)) else w
  }

  function Next(s: State, step: Step): State
    requires Enabled(s, step)
  {
    var n := |s.frames| - 1;
    match step
    case Begin => s.(frames := [Frame([], [])])
    case Append(fields, draw, kept) => Write(s, fields, draw, kept)
    case Savepoint => s.(frames := s.frames + [Frame([], [])])
    case Release =>
      var under := s.frames[n - 1];
      s.(frames := s.frames[..n - 1] + [Frame(under.rows + s.frames[n].rows, under.hooks + s.frames[n].hooks)])
    case RollbackTo => s.(frames := s.frames[..n])
    case Commit => s.(log := Visible(s), due := s.due + FrameHooks(s.frames), frames := [])
    case Rollback => s.(frames := [])
    case RunCallback => s.(writer := Confirmed(s.writer, s.due[0]), due := s.due[1..])
    case Elsewhere(ids, seqs) => s.(lastClientId := s.lastClientId + ids, nextSeq := s.nextSeq + seqs)
  }

  // ---- The clocks of the log ----

  /** The clock at which `client`'s next update must start. */
  function Clock(rows: seq<Row>, client: nat): nat {
    if rows == [] then 0
    else Clock(rows[..|rows| - 1], client) + (if rows[|rows| - 1].client == client then rows[|rows| - 1].len else 0)
  }

  /** Every client's updates start at 0 and continue one another, in log order. */
  predicate Gapless(rows: seq<Row>) {
    forall k :: 0 <= k < |rows| ==> rows[k].start == Clock(rows[..k], rows[k].client)
  }

  /** A callback may confirm its writer only while the writer's last row is in the committed log. */
  predicate CallbackSafe(s: State) {
    s.due != [] && s.writer.Some? && s.writer.value.client == s.due[0] ==> Holds(s.log, s.writer.value.lastSeq)
  }

  /**
   * The writer's memory against rows: it is nowhere behind them, level with
   * them where its last row is among them, and ahead where it is not.
   */
  predicate WriterSound(rows: seq<Row>, w: Writer) {
    && Clock(rows, w.client) <= w.clock
    && (Holds(rows, w.lastSeq) <==> Clock(rows, w.client) == w.clock)
    && (w.lastSeq.Some? ==>
          forall row :: row in rows ==>
            && (row.client == w.client ==> row.at <= w.lastSeq.value)
            && (row.at == w.lastSeq.value ==> row.client == w.client))
  }

  predicate RowsSound(rows: seq<Row>, lastClientId: nat, nextSeq: nat) {
    && Gapless(rows)
    && (forall i, j :: 0 <= i < j < |rows| ==> rows[i].at < rows[j].at)
    && (forall row :: row in rows ==> row.at < nextSeq && row.client <= lastClientId && row.len > 0)
  }

  /** What every run keeps while its callbacks are safe; the log is a prefix of `Visible`. */
  predicate Good(s: State) {
    && RowsSound(Visible(s), s.lastClientId, s.nextSeq)
    && (s.writer.Some? ==>
          && s.writer.value.client <= s.lastClientId
          && (s.writer.value.lastSeq.Some? ==> s.writer.value.lastSeq.value < s.nextSeq)
          && WriterSound(Visible(s), s.writer.value)
          && (s.writer.value.confirmed ==> Holds(s.log, s.writer.value.lastSeq)))
  }

  // ---- Steps keep the log gapless ----

  lemma {:induction false} ClockAppends(a: seq<Row>, b: seq<Row>, client: nat)
    ensures Clock(a + b, client) == Clock(a, client) + Clock(b, client)
  {
    if b == [] { assert a + b == a; }
    else {
      assert (a + b)[..|a + b| - 1] == a + b[..|b| - 1];
      ClockAppends(a, b[..|b| - 1], client);
    }
  }

  lemma {:induction false} ClockWithout(rows: seq<Row>, client: nat)
    requires forall row :: row in rows ==> row.client != client
    ensures Clock(rows, client) == 0
  {
    if rows == [] {
    } else {
      ClockWithout(rows[..|rows| - 1], client);
    }
  }

  lemma {:induction false} ClockReaches(rows: seq<Row>, client: nat, k: nat)
    requires k < |rows| && rows[k].client == client
    ensures Clock(rows, client) >= rows[k].len
  {
    if k == |rows| - 1 {
    } else {
      ClockReaches(rows[..|rows| - 1], client, k);
    }
  }

  lemma WriterOfPrefix(a: seq<Row>, b: seq<Row>, lastClientId: nat, nextSeq: nat, w: Writer)
    requires RowsSound(a + b, lastClientId, nextSeq) && WriterSound(a + b, w)
    ensures WriterSound(a, w)
  {
    ClockAppends(a, b, w.client);
    if Holds(a, w.lastSeq) {
      var row :| row in a && row.at == w.lastSeq.value;
      assert row in a + b;
      forall later | later in b ensures later.client != w.client {
        var i :| 0 <= i < |a| && a[i] == row;
        var j :| 0 <= j < |b| && b[j] == later;
        assert (a + b)[i] == row && (a + b)[|a| + j] == later;
      }
      ClockWithout(b, w.client);
    } else if Holds(a + b, w.lastSeq) {
      var row :| row in a + b && row.at == w.lastSeq.value;
      assert row in b;
      var j :| 0 <= j < |b| && b[j] == row;
      ClockReaches(b, w.client, j);
    }
  }

  /** Rolling back to a prefix of the rows leaves the writer's memory true of what is left. */
  lemma SoundOfPrefix(a: seq<Row>, b: seq<Row>, lastClientId: nat, nextSeq: nat, w: Option<Writer>)
    requires RowsSound(a + b, lastClientId, nextSeq) && (w.Some? ==> WriterSound(a + b, w.value))
    ensures RowsSound(a, lastClientId, nextSeq) && (w.Some? ==> WriterSound(a, w.value))
  {
    forall k | 0 <= k < |a| ensures a[k].start == Clock(a[..k], a[k].client) {
      assert (a + b)[k] == a[k] && (a + b)[..k] == a[..k];
    }
    forall i, j | 0 <= i < j < |a| ensures a[i].at < a[j].at { assert (a + b)[i] == a[i] && (a + b)[j] == a[j]; }
    if w.Some? { WriterOfPrefix(a, b, lastClientId, nextSeq, w.value); }
  }

  lemma FramesGrow(frames: seq<Frame>, f: Frame)
    ensures FrameRows(frames + [f]) == FrameRows(frames) + f.rows
    ensures FrameHooks(frames + [f]) == FrameHooks(frames) + f.hooks
  {
    assert (frames + [f])[..|frames + [f]| - 1] == frames;
  }

  /** The writer a write is given is level with the visible rows, and a new one is above every client there. */
  lemma WriterForIsLevel(s: State, draw: nat)
    requires Good(s)
    ensures var (ready, w) := WriterFor(s, draw);
      && Clock(Visible(s), w.client) == w.clock && w.client <= ready.lastClientId
      && ready == s.(lastClientId := ready.lastClientId) && s.lastClientId <= ready.lastClientId
      && (w.lastSeq.None? ==> forall row :: row in Visible(s) ==> row.client != w.client)
      && (s.writer == Some(w) || w.client > s.lastClientId)
  {
    var (ready, w) := WriterFor(s, draw);
    if s.writer.Some? && s.writer.value.confirmed {
      var row :| row in s.log && row.at == w.lastSeq.value;
      assert row in Visible(s);
    } else if !(s.writer.Some? && Holds(Visible(s), s.writer.value.lastSeq)) {
      ClockWithout(Visible(s), w.client);
    }
  }

  function Advanced(w: Writer, fields: nat, no: nat): Writer {
    w.(clock := w.clock + fields, confirmed := false, lastSeq := Some(no))
  }

  /** A row that is kept goes to the end of the visible rows, and the writer remembers it. */
  lemma WriteShows(s: State, fields: nat, draw: nat)
    requires s.frames != []
    ensures var (ready, w) := WriterFor(s, draw);
      var after := Write(s, fields, draw, true);
      && Visible(after) == Visible(s) + [Row(s.nextSeq, w.client, w.clock, fields)]
      && after.writer == Some(Advanced(w, fields, s.nextSeq))
      && after.lastClientId == ready.lastClientId && after.nextSeq == s.nextSeq + 1
  {
    var w := WriterFor(s, draw).1;
    var n := |s.frames| - 1;
    var top := s.frames[n];
    FramesGrow(s.frames[..n], Frame(top.rows + [Row(s.nextSeq, w.client, w.clock, fields)], top.hooks + [w.client]));
  }

  lemma WrittenIsGood(after: State, s: State, row: Row, w: Writer)
    requires after.writer == Some(w) && !w.confirmed && Visible(after) == Visible(s) + [row]
    requires RowsSound(Visible(s) + [row], after.lastClientId, s.nextSeq + 1) && after.nextSeq == s.nextSeq + 1
    requires WriterSound(Visible(s) + [row], w) && w.client <= after.lastClientId && w.lastSeq == Some(s.nextSeq)
    ensures Good(after)
  {
  }

  /** What a write needs of the writer it is given. */
  lemma LevelWriter(s: State, draw: nat)
    requires Good(s)
    ensures var (ready, w) := WriterFor(s, draw);
      && Clock(Visible(s), w.client) == w.clock && w.client <= ready.lastClientId
      && RowsSound(Visible(s), ready.lastClientId, s.nextSeq)
      && ready == s.(lastClientId := ready.lastClientId)
  {
    WriterForIsLevel(s, draw);
  }

  lemma GaplessAppends(rows: seq<Row>, row: Row)
    ensures Gapless(rows + [row]) <==> Gapless(rows) && row.start == Clock(rows, row.client)
  {
    var all := rows + [row];
    assert all[|rows|] == row && all[..|rows|] == rows;
    forall k | 0 <= k < |rows| ensures all[k] == rows[k] && all[..k] == rows[..k] { }
  }

  lemma RowAppends(rows: seq<Row>, row: Row, w: Writer, lastClientId: nat, nextSeq: nat)
    requires RowsSound(rows, lastClientId, nextSeq)
    requires row.at == nextSeq && row.client == w.client <= lastClientId && row.len > 0
    requires row.start == Clock(rows, row.client) && w.clock == row.start + row.len && w.lastSeq == Some(nextSeq)
    ensures RowsSound(rows + [row], lastClientId, nextSeq + 1) && WriterSound(rows + [row], w)
  {
    var all := rows + [row];
    GaplessAppends(rows, row);
    ClockAppends(rows, [row], w.client);
    assert [row][..0] == [];
    assert Clock([row], w.client) == row.len;
    assert all[|rows|] == row;
    assert Holds(all, w.lastSeq);
  }

  lemma KeptWriteKeeps(s: State, fields: nat, draw: nat)
    requires Good(s) && s.frames != [] && fields > 0
    ensures Good(Write(s, fields, draw, true))
  {
    var (ready, w) := WriterFor(s, draw);
    var row, moved := Row(s.nextSeq, w.client, w.clock, fields), Advanced(w, fields, s.nextSeq);
    LevelWriter(s, draw);
    RowAppends(Visible(s), row, moved, ready.lastClientId, s.nextSeq);
    WriteShows(s, fields, draw);
    WrittenIsGood(Write(s, fields, draw, true), s, row, moved);
  }

  /** A write whose row is lost leaves its writer ahead of the rows, and knowing of none. */
  lemma LostWriteKeeps(s: State, fields: nat, draw: nat)
    requires Good(s) && s.frames != [] && fields > 0
    ensures Good(Write(s, fields, draw, false))
  {
    WriterForIsLevel(s, draw);
    assert Visible(Write(s, fields, draw, false)) == Visible(s);
  }

  lemma WriteKeeps(s: State, fields: nat, draw: nat, kept: bool)
    requires Good(s) && s.frames != [] && fields > 0
    ensures Good(Write(s, fields, draw, kept))
    ensures Write(s, fields, draw, kept).log == s.log
  {
    WriterForIsLevel(s, draw);
    if kept { KeptWriteKeeps(s, fields, draw); } else { LostWriteKeeps(s, fields, draw); }
  }

  lemma FramesMerge(s: State)
    requires |s.frames| > 1
    ensures Visible(Next(s, Release)) == Visible(s)
  {
    var n := |s.frames| - 1;
    var under := s.frames[n - 1];
    FramesGrow(s.frames[..n - 1], Frame(under.rows + s.frames[n].rows, under.hooks + s.frames[n].hooks));
    FramesGrow(s.frames[..n - 1], under);
    FramesGrow(s.frames[..n], s.frames[n]);
    assert s.frames[..n - 1] + [under] == s.frames[..n] && s.frames[..n] + [s.frames[n]] == s.frames;
  }

  /** A step that changes neither the visible rows nor the writer's memory keeps what is good. */
  lemma SameViewKeeps(s: State, after: State)
    requires Good(s) && Visible(after) == Visible(s) && after.writer == s.writer
    requires s.lastClientId <= after.lastClientId && s.nextSeq <= after.nextSeq
    requires s.log == after.log || s.log <= after.log
    ensures Good(after)
  {
    if s.writer.Some? && s.writer.value.confirmed {
      var row :| row in s.log && row.at == s.writer.value.lastSeq.value;
      assert row in after.log;
    }
  }

  lemma RollbacksKeep(s: State, step: Step)
    requires Good(s) && Enabled(s, step) && (step == RollbackTo || step == Rollback)
    ensures Good(Next(s, step))
  {
    var n := |s.frames| - 1;
    var lost := if step == RollbackTo then s.frames[n].rows else FrameRows(s.frames);
    assert Visible(s) == Visible(Next(s, step)) + lost;
    SoundOfPrefix(Visible(Next(s, step)), lost, s.lastClientId, s.nextSeq, s.writer);
  }

  lemma NextKeeps(s: State, step: Step)
    requires Good(s) && Enabled(s, step)
    requires step == RunCallback ==> CallbackSafe(s)
    ensures Good(Next(s, step))
  {
    match step
    case Append(fields, draw, kept) => WriteKeeps(s, fields, draw, kept);
    case RollbackTo => RollbacksKeep(s, step);
    case Rollback => RollbacksKeep(s, step);
    case RunCallback => assert Visible(Next(s, step)) == Visible(s);
    case Begin => SameViewKeeps(s, Next(s, step));
    case Savepoint => FramesGrow(s.frames, Frame([], [])); SameViewKeeps(s, Next(s, step));
    case Release => FramesMerge(s); SameViewKeeps(s, Next(s, step));
    case Commit => SameViewKeeps(s, Next(s, step));
    case Elsewhere(_, _) => SameViewKeeps(s, Next(s, step));
  }

  // ---- Whole runs ----

  /** Whether every step of a run is one the server can take there. */
  predicate CanRun(s: State, steps: seq<Step>)
    decreases |steps|
  {
    steps == [] || (Enabled(s, steps[0]) && CanRun(Next(s, steps[0]), steps[1..]))
  }

  function Run(s: State, steps: seq<Step>): State
    requires CanRun(s, steps)
    decreases |steps|
  {
    if steps == [] then s else Run(Next(s, steps[0]), steps[1..])
  }

  /** Every callback of the run finds its writer's last row committed. */
  predicate CallbacksSafe(s: State, steps: seq<Step>)
    requires CanRun(s, steps)
    decreases |steps|
  {
    steps == [] || ((steps[0] == RunCallback ==> CallbackSafe(s)) && CallbacksSafe(Next(s, steps[0]), steps[1..]))
  }

  lemma {:induction false} RunKeeps(s: State, steps: seq<Step>)
    requires Good(s) && CanRun(s, steps) && CallbacksSafe(s, steps)
    ensures Good(Run(s, steps))
    decreases |steps|
  {
    if steps == [] {
    } else {
      NextKeeps(s, steps[0]);
      RunKeeps(Next(s, steps[0]), steps[1..]);
    }
  }

  lemma GoodLogIsGapless(s: State)
    requires Good(s)
    ensures Gapless(s.log)
  {
    SoundOfPrefix(s.log, FrameRows(s.frames), s.lastClientId, s.nextSeq, s.writer);
  }

  /**
   * Appends, savepoints and rollbacks in any order leave no clock missing
   * from the committed log while callbacks are safe.
   */
  lemma SafeRunsAreGapless(steps: seq<Step>)
    requires CanRun(START, steps) && CallbacksSafe(START, steps)
    ensures Gapless(Run(START, steps).log)
  {
    RunKeeps(START, steps);
    GoodLogIsGapless(Run(START, steps));
  }

  /** No run from `s` whose later callbacks are safe leaves a gap. */
  ghost predicate GaplessForever(s: State) {
    forall steps :: CanRun(s, steps) && CallbacksSafe(s, steps) ==> Gapless(Run(s, steps).log)
  }

  lemma ShowsGap(s: State, steps: seq<Step>)
    requires CanRun(s, steps) && CallbacksSafe(s, steps) && !Gapless(Run(s, steps).log)
    ensures !GaplessForever(s)
  {
  }

  /** One transaction of one write by a confirmed writer. */
  lemma WriteAndCommit(s: State, row: Row)
    requires s.frames == [] && s.writer.Some? && s.writer.value.confirmed
    requires row == Row(s.nextSeq, s.writer.value.client, s.writer.value.clock, 1)
    ensures var steps := [Begin, Append(1, 0, true), Commit];
      CanRun(s, steps) && CallbacksSafe(s, steps) && Run(s, steps).log == s.log + [row]
  {
    var steps := [Begin, Append(1, 0, true), Commit];
    var a := Next(s, Begin);
    assert steps[1..] == [Append(1, 0, true), Commit] && steps[1..][1..] == [Commit] && steps[1..][1..][1..] == [];
    var b := Next(a, Append(1, 0, true));
    assert a.frames[..0] == [] && [] + [row] == [row] && [] + [row.client] == [row.client];
    assert b.frames == [Frame([row], [row.client])];
    FramesGrow([], b.frames[0]);
    assert [] + b.frames == b.frames;
    assert Next(b, Commit).log == s.log + [row];
    assert CanRun(b, [Commit]);
    assert CanRun(a, steps[1..]);
  }

  /** A writer confirmed without its last row hands that gap to the next committed write. */
  lemma ConfirmedAheadGaps(s: State)
    requires RowsSound(Visible(s), s.lastClientId, s.nextSeq)
    requires s.writer.Some? && s.writer.value.confirmed && WriterSound(Visible(s), s.writer.value)
    requires !Holds(s.log, s.writer.value.lastSeq)
    ensures !GaplessForever(s)
  {
    var w := s.writer.value;
    var row := Row(s.nextSeq, w.client, w.clock, 1);
    SoundOfPrefix(s.log, FrameRows(s.frames), s.lastClientId, s.nextSeq, s.writer);
    assert Clock(s.log, w.client) < w.clock;
    GaplessAppends(s.log, row);
    var one := [Begin, Append(1, 0, true), Commit];
    WriteAndCommit(s.(frames := []), row);
    if s.frames == [] {
      assert s.(frames := []) == s;
      ShowsGap(s, one);
    } else {
      var steps := [Rollback] + one;
      assert steps[1..] == one;
      assert Next(s, Rollback) == s.(frames := []);
      ShowsGap(s, steps);
    }
  }

  /**
   * Exactly when a commit callback may run: the log can be kept gapless from
   * there on if and only if it finds its writer's last row committed.
   */
  lemma CallbackIsSafeExactlyWhenRowCommitted(s: State)
    requires Good(s) && s.due != []
    ensures GaplessForever(Next(s, RunCallback)) <==> CallbackSafe(s)
  {
    var after := Next(s, RunCallback);
    assert Visible(after) == Visible(s);
    if CallbackSafe(s) {
      NextKeeps(s, RunCallback);
      forall steps | CanRun(after, steps) && CallbacksSafe(after, steps) ensures Gapless(Run(after, steps).log) {
        RunKeeps(after, steps);
        GoodLogIsGapless(Run(after, steps));
      }
    } else {
      ConfirmedAheadGaps(after);
    }
  }

  /** A writer whose last write is neither confirmed nor in the log is left for one with a larger id, at clock 0. */
  lemma UnkeptWriterIsReplaced(s: State, fields: nat, draw: nat)
    requires Good(s) && s.frames != [] && s.writer.Some?
    ensures var w := Write(s, fields, draw, true).writer.value;
      if s.writer.value.confirmed || Holds(Visible(s), s.writer.value.lastSeq)
      then w.client == s.writer.value.client && w.clock == s.writer.value.clock + fields
      else w.client > s.lastClientId && w.clock == fields
    ensures s.writer.value.confirmed ==> Holds(Visible(s), s.writer.value.lastSeq)
  {
    if s.writer.value.confirmed {
      var row :| row in s.log && row.at == s.writer.value.lastSeq.value;
      assert row in Visible(s);
    }
  }

  // ---- Where callbacks are not safe ----

  /** A transaction whose first write stands and whose second is rolled back with its savepoint. */
  const HALF_KEPT: seq<Step> :=
    [Begin, Append(1, 0, true), Savepoint, Append(1, 0, true), RollbackTo, Commit]

  const ONE_WRITE: seq<Step> := [Begin, Append(1, 0, true), Commit]

  const FIRST := Row(0, 1, 0, 1)

  lemma Unroll(s: State, step: Step, rest: seq<Step>)
    requires Enabled(s, step)
    ensures CanRun(s, [step] + rest) <==> CanRun(Next(s, step), rest)
    ensures CanRun(Next(s, step), rest) ==> Run(s, [step] + rest) == Run(Next(s, step), rest)
  {
    assert ([step] + rest)[1..] == rest;
  }

  lemma HalfKeptOpens()
    ensures CanRun(START, HALF_KEPT[..2])
    ensures Run(START, HALF_KEPT[..2]) == State(1, 1, [], Some(Writer(1, 1, Some(0), false)), [Frame([FIRST], [1])], [])
  {
    var s1 := Next(START, Begin);
    assert s1.frames[..0] == [] && [] + [FIRST] == [FIRST] && [] + [1] == [1];
    var s2 := Next(s1, Append(1, 0, true));
    assert s2.frames == [Frame([FIRST], [1])];
    Unroll(s1, Append(1, 0, true), []);
    Unroll(START, Begin, [Append(1, 0, true)]);
    assert [Append(1, 0, true)] + [] == [Append(1, 0, true)];
    assert HALF_KEPT[..2] == [Begin] + [Append(1, 0, true)];
  }

  lemma HalfKeptEnds()
    ensures var s := State(1, 1, [], Some(Writer(1, 1, Some(0), false)), [Frame([FIRST], [1])], []);
      && CanRun(s, HALF_KEPT[2..])
      && Run(s, HALF_KEPT[2..]) == State(1, 2, [FIRST], Some(Writer(1, 2, Some(1), false)), [], [1])
  {
    var s := State(1, 1, [], Some(Writer(1, 1, Some(0), false)), [Frame([FIRST], [1])], []);
    FramesGrow([], Frame([FIRST], [1]));
    assert [] + s.frames == s.frames;
    FramesGrow(s.frames, Frame([], []));
    var s3 := Next(s, Savepoint);
    assert Visible(s3)[0] == FIRST;
    var s4 := Next(s3, Append(1, 0, true));
    var s5 := Next(s4, RollbackTo);
    assert s5.frames == s.frames;
    var s6 := Next(s5, Commit);
    assert s6.log == [FIRST];
    Unroll(s5, Commit, []);
    Unroll(s4, RollbackTo, HALF_KEPT[5..]);
    Unroll(s3, Append(1, 0, true), HALF_KEPT[4..]);
    Unroll(s, Savepoint, HALF_KEPT[3..]);
    assert HALF_KEPT[5..] == [Commit] + [] && HALF_KEPT[4..] == [RollbackTo] + HALF_KEPT[5..]
      && HALF_KEPT[3..] == [Append(1, 0, true)] + HALF_KEPT[4..] && HALF_KEPT[2..] == [Savepoint] + HALF_KEPT[3..];
  }

  lemma {:induction false} RunSplits(s: State, a: seq<Step>, b: seq<Step>)
    requires CanRun(s, a) && CanRun(Run(s, a), b)
    ensures CanRun(s, a + b) && Run(s, a + b) == Run(Run(s, a), b)
    decreases |a|
  {
    if a == [] { assert a + b == b; }
    else {
      RunSplits(Next(s, a[0]), a[1..], b);
      assert a + b == [a[0]] + (a[1..] + b);
      Unroll(s, a[0], a[1..] + b);
    }
  }

  /**
   * The kept write's callback confirms the writer past the clock that was
   * rolled back, and the next committed write leaves that clock missing.
   */
  lemma SavepointRollbackLeavesGap()
    ensures var steps := HALF_KEPT + [RunCallback] + ONE_WRITE;
      CanRun(START, steps) && !Gapless(Run(START, steps).log)
  {
    HalfKeptOpens();
    HalfKeptEnds();
    assert HALF_KEPT == HALF_KEPT[..2] + HALF_KEPT[2..];
    RunSplits(START, HALF_KEPT[..2], HALF_KEPT[2..]);
    var committed := State(1, 2, [FIRST], Some(Writer(1, 2, Some(1), false)), [], [1]);
    var confirmed := State(1, 2, [FIRST], Some(Writer(1, 2, Some(1), true)), [], []);
    assert Next(committed, RunCallback) == confirmed;
    WriteAndCommit(confirmed, Row(2, 1, 2, 1));
    Unroll(committed, RunCallback, ONE_WRITE);
    RunSplits(START, HALF_KEPT, [RunCallback] + ONE_WRITE);
    assert HALF_KEPT + [RunCallback] + ONE_WRITE == HALF_KEPT + ([RunCallback] + ONE_WRITE);
    GaplessAppends([FIRST], Row(2, 1, 2, 1));
    assert [FIRST][..0] == [] && Clock([FIRST], 1) == 1;
  }

  // ---- Where they always are ----

  /**
   * A transaction may commit: if it holds a callback of the writer, it still
   * sees the writer's last row.
   */
  predicate CommitSafe(s: State) {
    s.writer.Some? && s.writer.value.client in FrameHooks(s.frames) ==> Holds(Visible(s), s.writer.value.lastSeq)
  }

  /** Callbacks run before the next transaction takes the lock, and every commit is safe. */
  predicate Prompt(s: State, step: Step) {
    (step == Begin ==> s.due == []) && (step == Commit ==> CommitSafe(s))
  }

  predicate AllPrompt(s: State, steps: seq<Step>)
    requires CanRun(s, steps)
    decreases |steps|
  {
    steps == [] || (Prompt(s, steps[0]) && AllPrompt(Next(s, steps[0]), steps[1..]))
  }

  /** While callbacks wait no transaction runs, and they find their writer's last row committed. */
  predicate Settled(s: State) {
    s.due != [] ==>
      && s.frames == []
      && (s.writer.Some? && s.writer.value.client in s.due ==> Holds(s.log, s.writer.value.lastSeq))
  }

  lemma PromptSettles(s: State, step: Step)
    requires Settled(s) && Enabled(s, step) && Prompt(s, step)
    ensures step == RunCallback ==> CallbackSafe(s)
    ensures Settled(Next(s, step))
  {
    if step == RunCallback { assert s.due[0] in s.due; }
  }

  lemma {:induction false} PromptRunsAreSafe(s: State, steps: seq<Step>)
    requires Settled(s) && CanRun(s, steps) && AllPrompt(s, steps)
    ensures CallbacksSafe(s, steps)
    decreases |steps|
  {
    if steps == [] {
    } else {
      PromptSettles(s, steps[0]);
      PromptRunsAreSafe(Next(s, steps[0]), steps[1..]);
    }
  }

  /**
   * Whatever writes were lost and whatever savepoints were rolled back, the
   * log is gapless when callbacks are prompt and each commit that holds a
   * callback of the writer still sees the writer's last row.
   */
  lemma PromptRunsAreGapless(steps: seq<Step>)
    requires CanRun(START, steps) && AllPrompt(START, steps)
    ensures Gapless(Run(START, steps).log)
  {
    PromptRunsAreSafe(START, steps);
    SafeRunsAreGapless(steps);
  }

  /** Every waiting callback, run. */
  function CalledBack(s: State): State
    decreases |s.due|
  {
    if s.due == [] then s else CalledBack(Next(s, RunCallback))
  }

  lemma {:induction false} CalledBackIs(s: State)
    ensures CalledBack(s) == s.(due := [], writer :=
      if s.writer.Some? && s.writer.value.client in s.due then Some(s.writer.value.(confirmed := true)) else s.writer)
    decreases |s.due|
  {
    if s.due == [] {
    } else {
      CalledBackIs(Next(s, RunCallback));
      assert s.due == [s.due[0]] + s.due[1..];
    }
  }

  /**
   * The condition is exact: once a commit's callbacks have run, the log can
   * be kept gapless if and only if the commit was safe.
   */
  lemma CommitIsSafeExactly(s: State)
    requires Good(s) && |s.frames| == 1 && s.due == []
    ensures GaplessForever(CalledBack(Next(s, Commit))) <==> CommitSafe(s)
  {
    var committed := Next(s, Commit);
    NextKeeps(s, Commit);
    CalledBackIs(committed);
    var after := CalledBack(committed);
    assert [] + FrameHooks(s.frames) == FrameHooks(s.frames);
    assert Visible(after) == Visible(committed) == committed.log == Visible(s);
    if CommitSafe(s) {
      assert Good(after);
      forall steps | CanRun(after, steps) && CallbacksSafe(after, steps) ensures Gapless(Run(after, steps).log) {
        RunKeeps(after, steps);
        GoodLogIsGapless(Run(after, steps));
      }
    } else {
      ConfirmedAheadGaps(after);
    }
  }

  // ---- What savepoints and commits hand on ----

  /** Releasing a savepoint loses nothing: its rows and its callbacks stay the transaction's, in order. */
  lemma ReleaseHandsOn(s: State)
    requires Enabled(s, Release)
    ensures var after := Next(s, Release);
      && FrameRows(after.frames) == FrameRows(s.frames) && FrameHooks(after.frames) == FrameHooks(s.frames)
      && |after.frames| == |s.frames| - 1 && after.log == s.log && after.due == s.due && after.writer == s.writer
  {
    var n := |s.frames| - 1;
    var under, top := s.frames[n - 1], s.frames[n];
    assert s.frames == s.frames[..n - 1] + [under] + [top];
    FramesGrow(s.frames[..n - 1] + [under], top);
    FramesGrow(s.frames[..n - 1], under);
    FramesGrow(s.frames[..n - 1], Frame(under.rows + top.rows, under.hooks + top.hooks));
  }

  /** Rolling it back loses its rows and its callbacks and nothing else, and leaves the writer in memory. */
  lemma RollbackToLosesTop(s: State)
    requires Enabled(s, RollbackTo)
    ensures var after, top := Next(s, RollbackTo), s.frames[|s.frames| - 1];
      && FrameRows(s.frames) == FrameRows(after.frames) + top.rows
      && FrameHooks(s.frames) == FrameHooks(after.frames) + top.hooks
      && after.log == s.log && after.due == s.due && after.writer == s.writer
  {
    var n := |s.frames| - 1;
    assert s.frames == s.frames[..n] + [s.frames[n]];
    FramesGrow(s.frames[..n], s.frames[n]);
  }

  lemma TopGrows(frames: seq<Frame>, row: Row, hook: nat)
    requires frames != []
    ensures var n := |frames| - 1;
      var after := frames[..n] + [Frame(frames[n].rows + [row], frames[n].hooks + [hook])];
      FrameRows(after) == FrameRows(frames) + [row] && FrameHooks(after) == FrameHooks(frames) + [hook]
  {
    var n := |frames| - 1;
    assert frames == frames[..n] + [frames[n]];
    FramesGrow(frames[..n], frames[n]);
    FramesGrow(frames[..n], Frame(frames[n].rows + [row], frames[n].hooks + [hook]));
  }

  /** A write's writer is the one there, or one whose id is above every other's, at clock 0. */
  lemma WriterGoesOn(s: State, draw: nat)
    requires Good(s)
    ensures var w := WriterFor(s, draw).1;
      if s.writer.Some? && w.client == s.writer.value.client then w.clock == s.writer.value.clock
      else w.clock == 0 && w.client > s.lastClientId
  {
  }

  /** A write that is kept adds one row at the writer's clocks and one callback, and leaves the writer unconfirmed. */
  lemma KeptWriteAdds(s: State, fields: nat, draw: nat)
    requires s.frames != [] && fields > 0
    ensures var w, after := WriterFor(s, draw).1, Next(s, Append(fields, draw, true));
      && after.writer == Some(Writer(w.client, w.clock + fields, Some(s.nextSeq), false))
      && FrameRows(after.frames) == FrameRows(s.frames) + [Row(s.nextSeq, w.client, w.clock, fields)]
      && FrameHooks(after.frames) == FrameHooks(s.frames) + [w.client]
  {
    var w := WriterFor(s, draw).1;
    TopGrows(s.frames, Row(s.nextSeq, w.client, w.clock, fields), w.client);
  }
}
