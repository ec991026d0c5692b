/**
 * Board action chains. What a board's actions are, whether a condition holds
 * and what a step does to the database are given by a `World`; the runner adds
 * the chain: who ran, how deep, in which order, and one record of each run.
 */
module Actions {
  import opened Base

  datatype Cause =
    | RecordCreated(board: string, record: string)
    | FieldChanged(board: string, record: string, fields: set<string>)
    | StateEntered(board: string, record: string, state: string)

  datatype Trigger = OnCreated | OnField(field: string) | OnState(state: string)

  datatype Action = Action(key: string, trigger: Trigger)

  /** A step's end: what it wrote, or a refusal with whatever it had written by then, or a failure. */
  datatype StepResult<D> = StepDone(db: D, causes: seq<Cause>) | StepRefused(dirty: D) | StepFailed

  /**
   * The services a chain calls, over a database `D`. A step works on the
   * database as it is by then and on the record as its write left it, which
   * the runner reads once for all the actions the write sets off.
   */
  datatype World<!D> = World(
    // the actions of the written record's board; None if it may not be read
    actions: (D, Cause) -> Option<seq<Action>>,
    // the action's condition on the record as written
    holds: (D, Cause, Action) -> bool,
    // over the database by now and the one the record was read from
    step: (D, D, Cause, Action) -> StepResult<D>)

  datatype Ending = Done | Refused | Stopped

  /**
   * One record of the audit trail; `causes` are the writes a done run made,
   * and `read` is how long the trail was when the run's own write was read.
   */
  datatype Entry = Entry(
    cause: Cause, action: Action, parent: Option<Action>, depth: nat, ending: Ending, causes: seq<Cause>, read: nat)

  const CHAIN_DEPTH: nat := 5

  predicate SetsOff(a: Action, c: Cause) {
    match a.trigger
    case OnCreated => c.RecordCreated?
    case OnField(f) => c.FieldChanged? && f in c.fields
    case OnState(s) => c.StateEntered? && c.state == s
  }

  function Identity(c: Cause, a: Action): (string, string) { (c.board, a.key) }

  /** The database, the identities that ran in the chain, and the records of its runs. */
  datatype Chain<D> = Chain(db: D, ran: set<(string, string)>, log: seq<Entry>)

  function Triggered(actions: seq<Action>, c: Cause): seq<Action> {
    if actions == [] then []
    else (if SetsOff(actions[0], c) then [actions[0]] else []) + Triggered(actions[1..], c)
  }

  function Holding<D>(w: World<D>, db: D, c: Cause, actions: seq<Action>): seq<Action> {
    if actions == [] then []
    else (if w.holds(db, c, actions[0]) then [actions[0]] else []) + Holding(w, db, c, actions[1..])
  }

  /** The actions a write sets off whose conditions hold, judged on the database right after it. */
  function Selected<D>(w: World<D>, db: D, c: Cause): seq<Action> {
    var found := w.actions(db, c);
    if found.None? then [] else Holding(w, db, c, Triggered(found.value, c))
  }

  function Record<D>(s: Chain<D>, e: Entry): Chain<D> { s.(log := s.log + [e]) }

  /**
   * A write whose actions run: the database it was read from, how long the
   * trail was then, and the action that made it.
   */
  datatype Write<D> = Write(cause: Cause, db: D, read: nat, parent: Option<Action>)

  /** The chain `c` sets off; None when a step fails outright, which aborts the transaction. */
  function RunAll<D>(w: World<D>, s: Chain<D>, c: Cause, depth: nat, parent: Option<Action>): Option<Chain<D>>
    requires depth <= CHAIN_DEPTH + 1
    decreases CHAIN_DEPTH + 1 - depth, 2, 0
  {
    RunEach(w, s, Write(c, s.db, |s.log|, parent), Selected(w, s.db, c), depth)
  }

  function RunEach<D>(w: World<D>, s: Chain<D>, x: Write<D>, actions: seq<Action>, depth: nat): Option<Chain<D>>
    requires depth <= CHAIN_DEPTH + 1
    decreases CHAIN_DEPTH + 1 - depth, 1, |actions|
  {
    if actions == [] then Some(s)
    else match RunOne(w, s, x, actions[0], depth)
      case None => None
      case Some(after) => RunEach(w, after, x, actions[1..], depth)
  }

  function Noted<D>(x: Write<D>, a: Action, depth: nat, ending: Ending, causes: seq<Cause>): Entry {
    Entry(x.cause, a, x.parent, depth, ending, causes, x.read)
  }

  function RunOne<D>(w: World<D>, s: Chain<D>, x: Write<D>, a: Action, depth: nat): Option<Chain<D>>
    requires depth <= CHAIN_DEPTH + 1
    decreases CHAIN_DEPTH + 1 - depth, 0, 0
  {
    var id := Identity(x.cause, a);
    if id in s.ran || depth > CHAIN_DEPTH then Some(Record(s, Noted(x, a, depth, Stopped, [])))
    else
      var started := s.(ran := s.ran + {id});
      match w.step(s.db, x.db, x.cause, a)
      case StepFailed => None
      case StepRefused(_) => Some(Record(started, Noted(x, a, depth, Refused, [])))
      case StepDone(db, causes) =>
        RunNext(w, Record(started.(db := db), Noted(x, a, depth, Done, causes)), causes, depth + 1, Some(a))
  }

  function RunNext<D>(
      w: World<D>, s: Chain<D>, causes: seq<Cause>, depth: nat, parent: Option<Action>): Option<Chain<D>>
    requires depth <= CHAIN_DEPTH + 1
    decreases CHAIN_DEPTH + 1 - depth, 3, |causes|
  {
    if causes == [] then Some(s)
    else match RunAll(w, s, causes[0], depth, parent)
      case None => None
      case Some(after) => RunNext(w, after, causes[1..], depth, parent)
  }

  // ---- What a chain keeps ----

  predicate Executed(e: Entry) { e.ending != Stopped }

  /** The identities that executed. */
  function Ids(log: seq<Entry>): set<(string, string)> {
    if log == [] then {}
    else Ids(log[..|log| - 1]) +
         (if Executed(log[|log| - 1]) then {Identity(log[|log| - 1].cause, log[|log| - 1].action)} else {})
  }

  /** `p` is a done run whose write is the one that set off a run of `parent` at `depth`. */
  predicate SetOffBy(p: Entry, c: Cause, depth: nat, parent: Option<Action>) {
    p.ending == Done && p.depth + 1 == depth && parent == Some(p.action) && c in p.causes
  }

  /** What lets a run start: it is at the top, or a run before it made the write. */
  predicate MayStart(log: seq<Entry>, c: Cause, depth: nat, parent: Option<Action>) {
    && 1 <= depth <= CHAIN_DEPTH + 1
    && (depth > 1 ==> exists p :: p in log && SetOffBy(p, c, depth, parent))
  }

  /** A record that may follow `before`: stopped exactly when its action ran already or is too deep. */
  predicate Follows(before: seq<Entry>, e: Entry) {
    && SetsOff(e.action, e.cause) && e.read <= |before|
    && MayStart(before, e.cause, e.depth, e.parent)
    && (e.ending == Stopped <==> Identity(e.cause, e.action) in Ids(before) || e.depth > CHAIN_DEPTH)
  }

  predicate Orderly(log: seq<Entry>) {
    log == [] || (Orderly(log[..|log| - 1]) && Follows(log[..|log| - 1], log[|log| - 1]))
  }

  predicate Kept<D>(s: Chain<D>) { s.ran == Ids(s.log) && Orderly(s.log) }

  /** What the done runs of `log`, and they alone, make of a database, each on the record as its write left it. */
  function Replayed<D>(w: World<D>, origin: D, log: seq<Entry>): D
    decreases |log|
  {
    if log == [] then origin
    else
      var n := |log| - 1;
      var before := Replayed(w, origin, log[..n]);
      if log[n].ending != Done || log[n].read > n then before
      else match w.step(before, Replayed(w, origin, log[..log[n].read]), log[n].cause, log[n].action)
        case StepDone(after, _) => after
        case _ => before
  }

  /** The records of `log` at exactly `depth`. */
  function AtDepth(log: seq<Entry>, depth: nat): seq<Entry> {
    if log == [] then []
    else AtDepth(log[..|log| - 1], depth) + (if log[|log| - 1].depth == depth then [log[|log| - 1]] else [])
  }

  predicate AllDeeper(log: seq<Entry>, depth: nat) { forall e :: e in log ==> e.depth >= depth }

  /** The records of a stretch of the trail that begins at `depth` and does not rise above it. */
  predicate Stretch(log: seq<Entry>, depth: nat) {
    AllDeeper(log, depth) && (log != [] ==> log[0].depth == depth)
  }

  /** One record for each of `actions`, in order, as runs of cause `c` under `parent`. */
  predicate OneEach(es: seq<Entry>, actions: seq<Action>, c: Cause, parent: Option<Action>) {
    && |es| == |actions|
    && forall k :: 0 <= k < |es| ==> es[k].action == actions[k] && es[k].cause == c && es[k].parent == parent
  }

  // ---- The tree of runs in a trail ----

  /**
   * `log[from..upto]` is all that write `c` set off: one record of each
   * action it selects, and what those set off in turn.
   */
  predicate Ran<D>(
    w: World<D>, origin: D, log: seq<Entry>, from: nat, upto: nat, c: Cause, depth: nat, parent: Option<Action>)
  {
    && from <= upto <= |log| && Stretch(log[from..upto], depth)
    && OneEach(AtDepth(log[from..upto], depth), Selected(w, Replayed(w, origin, log[..from]), c), c, parent)
  }

  /** The same for several writes, one stretch after another. */
  ghost predicate RanAll<D>(
    w: World<D>, origin: D, log: seq<Entry>, from: nat, upto: nat, causes: seq<Cause>,
    depth: nat, parent: Option<Action>)
    decreases |causes|
  {
    if causes == [] then from == upto <= |log|
    else exists mid: nat ::
      Ran(w, origin, log, from, mid, causes[0], depth, parent) &&
        RanAll(w, origin, log, mid, upto, causes[1..], depth, parent)
  }

  /** Where a done run's writes have set off all they do. */
  ghost predicate FinishedAt<D>(w: World<D>, origin: D, log: seq<Entry>, k: nat, upto: nat)
    requires k < |log|
  {
    && RanAll(w, origin, log, k + 1, upto, log[k].causes, log[k].depth + 1, Some(log[k].action))
    && k < upto <= |log| && (upto < |log| ==> log[upto].depth <= log[k].depth)
  }

  /** Done run `log[k]` is followed by what each of its writes set off, one level down, and by no more at that level. */
  ghost predicate Finished<D>(w: World<D>, origin: D, log: seq<Entry>, k: nat)
    requires k < |log|
  {
    exists upto: nat :: FinishedAt(w, origin, log, k, upto)
  }

  ghost predicate AllFinished<D>(w: World<D>, origin: D, log: seq<Entry>, from: nat) {
    forall k :: from <= k < |log| && log[k].ending == Done ==> Finished(w, origin, log, k)
  }

  /**
   * A run ended as its step did, on the database by then and the record as
   * its write left it; a stopped run had no step.
   */
  predicate EndsTruly<D>(w: World<D>, origin: D, log: seq<Entry>, k: nat)
    requires k < |log|
  {
    var e := log[k];
    if e.ending == Stopped then e.causes == []
    else if e.read > k then false
    else match w.step(Replayed(w, origin, log[..k]), Replayed(w, origin, log[..e.read]), e.cause, e.action)
      case StepDone(_, causes) => e.ending == Done && e.causes == causes
      case StepRefused(_) => e.ending == Refused && e.causes == []
      case StepFailed => false
  }

  predicate AllEndTruly<D>(w: World<D>, origin: D, log: seq<Entry>, from: nat) {
    forall k :: from <= k < |log| ==> EndsTruly(w, origin, log, k)
  }

  /**
   * `after` continues `s` by finished runs at `depth` and below: the chain is
   * kept, and its database is what the done runs of its trail made of `origin`.
   */
  ghost predicate Continues<D>(w: World<D>, origin: D, s: Chain<D>, after: Chain<D>, depth: nat) {
    && Kept(after) && s.log <= after.log
    && after.db == Replayed(w, origin, after.log)
    && Stretch(after.log[|s.log|..], depth)
    && AllFinished(w, origin, after.log, |s.log|) && AllEndTruly(w, origin, after.log, |s.log|)
  }

  /** `after` continues `s` by one run of `a` for write `x`, with its single record at `depth`. */
  ghost predicate RunsOnce<D>(
      w: World<D>, origin: D, s: Chain<D>, after: Chain<D>, x: Write<D>, a: Action, depth: nat)
  {
    && Continues(w, origin, s, after, depth)
    && OneEach(AtDepth(after.log[|s.log|..], depth), [a], x.cause, x.parent)
  }

  /** A chain to continue from, and a write read from it earlier. */
  ghost predicate Grounded<D>(w: World<D>, origin: D, s: Chain<D>) { Kept(s) && s.db == Replayed(w, origin, s.log) }

  ghost predicate WasRead<D>(w: World<D>, origin: D, log: seq<Entry>, x: Write<D>) {
    x.read <= |log| && x.db == Replayed(w, origin, log[..x.read])
  }

  // ---- Lemmas over trails ----

  lemma {:induction false} AtDepthAppends(a: seq<Entry>, b: seq<Entry>, depth: nat)
    ensures AtDepth(a + b, depth) == AtDepth(a, depth) + AtDepth(b, depth)
  {
    if b == [] { assert a + b == a; }
    else {
      assert (a + b)[..|a + b| - 1] == a + b[..|b| - 1];
      AtDepthAppends(a, b[..|b| - 1], depth);
    }
  }

  lemma {:induction false} NoneAtDepth(es: seq<Entry>, depth: nat)
    requires AllDeeper(es, depth + 1)
    ensures AtDepth(es, depth) == []
  {
    if es == [] {
    } else {
      NoneAtDepth(es[..|es| - 1], depth);
    }
  }

  lemma JustOneAtDepth(e: Entry)
    ensures AtDepth([e], e.depth) == [e]
  {
    assert [e][..0] == [];
  }

  /** Appending a record replays it after the rest. */
  lemma ReplaysOne<D>(w: World<D>, origin: D, log: seq<Entry>, e: Entry)
    ensures Replayed(w, origin, log + [e]) ==
      var before := Replayed(w, origin, log);
      if e.ending != Done || e.read > |log| then before
      else match w.step(before, Replayed(w, origin, log[..e.read]), e.cause, e.action)
        case StepDone(after, _) => after
        case _ => before
  {
    assert (log + [e])[..|log|] == log;
    if e.read <= |log| { assert (log + [e])[..e.read] == log[..e.read]; }
  }

  lemma RecordKeeps<D>(s: Chain<D>, e: Entry, ran: set<(string, string)>)
    requires Kept(s) && Follows(s.log, e)
    requires ran == if Executed(e) then s.ran + {Identity(e.cause, e.action)} else s.ran
    ensures Kept(Record(s.(ran := ran), e))
  {
    var log := s.log + [e];
    assert log[..|log| - 1] == s.log;
  }

  lemma MayStartLater(a: seq<Entry>, b: seq<Entry>, c: Cause, depth: nat, parent: Option<Action>)
    requires a <= b && MayStart(a, c, depth, parent)
    ensures MayStart(b, c, depth, parent)
  {
    forall p | p in a ensures p in b {
      var j :| 0 <= j < |a| && a[j] == p;
      assert b[j] == p;
    }
  }

  lemma RanStays<D>(
    w: World<D>, origin: D, a: seq<Entry>, b: seq<Entry>, from: nat, upto: nat,
    c: Cause, depth: nat, parent: Option<Action>)
    requires a <= b && Ran(w, origin, a, from, upto, c, depth, parent)
    ensures Ran(w, origin, b, from, upto, c, depth, parent)
  {
    assert a[from..upto] == b[from..upto] && a[..from] == b[..from];
  }

  lemma {:induction false} RanAllStays<D>(
    w: World<D>, origin: D, a: seq<Entry>, b: seq<Entry>, from: nat, upto: nat,
    causes: seq<Cause>, depth: nat, parent: Option<Action>)
    requires a <= b && RanAll(w, origin, a, from, upto, causes, depth, parent)
    ensures RanAll(w, origin, b, from, upto, causes, depth, parent)
    decreases |causes|
  {
    if causes == [] {
    } else {
      var mid: nat :|
        Ran(w, origin, a, from, mid, causes[0], depth, parent) &&
          RanAll(w, origin, a, mid, upto, causes[1..], depth, parent);
      RanStays(w, origin, a, b, from, mid, causes[0], depth, parent);
      RanAllStays(w, origin, a, b, mid, upto, causes[1..], depth, parent);
    }
  }

  /** A finished run stays finished when the trail goes on no deeper than it. */
  lemma FinishedAtStays<D>(w: World<D>, origin: D, a: seq<Entry>, b: seq<Entry>, k: nat, upto: nat)
    requires a <= b && k < |a| && FinishedAt(w, origin, a, k, upto) && (|a| < |b| ==> b[|a|].depth <= a[k].depth)
    ensures FinishedAt(w, origin, b, k, upto)
  {
    assert b[k] == a[k] && (upto < |a| ==> b[upto] == a[upto]);
    RanAllStays(w, origin, a, b, k + 1, upto, a[k].causes, a[k].depth + 1, Some(a[k].action));
  }

  lemma FinishedStays<D>(w: World<D>, origin: D, a: seq<Entry>, b: seq<Entry>, k: nat)
    requires a <= b && k < |a| && Finished(w, origin, a, k) && (|a| < |b| ==> b[|a|].depth <= a[k].depth)
    ensures Finished(w, origin, b, k)
  {
    var upto: nat :| FinishedAt(w, origin, a, k, upto);
    FinishedAtStays(w, origin, a, b, k, upto);
  }

  lemma AllFinishedStays<D>(w: World<D>, origin: D, a: seq<Entry>, b: seq<Entry>, from: nat, depth: nat)
    requires a <= b && from <= |a| && AllDeeper(a[from..], depth)
    requires AllFinished(w, origin, a, from) && AllFinished(w, origin, b, |a|)
    requires |a| < |b| ==> b[|a|].depth <= depth
    ensures AllFinished(w, origin, b, from)
  {
    forall k | from <= k < |b| && b[k].ending == Done ensures Finished(w, origin, b, k) {
      if k < |a| {
        assert a[k] == b[k] && a[from..][k - from] == a[k];
        FinishedStays(w, origin, a, b, k);
      }
    }
  }

  lemma StretchesJoin(a: seq<Entry>, b: seq<Entry>, depth: nat)
    requires Stretch(a, depth) && Stretch(b, depth)
    ensures Stretch(a + b, depth)
  {
    if a == [] { assert a + b == b; } else { assert (a + b)[0] == a[0]; }
  }

  lemma TruthStays<D>(w: World<D>, origin: D, a: seq<Entry>, b: seq<Entry>, k: nat)
    requires a <= b && k < |a| && EndsTruly(w, origin, a, k)
    ensures EndsTruly(w, origin, b, k)
  {
    assert a[..k] == b[..k] && (a[k].read <= k ==> a[..a[k].read] == b[..a[k].read]);
  }

  lemma AllTruthStays<D>(w: World<D>, origin: D, a: seq<Entry>, b: seq<Entry>, from: nat)
    requires a <= b && AllEndTruly(w, origin, a, from) && AllEndTruly(w, origin, b, |a|)
    ensures AllEndTruly(w, origin, b, from)
  {
    forall k | from <= k < |b| ensures EndsTruly(w, origin, b, k) {
      if k < |a| { TruthStays(w, origin, a, b, k); }
    }
  }

  lemma GrowthsJoin(a: seq<Entry>, b: seq<Entry>, c: seq<Entry>)
    requires a <= b <= c
    ensures c[|a|..] == b[|a|..] + c[|b|..] && (|b| < |c| ==> c[|b|..][0] == c[|b|])
  {
  }

  lemma ContinuesOn<D>(w: World<D>, origin: D, s: Chain<D>, mid: Chain<D>, after: Chain<D>, depth: nat)
    requires Continues(w, origin, s, mid, depth) && Continues(w, origin, mid, after, depth)
    ensures Continues(w, origin, s, after, depth)
    ensures after.log[|s.log|..] == mid.log[|s.log|..] + after.log[|mid.log|..]
  {
    GrowthsJoin(s.log, mid.log, after.log);
    StretchesJoin(mid.log[|s.log|..], after.log[|mid.log|..], depth);
    AllFinishedStays(w, origin, mid.log, after.log, |s.log|, depth);
    AllTruthStays(w, origin, mid.log, after.log, |s.log|);
  }

  lemma NothingContinues<D>(w: World<D>, origin: D, s: Chain<D>, depth: nat)
    requires Grounded(w, origin, s)
    ensures Continues(w, origin, s, s, depth) && s.log[|s.log|..] == []
  {
  }

  lemma {:induction false} TriggeredSetOff(actions: seq<Action>, c: Cause)
    ensures forall a :: a in Triggered(actions, c) ==> SetsOff(a, c)
  {
    if actions == [] {
    } else {
      TriggeredSetOff(actions[1..], c);
    }
  }

  lemma {:induction false} HoldingIsPart<D>(w: World<D>, db: D, c: Cause, actions: seq<Action>)
    ensures forall a :: a in Holding(w, db, c, actions) ==> a in actions && w.holds(db, c, a)
  {
    if actions == [] {
    } else {
      HoldingIsPart(w, db, c, actions[1..]);
    }
  }

  lemma SelectedSetOff<D>(w: World<D>, db: D, c: Cause)
    ensures forall a :: a in Selected(w, db, c) ==> SetsOff(a, c)
  {
    var found := w.actions(db, c);
    if found.Some? {
      TriggeredSetOff(found.value, c);
      HoldingIsPart(w, db, c, Triggered(found.value, c));
    }
  }

  // ---- The chain, level by level ----

  /**
   * All that a write sets off, at any depth: one record for each action it
   * selects, the chain kept, every done run finished, and the database what
   * the done runs of the trail made of it.
   */
  lemma {:induction false} RunAllKeeps<D>(
      w: World<D>, origin: D, s: Chain<D>, c: Cause, depth: nat, parent: Option<Action>)
    requires Grounded(w, origin, s) && MayStart(s.log, c, depth, parent)
    ensures var done := RunAll(w, s, c, depth, parent);
      done.Some? ==>
        && Continues(w, origin, s, done.value, depth)
        && Ran(w, origin, done.value.log, |s.log|, |done.value.log|, c, depth, parent)
    decreases CHAIN_DEPTH + 1 - depth, 2, 0
  {
    SelectedSetOff(w, s.db, c);
    var x := Write(c, s.db, |s.log|, parent);
    assert s.log[..|s.log|] == s.log;
    RunEachKeeps(w, origin, s, x, Selected(w, s.db, c), depth);
    var done := RunAll(w, s, c, depth, parent);
    if done.Some? {
      var log := done.value.log;
      assert log[|s.log|..|log|] == log[|s.log|..] && log[..|s.log|] == s.log;
    }
  }

  lemma EachThenRest<D>(
    w: World<D>, origin: D, s: Chain<D>, mid: Chain<D>, after: Chain<D>, x: Write<D>, actions: seq<Action>, depth: nat)
    requires actions != []
    requires Continues(w, origin, s, mid, depth) && Continues(w, origin, mid, after, depth)
    requires OneEach(AtDepth(mid.log[|s.log|..], depth), [actions[0]], x.cause, x.parent)
    requires OneEach(AtDepth(after.log[|mid.log|..], depth), actions[1..], x.cause, x.parent)
    ensures Continues(w, origin, s, after, depth)
    ensures OneEach(AtDepth(after.log[|s.log|..], depth), actions, x.cause, x.parent)
  {
    ContinuesOn(w, origin, s, mid, after, depth);
    AtDepthAppends(mid.log[|s.log|..], after.log[|mid.log|..], depth);
  }

  lemma {:induction false} RunEachKeeps<D>(
      w: World<D>, origin: D, s: Chain<D>, x: Write<D>, actions: seq<Action>, depth: nat)
    requires Grounded(w, origin, s) && WasRead(w, origin, s.log, x)
    requires MayStart(s.log, x.cause, depth, x.parent) && forall a :: a in actions ==> SetsOff(a, x.cause)
    ensures var done := RunEach(w, s, x, actions, depth);
      done.Some? ==>
        && Continues(w, origin, s, done.value, depth)
        && OneEach(AtDepth(done.value.log[|s.log|..], depth), actions, x.cause, x.parent)
    decreases CHAIN_DEPTH + 1 - depth, 1, |actions|
  {
    if actions == [] {
      NothingContinues(w, origin, s, depth);
    } else {
      RunOneKeeps(w, origin, s, x, actions[0], depth);
      var one := RunOne(w, s, x, actions[0], depth);
      if one.Some? {
        var mid := one.value;
        MayStartLater(s.log, mid.log, x.cause, depth, x.parent);
        assert mid.log[..x.read] == s.log[..x.read];
        RunEachKeeps(w, origin, mid, x, actions[1..], depth);
        var rest := RunEach(w, mid, x, actions[1..], depth);
        if rest.Some? { EachThenRest(w, origin, s, mid, rest.value, x, actions, depth); }
      }
    }
  }

  /** A stopped or refused run adds its record and changes no data. */
  lemma QuietKeeps<D>(
    w: World<D>, origin: D, s: Chain<D>, x: Write<D>, a: Action, depth: nat, ending: Ending, ran: set<(string, string)>)
    requires Grounded(w, origin, s) && Follows(s.log, Noted(x, a, depth, ending, [])) && ending != Done
    requires ran == if ending != Stopped then s.ran + {Identity(x.cause, a)} else s.ran
    requires EndsTruly(w, origin, s.log + [Noted(x, a, depth, ending, [])], |s.log|)
    ensures RunsOnce(w, origin, s, Record(s.(ran := ran), Noted(x, a, depth, ending, [])), x, a, depth)
  {
    var e := Noted(x, a, depth, ending, []);
    var after := Record(s.(ran := ran), e);
    RecordKeeps(s, e, ran);
    ReplaysOne(w, origin, s.log, e);
    assert after.log[|s.log|..] == [e];
    JustOneAtDepth(e);
  }

  lemma RunEndsTruly<D>(w: World<D>, origin: D, s: Chain<D>, x: Write<D>, e: Entry)
    requires Grounded(w, origin, s) && WasRead(w, origin, s.log, x) && e.read == x.read && e.ending != Stopped
    requires match w.step(s.db, x.db, e.cause, e.action)
      case StepDone(_, causes) => e.ending == Done && e.causes == causes
      case StepRefused(_) => e.ending == Refused && e.causes == []
      case StepFailed => false
    ensures EndsTruly(w, origin, s.log + [e], |s.log|)
  {
    var log := s.log + [e];
    assert log[..|s.log|] == s.log && log[..e.read] == s.log[..e.read];
  }

  lemma {:induction false} RunOneKeeps<D>(w: World<D>, origin: D, s: Chain<D>, x: Write<D>, a: Action, depth: nat)
    requires Grounded(w, origin, s) && WasRead(w, origin, s.log, x)
    requires MayStart(s.log, x.cause, depth, x.parent) && SetsOff(a, x.cause)
    ensures var done := RunOne(w, s, x, a, depth);
      done.Some? ==> RunsOnce(w, origin, s, done.value, x, a, depth)
    decreases CHAIN_DEPTH + 1 - depth, 0, 1
  {
    var id := Identity(x.cause, a);
    if id in s.ran || depth > CHAIN_DEPTH {
      QuietKeeps(w, origin, s, x, a, depth, Stopped, s.ran);
    } else {
      match w.step(s.db, x.db, x.cause, a)
      case StepFailed =>
      case StepRefused(_) =>
        RunEndsTruly(w, origin, s, x, Noted(x, a, depth, Refused, []));
        QuietKeeps(w, origin, s, x, a, depth, Refused, s.ran + {id});
      case StepDone(db, causes) => DoneChainKeeps(w, origin, s, x, a, depth, causes, db);
    }
  }

  lemma DoneGrounds<D>(w: World<D>, origin: D, s: Chain<D>, x: Write<D>, e: Entry, db: D)
    requires Grounded(w, origin, s) && WasRead(w, origin, s.log, x) && Follows(s.log, e) && e.ending == Done
    requires e.read == x.read && w.step(s.db, x.db, e.cause, e.action) == StepDone(db, e.causes)
    ensures var mid := Record(s.(db := db, ran := s.ran + {Identity(e.cause, e.action)}), e);
      && Grounded(w, origin, mid)
      && forall c :: c in e.causes ==> MayStart(mid.log, c, e.depth + 1, Some(e.action))
  {
    RecordKeeps(s.(db := db), e, s.ran + {Identity(e.cause, e.action)});
    ReplaysOne(w, origin, s.log, e);
    var log := s.log + [e];
    assert log[|s.log|] == e;
    forall c | c in e.causes ensures MayStart(log, c, e.depth + 1, Some(e.action)) {
      assert e in log && SetOffBy(e, c, e.depth + 1, Some(e.action));
    }
  }

  lemma HeadAndBelow(e: Entry, below: seq<Entry>)
    requires AllDeeper(below, e.depth + 1)
    ensures Stretch([e] + below, e.depth) && AtDepth([e] + below, e.depth) == [e]
  {
    AtDepthAppends([e], below, e.depth);
    JustOneAtDepth(e);
    NoneAtDepth(below, e.depth);
  }

  lemma HeadIsFinished<D>(w: World<D>, origin: D, log: seq<Entry>, k: nat, e: Entry)
    requires k < |log| && log[k] == e && AllFinished(w, origin, log, k + 1)
    requires RanAll(w, origin, log, k + 1, |log|, e.causes, e.depth + 1, Some(e.action))
    ensures AllFinished(w, origin, log, k)
  {
    assert FinishedAt(w, origin, log, k, |log|);
  }

  lemma HeadComesFirst(before: seq<Entry>, e: Entry, log: seq<Entry>)
    requires before + [e] <= log
    ensures |before| < |log| && log[|before|] == e && before <= log
    ensures log[|before|..] == [e] + log[|before| + 1..]
  {
    assert (before + [e])[|before|] == e;
  }

  lemma HeadEndsTruly<D>(w: World<D>, origin: D, mid: seq<Entry>, log: seq<Entry>)
    requires mid != [] && mid <= log && EndsTruly(w, origin, mid, |mid| - 1) && AllEndTruly(w, origin, log, |mid|)
    ensures AllEndTruly(w, origin, log, |mid| - 1)
  {
    AllTruthStays(w, origin, mid, log, |mid| - 1);
  }

  /** A done run and all that its writes set off make one finished run. */
  lemma DoneThenNext<D>(w: World<D>, origin: D, s: Chain<D>, mid: Chain<D>, after: Chain<D>, e: Entry)
    requires mid.log == s.log + [e] && Continues(w, origin, mid, after, e.depth + 1) && e.ending == Done
    requires RanAll(w, origin, after.log, |mid.log|, |after.log|, e.causes, e.depth + 1, Some(e.action))
    requires EndsTruly(w, origin, mid.log, |s.log|)
    ensures Continues(w, origin, s, after, e.depth) && AtDepth(after.log[|s.log|..], e.depth) == [e]
  {
    HeadComesFirst(s.log, e, after.log);
    HeadAndBelow(e, after.log[|mid.log|..]);
    HeadIsFinished(w, origin, after.log, |s.log|, e);
    HeadEndsTruly(w, origin, mid.log, after.log);
  }

  lemma {:induction false} DoneChainKeeps<D>(
    w: World<D>, origin: D, s: Chain<D>, x: Write<D>, a: Action, depth: nat, causes: seq<Cause>, db: D)
    requires Grounded(w, origin, s) && WasRead(w, origin, s.log, x) && Follows(s.log, Noted(x, a, depth, Done, causes))
    requires w.step(s.db, x.db, x.cause, a) == StepDone(db, causes)
    ensures depth <= CHAIN_DEPTH
    ensures var mid := Record(s.(db := db, ran := s.ran + {Identity(x.cause, a)}), Noted(x, a, depth, Done, causes));
      var done := RunNext(w, mid, causes, depth + 1, Some(a));
      done.Some? ==> RunsOnce(w, origin, s, done.value, x, a, depth)
    decreases CHAIN_DEPTH + 1 - depth, 0, 0
  {
    var e := Noted(x, a, depth, Done, causes);
    var mid := Record(s.(db := db, ran := s.ran + {Identity(x.cause, a)}), e);
    DoneGrounds(w, origin, s, x, e, db);
    RunEndsTruly(w, origin, s, x, e);
    RunNextKeeps(w, origin, mid, causes, depth + 1, Some(a));
    var rest := RunNext(w, mid, causes, depth + 1, Some(a));
    if rest.Some? { DoneThenNext(w, origin, s, mid, rest.value, e); }
  }

  lemma {:induction false} RunNextKeeps<D>(
      w: World<D>, origin: D, s: Chain<D>, causes: seq<Cause>, depth: nat, parent: Option<Action>)
    requires Grounded(w, origin, s) && forall c :: c in causes ==> MayStart(s.log, c, depth, parent)
    requires 1 <= depth <= CHAIN_DEPTH + 1
    ensures var done := RunNext(w, s, causes, depth, parent);
      done.Some? ==>
        && Continues(w, origin, s, done.value, depth)
        && RanAll(w, origin, done.value.log, |s.log|, |done.value.log|, causes, depth, parent)
    decreases CHAIN_DEPTH + 1 - depth, 3, |causes|
  {
    if causes == [] {
      NothingContinues(w, origin, s, depth);
    } else {
      RunAllKeeps(w, origin, s, causes[0], depth, parent);
      var one := RunAll(w, s, causes[0], depth, parent);
      if one.Some? {
        var mid := one.value;
        forall c | c in causes[1..] ensures MayStart(mid.log, c, depth, parent) {
          MayStartLater(s.log, mid.log, c, depth, parent);
        }
        RunNextKeeps(w, origin, mid, causes[1..], depth, parent);
        var rest := RunNext(w, mid, causes[1..], depth, parent);
        if rest.Some? {
          ContinuesOn(w, origin, s, mid, rest.value, depth);
          RanStays(w, origin, mid.log, rest.value.log, |s.log|, |mid.log|, causes[0], depth, parent);
        }
      }
    }
  }

  // ---- A whole chain ----

  lemma {:induction false} OrderlyAt(log: seq<Entry>, k: nat)
    requires Orderly(log) && k < |log|
    ensures Follows(log[..k], log[k])
    decreases |log|
  {
    if k == |log| - 1 {
    } else {
      OrderlyAt(log[..|log| - 1], k);
      assert log[..|log| - 1][..k] == log[..k];
    }
  }

  lemma {:induction false} IdsAre(log: seq<Entry>, k: nat)
    requires k < |log| && Executed(log[k])
    ensures Identity(log[k].cause, log[k].action) in Ids(log)
  {
    if k == |log| - 1 {
    } else {
      IdsAre(log[..|log| - 1], k);
    }
  }

  /** No action executes twice in a chain, and none below the limit of depth. */
  lemma ExecutesOnce(log: seq<Entry>, i: nat, j: nat)
    requires Orderly(log) && i < j < |log| && Executed(log[i]) && Executed(log[j])
    ensures Identity(log[i].cause, log[i].action) != Identity(log[j].cause, log[j].action)
    ensures log[i].depth <= CHAIN_DEPTH && log[j].depth <= CHAIN_DEPTH
  {
    OrderlyAt(log, i);
    OrderlyAt(log, j);
    IdsAre(log[..j], i);
  }

  /** Every run below the top follows a done run one level up, whose write set it off. */
  lemma SetOffByDoneRun(log: seq<Entry>, k: nat)
    requires Orderly(log) && k < |log| && log[k].depth > 1
    ensures exists j :: 0 <= j < k && SetOffBy(log[j], log[k].cause, log[k].depth, log[k].parent)
  {
    OrderlyAt(log, k);
    var p :| p in log[..k] && SetOffBy(p, log[k].cause, log[k].depth, log[k].parent);
    var j :| 0 <= j < k && log[..k][j] == p;
    assert log[j] == p;
  }

  // ---- Which actions a write sets off ----

  /** An action's trigger is met by the very write: a creation, a change to its field, an entry into its state. */
  predicate IsTriggered(a: Action, c: Cause) {
    || (a.trigger == OnCreated && c.RecordCreated?)
    || (c.FieldChanged? && exists f :: f in c.fields && a.trigger == OnField(f))
    || (c.StateEntered? && a.trigger == OnState(c.state))
  }

  /** A write sets off an action of its board whose trigger it meets and whose condition holds of it. */
  predicate IsWanted<D>(w: World<D>, db: D, c: Cause, a: Action) { IsTriggered(a, c) && w.holds(db, c, a) }

  /** The actions of `board` that write `c` sets off. */
  function SetOffOf<D>(w: World<D>, db: D, c: Cause, board: seq<Action>): seq<Action> {
    Holding(w, db, c, Triggered(board, c))
  }

  lemma Associates<T>(a: seq<T>, b: seq<T>, c: seq<T>)
    ensures a + (b + c) == a + b + c
  {
  }

  lemma {:induction false} TriggeredJoins(a: seq<Action>, b: seq<Action>, c: Cause)
    ensures Triggered(a + b, c) == Triggered(a, c) + Triggered(b, c)
  {
    if a == [] {
      assert a + b == b;
    } else {
      TriggeredJoins(a[1..], b, c);
      assert (a + b)[0] == a[0] && (a + b)[1..] == a[1..] + b;
      Associates(if SetsOff(a[0], c) then [a[0]] else [], Triggered(a[1..], c), Triggered(b, c));
    }
  }

  lemma {:induction false} HoldingJoins<D>(w: World<D>, db: D, c: Cause, a: seq<Action>, b: seq<Action>)
    ensures Holding(w, db, c, a + b) == Holding(w, db, c, a) + Holding(w, db, c, b)
  {
    if a == [] {
      assert a + b == b;
    } else {
      HoldingJoins(w, db, c, a[1..], b);
      assert (a + b)[0] == a[0] && (a + b)[1..] == a[1..] + b;
      Associates(if w.holds(db, c, a[0]) then [a[0]] else [], Holding(w, db, c, a[1..]), Holding(w, db, c, b));
    }
  }

  lemma OneIsSetOff<D>(w: World<D>, db: D, c: Cause, a: Action)
    ensures SetOffOf(w, db, c, [a]) == if IsWanted(w, db, c, a) then [a] else []
  {
    var none: seq<Action> := [];
    assert [a][1..] == none && SetsOff(a, c) == IsTriggered(a, c);
    assert Triggered(none, c) == none && Holding(w, db, c, none) == none;
    assert Triggered([a], c) == if SetsOff(a, c) then [a] else none;
    assert Holding(w, db, c, [a]) == if w.holds(db, c, a) then [a] else none;
  }

  /** Board by board and action by action: the actions set off come in the board's order. */
  lemma SetOffInOrder<D>(w: World<D>, db: D, c: Cause, a: seq<Action>, b: seq<Action>)
    ensures SetOffOf(w, db, c, a + b) == SetOffOf(w, db, c, a) + SetOffOf(w, db, c, b)
  {
    TriggeredJoins(a, b, c);
    HoldingJoins(w, db, c, Triggered(a, c), Triggered(b, c));
  }

  /** And as often: each action of the board that the write sets off, and no other. */
  lemma {:induction false} SetOffExactly<D>(w: World<D>, db: D, c: Cause, board: seq<Action>, a: Action)
    ensures multiset(SetOffOf(w, db, c, board))[a] == if IsWanted(w, db, c, a) then multiset(board)[a] else 0
  {
    if board == [] {
    } else {
      var n := |board| - 1;
      assert board == board[..n] + [board[n]];
      SetOffExactly(w, db, c, board[..n], a);
      SetOffInOrder(w, db, c, board[..n], [board[n]]);
      OneIsSetOff(w, db, c, board[n]);
    }
  }

  /** The record of a run of `a` for write `c` under `parent`, one of `es`. */
  predicate HasRecord(es: seq<Entry>, a: Action, c: Cause, depth: nat, parent: Option<Action>) {
    exists e :: e in es && e.action == a && e.cause == c && e.depth == depth && e.parent == parent
  }

  /** Every action of the written record's board that the write sets off has its record. */
  ghost predicate AllRecorded<D>(
    w: World<D>, db: D, c: Cause, es: seq<Entry>, depth: nat, parent: Option<Action>)
  {
    w.actions(db, c).Some? ==>
      forall a :: a in w.actions(db, c).value && IsTriggered(a, c) && w.holds(db, c, a) ==>
        HasRecord(es, a, c, depth, parent)
  }

  lemma {:induction false} AtDepthIs(es: seq<Entry>, depth: nat)
    ensures forall e :: e in AtDepth(es, depth) ==> e in es && e.depth == depth
  {
    if es == [] {
    } else {
      AtDepthIs(es[..|es| - 1], depth);
      assert es == es[..|es| - 1] + [es[|es| - 1]];
    }
  }

  lemma OneEachRecords<D>(w: World<D>, db: D, c: Cause, es: seq<Entry>, depth: nat, parent: Option<Action>)
    requires OneEach(AtDepth(es, depth), Selected(w, db, c), c, parent)
    ensures AllRecorded(w, db, c, es, depth, parent)
  {
    AtDepthIs(es, depth);
    if w.actions(db, c).Some? {
      var board, sel, found := w.actions(db, c).value, Selected(w, db, c), AtDepth(es, depth);
      forall a | a in board && IsTriggered(a, c) && w.holds(db, c, a) ensures HasRecord(es, a, c, depth, parent) {
        SetOffExactly(w, db, c, board, a);
        assert a in multiset(sel);
        var k :| 0 <= k < |sel| && sel[k] == a;
        assert found[k] in found;
      }
    }
  }

  /** Somewhere from `from` on, write `c` was read and every action it sets off has its record after that. */
  ghost predicate RecordedFrom<D>(
    w: World<D>, origin: D, log: seq<Entry>, from: nat, c: Cause, depth: nat, parent: Option<Action>)
  {
    exists read: nat ::
      from <= read <= |log| && AllRecorded(w, Replayed(w, origin, log[..read]), c, log[read..], depth, parent)
  }

  lemma {:induction false} RanAllRecords<D>(
      w: World<D>, origin: D, log: seq<Entry>, from: nat, upto: nat, causes: seq<Cause>,
      depth: nat, parent: Option<Action>, c: Cause)
    requires RanAll(w, origin, log, from, upto, causes, depth, parent) && c in causes
    ensures RecordedFrom(w, origin, log, from, c, depth, parent)
    decreases |causes|
  {
    var mid: nat :|
      Ran(w, origin, log, from, mid, causes[0], depth, parent) &&
        RanAll(w, origin, log, mid, upto, causes[1..], depth, parent);
    if c == causes[0] {
      OneEachRecords(w, Replayed(w, origin, log[..from]), c, log[from..mid], depth, parent);
      assert forall e :: e in log[from..mid] ==> e in log[from..];
      assert AllRecorded(w, Replayed(w, origin, log[..from]), c, log[from..], depth, parent);
    } else {
      assert causes == [causes[0]] + causes[1..];
      RanAllRecords(w, origin, log, mid, upto, causes[1..], depth, parent, c);
    }
  }

  /** After run `log[k]`, every action that its write `c` sets off, on the database the write left, has its record. */
  ghost predicate WriteRecorded<D>(w: World<D>, origin: D, log: seq<Entry>, k: nat, c: Cause)
    requires k < |log|
  {
    RecordedFrom(w, origin, log, k + 1, c, log[k].depth + 1, Some(log[k].action))
  }

  ghost predicate AllWritesRecorded<D>(w: World<D>, origin: D, log: seq<Entry>) {
    forall k, c :: 0 <= k < |log| && log[k].ending == Done && c in log[k].causes ==> WriteRecorded(w, origin, log, k, c)
  }

  lemma EveryActionIsRecorded<D>(w: World<D>, origin: D, log: seq<Entry>, k: nat, c: Cause)
    requires AllFinished(w, origin, log, 0) && k < |log| && log[k].ending == Done && c in log[k].causes
    ensures WriteRecorded(w, origin, log, k, c)
  {
    var upto: nat :| FinishedAt(w, origin, log, k, upto);
    RanAllRecords(w, origin, log, k + 1, upto, log[k].causes, log[k].depth + 1, Some(log[k].action), c);
  }

  // ---- When a chain aborts ----

  /** No step fails outright. */
  ghost predicate NeverFails<D(!new)>(w: World<D>) {
    forall db: D, written: D, c, a :: !w.step(db, written, c, a).StepFailed?
  }

  /** Only a step that fails outright aborts a chain: a refusal or a stop does not. */
  lemma {:induction false} RunAllEnds<D(!new)>(w: World<D>, s: Chain<D>, c: Cause, depth: nat, parent: Option<Action>)
    requires NeverFails(w) && depth <= CHAIN_DEPTH + 1
    ensures RunAll(w, s, c, depth, parent).Some?
    decreases CHAIN_DEPTH + 1 - depth, 2, 0
  {
    RunEachEnds(w, s, Write(c, s.db, |s.log|, parent), Selected(w, s.db, c), depth);
  }

  lemma {:induction false} RunEachEnds<D(!new)>(
      w: World<D>, s: Chain<D>, x: Write<D>, actions: seq<Action>, depth: nat)
    requires NeverFails(w) && depth <= CHAIN_DEPTH + 1
    ensures RunEach(w, s, x, actions, depth).Some?
    decreases CHAIN_DEPTH + 1 - depth, 1, |actions|
  {
    if actions == [] {
    } else {
      RunOneEnds(w, s, x, actions[0], depth);
      RunEachEnds(w, RunOne(w, s, x, actions[0], depth).value, x, actions[1..], depth);
    }
  }

  lemma {:induction false} RunOneEnds<D(!new)>(w: World<D>, s: Chain<D>, x: Write<D>, a: Action, depth: nat)
    requires NeverFails(w) && depth <= CHAIN_DEPTH + 1
    ensures RunOne(w, s, x, a, depth).Some?
    decreases CHAIN_DEPTH + 1 - depth, 0, 0
  {
    var id := Identity(x.cause, a);
    if id in s.ran || depth > CHAIN_DEPTH {
    } else {
      match w.step(s.db, x.db, x.cause, a)
      case StepRefused(_) =>
      case StepDone(db, causes) =>
        var mid := Record(s.(db := db, ran := s.ran + {id}), Noted(x, a, depth, Done, causes));
        RunNextEnds(w, mid, causes, depth + 1, Some(a));
    }
  }

  lemma {:induction false} RunNextEnds<D(!new)>(
      w: World<D>, s: Chain<D>, causes: seq<Cause>, depth: nat, parent: Option<Action>)
    requires NeverFails(w) && depth <= CHAIN_DEPTH + 1
    ensures RunNext(w, s, causes, depth, parent).Some?
    decreases CHAIN_DEPTH + 1 - depth, 3, |causes|
  {
    if causes == [] {
    } else {
      RunAllEnds(w, s, causes[0], depth, parent);
      RunNextEnds(w, RunAll(w, s, causes[0], depth, parent).value, causes[1..], depth, parent);
    }
  }

  /**
   * A person's write, whatever actions set each other off: the chain ends,
   * each action of its board that the write sets off leaves its record, so
   * does each action that any write of any done run sets off, one level down,
   * each run ended as its step did, and the database is what the done runs
   * made of it in the order recorded.
   */
  lemma ChainIsSound<D>(w: World<D>, db: D, c: Cause)
    ensures var done := RunAll(w, Chain(db, {}, []), c, 1, None);
      done.Some? ==>
        && Orderly(done.value.log)
        && done.value.db == Replayed(w, db, done.value.log)
        && OneEach(AtDepth(done.value.log, 1), Selected(w, db, c), c, None)
        && AllFinished(w, db, done.value.log, 0) && AllEndTruly(w, db, done.value.log, 0)
        && AllRecorded(w, db, c, done.value.log, 1, None)
        && AllWritesRecorded(w, db, done.value.log)
  {
    var s := Chain(db, {}, []);
    RunAllKeeps(w, db, s, c, 1, None);
    var done := RunAll(w, s, c, 1, None);
    if done.Some? {
      var log := done.value.log;
      assert log[0..|log|] == log && log[..0] == [];
      OneEachRecords(w, db, c, log, 1, None);
      forall k, x | 0 <= k < |log| && log[k].ending == Done && x in log[k].causes
        ensures WriteRecorded(w, db, log, k, x)
      {
        EveryActionIsRecorded(w, db, log, k, x);
      }
    }
  }
}
