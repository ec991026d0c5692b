/**
 * Forwarding the audit trail to a collector: passes read the events after a
 * stored mark from transactions that have all finished, hand them over, and
 * only then move the mark. Any number of passes may overlap, fail part way or
 * die; events keep committing meanwhile, out of order.
 */
module Syslog {
  import opened Base

  const BATCH := 500

  /** An audit event by its place in the order of forwarding; numbers start at one. */
  datatype Event = Event(xact: nat, no: nat)

  predicate Before(e: Event, f: Event) { e.xact < f.xact || (e.xact == f.xact && e.no < f.no) }

  predicate Ascending(events: seq<Event>) { forall i, j :: 0 <= i < j < |events| ==> Before(events[i], events[j]) }

  datatype Pass = Idle | Sending(batch: seq<Event>, sent: nat)

  /** `horizon`: every transaction below it has finished. `start` is where the mark was first put. */
  datatype State = State(
    events: set<Event>, horizon: nat, start: Option<Event>, mark: Event, passes: map<nat, Pass>, delivered: seq<Event>)

  const INIT := State({}, 0, None, Event(0, 0), map[], [])

  datatype Step =
    | Commit(event: Event)
    | Raise(horizon: nat)
    | First
    | Read(pass: nat, batch: seq<Event>)
    | HandOver(pass: nat)
    | Give(pass: nat)
    | Advance(pass: nat)

  predicate Eligible(s: State, e: Event) { e in s.events && Before(s.mark, e) && e.xact < s.horizon }

  /** What the batch query answers: the eligible events in order, the first five hundred of them. */
  predicate IsBatch(s: State, batch: seq<Event>) {
    && |batch| <= BATCH && Ascending(batch)
    && (forall e :: e in batch ==> Eligible(s, e))
    && forall e :: e in s.events && Eligible(s, e) && e !in batch ==> |batch| == BATCH && Before(batch[|batch| - 1], e)
  }

  function PassOf(s: State, p: nat): Pass { if p in s.passes then s.passes[p] else Idle }

  predicate Enabled(s: State, step: Step) {
    match step
    case Commit(e) => e.xact >= s.horizon && e.no > 0
    case Raise(h) => h >= s.horizon
    case First => s.start.None?
    case Read(p, batch) => s.start.Some? && PassOf(s, p).Idle? && batch != [] && IsBatch(s, batch)
    case HandOver(p) => PassOf(s, p).Sending? && PassOf(s, p).sent < |PassOf(s, p).batch|
    case Give(p) => PassOf(s, p).Sending?
    case Advance(p) => PassOf(s, p).Sending? && PassOf(s, p).sent == |PassOf(s, p).batch| > 0
  }

  function Next(s: State, step: Step): State
    requires Enabled(s, step)
  {
    match step
    case Commit(e) => s.(events := s.events + {e})
    case Raise(h) => s.(horizon := h)
    case First => s.(start := Some(Event(s.horizon, 0)), mark := Event(s.horizon, 0))
    case Read(p, batch) => s.(passes := s.passes[p := Sending(batch, 0)])
    case HandOver(p) =>
      var pass := PassOf(s, p);
      s.(
        passes := s.passes[p := Sending(pass.batch, pass.sent + 1)], delivered := s.delivered + [pass.batch[pass.sent]])
    case Give(p) => s.(passes := s.passes[p := Idle])
    case Advance(p) =>
      var last := PassOf(s, p).batch[PassOf(s, p).sent - 1];
      s.(passes := s.passes[p := Idle], mark := if Before(s.mark, last) then last else s.mark)
  }

  ghost predicate IsRun(run: seq<State>, steps: seq<Step>) {
    && |run| == |steps| + 1 && run[0] == INIT
    && forall i :: 0 <= i < |steps| ==> Enabled(run[i], steps[i]) && run[i + 1] == Next(run[i], steps[i])
  }

  // ---- Nothing is skipped ----

  /** Every event from `start` up to `k` has been handed over. */
  ghost predicate Covered(s: State, k: Event) {
    s.start.Some? ==> forall e :: e in s.events && Before(s.start.value, e) && !Before(k, e) ==> e in s.delivered
  }

  /** Whatever was handed over, everything before it was too. */
  ghost predicate Gapless(s: State) {
    s.start.Some? ==>
      forall e, f :: e in s.events && f in s.delivered && Before(s.start.value, e) && Before(e, f) ==> e in s.delivered
  }

  ghost predicate PassKept(s: State, pass: Pass) {
    pass.Sending? ==>
      && s.start.Some? && pass.sent <= |pass.batch| && pass.batch != [] && Ascending(pass.batch)
      && (forall e :: e in pass.batch ==> e in s.events && e.xact < s.horizon)
      && (forall i :: 0 <= i < pass.sent ==> pass.batch[i] in s.delivered)
      && forall e :: e in s.events && Before(s.start.value, e) && !Before(pass.batch[|pass.batch| - 1], e)
                     ==> e in s.delivered || e in pass.batch
  }

  ghost predicate MarkKept(s: State) {
    if s.start.None? then s.delivered == []
    else
      && s.start.value.no == 0 && s.start.value.xact <= s.horizon
      && (s.mark == s.start.value || (s.mark.xact < s.horizon && Before(s.start.value, s.mark)))
  }

  ghost predicate Kept(s: State) {
    && MarkKept(s) && Covered(s, s.mark) && Gapless(s)
    && (forall e :: e in s.delivered ==> e in s.events && e.xact < s.horizon)
    && (forall e :: e in s.events ==> e.no > 0)
    && forall p :: p in s.passes ==> PassKept(s, s.passes[p])
  }

  lemma CommitKeeps(s: State, e: Event)
    requires Kept(s) && Enabled(s, Commit(e))
    ensures Kept(Next(s, Commit(e)))
  {
    var t := Next(s, Commit(e));
    forall p | p in t.passes ensures PassKept(t, t.passes[p]) {
      var pass := t.passes[p];
      assert PassKept(s, pass);
      if pass.Sending? { assert pass.batch[|pass.batch| - 1] in pass.batch; }
    }
  }

  lemma ReadKeeps(s: State, p: nat, batch: seq<Event>)
    requires Kept(s) && Enabled(s, Read(p, batch))
    ensures Kept(Next(s, Read(p, batch)))
  {
    var t := Next(s, Read(p, batch));
    var last := batch[|batch| - 1];
    assert last in batch;
    forall e | e in s.events && Before(s.start.value, e) && !Before(last, e) ensures e in s.delivered || e in batch {
      if Before(s.mark, e) { assert Eligible(s, e); }
    }
    assert PassKept(t, Sending(batch, 0));
    forall q | q in t.passes ensures PassKept(t, t.passes[q]) {
      if q != p { assert PassKept(s, s.passes[q]); }
    }
  }

  lemma HandOverKeeps(s: State, p: nat)
    requires Kept(s) && Enabled(s, HandOver(p))
    ensures Kept(Next(s, HandOver(p)))
  {
    var t := Next(s, HandOver(p));
    var pass := s.passes[p];
    var f := pass.batch[pass.sent];
    assert PassKept(s, pass) && f in pass.batch;
    forall e | e in s.events && Before(s.start.value, e) && Before(e, f) ensures e in s.delivered {
      var last := pass.batch[|pass.batch| - 1];
      assert f == last || Before(f, last);
      if e in pass.batch {
        var i :| 0 <= i < |pass.batch| && pass.batch[i] == e;
        assert i < pass.sent;
      }
    }
    forall q | q in t.passes ensures PassKept(t, t.passes[q]) {
      assert q != p ==> PassKept(s, s.passes[q]);
    }
  }

  lemma AdvanceKeeps(s: State, p: nat)
    requires Kept(s) && Enabled(s, Advance(p))
    ensures Kept(Next(s, Advance(p)))
  {
    var t := Next(s, Advance(p));
    var pass := s.passes[p];
    var last := pass.batch[pass.sent - 1];
    assert PassKept(s, pass) && last in pass.batch;
    assert Covered(s, last) by {
      forall e | e in s.events && Before(s.start.value, e) && !Before(last, e) ensures e in s.delivered {
        if e in pass.batch { var i :| 0 <= i < |pass.batch| && pass.batch[i] == e; }
      }
    }
    forall q | q in t.passes ensures PassKept(t, t.passes[q]) {
      if q != p { assert PassKept(s, s.passes[q]); }
    }
  }

  lemma StepKeeps(s: State, step: Step)
    requires Kept(s) && Enabled(s, step)
    ensures Kept(Next(s, step))
  {
    match step {
      case Commit(e) => CommitKeeps(s, e);
      case Read(p, batch) => ReadKeeps(s, p, batch);
      case HandOver(p) => HandOverKeeps(s, p);
      case Advance(p) => AdvanceKeeps(s, p);
      case Raise(h) => assert forall p :: p in s.passes ==> PassKept(Next(s, step), s.passes[p]);
      case First => assert forall p :: p in s.passes ==> PassKept(Next(s, step), s.passes[p]);
      case Give(p) =>
        assert forall q :: q in s.passes && q != p ==> PassKept(Next(s, step), s.passes[q]);
    }
  }

  lemma {:induction false} RunKeeps(run: seq<State>, steps: seq<Step>, i: nat)
    requires IsRun(run, steps) && i <= |steps|
    ensures Kept(run[i])
  {
    if i == 0 {
    } else {
      RunKeeps(run, steps, i - 1);
      StepKeeps(run[i - 1], steps[i - 1]);
    }
  }

  /**
   * At every moment of every run, all the events the mark has passed were
   * handed over, and so was every event before any one that was: none is
   * skipped, and none comes before an earlier one's first delivery.
   */
  lemma NothingSkipped(run: seq<State>, steps: seq<Step>, i: nat, e: Event)
    requires IsRun(run, steps) && i <= |steps|
    requires run[i].start.Some? && e in run[i].events && Before(run[i].start.value, e)
    requires !Before(run[i].mark, e) || exists f :: f in run[i].delivered && Before(e, f)
    ensures e in run[i].delivered
  {
    RunKeeps(run, steps, i);
  }

  /** An event that commits once forwarding has begun lies after the start, so the above holds for it. */
  lemma LaterEventsCount(run: seq<State>, steps: seq<Step>, i: nat)
    requires IsRun(run, steps) && i < |steps| && steps[i].Commit? && run[i].start.Some?
    ensures Before(run[i].start.value, steps[i].event) && Before(run[i].mark, steps[i].event)
  {
    RunKeeps(run, steps, i);
  }

  /** Events are never taken back, and forwarding begins once. */
  lemma {:induction false} EventsStay(run: seq<State>, steps: seq<Step>, i: nat, j: nat)
    requires IsRun(run, steps) && i <= j <= |steps|
    ensures run[i].events <= run[j].events
    ensures run[i].start.Some? ==> run[j].start == run[i].start
    decreases j
  {
    if i == j {
    } else {
      EventsStay(run, steps, i, j - 1);
      assert Enabled(run[j - 1], steps[j - 1]);
    }
  }

  /**
   * What commits once forwarding has begun is handed over by the time the mark
   * has passed it, or anything after it was handed over.
   */
  lemma CommittedIsHandedOver(run: seq<State>, steps: seq<Step>, i: nat, j: nat)
    requires IsRun(run, steps) && i < j <= |steps| && steps[i].Commit? && run[i].start.Some?
    requires !Before(run[j].mark, steps[i].event) ||
      exists f :: f in run[j].delivered && Before(steps[i].event, f)
    ensures steps[i].event in run[j].delivered
  {
    LaterEventsCount(run, steps, i);
    EventsStay(run, steps, i, j);
    EventsStay(run, steps, i + 1, j);
    NothingSkipped(run, steps, j, steps[i].event);
  }

  // ---- Exactly once without failures ----

  /** One pass at a time, and none gives up. */
  predicate Smooth(steps: seq<Step>) {
    forall i :: 0 <= i < |steps| ==>
      match steps[i]
      case Read(p, _) => p == 0
      case HandOver(p) => p == 0
      case Advance(p) => p == 0
      case Give(_) => false
      case _ => true
  }

  ghost predicate InStep(s: State) {
    && Ascending(s.delivered)
    && match PassOf(s, 0)
       case Idle => forall d :: d in s.delivered ==> !Before(s.mark, d)
       case Sending(batch, sent) =>
         && sent <= |batch| && batch != [] && Ascending(batch)
         && forall d :: d in s.delivered ==>
           if sent < |batch| then Before(d, batch[sent]) else !Before(batch[|batch| - 1], d)
  }

  lemma SmoothStep(s: State, step: Step)
    requires Kept(s) && InStep(s) && Enabled(s, step) && Smooth([step])
    ensures InStep(Next(s, step))
  {
    assert step == [step][0];
    match step {
      case Read(p, batch) => assert batch[0] in batch;
      case HandOver(p) =>
        var pass := PassOf(s, 0);
        var t := Next(s, step);
        forall d | d in t.delivered && pass.sent + 1 < |pass.batch| ensures Before(d, pass.batch[pass.sent + 1]) {
          assert Before(pass.batch[pass.sent], pass.batch[pass.sent + 1]);
        }
      case First => assert s.delivered == [];
      case _ =>
    }
  }

  /** Without failures each event is handed over at most once, in order. */
  lemma {:induction false} SmoothDeliversOnce(run: seq<State>, steps: seq<Step>)
    requires IsRun(run, steps) && Smooth(steps)
    ensures InStep(run[|steps|]) && Ascending(run[|steps|].delivered)
  {
    if steps == [] {
    } else {
      var n := |steps| - 1;
      SmoothDeliversOnce(run[..n + 1], steps[..n]);
      RunKeeps(run, steps, n);
      assert Smooth([steps[n]]);
      SmoothStep(run[n], steps[n]);
    }
  }
}
