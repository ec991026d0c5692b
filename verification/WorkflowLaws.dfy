/**
 * What each command takes and what it leaves, said without the runtime's own
 * steps: when it is accepted, what it adds to the history, where the row is
 * afterwards. A request is taken as soon as its history shows the approvals its
 * rules ask for, and not before.
 */
module WorkflowLaws {
  import opened Base
  import opened Workflow
  import opened WorkflowHistory
  import opened WorkflowSafety

  /**
   * The call may load the record and its key is unused; `m` is the machine in
   * effect, pinned or else the board's own, and `i` the row, stored or new.
   */
  predicate Serves(ts: Templates, r: Rows, c: Call, cmd: Command, i: Instance, m: Machine) {
    && c.refused.None? && (c.actor, cmd.key) !in r.replies
    && (i.templateKey, i.templateVersion) in ts && ts[(i.templateKey, i.templateVersion)] == Some(m)
    && (match r.instance
        case Some(stored) => i == stored
        case None =>
          i == Instance(c.boardKey, c.boardVersion, m.initial, 0, None, c.now, None, NoDue, None,
                        None, None, None, None, None, None))
  }

  lemma ServedIsActed(ts: Templates, r: Rows, c: Call, cmd: Command, i: Instance, m: Machine)
    requires Serves(ts, r, c, cmd, i, m)
    ensures Load(ts, r, c) == Ok((i, m))
    ensures var acted := Act(r.(instance := Some(i)), i, m, c, cmd);
      && Step(ts, r, c, cmd).1 == (if acted.Ok? then Ok(acted.value.1) else Err(acted.status))
      && Step(ts, r, c, cmd).0 ==
        if acted.Ok? then
          acted.value.0.(replies := acted.value.0.replies[(c.actor, cmd.key) := Reply(cmd, acted.value.1)])
        else r
  {
  }

  /** Served rows that are consistent are sound once the instance is in hand. */
  lemma ServedIsSound(ts: Templates, r: Rows, c: Call, cmd: Command, i: Instance, m: Machine)
    requires Consistent(ts, r) && Serves(ts, r, c, cmd, i, m)
    ensures Sound(m, r.(instance := Some(i)), i)
  {
    ServedIsActed(ts, r, c, cmd, i, m);
    LoadIsSound(ts, r, c);
  }

  /** A refused command leaves every row as it was. */
  lemma RefusalChangesNothing(ts: Templates, r: Rows, c: Call, cmd: Command)
    ensures Step(ts, r, c, cmd).1.Err? ==> Step(ts, r, c, cmd).0 == r
  {
  }

  /** The answer to a first command is the row it leaves. */
  lemma AnswerIsTheRow(ts: Templates, r: Rows, c: Call, cmd: Command)
    requires (c.actor, cmd.key) !in r.replies
    ensures var (after, answer) := Step(ts, r, c, cmd);
      answer.Ok? ==>
        && after.instance.Some?
        && var i := after.instance.value;
        && answer.value.state == i.state && answer.value.revision == i.revision
        && answer.value.pending == i.pendingTransition && answer.value.assignment == i.assignment
        && answer.value.dueAt == i.dueAt && answer.value.dueStatus == i.dueStatus
  {
    match Load(ts, r, c)
    case Err(_) =>
    case Ok((i, m)) =>
      match cmd
      case Request(key, raw, _) =>
      case Approve(key, rule, _) =>
      case Withdraw(key, reject, _, _) =>
      case Escalate(rule, n, raw, _) =>
  }

  /** An assignment is given only where one is taken, given where one is required, and its target resolves. */
  predicate AssignmentFits(rule: Assigns, raw: Option<string>, c: Call) {
    && (raw.Some? ==> rule.Assigns? && c.target.Ok?)
    && (rule.Assigns? && rule.required ==> raw.Some?)
  }

  function Chosen(raw: Option<string>, c: Call): Option<string>
    requires raw.Some? ==> c.target.Ok?
  {
    if raw.Some? then Some(c.target.value) else None
  }

  /** The row a completion of `t` leaves: at the target, a revision on, nothing pending, due date and assignment set. */
  predicate Taken(before: Instance, after: Instance, t: Transition, chosen: Option<string>, c: Call) {
    && after.templateKey == before.templateKey && after.templateVersion == before.templateVersion
    && after.state == t.to && after.revision == before.revision + 1
    && after.transition == Some(t.key) && after.transitionedAt == c.now
    && (!t.hasDue ==> after.dueAt.None? && after.dueStatus == NoDue)
    && (t.hasDue ==> c.due == Ok(after.dueAt) && (after.dueStatus == if after.dueAt.Some? then Scheduled else Missing))
    && (after.assignment == if chosen.Some? then chosen else before.assignment)
    && after.pendingTransition.None? && after.pendingTo.None? && after.pendingBy.None?
    && after.pendingRequest.None? && after.pendingSnapshot.None? && after.pendingAt.None?
  }

  lemma CompleteTakes(r: Rows, i: Instance, t: Transition, chosen: Option<string>, c: Call)
    ensures var done := Complete(r, i, t, chosen, c);
      && (done.Ok? <==> (t.hasDue ==> c.due.Ok?))
      && (done.Err? ==> done.status == 409)
      && (done.Ok? ==>
            && done.value.0.instance.Some? && Taken(i, done.value.0.instance.value, t, chosen, c)
            && done.value.0.history
              == r.history + [Event(i.revision + 1, Completed, Name(t.key), i.state, t.to, c.actor)]
            && done.value.0.approvals == r.approvals)
  {
  }

  /** A request is taken when nothing waits, it leads from the stored state, and actor, guard and target allow it. */
  predicate RequestFits(i: Instance, m: Machine, c: Call, key: string, raw: Option<string>) {
    && i.pendingTransition.None? && Find(m, key).Some?
    && var t := Find(m, key).value;
    && t.from == i.state && c.mayAct && (t.guarded ==> c.guardMet) && AssignmentFits(t.assigns, raw, c)
    && (t.approvals == [] && t.hasDue ==> c.due.Ok?)
  }

  /** What a taken request leaves: it waits for its approvers, or is completed at once where it needs none. */
  predicate RequestLeaves(
    r: Rows, after: Rows, i: Instance, t: Transition, c: Call, raw: Option<string>, chosen: Option<string>)
  {
    var asked := r.history + [Event(i.revision + 1, Requested, Name(t.key), i.state, t.to, c.actor)];
    && after.instance.Some? && after.approvals == r.approvals
    && if t.approvals == [] then
         && after.history == asked + [Event(i.revision + 1, Completed, Name(t.key), i.state, t.to, c.actor)]
         && Taken(i, after.instance.value, t, chosen, c)
       else
         && after.history == asked
         && var j := after.instance.value;
         && j.pendingTransition == Some(t.key) && j.pendingTo == Some(t.to) && j.pendingBy == Some(c.actor)
         && j.pendingRequest == raw && j.pendingSnapshot == chosen && j.pendingAt == Some(c.now)
         && Unpended(j) == Unpended(i)
  }

  lemma RequestIsTakenExactly(
      ts: Templates, r: Rows, c: Call, i: Instance, m: Machine, key: string, raw: Option<string>, id: string)
    requires Serves(ts, r, c, Request(key, raw, id), i, m)
    ensures var (after, answer) := Step(ts, r, c, Request(key, raw, id));
      && (answer.Ok? <==> RequestFits(i, m, c, key, raw))
      && (answer.Ok? ==> RequestLeaves(r, after, i, Find(m, key).value, c, raw, Chosen(raw, c)))
      && (i.pendingTransition.Some? ==> answer == Err(409))
      && (i.pendingTransition.None? && Find(m, key).None? ==> answer == Err(404))
      && (i.pendingTransition.None? && Find(m, key).Some? && Find(m, key).value.from == i.state && !c.mayAct ==>
            answer == Err(403))
  {
    ServedIsActed(ts, r, c, Request(key, raw, id), i, m);
    if Find(m, key).Some? && Resolve(Find(m, key).value.assigns, raw, c).Ok? {
      var t := Find(m, key).value;
      var asked := Log(r.(instance := Some(i)), Event(i.revision + 1, Requested, Name(t.key), i.state, t.to, c.actor));
      CompleteTakes(asked, i, t, Resolve(t.assigns, raw, c).value, c);
    }
  }

  // ---- Approvals ----

  /** Among events `es` since a request, with one more approval of `rule` by `actor`, each rule has enough people. */
  predicate QuorumWith(t: Transition, es: seq<Event>, rule: string, actor: string) {
    forall required :: required in t.approvals ==>
      |ApprovedBy(es, required.key) + (if required.key == rule then {actor} else {})| >= required.count
  }

  predicate ApprovalFits(i: Instance, m: Machine, c: Call, key: string, rule: string, es: seq<Event>) {
    && i.pendingTransition == Some(key) && Find(m, key).Some?
    && var t := Find(m, key).value;
    && FindRule(t.approvals, rule).Some?
    && (i.pendingBy == Some(c.actor) ==> FindRule(t.approvals, rule).value.allowSelf)
    && rule in c.mayApprove && c.requesterHolds && c.actor !in ApprovedBy(es, rule)
    && (QuorumWith(t, es, rule, c.actor) ==>
          (t.guarded ==> c.guardMet) && (i.pendingRequest.Some? ==> c.target.Ok?) && (t.hasDue ==> c.due.Ok?))
  }

  /** One approval more: the row stays as it is, or, with the quorum, moves to the target at once. */
  predicate ApprovalLeaves(
    r: Rows, after: Rows, i: Instance, t: Transition, c: Call, rule: string, taken: bool)
  {
    var counted := r.history + [Event(i.revision + 1, Approved, Name(rule), i.state, t.to, c.actor)];
    && after.instance.Some? && after.approvals == r.approvals + [Approval(i.revision + 1, t.key, rule, c.actor)]
    && if taken then
         && after.history == counted + [Event(i.revision + 1, Completed, Name(t.key), i.state, t.to, c.actor)]
         && (i.pendingRequest.Some? ==> c.target.Ok?)
         && Taken(i, after.instance.value, t, Chosen(i.pendingRequest, c), c)
       else after.history == counted && after.instance.value == i
  }

  lemma OneMoreApprover(approvals: seq<Approval>, a: Approval, rule: string)
    ensures Approvers(approvals + [a], a.revision, rule)
         == Approvers(approvals, a.revision, rule) + (if a.rule == rule then {a.person} else {})
  {
    assert (approvals + [a])[|approvals|] == a;
    forall p | p in Approvers(approvals, a.revision, rule) ensures p in Approvers(approvals + [a], a.revision, rule) {
      var x :| x in approvals && x.revision == a.revision && x.rule == rule && x.person == p;
      assert x in approvals + [a];
    }
    if a.rule == rule { assert a in approvals + [a]; }
  }

  /** The people filed for a rule are those its history shows since the request. */
  lemma FiledAreApproved(m: Machine, r: Rows, i: Instance, q: nat, rule: string)
    requires Sound(m, r, i) && OpenAt(m, r.history, q)
    ensures Approvers(r.approvals, i.revision + 1, rule) == ApprovedBy(r.history[q + 1..], rule)
  {
    ApproversAreVoters(r.approvals, i.revision + 1, rule);
    assert ApprovedBy(r.history[q + 1..], rule) == Voters(Replay(m.initial, r.history).votes, rule);
  }

  lemma QuorumIsApproved(m: Machine, r: Rows, i: Instance, q: nat, t: Transition, rule: string, actor: string)
    requires Sound(m, r, i) && OpenAt(m, r.history, q)
    ensures AllApproved(t, r.approvals + [Approval(i.revision + 1, t.key, rule, actor)], i.revision + 1)
       <==> QuorumWith(t, r.history[q + 1..], rule, actor)
  {
    var a := Approval(i.revision + 1, t.key, rule, actor);
    forall required | required in t.approvals
      ensures Approvers(r.approvals + [a], i.revision + 1, required.key)
        == ApprovedBy(r.history[q + 1..], required.key) + (if required.key == rule then {actor} else {})
    {
      OneMoreApprover(r.approvals, a, required.key);
      FiledAreApproved(m, r, i, q, required.key);
    }
  }

  lemma AlreadyIsApproved(m: Machine, r: Rows, i: Instance, q: nat, rule: string, actor: string)
    requires Sound(m, r, i) && OpenAt(m, r.history, q)
    ensures AlreadyApproved(r.approvals, i.revision + 1, rule, actor) <==> actor in ApprovedBy(r.history[q + 1..], rule)
  {
    FiledAreApproved(m, r, i, q, rule);
    assert AlreadyApproved(r.approvals, i.revision + 1, rule, actor) <==>
      actor in Approvers(r.approvals, i.revision + 1, rule);
  }

  /** The call may count as an approval of `rule`, whether or not it completes the request. */
  predicate MayCount(r: Rows, i: Instance, t: Transition, c: Call, rule: string) {
    && FindRule(t.approvals, rule).Some?
    && (i.pendingBy == Some(c.actor) ==> FindRule(t.approvals, rule).value.allowSelf)
    && rule in c.mayApprove && c.requesterHolds && !AlreadyApproved(r.approvals, i.revision + 1, rule, c.actor)
  }

  lemma UncountedIsRefused(m: Machine, r: Rows, i: Instance, c: Call, t: Transition, rule: string)
    requires i.pendingTransition == Some(t.key) && Find(m, t.key) == Some(t) && !MayCount(r, i, t, c, rule)
    ensures DoApprove(r, i, m, c, t.key, rule).Err?
  {
  }

  lemma CountedIsTaken(m: Machine, r: Rows, i: Instance, c: Call, t: Transition, rule: string)
    requires i.pendingTransition == Some(t.key) && Find(m, t.key) == Some(t) && MayCount(r, i, t, c, rule)
    ensures DoApprove(r, i, m, c, t.key, rule).Ok? <==>
      (AllApproved(t, r.approvals + [Approval(i.revision + 1, t.key, rule, c.actor)], i.revision + 1) ==>
        (t.guarded ==> c.guardMet) && (i.pendingRequest.Some? ==> c.target.Ok?) && (t.hasDue ==> c.due.Ok?))
  {
  }

  lemma ApproveFits(m: Machine, r: Rows, i: Instance, c: Call, t: Transition, rule: string, es: seq<Event>)
    requires i.pendingTransition == Some(t.key) && Find(m, t.key) == Some(t)
    requires AllApproved(t, r.approvals + [Approval(i.revision + 1, t.key, rule, c.actor)], i.revision + 1)
        <==> QuorumWith(t, es, rule, c.actor)
    requires AlreadyApproved(r.approvals, i.revision + 1, rule, c.actor) <==> c.actor in ApprovedBy(es, rule)
    ensures DoApprove(r, i, m, c, t.key, rule).Ok? <==> ApprovalFits(i, m, c, t.key, rule, es)
  {
    if MayCount(r, i, t, c, rule) {
      CountedIsTaken(m, r, i, c, t, rule);
    } else {
      UncountedIsRefused(m, r, i, c, t, rule);
    }
  }

  /** What a taken approval leaves, by whether the rules count as met with it. */
  lemma ApproveLeaves(m: Machine, r: Rows, i: Instance, c: Call, t: Transition, rule: string)
    requires i.pendingTransition == Some(t.key) && Find(m, t.key) == Some(t)
    requires DoApprove(r, i, m, c, t.key, rule).Ok? && r.instance == Some(i)
    ensures ApprovalLeaves(r, DoApprove(r, i, m, c, t.key, rule).value.0, i, t, c, rule,
      AllApproved(t, r.approvals + [Approval(i.revision + 1, t.key, rule, c.actor)], i.revision + 1))
  {
    if Revalidate(i, c).Ok? {
      CompleteTakes(Counted(r, i, t, FindRule(t.approvals, rule).value, c), i, t, Revalidate(i, c).value, c);
    }
  }

  lemma ApproveLaw(m: Machine, r: Rows, i: Instance, c: Call, t: Transition, rule: string, q: nat)
    requires Sound(m, r, i) && OpenAt(m, r.history, q)
    requires i.pendingTransition == Some(t.key) && Find(m, t.key) == Some(t)
    ensures var done := DoApprove(r, i, m, c, t.key, rule);
      && (done.Ok? <==> ApprovalFits(i, m, c, t.key, rule, r.history[q + 1..]))
      && (done.Ok? ==>
            ApprovalLeaves(r, done.value.0, i, t, c, rule, QuorumWith(t, r.history[q + 1..], rule, c.actor)))
  {
    QuorumIsApproved(m, r, i, q, t, rule, c.actor);
    AlreadyIsApproved(m, r, i, q, rule, c.actor);
    ApproveFits(m, r, i, c, t, rule, r.history[q + 1..]);
    if DoApprove(r, i, m, c, t.key, rule).Ok? { ApproveLeaves(m, r, i, c, t, rule); }
  }

  /**
   * An approval is taken exactly when the history since the request and the
   * call allow it, and completes the request exactly when it brings the quorum.
   */
  lemma ApprovalIsTakenExactly(
      ts: Templates, r: Rows, c: Call, i: Instance, m: Machine, key: string, rule: string, id: string, q: nat)
    requires Consistent(ts, r) && Serves(ts, r, c, Approve(key, rule, id), i, m) && OpenAt(m, r.history, q)
    ensures var (after, answer) := Step(ts, r, c, Approve(key, rule, id));
      var es := r.history[q + 1..];
      && (answer.Ok? <==> ApprovalFits(i, m, c, key, rule, es))
      && (answer.Ok? ==>
            ApprovalLeaves(r, after, i, Find(m, key).value, c, rule, QuorumWith(Find(m, key).value, es, rule, c.actor)))
  {
    var loaded := r.(instance := Some(i));
    ServedIsActed(ts, r, c, Approve(key, rule, id), i, m);
    ServedIsSound(ts, r, c, Approve(key, rule, id), i, m);
    if i.pendingTransition == Some(key) && Find(m, key).Some? {
      ApproveLaw(m, loaded, i, c, Find(m, key).value, rule, q);
    }
  }

  /** Which refusal an approval meets: not awaited, no such rule, not this person, or no longer or already so. */
  lemma ApprovalRefusals(
      ts: Templates, r: Rows, c: Call, i: Instance, m: Machine, key: string, rule: string, id: string)
    requires Serves(ts, r, c, Approve(key, rule, id), i, m)
    ensures var answer := Step(ts, r, c, Approve(key, rule, id)).1;
      if i.pendingTransition != Some(key) || Find(m, key).None? then answer == Err(409)
      else
        var found := FindRule(Find(m, key).value.approvals, rule);
        if found.None? then answer == Err(404)
        else if (i.pendingBy == Some(c.actor) && !found.value.allowSelf) || rule !in c.mayApprove then
          answer == Err(403)
        else !c.requesterHolds || AlreadyApproved(r.approvals, i.revision + 1, rule, c.actor) ==> answer == Err(409)
  {
    ServedIsActed(ts, r, c, Approve(key, rule, id), i, m);
  }

  // ---- Endings without a completion ----

  /** The requester takes a request back; someone who could approve one of its rules rejects it. */
  predicate WithdrawalFits(i: Instance, m: Machine, c: Call, key: string, reject: bool) {
    && i.pendingTransition == Some(key) && Find(m, key).Some?
    && if reject then
         exists rule :: rule in Find(m, key).value.approvals && rule.key in c.mayApprove &&
           (i.pendingBy == Some(c.actor) ==> rule.allowSelf)
       else i.pendingBy == Some(c.actor)
  }

  /** The state stays, the revision is spent, nothing is pending. */
  predicate WithdrawalLeaves(r: Rows, after: Rows, i: Instance, t: Transition, c: Call, reject: bool) {
    var kind := if reject then Rejected else Cancelled;
    && after.history == r.history + [Event(i.revision + 1, kind, Name(t.key), i.state, t.to, c.actor)]
    && after.approvals == r.approvals && after.instance.Some?
    && var j := after.instance.value;
    && j.pendingTransition.None? && j.pendingTo.None? && j.pendingBy.None?
    && j.pendingRequest.None? && j.pendingSnapshot.None? && j.pendingAt.None?
    && j.(revision := i.revision, pendingTransition := i.pendingTransition, pendingTo := i.pendingTo,
          pendingBy := i.pendingBy, pendingRequest := i.pendingRequest, pendingSnapshot := i.pendingSnapshot,
          pendingAt := i.pendingAt) == i
    && j.revision == i.revision + 1
  }

  lemma WithdrawalIsTakenExactly(
      ts: Templates, r: Rows, c: Call, i: Instance, m: Machine, key: string, reject: bool, note: string, id: string)
    requires Serves(ts, r, c, Withdraw(key, reject, note, id), i, m)
    ensures var (after, answer) := Step(ts, r, c, Withdraw(key, reject, note, id));
      && (answer.Ok? <==> WithdrawalFits(i, m, c, key, reject))
      && (answer.Ok? ==> WithdrawalLeaves(r, after, i, Find(m, key).value, c, reject))
      && (i.pendingTransition != Some(key) ==> answer == Err(409))
      && (i.pendingTransition == Some(key) && Find(m, key).Some? && answer.Err? ==> answer == Err(403))
  {
    ServedIsActed(ts, r, c, Withdraw(key, reject, note, id), i, m);
  }

  // ---- Escalations ----

  /** The events since the last completion. */
  function SinceCompletion(h: seq<Event>): seq<Event> {
    if h == [] || h[|h| - 1].kind == Completed then [] else SinceCompletion(h[..|h| - 1]) + [h[|h| - 1]]
  }

  predicate Escalates(es: seq<Event>, key: EventKey) { exists e :: e in es && e.kind == Escalated && e.key == key }

  lemma {:induction false} CompletedIsPast(m: Machine, h: seq<Event>)
    requires Lawful(m, h)
    ensures var done := Replay(m.initial, h).completed; done.Some? ==> done.value <= Replay(m.initial, h).revision
  {
    if h == [] {
    } else {
      CompletedIsPast(m, h[..|h| - 1]);
    }
  }

  predicate Older(h: seq<Event>, done: Option<nat>) {
    forall e :: e in h && e.kind == Escalated ==> done.Some? && e.revision <= done.value
  }

  lemma OlderStays(m: Machine, before: seq<Event>, last: Event)
    requires Permitted(m, before, last) && Older(before, Replay(m.initial, before).completed)
    requires var done := Replay(m.initial, before).completed;
      done.Some? ==> done.value <= Replay(m.initial, before).revision
    ensures Older(before + [last], Next(Replay(m.initial, before), last).completed)
  {
  }

  lemma {:induction false} EscalatedIsOlder(m: Machine, h: seq<Event>)
    requires Lawful(m, h)
    ensures Older(h, Replay(m.initial, h).completed)
  {
    if h == [] {
    } else {
      EscalatedIsOlder(m, h[..|h| - 1]);
      CompletedIsPast(m, h[..|h| - 1]);
      OlderStays(m, h[..|h| - 1], h[|h| - 1]);
      assert h == h[..|h| - 1] + [h[|h| - 1]];
    }
  }

  /** Nothing is filed yet under a completion just recorded. */
  lemma NoneUnderNew(m: Machine, before: seq<Event>, last: Event, key: EventKey)
    requires Permitted(m, before, last) && last.kind == Completed && Older(before, Replay(m.initial, before).completed)
    requires var done := Replay(m.initial, before).completed;
      done.Some? ==> done.value <= Replay(m.initial, before).revision
    ensures Replay(m.initial, before + [last]).completed == Some(last.revision)
    ensures !Recorded(before + [last], last.revision, key)
  {
    assert (before + [last])[..|before|] == before;
  }

  lemma MoreUnderSame(m: Machine, before: seq<Event>, last: Event, key: EventKey)
    requires Permitted(m, before, last) && last.kind != Completed
    ensures var done := Replay(m.initial, before).completed;
      && Replay(m.initial, before + [last]).completed == done
      && (done.Some? ==> (Recorded(before + [last], done.value, key) <==>
            Recorded(before, done.value, key) || (last.kind == Escalated && last.key == key)))
  {
    assert (before + [last])[..|before|] == before;
    assert (before + [last])[|before|] == last;
  }

  lemma SinceGoesOn(before: seq<Event>, last: Event, key: EventKey)
    requires last.kind != Completed
    ensures Escalates(SinceCompletion(before + [last]), key) <==>
      Escalates(SinceCompletion(before), key) || (last.kind == Escalated && last.key == key)
  {
    assert (before + [last])[..|before|] == before;
    assert (SinceCompletion(before) + [last])[|SinceCompletion(before)|] == last;
  }

  /** The events filed under the last completion are those recorded since. */
  lemma {:induction false} RecordedIsSince(m: Machine, h: seq<Event>, key: EventKey)
    requires Lawful(m, h) && Replay(m.initial, h).completed.Some?
    ensures Recorded(h, Replay(m.initial, h).completed.value, key) <==> Escalates(SinceCompletion(h), key)
  {
    var before, last := h[..|h| - 1], h[|h| - 1];
    assert h == before + [last];
    if last.kind == Completed {
      EscalatedIsOlder(m, before);
      CompletedIsPast(m, before);
      NoneUnderNew(m, before, last, key);
    } else {
      MoreUnderSame(m, before, last, key);
      RecordedIsSince(m, before, key);
      SinceGoesOn(before, last, key);
    }
  }

  predicate EscalationFits(r: Rows, i: Instance, m: Machine, c: Call, rule: string, n: int, raw: Option<string>) {
    && c.mayEscalate && i.transition.Some? && Find(m, i.transition.value).Some?
    && var found := FindEscalation(Find(m, i.transition.value).value.escalations, rule);
    && found.Some? && 0 <= n < found.value.maxOccurrences
    && i.transitionedAt + 60_000 * (found.value.afterMinutes + n * found.value.repeatMinutes) <= c.now
    && (Escalates(SinceCompletion(r.history), Slot(rule, n)) || AssignmentFits(found.value.assigns, raw, c))
  }

  /** A due occurrence not recorded since the last completion is recorded under it; one that is changes nothing. */
  predicate EscalationLeaves(
    m: Machine, r: Rows, after: Rows, i: Instance, c: Call, rule: string, n: int, raw: Option<string>)
  {
    && after.instance.Some? && after.approvals == r.approvals
    && if Escalates(SinceCompletion(r.history), Slot(rule, n)) then
         after.history == r.history && after.instance.value == i
       else
         && Replay(m.initial, r.history).completed.Some?
         && var under := Replay(m.initial, r.history).completed.value;
         && after.history == r.history + [Event(under, Escalated, Slot(rule, n), i.state, i.state, c.actor)]
         && (raw.Some? ==> c.target.Ok?)
         && after.instance.value == if raw.Some? then i.(assignment := Some(c.target.value)) else i
  }

  lemma EscalateLaw(m: Machine, r: Rows, i: Instance, c: Call, rule: string, n: int, raw: Option<string>)
    requires Sound(m, r, i)
    ensures var done := DoEscalate(r, i, m, c, rule, n, raw);
      && (done.Ok? <==> EscalationFits(r, i, m, c, rule, n, raw))
      && (done.Ok? ==> EscalationLeaves(m, r, done.value.0, i, c, rule, n, raw))
  {
    if i.transition.Some? { RecordedIsSince(m, r.history, Slot(rule, n)); }
  }

  /** An escalation is taken exactly when it is due, by the schedule of the transition taken last. */
  lemma EscalationIsTakenExactly(
      ts: Templates, r: Rows, c: Call, i: Instance, m: Machine, rule: string, n: int, raw: Option<string>, id: string)
    requires Consistent(ts, r) && Serves(ts, r, c, Escalate(rule, n, raw, id), i, m)
    ensures var (after, answer) := Step(ts, r, c, Escalate(rule, n, raw, id));
      && (answer.Ok? <==> EscalationFits(r, i, m, c, rule, n, raw))
      && (answer.Ok? ==> EscalationLeaves(m, r, after, i, c, rule, n, raw))
      && (!c.mayEscalate ==> answer == Err(403))
  {
    ServedIsActed(ts, r, c, Escalate(rule, n, raw, id), i, m);
    ServedIsSound(ts, r, c, Escalate(rule, n, raw, id), i, m);
    EscalateLaw(m, r.(instance := Some(i)), i, c, rule, n, raw);
  }

  /** Which refusal an escalation meets: not by this actor, nothing scheduled, no such rule or occurrence, not due. */
  lemma EscalationRefusals(
      ts: Templates, r: Rows, c: Call, i: Instance, m: Machine, rule: string, n: int, raw: Option<string>, id: string)
    requires Serves(ts, r, c, Escalate(rule, n, raw, id), i, m)
    ensures var answer := Step(ts, r, c, Escalate(rule, n, raw, id)).1;
      if !c.mayEscalate then answer == Err(403)
      else if i.transition.None? then answer == Err(409)
      else if Find(m, i.transition.value).None? then answer == Err(404)
      else
        match FindEscalation(Find(m, i.transition.value).value.escalations, rule)
        case None => answer == Err(404)
        case Some(e) =>
          if n < 0 || n >= e.maxOccurrences then answer == Err(400)
          else i.transitionedAt + 60_000 * (e.afterMinutes + n * e.repeatMinutes) > c.now ==> answer == Err(409)
  {
    ServedIsActed(ts, r, c, Escalate(rule, n, raw, id), i, m);
  }

  // ---- A request with its quorum does not wait ----

  /** As published: every rule asks for someone. */
  predicate Asks(m: Machine) {
    forall t :: t in m.transitions ==> forall rule :: rule in t.approvals ==> rule.count >= 1
  }

  predicate AllAsk(ts: Templates) { forall id :: id in ts && ts[id].Some? ==> Asks(ts[id].value) }

  /** Some rule of `t` still lacks people among the events since the request. */
  predicate Short(t: Transition, es: seq<Event>) {
    exists rule :: rule in t.approvals && |ApprovedBy(es, rule.key)| < rule.count
  }

  /** Where a request waits, some rule of its transition is short by the history alone. */
  ghost predicate WaitsShort(m: Machine, h: seq<Event>) {
    forall q: nat :: OpenAt(m, h, q) ==> Short(Find(m, Replay(m.initial, h).open.value.key).value, h[q + 1..])
  }

  lemma NothingOpen(m: Machine, h: seq<Event>)
    requires Replay(m.initial, h).open.None?
    ensures WaitsShort(m, h)
  {
  }

  lemma AskedBetween(h: seq<Event>, q: nat, p: nat)
    requires q < p < |h| && h[p].kind == Requested
    ensures !WorkflowSafety.Waiting(h[q + 1..])
  {
    assert h[q + 1..][p - q - 1] == h[p];
  }

  /** The request that is open is the last one asked. */
  lemma OpenIsLast(m: Machine, h: seq<Event>, q: nat, p: nat)
    requires OpenAt(m, h, q) && p < |h| && h[p].kind == Requested && WorkflowSafety.Waiting(h[p + 1..])
    ensures q == p
  {
    if q < p { AskedBetween(h, q, p); }
    if p < q { AskedBetween(h, p, q); }
  }

  lemma AskedIsShort(m: Machine, r: Rows, i: Instance, t: Transition, c: Call)
    requires MayAsk(m, r, i, t) && Asks(m) && t.approvals != []
    ensures WaitsShort(m, Asked(r, i, t, c).history)
  {
    AskedReplays(m, r, i, t, c);
    var h := Asked(r, i, t, c).history;
    forall q: nat | OpenAt(m, h, q) ensures Short(t, h[q + 1..]) {
      assert h[|h| - 1 + 1..] == [];
      OpenIsLast(m, h, q, |h| - 1);
      assert t in m.transitions && t.approvals[0] in t.approvals;
      assert ApprovedBy([], t.approvals[0].key) == {};
    }
  }

  lemma RequestStaysShort(m: Machine, r: Rows, i: Instance, c: Call, key: string, raw: Option<string>)
    requires Sound(m, r, i) && Asks(m)
    ensures var done := DoRequest(r, i, m, c, key, raw); done.Ok? ==> WaitsShort(m, done.value.0.history)
  {
    var done := DoRequest(r, i, m, c, key, raw);
    if done.Ok? {
      var t := Find(m, key).value;
      if t.approvals == [] {
        LogReplays(m, Asked(r, i, t, c).history, Event(i.revision + 1, Completed, Name(t.key), i.state, t.to, c.actor));
        NothingOpen(m, done.value.0.history);
      } else {
        AskedIsShort(m, r, i, t, c);
        assert done.value.0.history == Asked(r, i, t, c).history;
      }
    }
  }

  lemma OneMoreApproved(es: seq<Event>, e: Event, rule: string)
    requires e.kind == Approved && e.key.Name?
    ensures ApprovedBy(es + [e], rule) == ApprovedBy(es, rule) + (if e.key.key == rule then {e.actor} else {})
  {
    assert (es + [e])[|es|] == e;
  }

  /** One more event that leaves the request open and short. */
  lemma StaysShort(m: Machine, h: seq<Event>, e: Event, q: nat)
    requires OpenAt(m, h, q) && (e.kind == Approved || e.kind == Escalated)
    requires Short(Find(m, Replay(m.initial, h).open.value.key).value, h[q + 1..] + [e])
    ensures WaitsShort(m, h + [e])
  {
    LogReplays(m, h, e);
    var after := h + [e];
    assert after[q + 1..] == h[q + 1..] + [e] && after[q] == h[q];
    forall p: nat | OpenAt(m, after, p)
      ensures Short(Find(m, Replay(m.initial, after).open.value.key).value, after[p + 1..])
    {
      OpenIsLast(m, after, p, q);
    }
  }

  lemma CountedIsShort(t: Transition, es: seq<Event>, e: Event)
    requires e.kind == Approved && e.key.Name? && !QuorumWith(t, es, e.key.key, e.actor)
    ensures Short(t, es + [e])
  {
    var required :| required in t.approvals &&
      |ApprovedBy(es, required.key) + (if required.key == e.key.key then {e.actor} else {})| < required.count;
    OneMoreApproved(es, e, required.key);
  }

  lemma ApproveStaysShort(m: Machine, r: Rows, i: Instance, c: Call, key: string, rule: string)
    requires Sound(m, r, i)
    ensures var done := DoApprove(r, i, m, c, key, rule); done.Ok? ==> WaitsShort(m, done.value.0.history)
  {
    var done := DoApprove(r, i, m, c, key, rule);
    if done.Ok? {
      var t := Find(m, key).value;
      var q := OpenRequest(m, r.history);
      ApproveLaw(m, r, i, c, t, rule, q);
      var e := Event(i.revision + 1, Approved, Name(rule), i.state, t.to, c.actor);
      if QuorumWith(t, r.history[q + 1..], rule, c.actor) {
        LogReplays(m, r.history + [e], Event(i.revision + 1, Completed, Name(t.key), i.state, t.to, c.actor));
        NothingOpen(m, done.value.0.history);
      } else {
        CountedIsShort(t, r.history[q + 1..], e);
        StaysShort(m, r.history, e, q);
      }
    }
  }

  lemma WithdrawStaysShort(m: Machine, r: Rows, i: Instance, c: Call, key: string, reject: bool)
    requires Sound(m, r, i)
    ensures var done := DoWithdraw(r, i, m, c, key, reject); done.Ok? ==> WaitsShort(m, done.value.0.history)
  {
    var done := DoWithdraw(r, i, m, c, key, reject);
    if done.Ok? {
      var kind := if reject then Rejected else Cancelled;
      LogReplays(m, r.history, Event(i.revision + 1, kind, Name(key), i.state, Find(m, key).value.to, c.actor));
      NothingOpen(m, done.value.0.history);
    }
  }

  lemma ShortGoesOn(t: Transition, es: seq<Event>, e: Event)
    requires Short(t, es) && e.kind == Escalated
    ensures Short(t, es + [e])
  {
    var rule :| rule in t.approvals && |ApprovedBy(es, rule.key)| < rule.count;
    assert ApprovedBy(es + [e], rule.key) == ApprovedBy(es, rule.key);
  }

  lemma EscalatedIsShort(m: Machine, h: seq<Event>, e: Event)
    requires Lawful(m, h) && WaitsShort(m, h) && e.kind == Escalated
    ensures WaitsShort(m, h + [e])
  {
    if Replay(m.initial, h).open.Some? {
      var q := OpenRequest(m, h);
      ShortGoesOn(Find(m, Replay(m.initial, h).open.value.key).value, h[q + 1..], e);
      StaysShort(m, h, e, q);
    } else {
      LogReplays(m, h, e);
      NothingOpen(m, h + [e]);
    }
  }

  lemma EscalateStaysShort(m: Machine, r: Rows, i: Instance, c: Call, rule: string, n: int, raw: Option<string>)
    requires Sound(m, r, i) && WaitsShort(m, r.history)
    ensures var done := DoEscalate(r, i, m, c, rule, n, raw); done.Ok? ==> WaitsShort(m, done.value.0.history)
  {
    EscalateLaw(m, r, i, c, rule, n, raw);
    var done := DoEscalate(r, i, m, c, rule, n, raw);
    if done.Ok? && done.value.0.history != r.history {
      EscalatedIsShort(m, r.history, done.value.0.history[|r.history|]);
    }
  }

  lemma ActStaysShort(m: Machine, r: Rows, i: Instance, c: Call, cmd: Command)
    requires Sound(m, r, i) && Asks(m) && WaitsShort(m, r.history)
    ensures var done := Act(r, i, m, c, cmd); done.Ok? ==> WaitsShort(m, done.value.0.history)
  {
    match cmd
    case Request(key, raw, _) => RequestStaysShort(m, r, i, c, key, raw);
    case Approve(key, rule, _) => ApproveStaysShort(m, r, i, c, key, rule);
    case Withdraw(key, reject, _, _) => WithdrawStaysShort(m, r, i, c, key, reject);
    case Escalate(rule, n, raw, _) => EscalateStaysShort(m, r, i, c, rule, n, raw);
  }

  ghost predicate RowsShort(ts: Templates, r: Rows) {
    Consistent(ts, r) && (r.instance.Some? ==> WaitsShort(Pinned(ts, r), r.history))
  }

  lemma StepStaysShort(ts: Templates, r: Rows, c: Call, cmd: Command)
    requires RowsShort(ts, r) && AllAsk(ts)
    ensures RowsShort(ts, Step(ts, r, c, cmd).0)
  {
    StepKeeps(ts, r, c, cmd);
    LoadIsSound(ts, r, c);
    match Load(ts, r, c)
    case Err(_) =>
    case Ok((i, m)) =>
      var loaded := r.(instance := Some(i));
      if r.instance.None? { NothingOpen(m, loaded.history); }
      assert WaitsShort(m, loaded.history);
      if (c.actor, cmd.key) !in r.replies { ActStaysShort(m, loaded, i, c, cmd); }
  }

  lemma {:induction false} RunStaysShort(ts: Templates, r: Rows, calls: seq<(Call, Command)>)
    requires RowsShort(ts, r) && AllAsk(ts)
    ensures RowsShort(ts, Run(ts, r, calls))
    decreases |calls|
  {
    if calls == [] {
    } else {
      StepStaysShort(ts, r, calls[0].0, calls[0].1);
      RunStaysShort(ts, Step(ts, r, calls[0].0, calls[0].1).0, calls[1..]);
    }
  }

  /** `h[q]` asked for `key`, nothing was asked or ended since, and some rule of `t` lacks people in what followed. */
  predicate WaitsFrom(t: Transition, key: string, h: seq<Event>, q: nat) {
    && q < |h| && h[q].kind == Requested && h[q].key == Name(key) && WorkflowSafety.Waiting(h[q + 1..])
    && Short(t, h[q + 1..])
  }

  /** In every run a pending request is short of approvals by its history: one that has its quorum is taken. */
  lemma {:induction false} RunPendingIsShort(ts: Templates, calls: seq<(Call, Command)>)
    requires AllAsk(ts)
    ensures var r := Run(ts, NO_ROWS, calls);
      && Consistent(ts, r)
      && (r.instance.Some? && r.instance.value.pendingTransition.Some? ==>
            var key := r.instance.value.pendingTransition.value;
            && Find(Pinned(ts, r), key).Some?
            && exists q: nat :: WaitsFrom(Find(Pinned(ts, r), key).value, key, r.history, q))
  {
    RunStaysShort(ts, NO_ROWS, calls);
    var r := Run(ts, NO_ROWS, calls);
    if r.instance.Some? && r.instance.value.pendingTransition.Some? {
      var m := Pinned(ts, r);
      var q := OpenRequest(m, r.history);
      assert OpenAt(m, r.history, q);
      assert WaitsFrom(Find(m, r.instance.value.pendingTransition.value).value,
                       r.instance.value.pendingTransition.value, r.history, q);
    }
  }
}
