/**
 * The history read back. A record's events alone determine its machine: this
 * module replays them, says which event may follow which, and proves that the
 * runtime writes only such events and that the stored row is always the
 * replay of its history.
 */
module WorkflowHistory {
  import opened Base
  import opened Workflow

  /** An open request: the transition asked for and who asked. */
  datatype Ask = Ask(key: string, to: string, asker: string)

  /** Where a history leaves the machine; `votes` are the approvals of the open request. */
  datatype Trail = Trail(
    state: string, revision: nat, open: Option<Ask>, votes: set<(string, string)>, completed: Option<nat>)

  function Begin(initial: string): Trail { Trail(initial, 0, None, {}, None) }

  function Next(t: Trail, e: Event): Trail {
    match e.kind
    case Requested => t.(open := Some(Ask(if e.key.Name? then e.key.key else "", e.to, e.actor)), votes := {})
    case Approved => t.(votes := t.votes + {(if e.key.Name? then e.key.key else "", e.actor)})
    case Completed => Trail(e.to, t.revision + 1, None, {}, Some(t.revision + 1))
    case Rejected => t.(revision := t.revision + 1, open := None, votes := {})
    case Cancelled => t.(revision := t.revision + 1, open := None, votes := {})
    case Escalated => t
  }

  function Replay(initial: string, h: seq<Event>): Trail {
    if h == [] then Begin(initial) else Next(Replay(initial, h[..|h| - 1]), h[|h| - 1])
  }

  function Voters(votes: set<(string, string)>, rule: string): set<string> {
    set v | v in votes && v.0 == rule :: v.1
  }

  predicate Quorum(t: Transition, votes: set<(string, string)>) {
    forall rule :: rule in t.approvals ==> |Voters(votes, rule.key)| >= rule.count
  }

  /** Whether `e` may be the next event after history `h` of machine `m`. */
  predicate Permitted(m: Machine, h: seq<Event>, e: Event) {
    var t := Replay(m.initial, h);
    match e.kind
    case Requested =>
      && t.open.None? && e.revision == t.revision + 1 && e.from == t.state
      && e.key.Name? && Find(m, e.key.key).Some?
      && Find(m, e.key.key).value.from == e.from && Find(m, e.key.key).value.to == e.to
    case Escalated =>
      && t.completed == Some(e.revision) && e.from == e.to == t.state
      && e.key.Slot? && !Recorded(h, e.revision, e.key)
    case _ =>
      && t.open.Some? && e.revision == t.revision + 1 && e.from == t.state && e.to == t.open.value.to && e.key.Name?
      && Find(m, t.open.value.key).Some?
      && var asked := Find(m, t.open.value.key).value;
      if e.kind == Approved then
        && FindRule(asked.approvals, e.key.key).Some?
        && (FindRule(asked.approvals, e.key.key).value.allowSelf || e.actor != t.open.value.asker)
        && (e.key.key, e.actor) !in t.votes
      else
        && e.key.key == t.open.value.key
        && (e.kind == Completed ==> Quorum(asked, t.votes))
        && (e.kind == Cancelled ==> e.actor == t.open.value.asker)
        && (e.kind == Rejected ==>
              exists rule :: rule in asked.approvals && (rule.allowSelf || e.actor != t.open.value.asker))
  }

  predicate Lawful(m: Machine, h: seq<Event>) {
    h == [] || (Lawful(m, h[..|h| - 1]) && Permitted(m, h[..|h| - 1], h[|h| - 1]))
  }

  /** The approvals filed under `revision`, as (rule, person) pairs. */
  function FiledUnder(approvals: seq<Approval>, revision: nat): set<(string, string)> {
    set a | a in approvals && a.revision == revision :: (a.rule, a.person)
  }

  /** The instance row is the replay of the history, and approvals are filed under the revision to come. */
  predicate Matches(m: Machine, i: Instance, t: Trail, approvals: seq<Approval>) {
    && i.state == t.state && i.revision == t.revision
    && (i.transition.Some? <==> t.completed.Some?)
    && (i.pendingRequest.Some? <==> i.pendingSnapshot.Some?)
    && (match t.open
        case None => i == Unpended(i)
        case Some(ask) =>
          && i.pendingTransition == Some(ask.key) && i.pendingTo == Some(ask.to) && i.pendingBy == Some(ask.asker)
          && i.pendingAt.Some?
          && Find(m, ask.key).Some? && Find(m, ask.key).value.from == t.state
          && Find(m, ask.key).value.to == ask.to && Find(m, ask.key).value.approvals != [])
    && (forall a :: a in approvals ==> a.revision <= t.revision + 1)
    && FiledUnder(approvals, t.revision + 1) == t.votes
    && (t.open.None? ==> t.votes == {})
  }

  predicate Consistent(ts: Templates, r: Rows) {
    match r.instance
    case None => r == NO_ROWS
    case Some(i) =>
      && (i.templateKey, i.templateVersion) in ts
      && ts[(i.templateKey, i.templateVersion)].Some?
      && var m := ts[(i.templateKey, i.templateVersion)].value;
      && Lawful(m, r.history)
      && Matches(m, i, Replay(m.initial, r.history), r.approvals)
      && LastCompletion(r.history) == Replay(m.initial, r.history).completed
      && (Replay(m.initial, r.history).completed.Some? ==>
            Replay(m.initial, r.history).completed.value <= i.revision)
  }

  // ---- Every command keeps the rows consistent ----

  /** What `Consistent` says once the instance and its machine are in hand. */
  predicate Sound(m: Machine, r: Rows, i: Instance) {
    && r.instance == Some(i)
    && Lawful(m, r.history)
    && var t := Replay(m.initial, r.history);
    && Matches(m, i, t, r.approvals)
    && LastCompletion(r.history) == t.completed
    && (t.completed.Some? ==> t.completed.value <= i.revision)
  }

  lemma LogReplays(m: Machine, h: seq<Event>, e: Event)
    ensures Replay(m.initial, h + [e]) == Next(Replay(m.initial, h), e)
    ensures Lawful(m, h) && Permitted(m, h, e) ==> Lawful(m, h + [e])
    ensures LastCompletion(h + [e]) ==
            var before := LastCompletion(h);
            if e.kind == Completed && (before.None? || before.value < e.revision) then Some(e.revision) else before
  {
    assert (h + [e])[..|h + [e]| - 1] == h;
  }

  /** The open request of `r` is for `t`, and its rules have their approvers. */
  predicate Ready(m: Machine, r: Rows, i: Instance, t: Transition) {
    var trail := Replay(m.initial, r.history);
    && Lawful(m, r.history)
    && trail.open.Some? && trail.open.value.key == t.key && trail.open.value.to == t.to
    && Find(m, t.key) == Some(t)
    && trail.state == i.state && trail.revision == i.revision && Quorum(t, trail.votes)
    && (forall a :: a in r.approvals ==> a.revision <= trail.revision + 1)
    && LastCompletion(r.history) == trail.completed
    && (trail.completed.Some? ==> trail.completed.value <= i.revision)
  }

  lemma MovedMatches(m: Machine, i: Instance, t: Transition, chosen: Option<string>, dueAt: Option<int>, c: Call,
                     approvals: seq<Approval>)
    requires forall a :: a in approvals ==> a.revision <= i.revision + 1
    ensures Matches(
      m, Moved(i, t, chosen, dueAt, c), Trail(t.to, i.revision + 1, None, {}, Some(i.revision + 1)), approvals)
  {
    assert FiledUnder(approvals, i.revision + 2) == {};
  }

  predicate KeptBy(m: Machine, i: Instance, after: Rows) {
    && after.instance.Some? && Sound(m, after, after.instance.value)
    && after.instance.value.templateKey == i.templateKey
    && after.instance.value.templateVersion == i.templateVersion
  }

  /** A completion is recorded only for an open request whose every rule has its approvers. */
  lemma CompleteKeeps(m: Machine, r: Rows, i: Instance, t: Transition, chosen: Option<string>, c: Call)
    requires Ready(m, r, i, t)
    ensures var done := Complete(r, i, t, chosen, c); done.Ok? ==> KeptBy(m, i, done.value.0)
  {
    var done := Complete(r, i, t, chosen, c);
    if done.Ok? {
      var e := Event(i.revision + 1, Completed, Name(t.key), i.state, t.to, c.actor);
      var dueAt := if t.hasDue then c.due.value else None;
      LogReplays(m, r.history, e);
      MovedMatches(m, i, t, chosen, dueAt, c, r.approvals);
      assert Permitted(m, r.history, e);
      var after := done.value.0;
      assert after == Rows(Some(Moved(i, t, chosen, dueAt, c)), r.approvals, r.history + [e], r.replies);
      assert Lawful(m, after.history);
      assert Sound(m, after, after.instance.value);
    }
  }

  /** The rows once transition `t` has been asked for. */
  function Asked(r: Rows, i: Instance, t: Transition, c: Call): Rows {
    Log(r, Event(i.revision + 1, Requested, Name(t.key), i.state, t.to, c.actor))
  }

  predicate MayAsk(m: Machine, r: Rows, i: Instance, t: Transition) {
    Sound(m, r, i) && i.pendingTransition.None? && Find(m, t.key) == Some(t) && t.from == i.state
  }

  lemma AskIsPermitted(m: Machine, r: Rows, i: Instance, t: Transition, c: Call)
    requires MayAsk(m, r, i, t)
    ensures Permitted(m, r.history, Event(i.revision + 1, Requested, Name(t.key), i.state, t.to, c.actor))
    ensures Replay(m.initial, r.history).votes == {}
  {
  }

  lemma AskedReplays(m: Machine, r: Rows, i: Instance, t: Transition, c: Call)
    requires MayAsk(m, r, i, t)
    ensures var trail := Replay(m.initial, r.history);
      && Lawful(m, Asked(r, i, t, c).history)
      && trail.votes == {}
      && Replay(m.initial, Asked(r, i, t, c).history) == trail.(open := Some(Ask(t.key, t.to, c.actor)))
      && LastCompletion(Asked(r, i, t, c).history) == trail.completed
  {
    AskIsPermitted(m, r, i, t, c);
    LogReplays(m, r.history, Event(i.revision + 1, Requested, Name(t.key), i.state, t.to, c.actor));
  }

  lemma AskedIsReady(m: Machine, r: Rows, i: Instance, t: Transition, c: Call)
    requires MayAsk(m, r, i, t) && t.approvals == []
    ensures Ready(m, Asked(r, i, t, c), i, t)
  {
    AskedReplays(m, r, i, t, c);
  }

  function Waiting(i: Instance, t: Transition, raw: Option<string>, chosen: Option<string>, c: Call): Instance {
    i.(pendingTransition := Some(t.key), pendingTo := Some(t.to), pendingBy := Some(c.actor),
       pendingRequest := raw, pendingSnapshot := chosen, pendingAt := Some(c.now))
  }

  lemma WaitingIsKept(
      m: Machine, r: Rows, i: Instance, t: Transition, raw: Option<string>, chosen: Option<string>, c: Call)
    requires MayAsk(m, r, i, t) && t.approvals != [] && (raw.Some? <==> chosen.Some?)
    ensures KeptBy(m, i, Asked(r, i, t, c).(instance := Some(Waiting(i, t, raw, chosen, c))))
  {
    AskedReplays(m, r, i, t, c);
    var trail := Replay(m.initial, r.history);
    assert Matches(m, Waiting(i, t, raw, chosen, c), trail.(open := Some(Ask(t.key, t.to, c.actor))), r.approvals);
  }

  lemma RequestKeeps(m: Machine, r: Rows, i: Instance, c: Call, key: string, raw: Option<string>)
    requires Sound(m, r, i)
    ensures var done := DoRequest(r, i, m, c, key, raw); done.Ok? ==> KeptBy(m, i, done.value.0)
  {
    var done := DoRequest(r, i, m, c, key, raw);
    if done.Ok? {
      var t := Find(m, key).value;
      var chosen := Resolve(t.assigns, raw, c).value;
      if t.approvals == [] {
        AskedIsReady(m, r, i, t, c);
        CompleteKeeps(m, Asked(r, i, t, c), i, t, chosen, c);
      } else {
        WaitingIsKept(m, r, i, t, raw, chosen, c);
      }
    }
  }

  lemma ApprovalFiled(approvals: seq<Approval>, a: Approval)
    ensures FiledUnder(approvals + [a], a.revision) == FiledUnder(approvals, a.revision) + {(a.rule, a.person)}
  {
    var one := FiledUnder(approvals + [a], a.revision);
    var two := FiledUnder(approvals, a.revision) + {(a.rule, a.person)};
    forall v | v in two ensures v in one {
      if v == (a.rule, a.person) { assert (approvals + [a])[|approvals|] == a; assert a in approvals + [a]; }
    }
  }

  lemma ApproversAreVoters(approvals: seq<Approval>, revision: nat, rule: string)
    ensures Approvers(approvals, revision, rule) == Voters(FiledUnder(approvals, revision), rule)
  {
    var votes := FiledUnder(approvals, revision);
    forall p | p in Approvers(approvals, revision, rule) ensures p in Voters(votes, rule) {
      var a :| a in approvals && a.revision == revision && a.rule == rule && a.person == p;
      assert (a.rule, a.person) in votes;
    }
  }

  /** The rows with one more approval of the open request. */
  function Counted(r: Rows, i: Instance, t: Transition, rule: Rule, c: Call): Rows {
    Log(r.(approvals := r.approvals + [Approval(i.revision + 1, t.key, rule.key, c.actor)]),
        Event(i.revision + 1, Approved, Name(rule.key), i.state, t.to, c.actor))
  }

  /** A permitted event other than a completion, with the row it leaves, keeps the rows sound. */
  lemma EventKeeps(m: Machine, r: Rows, i: Instance, e: Event, j: Instance, approvals: seq<Approval>)
    requires Sound(m, r, i) && Permitted(m, r.history, e) && e.kind != Completed && j.revision >= i.revision
    requires Matches(m, j, Next(Replay(m.initial, r.history), e), approvals)
    ensures Sound(m, Rows(Some(j), approvals, r.history + [e], r.replies), j)
  {
    LogReplays(m, r.history, e);
  }

  lemma ApprovalMatches(m: Machine, i: Instance, t: Trail, approvals: seq<Approval>, a: Approval)
    requires Matches(m, i, t, approvals) && t.open.Some? && a.revision == t.revision + 1
    ensures Matches(m, i, t.(votes := t.votes + {(a.rule, a.person)}), approvals + [a])
  {
    ApprovalFiled(approvals, a);
  }

  lemma ApprovalIsPermitted(m: Machine, r: Rows, i: Instance, t: Transition, rule: Rule, c: Call)
    requires Sound(m, r, i) && i.pendingTransition == Some(t.key) && Find(m, t.key) == Some(t)
    requires FindRule(t.approvals, rule.key) == Some(rule)
    requires rule.allowSelf || i.pendingBy != Some(c.actor)
    requires !AlreadyApproved(r.approvals, i.revision + 1, rule.key, c.actor)
    ensures Permitted(m, r.history, Event(i.revision + 1, Approved, Name(rule.key), i.state, t.to, c.actor))
  {
    assert (rule.key, c.actor) !in FiledUnder(r.approvals, i.revision + 1);
  }

  lemma CountedKeeps(m: Machine, r: Rows, i: Instance, t: Transition, rule: Rule, c: Call)
    requires Sound(m, r, i) && i.pendingTransition == Some(t.key) && Find(m, t.key) == Some(t)
    requires FindRule(t.approvals, rule.key) == Some(rule)
    requires rule.allowSelf || i.pendingBy != Some(c.actor)
    requires !AlreadyApproved(r.approvals, i.revision + 1, rule.key, c.actor)
    ensures Sound(m, Counted(r, i, t, rule, c), i)
    ensures Replay(m.initial, Counted(r, i, t, rule, c).history).open == Replay(m.initial, r.history).open
  {
    var e := Event(i.revision + 1, Approved, Name(rule.key), i.state, t.to, c.actor);
    var a := Approval(i.revision + 1, t.key, rule.key, c.actor);
    ApprovalIsPermitted(m, r, i, t, rule, c);
    ApprovalMatches(m, i, Replay(m.initial, r.history), r.approvals, a);
    EventKeeps(m, r, i, e, i, r.approvals + [a]);
    LogReplays(m, r.history, e);
  }

  lemma SoundIsKept(m: Machine, r: Rows, i: Instance)
    requires Sound(m, r, i)
    ensures KeptBy(m, i, r)
  {
  }

  lemma QuorumReached(m: Machine, r: Rows, i: Instance, t: Transition)
    requires Sound(m, r, i) && i.pendingTransition == Some(t.key) && Find(m, t.key) == Some(t)
    requires AllApproved(t, r.approvals, i.revision + 1)
    ensures Ready(m, r, i, t)
  {
    forall rule | rule in t.approvals
      ensures |Voters(Replay(m.initial, r.history).votes, rule.key)| >= rule.count
    {
      ApproversAreVoters(r.approvals, i.revision + 1, rule.key);
    }
  }

  lemma ApprovedKeeps(m: Machine, r: Rows, i: Instance, t: Transition, chosen: Option<string>, c: Call)
    requires Sound(m, r, i) && i.pendingTransition == Some(t.key) && Find(m, t.key) == Some(t)
    requires AllApproved(t, r.approvals, i.revision + 1)
    ensures var done := Complete(r, i, t, chosen, c); done.Ok? ==> KeptBy(m, i, done.value.0)
  {
    QuorumReached(m, r, i, t);
    CompleteKeeps(m, r, i, t, chosen, c);
  }

  lemma ApproveKeeps(m: Machine, r: Rows, i: Instance, c: Call, key: string, ruleKey: string)
    requires Sound(m, r, i)
    ensures var done := DoApprove(r, i, m, c, key, ruleKey); done.Ok? ==> KeptBy(m, i, done.value.0)
  {
    var done := DoApprove(r, i, m, c, key, ruleKey);
    if done.Ok? {
      var t := Find(m, key).value;
      var rule := FindRule(t.approvals, ruleKey).value;
      CountedKeeps(m, r, i, t, rule, c);
      var counted := Counted(r, i, t, rule, c);
      if AllApproved(t, counted.approvals, i.revision + 1) {
        ApprovedKeeps(m, counted, i, t, Revalidate(i, c).value, c);
        assert done == Complete(counted, i, t, Revalidate(i, c).value, c);
      } else {
        SoundIsKept(m, counted, i);
        assert done.value.0 == counted;
      }
    }
  }

  /** Giving a request up spends its revision, so the approvals filed under it count for no later one. */
  lemma BackMatches(m: Machine, r: Rows, i: Instance)
    requires Sound(m, r, i)
    ensures Matches(m, Unpended(i).(revision := i.revision + 1),
                    Replay(m.initial, r.history).(revision := i.revision + 1, open := None, votes := {}), r.approvals)
  {
    assert FiledUnder(r.approvals, i.revision + 2) == {};
  }

  lemma WithdrawKeeps(m: Machine, r: Rows, i: Instance, c: Call, key: string, reject: bool)
    requires Sound(m, r, i)
    ensures var done := DoWithdraw(r, i, m, c, key, reject); done.Ok? ==> KeptBy(m, i, done.value.0)
  {
    var done := DoWithdraw(r, i, m, c, key, reject);
    if done.Ok? {
      var t := Find(m, key).value;
      var e := Event(i.revision + 1, if reject then Rejected else Cancelled, Name(t.key), i.state, t.to, c.actor);
      var back := Unpended(i).(revision := i.revision + 1);
      assert Permitted(m, r.history, e);
      BackMatches(m, r, i);
      EventKeeps(m, r, i, e, back, r.approvals);
    }
  }

  lemma AssignmentIsFree(m: Machine, r: Rows, i: Instance, chosen: Option<string>)
    requires Sound(m, r, i)
    ensures Matches(m, i.(assignment := chosen), Replay(m.initial, r.history), r.approvals)
  {
  }

  lemma EscalateKeeps(m: Machine, r: Rows, i: Instance, c: Call, rule: string, occurrence: int, raw: Option<string>)
    requires Sound(m, r, i)
    ensures var done := DoEscalate(r, i, m, c, rule, occurrence, raw); done.Ok? ==> KeptBy(m, i, done.value.0)
  {
    var done := DoEscalate(r, i, m, c, rule, occurrence, raw);
    if done.Ok? && done.value.0 != r {
      var after := done.value.0;
      var completion := LastCompletion(r.history);
      var e := Event(completion.value, Escalated, Slot(rule, occurrence), i.state, i.state, c.actor);
      var held := after.instance.value;
      assert held == i.(assignment := held.assignment);
      assert after == Rows(Some(held), r.approvals, r.history + [e], r.replies);
      assert Permitted(m, r.history, e);
      AssignmentIsFree(m, r, i, held.assignment);
      EventKeeps(m, r, i, e, held, r.approvals);
    }
  }

  lemma LoadIsSound(ts: Templates, r: Rows, c: Call)
    requires Consistent(ts, r)
    ensures Load(ts, r, c).Ok? ==>
      var (i, m) := Load(ts, r, c).value;
      && Sound(m, r.(instance := Some(i)), i)
      && (i.templateKey, i.templateVersion) in ts && ts[(i.templateKey, i.templateVersion)] == Some(m)
      && (r.instance.Some? ==> r.instance == Some(i))
  {
    assert FiledUnder([], 1) == {};
  }

  lemma ActKeeps(m: Machine, r: Rows, i: Instance, c: Call, cmd: Command)
    requires Sound(m, r, i)
    ensures var done := Act(r, i, m, c, cmd); done.Ok? ==> KeptBy(m, i, done.value.0)
  {
    match cmd
    case Request(key, raw, _) => RequestKeeps(m, r, i, c, key, raw);
    case Approve(key, rule, _) => ApproveKeeps(m, r, i, c, key, rule);
    case Withdraw(key, reject, _, _) => WithdrawKeeps(m, r, i, c, key, reject);
    case Escalate(rule, occurrence, raw, _) => EscalateKeeps(m, r, i, c, rule, occurrence, raw);
  }

  lemma KeptIsConsistent(ts: Templates, m: Machine, i: Instance, after: Rows, replies: map<(string, string), Reply>)
    requires (i.templateKey, i.templateVersion) in ts && ts[(i.templateKey, i.templateVersion)] == Some(m)
    requires KeptBy(m, i, after)
    ensures Consistent(ts, after.(replies := replies))
  {
  }

  lemma ActedKeeps(ts: Templates, r: Rows, c: Call, cmd: Command, i: Instance, m: Machine)
    requires Sound(m, r, i) && (i.templateKey, i.templateVersion) in ts &&
      ts[(i.templateKey, i.templateVersion)] == Some(m)
    ensures Act(r, i, m, c, cmd).Ok? ==>
      var (after, answer) := Act(r, i, m, c, cmd).value;
      && Consistent(ts, after.(replies := after.replies[(c.actor, cmd.key) := Reply(cmd, answer)]))
      && after.instance.Some?
      && after.instance.value.templateKey == i.templateKey && after.instance.value.templateVersion == i.templateVersion
  {
    ActKeeps(m, r, i, c, cmd);
    if Act(r, i, m, c, cmd).Ok? {
      var (after, answer) := Act(r, i, m, c, cmd).value;
      KeptIsConsistent(ts, m, i, after, after.replies[(c.actor, cmd.key) := Reply(cmd, answer)]);
    }
  }

  /** One command, whatever its call finds, keeps the rows consistent and the template pinned. */
  lemma StepKeeps(ts: Templates, r: Rows, c: Call, cmd: Command)
    requires Consistent(ts, r)
    ensures var after := Step(ts, r, c, cmd).0;
      && Consistent(ts, after)
      && (r.instance.Some? ==>
            && after.instance.Some?
            && after.instance.value.templateKey == r.instance.value.templateKey
            && after.instance.value.templateVersion == r.instance.value.templateVersion)
  {
    LoadIsSound(ts, r, c);
    match Load(ts, r, c)
    case Err(_) =>
    case Ok((i, m)) =>
      var loaded := r.(instance := Some(i));
      if (c.actor, cmd.key) in r.replies {
        SoundIsKept(m, loaded, i);
        KeptIsConsistent(ts, m, i, loaded, r.replies);
      } else {
        ActedKeeps(ts, loaded, c, cmd, i, m);
      }
  }

  /** Every run from an unmoved record leaves the row equal to the replay of a lawful history. */
  lemma {:induction false} RunKeeps(ts: Templates, r: Rows, calls: seq<(Call, Command)>)
    requires Consistent(ts, r)
    ensures Consistent(ts, Run(ts, r, calls))
    decreases |calls|
  {
    if calls == [] {
    } else {
      StepKeeps(ts, r, calls[0].0, calls[0].1);
      RunKeeps(ts, Step(ts, r, calls[0].0, calls[0].1).0, calls[1..]);
    }
  }
}
