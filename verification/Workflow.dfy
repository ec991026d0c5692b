/**
 * The board workflow runtime, seen as the rows one record keeps: its instance,
 * its approvals, its append-only history, its stored answers. Every command is
 * one transaction over those rows. Authority, guards, assignment targets and
 * due dates are decided elsewhere, so each call carries their verdicts.
 */
module Workflow {
  import opened Base

  // ---- Templates ----

  datatype Rule = Rule(key: string, count: nat, allowSelf: bool)

  /** Whether a transition or an escalation takes an assignment, and whether it must have one. */
  datatype Assigns = NoAssignment | Assigns(required: bool)

  datatype Escalation = Escalation(
    key: string, afterMinutes: nat, repeatMinutes: nat, maxOccurrences: nat, assigns: Assigns)

  datatype Transition = Transition(
    key: string, from: string, to: string, assigns: Assigns, hasDue: bool, guarded: bool,
    approvals: seq<Rule>, escalations: seq<Escalation>)

  datatype Machine = Machine(initial: string, transitions: seq<Transition>)

  /** Published templates by key and version; a template may have no workflow. */
  type Templates = map<(string, nat), Option<Machine>>

  function FindIn(ts: seq<Transition>, key: string): (found: Option<Transition>)
    ensures found.Some? ==> found.value in ts && found.value.key == key
    ensures found.None? ==> forall t :: t in ts ==> t.key != key
  {
    if ts == [] then None else if ts[0].key == key then Some(ts[0]) else FindIn(ts[1..], key)
  }

  function Find(m: Machine, key: string): (found: Option<Transition>)
    ensures found.Some? ==> found.value in m.transitions && found.value.key == key
    ensures found.None? ==> forall t :: t in m.transitions ==> t.key != key
  {
    FindIn(m.transitions, key)
  }

  function FindRule(rules: seq<Rule>, key: string): (found: Option<Rule>)
    ensures found.Some? ==> found.value in rules && found.value.key == key
    ensures found.None? ==> forall r :: r in rules ==> r.key != key
  {
    if rules == [] then None else if rules[0].key == key then Some(rules[0]) else FindRule(rules[1..], key)
  }

  function FindEscalation(rules: seq<Escalation>, key: string): (found: Option<Escalation>)
    ensures found.Some? ==> found.value in rules && found.value.key == key
    ensures found.None? ==> forall r :: r in rules ==> r.key != key
  {
    if rules == [] then None else if rules[0].key == key then Some(rules[0]) else FindEscalation(rules[1..], key)
  }

  // ---- The record's rows ----

  datatype Due = NoDue | Scheduled | Missing

  datatype Instance = Instance(
    templateKey: string, templateVersion: nat, state: string, revision: nat,
    transition: Option<string>, transitionedAt: int, dueAt: Option<int>, dueStatus: Due,
    assignment: Option<string>,
    pendingTransition: Option<string>, pendingTo: Option<string>, pendingBy: Option<string>,
    pendingRequest: Option<string>, pendingSnapshot: Option<string>, pendingAt: Option<int>)

  datatype Approval = Approval(revision: nat, transition: string, rule: string, person: string)

  datatype Kind = Requested | Approved | Completed | Escalated | Rejected | Cancelled

  /** An event's key: a transition's or a rule's name, or an escalation's rule and occurrence. */
  datatype EventKey = Name(key: string) | Slot(rule: string, occurrence: int)

  datatype Event = Event(revision: nat, kind: Kind, key: EventKey, from: string, to: string, actor: string)

  datatype Outcome = Outcome(
    state: string, revision: nat, pending: Option<string>, dueAt: Option<int>, dueStatus: Due,
    assignment: Option<string>)

  datatype Command =
    | Request(transition: string, assignment: Option<string>, key: string)
    | Approve(transition: string, rule: string, key: string)
    | Withdraw(transition: string, reject: bool, note: string, key: string)
    | Escalate(rule: string, occurrence: int, assignment: Option<string>, key: string)

  /** A stored answer, under the digest of the command that earned it. */
  datatype Reply = Reply(command: Command, result: Outcome)

  datatype Rows = Rows(
    instance: Option<Instance>, approvals: seq<Approval>, history: seq<Event>,
    replies: map<(string, string), Reply>)

  const NO_ROWS := Rows(None, [], [], map[])

  /** What one call finds outside the record's workflow rows. */
  datatype Call = Call(
    actor: string, now: int,
    refused: Option<int>,                 // the record cannot be loaded for this actor's write
    boardKey: string, boardVersion: nat,  // the board's current template
    mayAct: bool, guardMet: bool,
    mayApprove: set<string>,              // approval rules whose approver the actor is
    requesterHolds: bool,                 // the pending request's author still may make it
    target: Result<string>,               // the assignment target resolved or revalidated
    due: Result<Option<int>>,
    mayEscalate: bool)

  // ---- One command ----

  function Answer(i: Instance): Outcome {
    Outcome(i.state, i.revision, i.pendingTransition, i.dueAt, i.dueStatus, i.assignment)
  }

  function Fresh(c: Call, m: Machine): Instance {
    Instance(c.boardKey, c.boardVersion, m.initial, 0, None, c.now, None, NoDue, None,
             None, None, None, None, None, None)
  }

  function Load(ts: Templates, r: Rows, c: Call): Result<(Instance, Machine)> {
    if c.refused.Some? then Err(c.refused.value)
    else match r.instance
      case Some(i) =>
        if (i.templateKey, i.templateVersion) !in ts then Err(409)
        else (match ts[(i.templateKey, i.templateVersion)]
                case Some(m) => Ok((i, m))
                case None => Err(409))
      case None =>
        if (c.boardKey, c.boardVersion) !in ts then Err(404)
        else (match ts[(c.boardKey, c.boardVersion)]
                case Some(m) => Ok((Fresh(c, m), m))
                case None => Err(409))
  }

  function Resolve(rule: Assigns, raw: Option<string>, c: Call): Result<Option<string>> {
    if rule.NoAssignment? then (if raw.Some? then Err(400) else Ok(None))
    else if rule.required && raw.None? then Err(400)
    else if raw.None? then Ok(None)
    else match c.target
      case Ok(t) => Ok(Some(t))
      case Err(e) => Err(e)
  }

  function Revalidate(i: Instance, c: Call): Result<Option<string>> {
    if i.pendingRequest.None? then Ok(None)
    else match c.target
      case Ok(t) => Ok(Some(t))
      case Err(e) => Err(e)
  }

  function Log(r: Rows, e: Event): Rows { r.(history := r.history + [e]) }

  function Unpended(i: Instance): Instance {
    i.(pendingTransition := None, pendingTo := None, pendingBy := None,
       pendingRequest := None, pendingSnapshot := None, pendingAt := None)
  }

  /**
   * The row once transition `t` is taken: every pending field cleared, a due
   * date only where the transition has one.
   */
  function Moved(i: Instance, t: Transition, chosen: Option<string>, dueAt: Option<int>, c: Call): Instance {
    Unpended(i).(
      state := t.to, revision := i.revision + 1, transition := Some(t.key), transitionedAt := c.now,
      dueAt := dueAt, dueStatus := if !t.hasDue then NoDue else if dueAt.Some? then Scheduled else Missing,
      assignment := if chosen.Some? then chosen else i.assignment)
  }

  /** Take transition `t`: the row moves, its revision is spent, and the completion is recorded. */
  function Complete(r: Rows, i: Instance, t: Transition, chosen: Option<string>, c: Call): Result<(Rows, Outcome)> {
    if t.hasDue && c.due.Err? then Err(409)
    else
      var moved := Moved(i, t, chosen, if t.hasDue then c.due.value else None, c);
      Ok((Log(r.(instance := Some(moved)),
              Event(i.revision + 1, Completed, Name(t.key), i.state, t.to, c.actor)),
          Answer(moved)))
  }

  function DoRequest(r: Rows, i: Instance, m: Machine, c: Call, key: string, raw: Option<string>)
    : Result<(Rows, Outcome)>
  {
    if i.pendingTransition.Some? then Err(409)
    else match Find(m, key)
      case None => Err(404)
      case Some(t) =>
        if t.from != i.state then Err(409)
        else if !c.mayAct then Err(403)
        else if t.guarded && !c.guardMet then Err(409)
        else match Resolve(t.assigns, raw, c)
          case Err(e) => Err(e)
          case Ok(chosen) =>
            var asked := Log(r, Event(i.revision + 1, Requested, Name(t.key), i.state, t.to, c.actor));
            if t.approvals == [] then Complete(asked, i, t, chosen, c)
            else
              var waiting := i.(pendingTransition := Some(t.key), pendingTo := Some(t.to), pendingBy := Some(c.actor),
                                pendingRequest := raw, pendingSnapshot := chosen, pendingAt := Some(c.now));
              Ok((asked.(instance := Some(waiting)), Answer(waiting)))
  }

  /** The distinct people who approved `rule` under `revision`. */
  function Approvers(approvals: seq<Approval>, revision: nat, rule: string): set<string> {
    set a | a in approvals && a.revision == revision && a.rule == rule :: a.person
  }

  predicate AllApproved(t: Transition, approvals: seq<Approval>, revision: nat) {
    forall rule :: rule in t.approvals ==> |Approvers(approvals, revision, rule.key)| >= rule.count
  }

  predicate AlreadyApproved(approvals: seq<Approval>, revision: nat, rule: string, person: string) {
    exists a :: a in approvals && a.revision == revision && a.rule == rule && a.person == person
  }

  function DoApprove(r: Rows, i: Instance, m: Machine, c: Call, key: string, ruleKey: string): Result<(Rows, Outcome)> {
    if i.pendingTransition != Some(key) then Err(409)
    else match Find(m, key)
      case None => Err(409)
      case Some(t) =>
        match FindRule(t.approvals, ruleKey)
        case None => Err(404)
        case Some(rule) =>
          if !rule.allowSelf && i.pendingBy == Some(c.actor) then Err(403)
          else if rule.key !in c.mayApprove then Err(403)
          else if !c.requesterHolds then Err(409)
          else if AlreadyApproved(r.approvals, i.revision + 1, rule.key, c.actor) then Err(409)
          else
            var counted := Log(r.(approvals := r.approvals + [Approval(i.revision + 1, t.key, rule.key, c.actor)]),
                               Event(i.revision + 1, Approved, Name(rule.key), i.state, t.to, c.actor));
            if !AllApproved(t, counted.approvals, i.revision + 1) then Ok((counted, Answer(i)))
            else if t.guarded && !c.guardMet then Err(409)
            else match Revalidate(i, c)
              case Err(e) => Err(e)
              case Ok(chosen) => Complete(counted, i, t, chosen, c)
  }

  /** An approver may reject: one of the transition's rules takes this actor. */
  predicate MayReject(t: Transition, requester: Option<string>, c: Call) {
    exists rule :: rule in t.approvals && (rule.allowSelf || requester != Some(c.actor)) && rule.key in c.mayApprove
  }

  function DoWithdraw(r: Rows, i: Instance, m: Machine, c: Call, key: string, reject: bool): Result<(Rows, Outcome)> {
    if i.pendingTransition != Some(key) then Err(409)
    else match Find(m, key)
      case None => Err(409)
      case Some(t) =>
        if !reject && i.pendingBy != Some(c.actor) then Err(403)
        else if reject && !MayReject(t, i.pendingBy, c) then Err(403)
        else
          var back := Unpended(i).(revision := i.revision + 1);
          Ok((Log(r.(instance := Some(back)),
                  Event(i.revision + 1, if reject then Rejected else Cancelled, Name(t.key), i.state, t.to, c.actor)),
              Answer(back)))
  }

  /** When an escalation's occurrence falls due, counted from the completion it follows. */
  function DueAt(rule: Escalation, since: int, occurrence: int): Option<int> {
    if occurrence < 0 || occurrence >= rule.maxOccurrences then None
    else Some(since + (rule.afterMinutes + (if occurrence == 0 then 0 else occurrence * rule.repeatMinutes)) * 60000)
  }

  /** The greatest revision a completion was recorded under. */
  function LastCompletion(h: seq<Event>): Option<nat> {
    if h == [] then None
    else
      var before := LastCompletion(h[..|h| - 1]);
      var e := h[|h| - 1];
      if e.kind == Completed && (before.None? || before.value < e.revision) then Some(e.revision) else before
  }

  predicate Recorded(h: seq<Event>, revision: nat, key: EventKey) {
    exists e :: e in h && e.kind == Escalated && e.revision == revision && e.key == key
  }

  function DoEscalate(r: Rows, i: Instance, m: Machine, c: Call, ruleKey: string, occurrence: int, raw: Option<string>)
    : Result<(Rows, Outcome)>
  {
    if !c.mayEscalate then Err(403)
    else if i.transition.None? then Err(409)
    else match Find(m, i.transition.value)
      case None => Err(404)
      case Some(t) =>
        match FindEscalation(t.escalations, ruleKey)
        case None => Err(404)
        case Some(rule) =>
          match DueAt(rule, i.transitionedAt, occurrence)
          case None => Err(400)
          case Some(at) =>
            if at > c.now then Err(409)
            else
              var completion := LastCompletion(r.history);
              var revision := if completion.Some? then completion.value else i.revision;
              if Recorded(r.history, revision, Slot(rule.key, occurrence)) then Ok((r, Answer(i)))
              else match Resolve(rule.assigns, raw, c)
                case Err(e) => Err(e)
                case Ok(chosen) =>
                  var held := if chosen.Some? then i.(assignment := chosen) else i;
                  Ok((Log(r.(instance := Some(held)),
                          Event(revision, Escalated, Slot(rule.key, occurrence), i.state, i.state, c.actor)),
                      Answer(held)))
  }

  function Act(r: Rows, i: Instance, m: Machine, c: Call, cmd: Command): Result<(Rows, Outcome)> {
    match cmd
    case Request(key, raw, _) => DoRequest(r, i, m, c, key, raw)
    case Approve(key, rule, _) => DoApprove(r, i, m, c, key, rule)
    case Withdraw(key, reject, _, _) => DoWithdraw(r, i, m, c, key, reject)
    case Escalate(rule, occurrence, raw, _) => DoEscalate(r, i, m, c, rule, occurrence, raw)
  }

  /** One command in its transaction: the new rows and the answer, or the old rows and the refusal. */
  function Step(ts: Templates, r: Rows, c: Call, cmd: Command): (Rows, Result<Outcome>) {
    match Load(ts, r, c)
    case Err(e) => (r, Err(e))
    case Ok((i, m)) =>
      var id := (c.actor, cmd.key);
      var loaded := r.(instance := Some(i));
      if id in r.replies then
        (if r.replies[id].command == cmd then (loaded, Ok(r.replies[id].result)) else (r, Err(409)))
      else match Act(loaded, i, m, c, cmd)
        case Err(e) => (r, Err(e))
        case Ok((after, answer)) => (after.(replies := after.replies[id := Reply(cmd, answer)]), Ok(answer))
  }

  /** A run: every command in turn, each with what its call found. */
  function Run(ts: Templates, r: Rows, calls: seq<(Call, Command)>): Rows
    decreases |calls|
  {
    if calls == [] then r else Run(ts, Step(ts, r, calls[0].0, calls[0].1).0, calls[1..])
  }
}
