/**
 * The runtime as the server runs it: commands that update the record's rows in
 * place, inside a transaction that puts every row back when one refuses.
 */
module WorkflowTables {
  import opened Base
  import opened Workflow

  class Tables {
    const templates: Templates
    var instance: Option<Instance>
    var approvals: seq<Approval>
    var history: seq<Event>
    var replies: map<(string, string), Reply>

    constructor (templates: Templates)
      ensures this.templates == templates && Content() == NO_ROWS
    {
      this.templates := templates;
      instance, approvals, history, replies := None, [], [], map[];
    }

    function Content(): Rows
      reads this
    {
      Rows(instance, approvals, history, replies)
    }

    /** Whether this command's work, so far, is what `spec` says: the rows and the answer, or the same refusal. */
    predicate Did(spec: Result<(Rows, Outcome)>, done: Result<Outcome>)
      reads this
    {
      match spec
      case Ok((rows, answer)) => done == Ok(answer) && Content() == rows
      case Err(e) => done == Err(e)
    }

    /** One command in one transaction: committed with its stored answer, or rolled back. */
    method Perform(c: Call, cmd: Command) returns (result: Result<Outcome>)
      modifies this
      ensures (Content(), result) == Step(templates, old(Content()), c, cmd)
    {
      var saved := (instance, approvals, history, replies);
      result := Attempt(c, cmd);
      if result.Err? {
        instance, approvals, history, replies := saved.0, saved.1, saved.2, saved.3;
      }
    }

    /** A command before its transaction ends: a refusal may leave rows half changed. */
    method Attempt(c: Call, cmd: Command) returns (result: Result<Outcome>)
      modifies this
      ensures result == Step(templates, old(Content()), c, cmd).1
      ensures result.Ok? ==> Content() == Step(templates, old(Content()), c, cmd).0
    {
      var loaded := LoadForWrite(c);
      if loaded.Err? { return Err(loaded.status); }
      var (i, m) := loaded.value;
      var id := (c.actor, cmd.key);
      assert Content() == old(Content()).(instance := Some(i));
      if id in replies {
        result := if replies[id].command == cmd then Ok(replies[id].result) else Err(409);
        return;
      }
      ghost var spec := Act(Content(), i, m, c, cmd);
      match cmd {
        case Request(key, raw, _) => result := RequestTransition(i, m, c, key, raw);
        case Approve(key, rule, _) => result := ApproveTransition(i, m, c, key, rule);
        case Withdraw(key, reject, _, _) => result := WithdrawTransition(i, m, c, key, reject);
        case Escalate(rule, occurrence, raw, _) => result := ProcessEscalation(i, m, c, rule, occurrence, raw);
      }
      assert Did(spec, result);
      if result.Ok? {
        replies := replies[id := Reply(cmd, result.value)];
      }
    }

    /** The record's instance and the machine it is pinned to; a first command inserts the instance. */
    method LoadForWrite(c: Call) returns (loaded: Result<(Instance, Machine)>)
      modifies this`instance
      ensures loaded == Load(templates, old(Content()), c)
      ensures loaded.Ok? ==> instance == Some(loaded.value.0)
      ensures loaded.Err? ==> instance == old(instance)
    {
      if c.refused.Some? { return Err(c.refused.value); }
      if instance.Some? {
        var pin := (instance.value.templateKey, instance.value.templateVersion);
        if pin !in templates || templates[pin].None? { return Err(409); }
        return Ok((instance.value, templates[pin].value));
      }
      var current := (c.boardKey, c.boardVersion);
      if current !in templates { return Err(404); }
      if templates[current].None? { return Err(409); }
      instance := Some(Fresh(c, templates[current].value));
      return Ok((instance.value, templates[current].value));
    }

    method AppendHistory(e: Event)
      modifies this`history
      ensures history == old(history) + [e]
    {
      history := history + [e];
    }

    method CompleteTransition(i: Instance, t: Transition, chosen: Option<string>, c: Call)
        returns (result: Result<Outcome>)
      requires instance == Some(i)
      modifies this
      ensures Did(Complete(old(Content()), i, t, chosen, c), result)
    {
      var dueAt: Option<int> := None;
      var dueStatus := NoDue;
      if t.hasDue {
        if c.due.Err? { return Err(409); }
        dueAt := c.due.value;
        dueStatus := if dueAt.Some? then Scheduled else Missing;
      }
      var revision := i.revision + 1;
      var row := instance.value.(
        state := t.to, revision := revision, transition := Some(t.key), transitionedAt := c.now,
        dueAt := dueAt, dueStatus := dueStatus,
        pendingTransition := None, pendingTo := None, pendingBy := None,
        pendingRequest := None, pendingSnapshot := None, pendingAt := None);
      instance := Some(if chosen.Some? then row.(assignment := chosen) else row);
      AppendHistory(Event(revision, Completed, Name(t.key), i.state, t.to, c.actor));
      result := Ok(Answer(instance.value));
    }

    method RequestTransition(i: Instance, m: Machine, c: Call, key: string, raw: Option<string>)
        returns (result: Result<Outcome>)
      requires instance == Some(i)
      modifies this
      ensures Did(DoRequest(old(Content()), i, m, c, key, raw), result)
    {
      if i.pendingTransition.Some? { return Err(409); }
      var found := Find(m, key);
      if found.None? { return Err(404); }
      var t := found.value;
      if t.from != i.state { return Err(409); }
      if !c.mayAct { return Err(403); }
      if t.guarded && !c.guardMet { return Err(409); }
      var chosen := Resolve(t.assigns, raw, c);
      if chosen.Err? { return Err(chosen.status); }
      AppendHistory(Event(i.revision + 1, Requested, Name(t.key), i.state, t.to, c.actor));
      if t.approvals != [] {
        var waiting := instance.value.(
          pendingTransition := Some(t.key), pendingTo := Some(t.to), pendingBy := Some(c.actor),
          pendingRequest := raw, pendingSnapshot := chosen.value, pendingAt := Some(c.now));
        instance := Some(waiting);
        result := Ok(Answer(waiting));
      } else {
        result := CompleteTransition(i, t, chosen.value, c);
      }
    }

    method ApproveTransition(i: Instance, m: Machine, c: Call, key: string, ruleKey: string)
        returns (result: Result<Outcome>)
      requires instance == Some(i)
      modifies this
      ensures Did(DoApprove(old(Content()), i, m, c, key, ruleKey), result)
    {
      if i.pendingTransition != Some(key) { return Err(409); }
      var found := Find(m, key);
      if found.None? { return Err(409); }
      var t := found.value;
      var ruled := FindRule(t.approvals, ruleKey);
      if ruled.None? { return Err(404); }
      var rule := ruled.value;
      if !rule.allowSelf && i.pendingBy == Some(c.actor) { return Err(403); }
      if rule.key !in c.mayApprove { return Err(403); }
      if !c.requesterHolds { return Err(409); }
      var revision := i.revision + 1;
      if AlreadyApproved(approvals, revision, rule.key, c.actor) { return Err(409); }
      approvals := approvals + [Approval(revision, t.key, rule.key, c.actor)];
      AppendHistory(Event(revision, Approved, Name(rule.key), i.state, t.to, c.actor));
      result := Ok(Answer(i));
      if AllApproved(t, approvals, revision) {
        if t.guarded && !c.guardMet { return Err(409); }
        var chosen := Revalidate(i, c);
        if chosen.Err? { return Err(chosen.status); }
        result := CompleteTransition(i, t, chosen.value, c);
      }
    }

    method WithdrawTransition(i: Instance, m: Machine, c: Call, key: string, reject: bool)
        returns (result: Result<Outcome>)
      requires instance == Some(i)
      modifies this
      ensures Did(DoWithdraw(old(Content()), i, m, c, key, reject), result)
    {
      if i.pendingTransition != Some(key) { return Err(409); }
      var found := Find(m, key);
      if found.None? { return Err(409); }
      var t := found.value;
      if !reject {
        if i.pendingBy != Some(c.actor) { return Err(403); }
      } else {
        var approver := false;
        for k := 0 to |t.approvals|
          invariant approver <==>
            exists n :: 0 <= n < k &&
              (t.approvals[n].allowSelf || i.pendingBy != Some(c.actor)) && t.approvals[n].key in c.mayApprove
        {
          if (t.approvals[k].allowSelf || i.pendingBy != Some(c.actor)) && t.approvals[k].key in c.mayApprove {
            approver := true;
          }
        }
        assert approver <==> MayReject(t, i.pendingBy, c);
        if !approver { return Err(403); }
      }
      var revision := i.revision + 1;
      instance := Some(instance.value.(
        revision := revision, pendingTransition := None, pendingTo := None, pendingBy := None,
        pendingRequest := None, pendingSnapshot := None, pendingAt := None));
      AppendHistory(Event(revision, if reject then Rejected else Cancelled, Name(t.key), i.state, t.to, c.actor));
      result := Ok(Answer(instance.value));
    }

    method ProcessEscalation(i: Instance, m: Machine, c: Call, ruleKey: string, occurrence: int, raw: Option<string>)
      returns (result: Result<Outcome>)
      requires instance == Some(i)
      modifies this
      ensures Did(DoEscalate(old(Content()), i, m, c, ruleKey, occurrence, raw), result)
    {
      if !c.mayEscalate { return Err(403); }
      if i.transition.None? { return Err(409); }
      var found := Find(m, i.transition.value);
      if found.None? { return Err(404); }
      var ruled := FindEscalation(found.value.escalations, ruleKey);
      if ruled.None? { return Err(404); }
      var rule := ruled.value;
      var at := DueAt(rule, i.transitionedAt, occurrence);
      if at.None? { return Err(400); }
      if at.value > c.now { return Err(409); }
      var completion := LastCompletion(history);
      var revision := if completion.Some? then completion.value else i.revision;
      result := Ok(Answer(i));
      if !Recorded(history, revision, Slot(rule.key, occurrence)) {
        var chosen := Resolve(rule.assigns, raw, c);
        if chosen.Err? { return Err(chosen.status); }
        if chosen.value.Some? {
          instance := Some(instance.value.(assignment := chosen.value));
          result := Ok(Answer(instance.value));
        }
        AppendHistory(Event(revision, Escalated, Slot(rule.key, occurrence), i.state, i.state, c.actor));
      }
    }
  }
}
