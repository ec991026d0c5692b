/**
 * What holds of every run of workflow commands on one record: completions
 * form a path, each revision is spent by one ending, a completion counts only
 * the approvals of its own request, escalations take effect once, a repeated
 * command changes nothing, and a board upgrade changes no started machine.
 */
module WorkflowSafety {
  import opened Base
  import opened Workflow
  import opened WorkflowHistory

  /** Rule keys differ within a transition, as a published template's do. */
  predicate Proper(m: Machine) {
    forall t :: t in m.transitions ==>
      forall a, b :: a in t.approvals && b in t.approvals && a.key == b.key ==> a == b
  }

  // ---- Facts about one lawful history ----

  function Completions(h: seq<Event>): seq<Event> {
    if h == [] then []
    else if h[|h| - 1].kind == Completed then Completions(h[..|h| - 1]) + [h[|h| - 1]]
    else Completions(h[..|h| - 1])
  }

  /** `es` are transitions of `m`, each from where the one before led. */
  predicate IsPath(m: Machine, from: string, es: seq<Event>, to: string) {
    if es == [] then from == to
    else
      var e := es[|es| - 1];
      && e.to == to
      && e.key.Name? && Find(m, e.key.key).Some?
      && Find(m, e.key.key).value.from == e.from && Find(m, e.key.key).value.to == e.to
      && IsPath(m, from, es[..|es| - 1], e.from)
  }

  predicate Ends(e: Event) { e.kind == Completed || e.kind == Rejected || e.kind == Cancelled }

  function Endings(h: seq<Event>): nat {
    if h == [] then 0 else Endings(h[..|h| - 1]) + (if Ends(h[|h| - 1]) then 1 else 0)
  }

  predicate OpenFits(m: Machine, t: Trail) {
    t.open.Some? ==>
      && Find(m, t.open.value.key).Some?
      && Find(m, t.open.value.key).value.from == t.state
      && Find(m, t.open.value.key).value.to == t.open.value.to
  }

  lemma {:induction false} LawfulPath(m: Machine, h: seq<Event>)
    requires Lawful(m, h)
    ensures OpenFits(m, Replay(m.initial, h))
    ensures IsPath(m, m.initial, Completions(h), Replay(m.initial, h).state)
    ensures Endings(h) == Replay(m.initial, h).revision
  {
    if h == [] {
    } else {
      LawfulPath(m, h[..|h| - 1]);
      var before := Completions(h[..|h| - 1]);
      if h[|h| - 1].kind == Completed { assert (before + [h[|h| - 1]])[..|before|] == before; }
    }
  }

  /** Who approved `rule` among the events `es`. */
  function ApprovedBy(es: seq<Event>, rule: string): set<string> {
    set e | e in es && e.kind == Approved && e.key == Name(rule) :: e.actor
  }

  predicate Waiting(es: seq<Event>) {
    forall e :: e in es ==> e.kind == Approved || e.kind == Escalated
  }

  /** Request `h[q]` is the one open at the end of `h`: nothing was asked or ended since. */
  predicate OpenSince(h: seq<Event>, q: nat, ask: Ask) {
    && q < |h| && h[q].kind == Requested && h[q].key == Name(ask.key) && h[q].actor == ask.asker
    && Waiting(h[q + 1..])
  }

  predicate SelfApprovals(t: Transition, es: seq<Event>, asker: string) {
    forall e :: e in es && e.kind == Approved && e.actor == asker ==>
      e.key.Name? && exists rule :: rule in t.approvals && rule.key == e.key.key && rule.allowSelf
  }

  /** `h[q]` asked for what is open at the end of `h`, and the votes are the approvals recorded since. */
  ghost predicate OpenAt(m: Machine, h: seq<Event>, q: nat) {
    var t := Replay(m.initial, h);
    && t.open.Some? && OpenSince(h, q, t.open.value)
    && (forall rule :: ApprovedBy(h[q + 1..], rule) == Voters(t.votes, rule))
    && Find(m, t.open.value.key).Some?
    && SelfApprovals(Find(m, t.open.value.key).value, h[q + 1..], t.open.value.asker)
  }

  lemma SelfApprovalsGrow(t: Transition, es: seq<Event>, e: Event, asker: string)
    requires SelfApprovals(t, es, asker)
    requires e.kind == Approved && e.actor == asker ==>
      e.key.Name? && exists rule :: rule in t.approvals && rule.key == e.key.key && rule.allowSelf
    ensures SelfApprovals(t, es + [e], asker)
  {
  }

  /** One more event among those since the request: an approval adds its vote, an escalation adds none. */
  lemma VotesGrow(es: seq<Event>, e: Event, votes: set<(string, string)>)
    requires forall rule :: ApprovedBy(es, rule) == Voters(votes, rule)
    requires e.kind == Approved ==> e.key.Name?
    ensures var after := if e.kind == Approved then votes + {(e.key.key, e.actor)} else votes;
      forall rule :: ApprovedBy(es + [e], rule) == Voters(after, rule)
  {
    var after := if e.kind == Approved then votes + {(e.key.key, e.actor)} else votes;
    forall rule ensures ApprovedBy(es + [e], rule) == Voters(after, rule) {
      assert (es + [e])[|es|] == e;
      assert Voters(after, rule) ==
        Voters(votes, rule) + (if e.kind == Approved && e.key.key == rule then {e.actor} else {});
      assert ApprovedBy(es + [e], rule) ==
        ApprovedBy(es, rule) + (if e.kind == Approved && e.key == Name(rule) then {e.actor} else {});
    }
  }

  lemma StaysOpen(m: Machine, h: seq<Event>, q: nat)
    requires h != [] && Lawful(m, h) && Replay(m.initial, h).open.Some? && h[|h| - 1].kind != Requested
    requires OpenAt(m, h[..|h| - 1], q)
    ensures OpenAt(m, h, q)
  {
    var before, e := h[..|h| - 1], h[|h| - 1];
    var since := before[q + 1..];
    var t := Replay(m.initial, before);
    assert h[q + 1..] == since + [e];
    VotesGrow(since, e, t.votes);
    SelfApprovalsGrow(Find(m, t.open.value.key).value, since, e, t.open.value.asker);
    assert h[q] == before[q];
  }

  lemma {:induction false} OpenRequest(m: Machine, h: seq<Event>) returns (q: nat)
    requires Lawful(m, h) && Replay(m.initial, h).open.Some?
    ensures OpenAt(m, h, q)
  {
    var n := |h| - 1;
    if h[n].kind == Requested {
      q := n;
      LawfulPath(m, h);
      assert h[q + 1..] == [];
    } else {
      q := OpenRequest(m, h[..n]);
      StaysOpen(m, h, q);
    }
  }

  /**
   * Completion `h[k]` rests on request `h[q]` alone: between them nothing was
   * asked or ended, and each rule was approved there by enough people, the
   * requester among them only where the rule lets them be.
   */
  predicate RestsOn(m: Machine, h: seq<Event>, q: nat, k: nat) {
    && q < k < |h| && h[q].kind == Requested && h[q].key == h[k].key && h[q].to == h[k].to
    && Waiting(h[q + 1..k])
    && h[k].key.Name? && Find(m, h[k].key.key).Some?
    && forall rule :: rule in Find(m, h[k].key.key).value.approvals ==>
         && |ApprovedBy(h[q + 1..k], rule.key)| >= rule.count
         && (h[q].actor in ApprovedBy(h[q + 1..k], rule.key) ==> rule.allowSelf)
  }

  lemma {:induction false} LawfulPrefix(m: Machine, h: seq<Event>, k: nat)
    requires Lawful(m, h) && k < |h|
    ensures Lawful(m, h[..k]) && Permitted(m, h[..k], h[k])
    decreases |h|
  {
    if k == |h| - 1 {
    } else {
      LawfulPrefix(m, h[..|h| - 1], k);
      assert h[..|h| - 1][..k] == h[..k];
    }
  }

  lemma CompletionRests(m: Machine, h: seq<Event>, k: nat)
    requires Proper(m) && Lawful(m, h) && k < |h| && h[k].kind == Completed
    ensures exists q: nat :: RestsOn(m, h, q, k)
  {
    LawfulPrefix(m, h, k);
    var q := OpenRequest(m, h[..k]);
    assert OpenAt(m, h[..k], q) && h[..k][q + 1..] == h[q + 1..k];
    LawfulPrefix(m, h[..k], q);
    LawfulPath(m, h[..k]);
    var asked := Find(m, h[k].key.key).value;
    forall rule | rule in asked.approvals
      ensures h[q].actor in ApprovedBy(h[q + 1..k], rule.key) ==> rule.allowSelf
    {
      if h[q].actor in ApprovedBy(h[q + 1..k], rule.key) {
        var e :| e in h[q + 1..k] && e.kind == Approved && e.key == Name(rule.key) && e.actor == h[q].actor;
        assert SelfApprovals(asked, h[q + 1..k], h[q].actor);
      }
    }
    assert RestsOn(m, h, q, k);
  }

  lemma EscalatedOnce(m: Machine, h: seq<Event>, i: nat, j: nat)
    requires Lawful(m, h) && i < j < |h| && h[i].kind == h[j].kind == Escalated
    ensures h[i].revision != h[j].revision || h[i].key != h[j].key
  {
    LawfulPrefix(m, h, j);
    assert h[..j][i] == h[i];
  }

  // ---- Every run ----

  /** The machine pinned by the rows of a run, once it has started. */
  function Pinned(ts: Templates, r: Rows): Machine
    requires Consistent(ts, r) && r.instance.Some?
  {
    ts[(r.instance.value.templateKey, r.instance.value.templateVersion)].value
  }

  /**
   * The completed events of every run lead from the pinned initial state to
   * the stored one, and endings spend the revisions.
   */
  lemma {:induction false} RunFollowsPath(ts: Templates, calls: seq<(Call, Command)>)
    ensures var r := Run(ts, NO_ROWS, calls);
      && Consistent(ts, r)
      && (r.instance.Some? ==>
            var i := r.instance.value;
            && IsPath(Pinned(ts, r), Pinned(ts, r).initial, Completions(r.history), i.state)
            && i.revision == Endings(r.history))
  {
    RunKeeps(ts, NO_ROWS, calls);
    var r := Run(ts, NO_ROWS, calls);
    if r.instance.Some? { LawfulPath(Pinned(ts, r), r.history); }
  }

  /**
   * The pending fields are all set or all empty, and a pending transition leads
   * from the stored state to the target.
   */
  predicate PendingFits(m: Machine, i: Instance) {
    && (i.pendingTransition.None? ==> i == Unpended(i))
    && (i.pendingRequest.Some? <==> i.pendingSnapshot.Some?)
    && (i.pendingTransition.Some? ==>
          && i.pendingTo.Some? && i.pendingBy.Some? && i.pendingAt.Some?
          && Find(m, i.pendingTransition.value).Some?
          && Find(m, i.pendingTransition.value).value.from == i.state
          && Some(Find(m, i.pendingTransition.value).value.to) == i.pendingTo)
  }

  /** The pending fields fit in every run. */
  lemma {:induction false} RunPending(ts: Templates, calls: seq<(Call, Command)>)
    ensures var r := Run(ts, NO_ROWS, calls);
      Consistent(ts, r) && (r.instance.Some? ==> PendingFits(Pinned(ts, r), r.instance.value))
  {
    RunKeeps(ts, NO_ROWS, calls);
  }

  /** In every run, each completion rests on the approvals of one request and of no other. */
  lemma {:induction false} RunCountsOwnApprovals(ts: Templates, calls: seq<(Call, Command)>, k: nat)
    requires forall id :: id in ts && ts[id].Some? ==> Proper(ts[id].value)
    requires k < |Run(ts, NO_ROWS, calls).history| && Run(ts, NO_ROWS, calls).history[k].kind == Completed
    ensures var r := Run(ts, NO_ROWS, calls);
      Consistent(ts, r) && r.instance.Some? && exists q: nat :: RestsOn(Pinned(ts, r), r.history, q, k)
  {
    RunKeeps(ts, NO_ROWS, calls);
    var r := Run(ts, NO_ROWS, calls);
    CompletionRests(Pinned(ts, r), r.history, k);
  }

  /** In every run, a completion's escalation occurrence is recorded at most once, whatever keys asked for it. */
  lemma RunEscalatesOnce(ts: Templates, calls: seq<(Call, Command)>, i: nat, j: nat)
    requires var h := Run(ts, NO_ROWS, calls).history;
      i < j < |h| && h[i].kind == Escalated && h[j].kind == Escalated
    ensures var h := Run(ts, NO_ROWS, calls).history;
      h[i].revision != h[j].revision || h[i].key != h[j].key
  {
    RunKeeps(ts, NO_ROWS, calls);
    var r := Run(ts, NO_ROWS, calls);
    EscalatedOnce(Pinned(ts, r), r.history, i, j);
  }

  // ---- Repeats ----

  lemma StepKeepsReplies(ts: Templates, r: Rows, c: Call, cmd: Command, id: (string, string))
    requires id in r.replies
    ensures var after := Step(ts, r, c, cmd).0; id in after.replies && after.replies[id] == r.replies[id]
  {
    match Load(ts, r, c)
    case Err(_) =>
    case Ok((i, m)) =>
      var loaded := r.(instance := Some(i));
      var acted := Act(loaded, i, m, c, cmd);
      assert acted.Ok? ==> acted.value.0.replies == r.replies;
  }

  lemma {:induction false} RunKeepsReplies(ts: Templates, r: Rows, calls: seq<(Call, Command)>, id: (string, string))
    requires id in r.replies
    ensures var after := Run(ts, r, calls); id in after.replies && after.replies[id] == r.replies[id]
    decreases |calls|
  {
    if calls == [] {
    } else {
      StepKeepsReplies(ts, r, calls[0].0, calls[0].1, id);
      RunKeepsReplies(ts, Step(ts, r, calls[0].0, calls[0].1).0, calls[1..], id);
    }
  }

  lemma AnswerIsStored(ts: Templates, r: Rows, c: Call, cmd: Command)
    requires Step(ts, r, c, cmd).1.Ok?
    ensures var (after, answer) := Step(ts, r, c, cmd);
      && (c.actor, cmd.key) in after.replies
      && after.replies[(c.actor, cmd.key)] == Reply(cmd, answer.value)
  {
  }

  lemma StoredAnswer(ts: Templates, r: Rows, c: Call, cmd: Command)
    requires Consistent(ts, r) && c.refused.None? && (c.actor, cmd.key) in r.replies
    ensures Step(ts, r, c, cmd) ==
      var stored := r.replies[(c.actor, cmd.key)];
      (r, if stored.command == cmd then Ok(stored.result) else Err(409))
  {
    assert r.(instance := r.instance) == r;
  }

  /**
   * A command answered once is answered the same forever and changes nothing
   * again, whatever ran between; its key carries no other command.
   */
  lemma RepeatChangesNothing(
    ts: Templates, r: Rows, c: Call, cmd: Command, between: seq<(Call, Command)>, again: Call, other: Command)
    requires Consistent(ts, r) && Step(ts, r, c, cmd).1.Ok?
    requires again.actor == c.actor && again.refused.None? && other.key == cmd.key && other != cmd
    ensures var later := Run(ts, Step(ts, r, c, cmd).0, between);
      && Step(ts, later, again, cmd) == (later, Step(ts, r, c, cmd).1)
      && Step(ts, later, again, other) == (later, Err(409))
  {
    var first := Step(ts, r, c, cmd).0;
    StepKeeps(ts, r, c, cmd);
    AnswerIsStored(ts, r, c, cmd);
    RunKeepsReplies(ts, first, between, (c.actor, cmd.key));
    RunKeeps(ts, first, between);
    StoredAnswer(ts, Run(ts, first, between), again, cmd);
    StoredAnswer(ts, Run(ts, first, between), again, other);
  }

  // ---- Upgrades ----

  /** The same commands, found under other current board templates. */
  predicate SameButBoard(a: seq<(Call, Command)>, b: seq<(Call, Command)>) {
    && |a| == |b|
    && forall k :: 0 <= k < |a| ==>
         && a[k].1 == b[k].1
         && a[k].0.(boardKey := b[k].0.boardKey, boardVersion := b[k].0.boardVersion) == b[k].0
  }

  predicate Publishes(ts: Templates, more: Templates) {
    forall id :: id in ts ==> id in more && more[id] == ts[id]
  }

  lemma ActIgnoresBoard(r: Rows, i: Instance, m: Machine, c: Call, cmd: Command, key: string, version: nat)
    ensures Act(r, i, m, c, cmd) == Act(r, i, m, c.(boardKey := key, boardVersion := version), cmd)
  {
    var d := c.(boardKey := key, boardVersion := version);
    match cmd
    case Request(k, raw, _) => assert DoRequest(r, i, m, c, k, raw) == DoRequest(r, i, m, d, k, raw);
    case Approve(k, rule, _) => assert DoApprove(r, i, m, c, k, rule) == DoApprove(r, i, m, d, k, rule);
    case Withdraw(k, reject, _, _) =>
      if Find(m, k).Some? {
        assert MayReject(Find(m, k).value, i.pendingBy, c) == MayReject(Find(m, k).value, i.pendingBy, d);
      }
    case Escalate(rule, n, raw, _) =>
      assert DoEscalate(r, i, m, c, rule, n, raw) == DoEscalate(r, i, m, d, rule, n, raw);
  }

  lemma StepIgnoresBoard(ts: Templates, more: Templates, r: Rows, c: Call, cmd: Command, key: string, version: nat)
    requires Consistent(ts, r) && r.instance.Some? && Publishes(ts, more)
    ensures Step(ts, r, c, cmd) == Step(more, r, c.(boardKey := key, boardVersion := version), cmd)
  {
    var i := r.instance.value;
    assert r.(instance := Some(i)) == r;
    ActIgnoresBoard(r, i, Pinned(ts, r), c, cmd, key, version);
  }

  /** Once a record's machine has started, publishing templates and upgrading the board change no run of it. */
  lemma {:induction false} UpgradesChangeNothing(
    ts: Templates, more: Templates, r: Rows, a: seq<(Call, Command)>, b: seq<(Call, Command)>)
    requires Consistent(ts, r) && r.instance.Some? && Publishes(ts, more) && SameButBoard(a, b)
    ensures Run(ts, r, a) == Run(more, r, b)
    decreases |a|
  {
    if a == [] {
    } else {
      StepKeeps(ts, r, a[0].0, a[0].1);
      StepIgnoresBoard(ts, more, r, a[0].0, a[0].1, b[0].0.boardKey, b[0].0.boardVersion);
      UpgradesChangeNothing(ts, more, Step(ts, r, a[0].0, a[0].1).0, a[1..], b[1..]);
    }
  }
}
