/**
 * The action runner as the server runs it: one chain's shared set, the
 * database and the audit trail, changed in place.
 */
module ActionRunner {
  import opened Base
  import opened Actions

  /** What the loop over a write's actions has left to do, one action at a time. */
  lemma EachUnrolls<D>(w: World<D>, s: Chain<D>, x: Write<D>, actions: seq<Action>, k: nat, depth: nat)
    requires k < |actions| && depth <= CHAIN_DEPTH + 1
    ensures RunEach(w, s, x, Holding(w, x.db, x.cause, actions[k..]), depth) ==
      var rest := Holding(w, x.db, x.cause, actions[k + 1..]);
      if !w.holds(x.db, x.cause, actions[k]) then RunEach(w, s, x, rest, depth)
      else match RunOne(w, s, x, actions[k], depth)
        case None => None
        case Some(after) => RunEach(w, after, x, rest, depth)
  {
    assert actions[k..][1..] == actions[k + 1..];
    var rest := Holding(w, x.db, x.cause, actions[k + 1..]);
    assert ([actions[k]] + rest)[1..] == rest;
    assert [] + rest == rest;
  }

  class Runner<D> {
    const world: World<D>
    var db: D
    var ran: set<(string, string)>
    var log: seq<Entry>

    constructor (world: World<D>, db: D)
      ensures this.world == world && Now() == Chain(db, {}, [])
    {
      this.world, this.db, ran, log := world, db, {}, [];
    }

    function Now(): Chain<D>
      reads this
    {
      Chain(db, ran, log)
    }

    /** A step in its savepoint: a refusal rolls back what the step wrote, and nothing else. */
    method RunStep(x: Write<D>, a: Action) returns (result: StepResult<D>)
      modifies this`db
      ensures result == world.step(old(db), x.db, x.cause, a)
      ensures db == if result.StepDone? then result.db else old(db)
    {
      var savepoint := db;
      result := world.step(db, x.db, x.cause, a);
      match result {
        case StepDone(after, _) => db := after;
        case StepRefused(dirty) =>
          db := dirty;
          db := savepoint;
        case StepFailed =>
      }
    }

    method Log(e: Entry)
      modifies this`log
      ensures log == old(log) + [e]
    {
      log := log + [e];
    }

    /**
     * Run the actions `c` sets off, and the chain their writes set off in
     * turn; false when the transaction must abort.
     */
    method RunBoardActions(c: Cause, depth: nat, parent: Option<Action>) returns (ok: bool)
      requires depth <= CHAIN_DEPTH + 1
      modifies this
      ensures ok <==> RunAll(world, old(Now()), c, depth, parent).Some?
      ensures ok ==> Now() == RunAll(world, old(Now()), c, depth, parent).value
      decreases CHAIN_DEPTH + 1 - depth
    {
      var found := world.actions(db, c);
      if found.None? { return true; }
      var actions := Triggered(found.value, c);
      ghost var spec := RunAll(world, Now(), c, depth, parent);
      assert actions[0..] == actions;
      var x := Write(c, db, |log|, parent);
      for k := 0 to |actions|
        invariant RunEach(world, Now(), x, Holding(world, x.db, c, actions[k..]), depth) == spec
      {
        EachUnrolls(world, Now(), x, actions, k, depth);
        if world.holds(x.db, c, actions[k]) {
          ok := RunAction(x, actions[k], depth);
          if !ok { return false; }
        }
      }
      return true;
    }

    method RunAction(x: Write<D>, a: Action, depth: nat) returns (ok: bool)
      requires depth <= CHAIN_DEPTH + 1
      modifies this
      ensures ok <==> RunOne(world, old(Now()), x, a, depth).Some?
      ensures ok ==> Now() == RunOne(world, old(Now()), x, a, depth).value
      decreases CHAIN_DEPTH + 1 - depth, 0
    {
      var id := Identity(x.cause, a);
      if id in ran {
        Log(Noted(x, a, depth, Stopped, []));
        return true;
      }
      if depth > CHAIN_DEPTH {
        Log(Noted(x, a, depth, Stopped, []));
        return true;
      }
      ghost var spec := RunOne(world, Now(), x, a, depth);
      ran := ran + {id};
      var result := RunStep(x, a);
      match result {
        case StepFailed => return false;
        case StepRefused(_) =>
          Log(Noted(x, a, depth, Refused, []));
          return true;
        case StepDone(_, causes) =>
          Log(Noted(x, a, depth, Done, causes));
          assert spec == RunNext(world, Now(), causes, depth + 1, Some(a));
          for k := 0 to |causes|
            invariant RunNext(world, Now(), causes[k..], depth + 1, Some(a)) == spec
          {
            assert causes[k..][1..] == causes[k + 1..];
            ok := RunBoardActions(causes[k], depth + 1, Some(a));
            if !ok { return false; }
          }
          return true;
      }
    }
  }
}
