/**
 * The second factor of one person, statement by statement. Requests run at
 * once, each in a transaction: what it changes shows only when it commits, a
 * conditional update holds its row from then on, and others wait for it. A
 * time-based code is known by the step it matches, a secret by the order it
 * was drawn in.
 */
module Mfa {
  import opened Base

  /** The person's factor row; it counts once `active`. */
  datatype FactorRow = FactorRow(secret: nat, active: bool, lastStep: int)

  datatype Purpose = ToVerify | ToEnroll

  datatype Challenge = Challenge(purpose: Purpose, used: bool)

  datatype Factor = Totp(step: int) | Recovery(code: nat)

  /**
   * A request: its challenge resolved, then for a sign-in the active secret
   * read without a lock, then holding its factor's row, then its challenge's too.
   */
  datatype Phase = Presented | Read | Holding(factor: Factor) | Ready(factor: Factor)

  /** `secret` is what the request read and checks its code against. */
  datatype Request = Request(purpose: Purpose, token: nat, secret: nat, phase: Phase)

  /** A committed sign-in: the challenge spent, the factor accepted, under which secret. */
  datatype Grant = Grant(token: nat, factor: Factor, secret: nat)

  /**
   * An administrator's reset under way: its transaction has deleted these
   * recovery codes, then these challenges; the others see them until it ends.
   */
  datatype Reset = NoReset | CodesGone(codes: set<nat>) | ChallengesGone(codes: set<nat>, tokens: set<nat>)

  datatype State = State(
    row: Option<FactorRow>, secrets: nat,
    codes: map<nat, bool>, drawn: set<nat>,  // recovery codes, whether each is used, and all that were ever drawn
    challenges: map<nat, Challenge>, issued: set<nat>,
    requests: map<nat, Request>, grants: seq<Grant>, reset: Reset)

  const START := State(None, 0, map[], {}, map[], {}, map[], [], NoReset)

  datatype Step =
    | Issue(token: nat, purpose: Purpose)
    | Purge(tokens: set<nat>)                        // expired challenges are deleted
    | BeginEnrollment                                // the upsert of a fresh secret
    | Present(request: nat, token: nat, purpose: Purpose)
    | ReadSecret(request: nat)                       // a sign-in reads the active secret
    | MatchTotp(request: nat, step: int)             // the code matched a step: take the row if it is still ahead
    | MatchCode(request: nat, code: nat)             // it did not: take the recovery code if it is unused
    | Spend(request: nat)
    | Commit(request: nat, drawn: set<nat>)          // `drawn` are the codes an activation issues
    | Abort(request: nat)
    | ResetCodes                                     // an administrator's reset deletes the recovery codes
    | ResetChallenges                                // then the challenges
    | ResetRow                                       // then the factor, and commits
    | ResetFails

  datatype Lock = OnRow | OnCode(code: nat)

  /** The row a request's accepted factor holds. */
  function FactorLock(q: Request): Option<Lock> {
    if q.phase.Presented? || q.phase.Read? then None
    else match q.phase.factor
      case Totp(_) => Some(OnRow)
      case Recovery(code) => Some(OnCode(code))
  }

  predicate LockFree(s: State, lock: Lock) { forall r :: r in s.requests ==> FactorLock(s.requests[r]) != Some(lock) }

  predicate HoldsCode(q: Request) { FactorLock(q).Some? && FactorLock(q).value.OnCode? }

  predicate CodesFree(s: State) { forall r :: r in s.requests ==> !HoldsCode(s.requests[r]) }

  predicate ChallengeFree(s: State, token: nat) {
    forall r :: r in s.requests ==> !(s.requests[r].phase.Ready? && s.requests[r].token == token)
  }

  /** The rows a reset under way holds. */
  function GoneCodes(s: State): set<nat> { if s.reset.NoReset? then {} else s.reset.codes }

  function GoneTokens(s: State): set<nat> { if s.reset.ChallengesGone? then s.reset.tokens else {} }

  /** A request whose code may be matched: an activation reads and takes the row at once, a sign-in has read before. */
  predicate MayMatch(s: State, r: nat) {
    r in s.requests && s.requests[r].phase == if s.requests[r].purpose == ToEnroll then Presented else Read
  }

  predicate Enabled(s: State, step: Step) {
    match step
    case Issue(token, _) => token !in s.issued
    case Purge(tokens) => tokens !! GoneTokens(s) && forall t :: t in tokens ==> ChallengeFree(s, t)
    case BeginEnrollment => LockFree(s, OnRow)
    case Present(r, token, purpose) =>
      r !in s.requests && token in s.challenges && s.challenges[token] == Challenge(purpose, false)
    case ReadSecret(r) => r in s.requests && s.requests[r].phase == Presented && s.requests[r].purpose == ToVerify
    case MatchTotp(r, _) => MayMatch(s, r) && LockFree(s, OnRow)
    case MatchCode(r, code) =>
      MayMatch(s, r) && s.requests[r].purpose == ToVerify && LockFree(s, OnCode(code)) && code !in GoneCodes(s)
    case Spend(r) =>
      && r in s.requests && s.requests[r].phase.Holding?
      && ChallengeFree(s, s.requests[r].token) && s.requests[r].token !in GoneTokens(s)
    case Commit(r, drawn) =>
      && r in s.requests && s.requests[r].phase.Ready? && drawn !! s.drawn
      && (s.requests[r].purpose == ToEnroll ==> CodesFree(s) && s.codes.Keys !! GoneCodes(s))
    case Abort(r) => r in s.requests
    case ResetCodes => s.reset.NoReset? && CodesFree(s)
    case ResetChallenges => s.reset.CodesGone? && forall r :: r in s.requests ==> !s.requests[r].phase.Ready?
    case ResetRow => s.reset.ChallengesGone? && LockFree(s, OnRow)
    case ResetFails => !s.reset.NoReset?
  }

  function Drop(s: State, r: nat): State { s.(requests := s.requests - {r}) }

  function Move(s: State, r: nat, secret: nat, phase: Phase): State
    requires r in s.requests
  {
    s.(requests := s.requests[r := s.requests[r].(secret := secret, phase := phase)])
  }

  /**
   * Whether a matched step may take the row: an activation needs it inactive;
   * a sign-in asks only that the row be behind the step.
   */
  predicate StepTaken(s: State, purpose: Purpose, step: int) {
    s.row.Some? && if purpose == ToEnroll then !s.row.value.active else s.row.value.lastStep < step
  }

  function Committed(s: State, r: nat, drawn: set<nat>): State
    requires r in s.requests && s.requests[r].phase.Ready?
  {
    var q := s.requests[r];
    var spent :=
      if q.token in s.challenges then s.challenges[q.token := s.challenges[q.token].(used := true)] else s.challenges;
    var done := Drop(s, r).(challenges := spent, grants := s.grants + [Grant(q.token, q.phase.factor, q.secret)]);
    match q.phase.factor
    case Totp(step) =>
      if s.row.None? then done
      else if q.purpose == ToEnroll then
        done.(row := Some(s.row.value.(active := true, lastStep := step)),
             codes := map c | c in drawn :: false, drawn := s.drawn + drawn)
      else done.(row := Some(s.row.value.(lastStep := step)))
    case Recovery(code) => done.(codes := s.codes[code := true])
  }

  function Next(s: State, step: Step): State
    requires Enabled(s, step)
  {
    match step
    case Issue(token, purpose) =>
      s.(challenges := s.challenges[token := Challenge(purpose, false)], issued := s.issued + {token})
    case Purge(tokens) => s.(challenges := s.challenges - tokens)
    case BeginEnrollment =>
      if s.row.Some? && s.row.value.active then s
      else s.(row := Some(FactorRow(s.secrets, false, 0)), secrets := s.secrets + 1)
    case Present(r, token, purpose) => s.(requests := s.requests[r := Request(purpose, token, 0, Presented)])
    case ReadSecret(r) => if s.row.Some? && s.row.value.active then Move(s, r, s.row.value.secret, Read) else Drop(s, r)
    case MatchTotp(r, at) =>
      var q := s.requests[r];
      if !StepTaken(s, q.purpose, at) then Drop(s, r)
      else Move(s, r, if q.purpose == ToEnroll then s.row.value.secret else q.secret, Holding(Totp(at)))
    case MatchCode(r, code) =>
      if code in s.codes && !s.codes[code] then Move(s, r, s.requests[r].secret, Holding(Recovery(code)))
      else Drop(s, r)
    case Spend(r) =>
      var q := s.requests[r];
      if q.token in s.challenges && !s.challenges[q.token].used then Move(s, r, q.secret, Ready(q.phase.factor))
      else Drop(s, r)
    case Commit(r, drawn) => Committed(s, r, drawn)
    case Abort(r) => Drop(s, r)
    case ResetCodes => s.(reset := CodesGone(s.codes.Keys))
    case ResetChallenges => s.(reset := ChallengesGone(s.reset.codes, s.challenges.Keys))
    case ResetRow =>
      if s.row.None? then s.(reset := NoReset)
      else
        s.(row := None, reset := NoReset,
           codes := s.codes - s.reset.codes, challenges := s.challenges - s.reset.tokens)
    case ResetFails => s.(reset := NoReset)
  }

  // ---- What every interleaving keeps ----

  /** What a request holds is still so: nobody can change a held row under it. */
  predicate RequestGood(s: State, q: Request) {
    && q.token in s.issued
    && (q.phase.Read? ==> q.purpose == ToVerify)
    && (q.phase.Ready? ==> q.token in s.challenges && !s.challenges[q.token].used && q.token !in GoneTokens(s))
    && (match FactorLock(q)
        case None => true
        case Some(OnRow) =>
          && StepTaken(s, q.purpose, q.phase.factor.step)
          && (q.purpose == ToEnroll ==> q.secret == s.row.value.secret)
        case Some(OnCode(c)) => q.purpose == ToVerify && c in s.codes && !s.codes[c] && c !in GoneCodes(s))
  }

  /** Two requests hold no row in common. */
  predicate Apart(p: Request, q: Request) {
    && (FactorLock(p).Some? ==> FactorLock(p) != FactorLock(q))
    && !(p.phase.Ready? && q.phase.Ready? && p.token == q.token)
  }

  predicate LocksGood(requests: map<nat, Request>) {
    forall a, b :: a in requests && b in requests && a != b ==> Apart(requests[a], requests[b])
  }

  /** Time-based codes were accepted in rising steps under one secret. */
  predicate Rising(grants: seq<Grant>) {
    forall i, j :: 0 <= i < j < |grants| && grants[i].factor.Totp? && grants[j].factor.Totp? ==>
      grants[i].secret == grants[j].secret ==> grants[i].factor.step < grants[j].factor.step
  }

  /** The row's last step is where its secret began, or a sign-in's. */
  predicate StepEarned(row: FactorRow, grants: seq<Grant>) {
    row.lastStep == 0 || exists g :: g in grants && g.secret == row.secret && g.factor == Totp(row.lastStep)
  }

  /** Steps accepted under one secret rise; the row remembers the last, and no step that was not accepted. */
  predicate StepsRise(row: Option<FactorRow>, secrets: nat, grants: seq<Grant>) {
    && Rising(grants)
    && (forall g :: g in grants ==> g.secret < secrets)
    && (row.Some? ==>
          && row.value.secret < secrets
          && (forall g :: g in grants && g.factor.Totp? && g.secret == row.value.secret ==>
                row.value.active && g.factor.step <= row.value.lastStep)
          && StepEarned(row.value, grants))
  }

  predicate TokenGranted(grants: seq<Grant>, token: nat) { exists g :: g in grants && g.token == token }

  predicate CodeGranted(grants: seq<Grant>, code: nat) { exists g :: g in grants && g.factor == Recovery(code) }

  /** Exactly the challenges of grants are used, and no two grants share one. */
  predicate ChallengesSpent(challenges: map<nat, Challenge>, issued: set<nat>, grants: seq<Grant>) {
    && (forall i, j :: 0 <= i < j < |grants| ==> grants[i].token != grants[j].token)
    && (forall g :: g in grants ==> g.token in issued)
    && (forall t :: t in challenges ==> t in issued && (challenges[t].used <==> TokenGranted(grants, t)))
  }

  /** Exactly the recovery codes of grants are used, and no two grants share one. */
  predicate CodesSpent(codes: map<nat, bool>, drawn: set<nat>, grants: seq<Grant>) {
    && (forall i, j :: 0 <= i < j < |grants| && grants[i].factor.Recovery? ==> grants[i].factor != grants[j].factor)
    && (forall c :: c in codes ==> c in drawn && (codes[c] <==> CodeGranted(grants, c)))
    && (forall g :: g in grants && g.factor.Recovery? ==> g.factor.code in drawn)
  }

  predicate Good(s: State) {
    && (forall r :: r in s.requests ==> RequestGood(s, s.requests[r]))
    && LocksGood(s.requests)
    && ChallengesSpent(s.challenges, s.issued, s.grants)
    && CodesSpent(s.codes, s.drawn, s.grants)
  }

  /** A sign-in that has read its secret and whose challenge is still there reads of the factor that is still active. */
  predicate Current(s: State, q: Request) {
    q.purpose == ToVerify && !q.phase.Presented? && q.token in s.challenges ==>
      s.row.Some? && s.row.value.active && s.row.value.secret == q.secret
  }

  /** No challenge will outlive the factor that a reset is about to delete. */
  predicate Fresh(s: State) {
    && (forall r :: r in s.requests ==> Current(s, s.requests[r]))
    && (s.reset.ChallengesGone? ==> s.challenges.Keys <= s.reset.tokens)
    && StepsRise(s.row, s.secrets, s.grants)
  }

  // ---- Requests that change no committed row ----

  lemma DropKeeps(s: State, r: nat)
    requires Good(s)
    ensures Good(Drop(s, r)) && (Fresh(s) ==> Fresh(Drop(s, r)))
  {
  }

  lemma MoveKeeps(s: State, r: nat, secret: nat, phase: Phase)
    requires Good(s) && r in s.requests
    requires var q := s.requests[r].(secret := secret, phase := phase);
      && RequestGood(s, q)
      && forall o :: o in s.requests && o != r ==> Apart(s.requests[o], q) && Apart(q, s.requests[o])
    ensures Good(Move(s, r, secret, phase))
    ensures Fresh(s) && Current(s, s.requests[r].(secret := secret, phase := phase)) ==>
      Fresh(Move(s, r, secret, phase))
  {
  }

  lemma ReadKeeps(s: State, r: nat)
    requires Good(s) && Enabled(s, ReadSecret(r))
    ensures Good(Next(s, ReadSecret(r))) && (Fresh(s) ==> Fresh(Next(s, ReadSecret(r))))
  {
    assert RequestGood(s, s.requests[r]);
    if s.row.Some? && s.row.value.active { MoveKeeps(s, r, s.row.value.secret, Read); } else { DropKeeps(s, r); }
  }

  lemma TotpKeeps(s: State, r: nat, at: int)
    requires Good(s) && Enabled(s, MatchTotp(r, at))
    ensures Good(Next(s, MatchTotp(r, at))) && (Fresh(s) ==> Fresh(Next(s, MatchTotp(r, at))))
  {
    var q := s.requests[r];
    assert RequestGood(s, q) && (Fresh(s) ==> Current(s, q));
    if StepTaken(s, q.purpose, at) {
      MoveKeeps(s, r, if q.purpose == ToEnroll then s.row.value.secret else q.secret, Holding(Totp(at)));
    } else {
      DropKeeps(s, r);
    }
  }

  lemma CodeKeeps(s: State, r: nat, code: nat)
    requires Good(s) && Enabled(s, MatchCode(r, code))
    ensures Good(Next(s, MatchCode(r, code))) && (Fresh(s) ==> Fresh(Next(s, MatchCode(r, code))))
  {
    var q := s.requests[r];
    assert RequestGood(s, q) && (Fresh(s) ==> Current(s, q));
    if code in s.codes && !s.codes[code] {
      MoveKeeps(s, r, q.secret, Holding(Recovery(code)));
    } else {
      DropKeeps(s, r);
    }
  }

  lemma SpendKeeps(s: State, r: nat)
    requires Good(s) && Enabled(s, Spend(r))
    ensures Good(Next(s, Spend(r))) && (Fresh(s) ==> Fresh(Next(s, Spend(r))))
  {
    var q := s.requests[r];
    assert RequestGood(s, q) && (Fresh(s) ==> Current(s, q));
    if q.token in s.challenges && !s.challenges[q.token].used {
      MoveKeeps(s, r, q.secret, Ready(q.phase.factor));
    } else {
      DropKeeps(s, r);
    }
  }

  // ---- Steps between transactions ----

  lemma IssueKeeps(s: State, token: nat, purpose: Purpose)
    requires Good(s) && token !in s.issued
    ensures var after := Next(s, Issue(token, purpose));
      Good(after) && (Fresh(s) && !s.reset.ChallengesGone? ==> Fresh(after))
  {
    var after := Next(s, Issue(token, purpose));
    forall r | r in after.requests ensures RequestGood(after, after.requests[r]) {
      assert RequestGood(s, s.requests[r]);
    }
    if Fresh(s) {
      forall r | r in after.requests ensures Current(after, after.requests[r]) {
        assert RequestGood(s, s.requests[r]) && Current(s, s.requests[r]);
      }
    }
    assert forall g :: g in s.grants ==> g.token in s.issued;
  }

  lemma PurgeKeeps(s: State, tokens: set<nat>)
    requires Good(s) && Enabled(s, Purge(tokens))
    ensures Good(Next(s, Purge(tokens))) && (Fresh(s) ==> Fresh(Next(s, Purge(tokens))))
  {
    var after := Next(s, Purge(tokens));
    forall r | r in after.requests ensures RequestGood(after, after.requests[r]) {
      var q := s.requests[r];
      assert RequestGood(s, q);
      assert q.token in tokens ==> ChallengeFree(s, q.token);
    }
    if Fresh(s) {
      forall r | r in after.requests ensures Current(after, after.requests[r]) {
        assert Current(s, s.requests[r]);
      }
    }
  }

  lemma ResetKeeps(s: State, step: Step)
    requires Good(s) && Enabled(s, step)
    requires step.ResetCodes? || step.ResetChallenges? || step.ResetRow? || step.ResetFails?
    ensures Good(Next(s, step)) && (Fresh(s) ==> Fresh(Next(s, step)))
  {
    var after := Next(s, step);
    forall r | r in after.requests ensures RequestGood(after, after.requests[r]) {
      assert RequestGood(s, s.requests[r]) && (step.ResetCodes? ==> !HoldsCode(s.requests[r]));
    }
    if Fresh(s) {
      forall r | r in after.requests ensures Current(after, after.requests[r]) {
        assert Current(s, s.requests[r]);
      }
    }
  }

  lemma BeginKeeps(s: State)
    requires Good(s) && LockFree(s, OnRow)
    ensures Good(Next(s, BeginEnrollment)) && (Fresh(s) ==> Fresh(Next(s, BeginEnrollment)))
  {
    var after := Next(s, BeginEnrollment);
    if after != s {
      forall r | r in after.requests ensures RequestGood(after, after.requests[r]) {
        assert RequestGood(s, s.requests[r]);
      }
      if Fresh(s) {
        forall r | r in after.requests ensures Current(after, after.requests[r]) {
          assert Current(s, s.requests[r]);
        }
      }
    }
  }

  lemma PresentKeeps(s: State, r: nat, token: nat, purpose: Purpose)
    requires Good(s) && Enabled(s, Present(r, token, purpose))
    ensures var after := Next(s, Present(r, token, purpose)); Good(after) && (Fresh(s) ==> Fresh(after))
  {
    var after := Next(s, Present(r, token, purpose));
    forall x | x in after.requests ensures RequestGood(after, after.requests[x]) {
      if x != r { assert RequestGood(s, s.requests[x]); }
    }
    if Fresh(s) {
      forall x | x in after.requests ensures Current(after, after.requests[x]) {
        if x != r { assert Current(s, s.requests[x]); }
      }
    }
  }

  // ---- A commit ----

  lemma CommitKeepsRequests(s: State, r: nat, drawn: set<nat>)
    requires Good(s) && Enabled(s, Commit(r, drawn))
    ensures var after := Committed(s, r, drawn);
      LocksGood(after.requests) && forall x :: x in after.requests ==> RequestGood(after, after.requests[x])
  {
    var after := Committed(s, r, drawn);
    var q := s.requests[r];
    assert RequestGood(s, q);
    forall x | x in after.requests ensures RequestGood(after, after.requests[x]) {
      assert RequestGood(s, s.requests[x]) && Apart(q, s.requests[x]) && Apart(s.requests[x], q);
      assert q.purpose == ToEnroll ==> !HoldsCode(s.requests[x]);
    }
  }

  lemma CommitKeepsCurrent(s: State, r: nat, drawn: set<nat>)
    requires Good(s) && Fresh(s) && Enabled(s, Commit(r, drawn))
    ensures var after := Committed(s, r, drawn);
      && (forall x :: x in after.requests ==> Current(after, after.requests[x]))
      && (after.reset.ChallengesGone? ==> after.challenges.Keys <= after.reset.tokens)
  {
    var after := Committed(s, r, drawn);
    assert RequestGood(s, s.requests[r]);
    assert after.challenges.Keys == s.challenges.Keys;
    forall x | x in after.requests ensures Current(after, after.requests[x]) {
      assert Current(s, s.requests[x]);
    }
  }

  lemma CommitEarns(s: State, r: nat, drawn: set<nat>)
    requires Good(s) && Fresh(s) && Enabled(s, Commit(r, drawn))
    ensures var after := Committed(s, r, drawn); after.row.Some? ==> StepEarned(after.row.value, after.grants)
  {
    var after := Committed(s, r, drawn);
    assert RequestGood(s, s.requests[r]) && Current(s, s.requests[r]);
    var g := after.grants[|s.grants|];
    assert g in after.grants;
    if g.factor.Recovery? && s.row.value.lastStep != 0 {
      var x :| x in s.grants && x.secret == s.row.value.secret && x.factor == Totp(s.row.value.lastStep);
      assert x in after.grants;
    }
  }

  lemma RisingAppends(grants: seq<Grant>, g: Grant)
    requires Rising(grants)
    requires g.factor.Totp? ==>
      forall x :: x in grants && x.factor.Totp? && x.secret == g.secret ==> x.factor.step < g.factor.step
    ensures Rising(grants + [g])
  {
    forall i | 0 <= i < |grants| ensures grants[i] in grants { }
  }

  lemma CommitRises(s: State, r: nat, drawn: set<nat>)
    requires Good(s) && Fresh(s) && Enabled(s, Commit(r, drawn))
    ensures Rising(Committed(s, r, drawn).grants)
  {
    var q := s.requests[r];
    assert RequestGood(s, q) && Current(s, q);
    RisingAppends(s.grants, Grant(q.token, q.phase.factor, q.secret));
  }

  lemma CommitKeepsSteps(s: State, r: nat, drawn: set<nat>)
    requires Good(s) && Fresh(s) && Enabled(s, Commit(r, drawn))
    ensures var after := Committed(s, r, drawn); StepsRise(after.row, after.secrets, after.grants)
  {
    assert RequestGood(s, s.requests[r]) && Current(s, s.requests[r]);
    CommitEarns(s, r, drawn);
    CommitRises(s, r, drawn);
  }

  lemma GrantAppends(grants: seq<Grant>, g: Grant)
    ensures forall t :: TokenGranted(grants + [g], t) <==> TokenGranted(grants, t) || t == g.token
    ensures forall c :: CodeGranted(grants + [g], c) <==> CodeGranted(grants, c) || g.factor == Recovery(c)
  {
    assert (grants + [g])[|grants|] == g;
    forall x | x in grants ensures x in grants + [g] { }
    forall t ensures TokenGranted(grants + [g], t) <==> TokenGranted(grants, t) || t == g.token {
      if t == g.token { assert g in grants + [g]; }
      if TokenGranted(grants, t) { var x :| x in grants && x.token == t; assert x in grants + [g]; }
    }
    forall c ensures CodeGranted(grants + [g], c) <==> CodeGranted(grants, c) || g.factor == Recovery(c) {
      if g.factor == Recovery(c) { assert g in grants + [g]; }
      if CodeGranted(grants, c) { var x :| x in grants && x.factor == Recovery(c); assert x in grants + [g]; }
    }
  }

  lemma CommitKeepsChallenges(s: State, r: nat, drawn: set<nat>)
    requires Good(s) && Enabled(s, Commit(r, drawn))
    ensures var after := Committed(s, r, drawn); ChallengesSpent(after.challenges, after.issued, after.grants)
  {
    var q := s.requests[r];
    assert RequestGood(s, q);
    var after := Committed(s, r, drawn);
    var g := after.grants[|s.grants|];
    GrantAppends(s.grants, g);
    assert !TokenGranted(s.grants, q.token);
    forall i | 0 <= i < |s.grants| ensures s.grants[i].token != q.token { assert s.grants[i] in s.grants; }
  }

  lemma CommitKeepsCodes(s: State, r: nat, drawn: set<nat>)
    requires Good(s) && Enabled(s, Commit(r, drawn))
    ensures var after := Committed(s, r, drawn); CodesSpent(after.codes, after.drawn, after.grants)
  {
    var q := s.requests[r];
    assert RequestGood(s, q);
    var after := Committed(s, r, drawn);
    var g := after.grants[|s.grants|];
    GrantAppends(s.grants, g);
    if q.phase.factor.Recovery? {
      assert !CodeGranted(s.grants, q.phase.factor.code);
      forall i | 0 <= i < |s.grants| ensures s.grants[i].factor != q.phase.factor { assert s.grants[i] in s.grants; }
    } else if q.purpose == ToEnroll {
      forall c | c in drawn ensures !CodeGranted(s.grants, c) { }
    }
  }

  lemma CommitKeeps(s: State, r: nat, drawn: set<nat>)
    requires Good(s) && Enabled(s, Commit(r, drawn))
    ensures Good(Committed(s, r, drawn)) && (Fresh(s) ==> Fresh(Committed(s, r, drawn)))
  {
    CommitKeepsRequests(s, r, drawn);
    CommitKeepsChallenges(s, r, drawn);
    CommitKeepsCodes(s, r, drawn);
    if Fresh(s) {
      CommitKeepsCurrent(s, r, drawn);
      CommitKeepsSteps(s, r, drawn);
    }
  }

  /** A challenge issued once a reset has deleted the others and not yet the factor. */
  predicate IsLate(s: State, step: Step) { step.Issue? && s.reset.ChallengesGone? }

  lemma NextKeeps(s: State, step: Step)
    requires Good(s) && Enabled(s, step)
    ensures Good(Next(s, step)) && (Fresh(s) && !IsLate(s, step) ==> Fresh(Next(s, step)))
  {
    match step
    case Issue(token, purpose) => IssueKeeps(s, token, purpose);
    case Purge(tokens) => PurgeKeeps(s, tokens);
    case BeginEnrollment => BeginKeeps(s);
    case Present(r, token, purpose) => PresentKeeps(s, r, token, purpose);
    case Commit(r, drawn) => CommitKeeps(s, r, drawn);
    case Abort(r) => DropKeeps(s, r);
    case ResetCodes => ResetKeeps(s, step);
    case ResetChallenges => ResetKeeps(s, step);
    case ResetRow => ResetKeeps(s, step);
    case ResetFails => ResetKeeps(s, step);
    case ReadSecret(r) => ReadKeeps(s, r);
    case MatchTotp(r, at) => TotpKeeps(s, r, at);
    case MatchCode(r, code) => CodeKeeps(s, r, code);
    case Spend(r) => SpendKeeps(s, r);
  }

  // ---- Every interleaving ----

  predicate CanRun(s: State, steps: seq<Step>)
    decreases |steps|
  {
    steps == [] || (Enabled(s, steps[0]) && CanRun(Next(s, steps[0]), steps[1..]))
  }

  function Run(s: State, steps: seq<Step>): State
    requires CanRun(s, steps)
    decreases |steps|
  {
    if steps == [] then s else Run(Next(s, steps[0]), steps[1..])
  }

  /** No challenge of the run is late. */
  predicate NoneLate(s: State, steps: seq<Step>)
    requires CanRun(s, steps)
    decreases |steps|
  {
    steps == [] || (!IsLate(s, steps[0]) && NoneLate(Next(s, steps[0]), steps[1..]))
  }

  lemma {:induction false} RunKeeps(s: State, steps: seq<Step>)
    requires Good(s) && CanRun(s, steps)
    ensures Good(Run(s, steps)) && (Fresh(s) && NoneLate(s, steps) ==> Fresh(Run(s, steps)))
    decreases |steps|
  {
    if steps == [] {
    } else {
      NextKeeps(s, steps[0]);
      RunKeeps(Next(s, steps[0]), steps[1..]);
    }
  }

  /**
   * Accepted steps rise in every interleaving that issues no challenge between
   * a reset's deletions of the challenges and of the factor.
   */
  lemma AcceptedStepsRise(steps: seq<Step>)
    requires CanRun(START, steps) && NoneLate(START, steps)
    ensures Rising(Run(START, steps).grants)
  {
    RunKeeps(START, steps);
  }

  /** A challenge and a recovery code each give at most one sign-in, in every interleaving. */
  lemma EachIsSpentOnce(steps: seq<Step>, i: nat, j: nat)
    requires CanRun(START, steps) && i < j < |Run(START, steps).grants|
    ensures var g := Run(START, steps).grants;
      && g[i].token != g[j].token
      && (g[i].factor.Recovery? ==> g[i].factor != g[j].factor)
  {
    RunKeeps(START, steps);
  }

  /**
   * A used challenge and a used recovery code each have their sign-in: a
   * request that loses its challenge has spent nothing. So has the factor's
   * last step, where no challenge was late.
   */
  lemma NothingSpentWithoutSignIn(steps: seq<Step>)
    requires CanRun(START, steps)
    ensures var s := Run(START, steps);
      && (NoneLate(START, steps) && s.row.Some? ==> StepEarned(s.row.value, s.grants))
      && (forall t :: t in s.challenges && s.challenges[t].used ==> TokenGranted(s.grants, t))
      && (forall c :: c in s.codes && s.codes[c] ==> CodeGranted(s.grants, c))
  {
    RunKeeps(START, steps);
  }

  // ---- Where they do not rise ----

  lemma {:induction false} RunsOn(s: State, steps: seq<Step>, step: Step)
    requires CanRun(s, steps) && Enabled(Run(s, steps), step)
    ensures CanRun(s, steps + [step]) && Run(s, steps + [step]) == Next(Run(s, steps), step)
    decreases |steps|
  {
    if steps == [] {
      assert [] + [step] == [step] && [step][1..] == [];
    } else {
      RunsOn(Next(s, steps[0]), steps[1..], step);
      assert (steps + [step])[1..] == steps[1..] + [step];
    }
  }

  ghost predicate Reached(s: State) { exists steps :: CanRun(START, steps) && Run(START, steps) == s }

  lemma ReachesNext(s: State, step: Step)
    requires Reached(s) && Enabled(s, step)
    ensures Reached(Next(s, step))
  {
    var steps :| CanRun(START, steps) && Run(START, steps) == s;
    RunsOn(START, steps, step);
  }

  const FIRST := Grant(0, Totp(1), 0)

  /** A first enrolment has begun. */
  const BEGUN := State(
    Some(FactorRow(0, false, 0)), 1, map[], {}, map[0 := Challenge(ToEnroll, false)], {0}, map[], [], NoReset)

  /** It holds its factor's row and its challenge. */
  const ENROLLING := BEGUN.(requests := map[0 := Request(ToEnroll, 0, 0, Ready(Totp(1)))])

  /** The factor of secret 0 is active, and step 1 was accepted under it. */
  const ENROLLED := State(
    Some(FactorRow(0, true, 1)), 1, map[], {}, map[0 := Challenge(ToEnroll, true)], {0}, map[], [FIRST], NoReset)

  /** A reset has deleted the first challenge; another was issued after. */
  const RESETTING := State(
    Some(FactorRow(0, true, 1)), 1, map[], {},
    map[0 := Challenge(ToEnroll, true), 1 := Challenge(ToVerify, false)], {0, 1},
    map[], [FIRST], ChallengesGone({}, {0}))

  /** Its sign-in has read secret 0. */
  const LATE := RESETTING.(requests := map[1 := Request(ToVerify, 1, 0, Read)])

  /** That sign-in once the reset is over: the row is that of an enrolment that has begun since. */
  const REENROLLED := State(
    Some(FactorRow(1, false, 0)), 2, map[], {}, map[1 := Challenge(ToVerify, false)], {0, 1},
    map[1 := Request(ToVerify, 1, 0, Read)], [FIRST], NoReset)

  const TAKEN := REENROLLED.(requests := map[1 := Request(ToVerify, 1, 0, Ready(Totp(1)))])

  lemma BegunIsReached()
    ensures Reached(BEGUN)
  {
    var none: seq<Step> := [];
    assert CanRun(START, none) && Run(START, none) == START;
    ReachesNext(START, Issue(0, ToEnroll));
    ReachesNext(Next(START, Issue(0, ToEnroll)), BeginEnrollment);
  }

  lemma HoldingIsReached()
    ensures Reached(BEGUN.(requests := map[0 := Request(ToEnroll, 0, 0, Holding(Totp(1)))]))
  {
    BegunIsReached();
    ReachesNext(BEGUN, Present(0, 0, ToEnroll));
    ReachesNext(BEGUN.(requests := map[0 := Request(ToEnroll, 0, 0, Presented)]), MatchTotp(0, 1));
  }

  lemma EnrollingIsReached()
    ensures Reached(ENROLLING)
  {
    HoldingIsReached();
    ReachesNext(BEGUN.(requests := map[0 := Request(ToEnroll, 0, 0, Holding(Totp(1)))]), Spend(0));
  }

  lemma EnrolledIsReached()
    ensures Reached(ENROLLED)
  {
    EnrollingIsReached();
    assert ENROLLING.codes.Keys !! GoneCodes(ENROLLING);
    ReachesNext(ENROLLING, Commit(0, {}));
    var after := Next(ENROLLING, Commit(0, {}));
    assert after.codes == map[] && after.requests == map[] && after.grants == [FIRST];
    assert after.challenges == map[0 := Challenge(ToEnroll, true)];
  }

  lemma ResettingIsReached()
    ensures Reached(RESETTING)
  {
    EnrolledIsReached();
    assert ENROLLED.codes.Keys == {} && ENROLLED.challenges.Keys == {0};
    ReachesNext(ENROLLED, ResetCodes);
    ReachesNext(ENROLLED.(reset := CodesGone({})), ResetChallenges);
    ReachesNext(ENROLLED.(reset := ChallengesGone({}, {0})), Issue(1, ToVerify));
    assert {0} + {1} == {0, 1};
  }

  lemma LateIsReached()
    ensures Reached(LATE)
  {
    ResettingIsReached();
    ReachesNext(RESETTING, Present(1, 1, ToVerify));
    ReachesNext(RESETTING.(requests := map[1 := Request(ToVerify, 1, 0, Presented)]), ReadSecret(1));
  }

  lemma ReenrolledIsReached()
    ensures Reached(REENROLLED)
  {
    LateIsReached();
    ReachesNext(LATE, ResetRow);
    var over := Next(LATE, ResetRow);
    assert over.challenges == map[1 := Challenge(ToVerify, false)] && over.codes == map[];
    ReachesNext(over, BeginEnrollment);
  }

  lemma TakenIsReached()
    ensures Reached(TAKEN)
  {
    ReenrolledIsReached();
    ReachesNext(REENROLLED, MatchTotp(1, 1));
    ReachesNext(REENROLLED.(requests := map[1 := Request(ToVerify, 1, 0, Holding(Totp(1)))]), Spend(1));
  }

  /** With a late challenge a step can be accepted twice under one secret. */
  lemma LateChallengeRepeatsStep()
    ensures exists s :: Reached(s) && !Rising(s.grants)
  {
    TakenIsReached();
    ReachesNext(TAKEN, Commit(1, {}));
    var grants := Next(TAKEN, Commit(1, {})).grants;
    assert grants[0] == FIRST && grants[1] == Grant(1, Totp(1), 0);
  }

  /** Accepted steps rise in all runs, late challenges allowed or not, if and only if they are not. */
  lemma StepsRiseExactlyWithoutLateChallenges(late: bool)
    ensures !late <==>
      forall steps :: CanRun(START, steps) && (late || NoneLate(START, steps)) ==> Rising(Run(START, steps).grants)
  {
    if late {
      LateChallengeRepeatsStep();
      var s :| Reached(s) && !Rising(s.grants);
      var steps :| CanRun(START, steps) && Run(START, steps) == s;
      assert !Rising(Run(START, steps).grants);
    } else {
      forall steps | CanRun(START, steps) && NoneLate(START, steps) ensures Rising(Run(START, steps).grants) {
        AcceptedStepsRise(steps);
      }
    }
  }

  // ---- One transaction alone ----

  /** The statement that tries the presented code: its step if it matched one, else it as a recovery code. */
  function Trying(purpose: Purpose, matched: Option<int>, code: nat): Step {
    if matched.Some? then MatchTotp(0, matched.value) else if purpose == ToVerify then MatchCode(0, code) else Abort(0)
  }

  /** No other request runs, and this one holds its factor, if it goes on at all; no reset runs. */
  predicate Tried(s: State) {
    && s.reset == NoReset
    && forall r :: r in s.requests ==>
      r == 0 && s.requests[0].phase.Holding? && (s.requests[0].purpose == ToEnroll ==> !HoldsCode(s.requests[0]))
  }

  lemma SpentMayCommit(s: State, drawn: set<nat>)
    requires Tried(s) && drawn !! s.drawn && 0 in s.requests && 0 in Next(s, Spend(0)).requests
    ensures Enabled(Next(s, Spend(0)), Commit(0, drawn))
  {
    var spent := Next(s, Spend(0));
    assert forall r :: r in spent.requests ==> r == 0;
    assert spent.codes.Keys !! {};
  }

  function SpendAndCommit(s: State, drawn: set<nat>): State
    requires Tried(s) && drawn !! s.drawn
  {
    if 0 !in s.requests then s
    else
      var spent := Next(s, Spend(0));
      if 0 !in spent.requests then spent
      else
        SpentMayCommit(s, drawn);
        Next(spent, Commit(0, drawn))
  }

  /** Request 0 and no other is about to try its code; no reset runs. */
  predicate AboutToTry(s: State, purpose: Purpose) {
    && s.reset == NoReset && MayMatch(s, 0) && s.requests[0].purpose == purpose
    && forall r :: r in s.requests ==> r == 0
  }

  /** The state once a sign-in alone has read its secret; an activation reads it with its match. */
  function SecretRead(s: State, token: nat, purpose: Purpose): State
    requires s.requests == map[] && s.reset == NoReset
  {
    var shown := s.(requests := map[0 := Request(purpose, token, 0, Presented)]);
    if purpose == ToVerify then Next(shown, ReadSecret(0)) else shown
  }

  lemma ThenTries(s: State, token: nat, purpose: Purpose)
    requires s.requests == map[] && s.reset == NoReset
    ensures var read := SecretRead(s, token, purpose);
      read.drawn == s.drawn && (0 !in read.requests || AboutToTry(read, purpose))
  {
    assert forall r :: r in SecretRead(s, token, purpose).requests ==> r == 0;
  }

  function TryAndSpend(read: State, purpose: Purpose, matched: Option<int>, code: nat, drawn: set<nat>): State
    requires AboutToTry(read, purpose) && drawn !! read.drawn
  {
    SpendAndCommit(Next(read, Trying(purpose, matched, code)), drawn)
  }

  /** The transaction of one presented request with no other running. */
  function Transaction(s: State, token: nat, purpose: Purpose, matched: Option<int>, code: nat, drawn: set<nat>): State
    requires s.requests == map[] && s.reset == NoReset && drawn !! s.drawn
  {
    var read := SecretRead(s, token, purpose);
    ThenTries(s, token, purpose);
    if 0 !in read.requests then read else TryAndSpend(read, purpose, matched, code, drawn)
  }

  lemma SpendAndCommitKeeps(s: State, drawn: set<nat>)
    requires Good(s) && Fresh(s) && Tried(s) && drawn !! s.drawn
    ensures Good(SpendAndCommit(s, drawn)) && Fresh(SpendAndCommit(s, drawn))
  {
    if 0 in s.requests {
      NextKeeps(s, Spend(0));
      var spent := Next(s, Spend(0));
      if 0 in spent.requests {
        SpentMayCommit(s, drawn);
        NextKeeps(spent, Commit(0, drawn));
      }
    }
  }

  lemma SecretReadKeeps(s: State, token: nat, purpose: Purpose)
    requires Good(s) && Fresh(s) && s.requests == map[] && s.reset == NoReset && token in s.issued
    ensures Good(SecretRead(s, token, purpose)) && Fresh(SecretRead(s, token, purpose))
  {
    var shown := s.(requests := map[0 := Request(purpose, token, 0, Presented)]);
    assert Good(shown) && Fresh(shown);
    if purpose == ToVerify { NextKeeps(shown, ReadSecret(0)); }
  }

  lemma TryAndSpendKeeps(read: State, purpose: Purpose, matched: Option<int>, code: nat, drawn: set<nat>)
    requires AboutToTry(read, purpose) && drawn !! read.drawn && Good(read) && Fresh(read)
    ensures var after := TryAndSpend(read, purpose, matched, code, drawn); Good(after) && Fresh(after)
  {
    NextKeeps(read, Trying(purpose, matched, code));
    SpendAndCommitKeeps(Next(read, Trying(purpose, matched, code)), drawn);
  }

  lemma TransactionKeeps(s: State, token: nat, purpose: Purpose, matched: Option<int>, code: nat, drawn: set<nat>)
    requires Good(s) && Fresh(s) && s.requests == map[] && s.reset == NoReset && token in s.issued && drawn !! s.drawn
    ensures var after := Transaction(s, token, purpose, matched, code, drawn); Good(after) && Fresh(after)
  {
    SecretReadKeeps(s, token, purpose);
    ThenTries(s, token, purpose);
    var read := SecretRead(s, token, purpose);
    if 0 in read.requests { TryAndSpendKeeps(read, purpose, matched, code, drawn); }
  }
}
