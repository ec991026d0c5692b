/**
 * The second factor's tables as one request changes them, in the order of its
 * statements, rolled back when its challenge is gone.
 */
module MfaTables {
  import opened Base
  import opened Mfa

  predicate Unspent(s: State, token: nat) { token in s.challenges && !s.challenges[token].used }

  function Granted(s: State, token: nat, factor: Factor): State
    requires s.row.Some? && token in s.challenges
  {
    s.(challenges := s.challenges[token := s.challenges[token].(used := true)],
       grants := s.grants + [Grant(token, factor, s.row.value.secret)])
  }

  lemma VerifiedByStep(s: State, token: nat, at: int, code: nat)
    requires s.requests == map[] && s.reset == NoReset
    ensures Transaction(s, token, ToVerify, Some(at), code, {}) ==
      if s.row.None? || !s.row.value.active || !Unspent(s, token) || s.row.value.lastStep >= at then s
      else Granted(s, token, Totp(at)).(row := Some(s.row.value.(lastStep := at)))
  {
  }

  lemma VerifiedByCode(s: State, token: nat, code: nat)
    requires s.requests == map[] && s.reset == NoReset
    ensures Transaction(s, token, ToVerify, None, code, {}) ==
      if s.row.None? || !s.row.value.active || !Unspent(s, token) || code !in s.codes || s.codes[code] then s
      else Granted(s, token, Recovery(code)).(codes := s.codes[code := true])
  {
  }

  /** A sign-in's transaction in one piece: all of it, or nothing. */
  lemma Verified(s: State, token: nat, matched: Option<int>, code: nat)
    requires s.requests == map[] && s.reset == NoReset
    ensures Transaction(s, token, ToVerify, matched, code, {}) ==
      if s.row.None? || !s.row.value.active || !Unspent(s, token) then s
      else match matched
        case Some(at) =>
          if s.row.value.lastStep >= at then s
          else Granted(s, token, Totp(at)).(row := Some(s.row.value.(lastStep := at)))
        case None =>
          if code !in s.codes || s.codes[code] then s
          else Granted(s, token, Recovery(code)).(codes := s.codes[code := true])
  {
    match matched
    case Some(at) => VerifiedByStep(s, token, at, code);
    case None => VerifiedByCode(s, token, code);
  }

  /** And an activation's. */
  lemma Activated(s: State, token: nat, matched: Option<int>, drawn: set<nat>)
    requires s.requests == map[] && s.reset == NoReset && drawn !! s.drawn
    ensures Transaction(s, token, ToEnroll, matched, 0, drawn) ==
      if s.row.None? || s.row.value.active || matched.None? || !Unspent(s, token) then s
      else Granted(s, token, Totp(matched.value)).(
        row := Some(s.row.value.(active := true, lastStep := matched.value)),
        codes := map c | c in drawn :: false, drawn := s.drawn + drawn)
  {
  }

  /** A reset leaves nothing of a factor, and nothing to sign in with; without one it changes nothing. */
  lemma ResetTakes(s: State)
    requires s.requests == map[] && s.reset == NoReset
    ensures Next(Next(Next(s, ResetCodes), ResetChallenges), ResetRow) ==
      if s.row.None? then s else s.(row := None, codes := map[], challenges := map[])
  {
  }

  /** An enrolment draws a secret no factor had, inactive and without an accepted step; an active factor stays. */
  lemma EnrolmentBegins(s: State)
    requires s.requests == map[] && s.reset == NoReset
    requires s.row.Some? ==> s.row.value.secret < s.secrets
    ensures var t := Next(s, BeginEnrollment);
      if s.row.Some? && s.row.value.active then t == s
      else
        && t.row.Some? && !t.row.value.active && t.row.value.lastStep == 0 && t.row.value.secret < t.secrets
        && (s.row.Some? ==> t.row.value.secret != s.row.value.secret)
        && t.(row := s.row, secrets := s.secrets) == s && t.row.value.secret >= s.secrets
  {
  }

  class Tables {
    var row: Option<FactorRow>
    var secrets: nat
    var codes: map<nat, bool>
    var drawn: set<nat>
    var challenges: map<nat, Challenge>
    var issued: set<nat>
    var grants: seq<Grant>

    constructor ()
      ensures Now() == START
    {
      row, secrets, codes, drawn, challenges, issued, grants := None, 0, map[], {}, map[], {}, [];
    }

    function Now(): State
      reads this
    {
      State(row, secrets, codes, drawn, challenges, issued, map[], grants, NoReset)
    }

    /** A fresh challenge; the person's `expired` ones are deleted first. */
    method IssueChallenge(token: nat, purpose: Purpose, expired: set<nat>)
      requires token !in issued
      modifies this
      ensures Now() == Next(Next(old(Now()), Purge(expired)), Issue(token, purpose))
    {
      challenges := challenges - expired;
      challenges := challenges[token := Challenge(purpose, false)];
      issued := issued + {token};
    }

    /** An administrator's reset; it reports whether there was a factor, and changes nothing when there was none. */
    method ResetFactor() returns (existed: bool)
      modifies this
      ensures Now() == Next(Next(Next(old(Now()), ResetCodes), ResetChallenges), ResetRow)
      ensures existed <==> old(row).Some?
    {
      if row.None? { return false; }
      codes := map[];
      challenges := map[];
      row := None;
      return true;
    }

    /** A fresh secret, unless the factor is active already. */
    method BeginEnroll() returns (started: bool)
      modifies this
      ensures Now() == Next(old(Now()), BeginEnrollment)
      ensures started <==> !(old(row).Some? && old(row).value.active)
    {
      if row.Some? && row.value.active { return false; }
      row := Some(FactorRow(secrets, false, 0));
      secrets := secrets + 1;
      return true;
    }

    method SpendChallenge(token: nat) returns (spent: bool)
      modifies this`challenges
      ensures spent <==> token in old(challenges) && !old(challenges)[token].used
      ensures challenges ==
        if spent then old(challenges)[token := old(challenges)[token].(used := true)] else old(challenges)
    {
      spent := token in challenges && !challenges[token].used;
      if spent { challenges := challenges[token := challenges[token].(used := true)]; }
    }

    /**
     * A sign-in's transaction, its challenge resolved some time before: a step
     * ahead of the last accepted, or else an unused recovery code, and then
     * the challenge, or all of it undone.
     */
    method VerifyMfa(token: nat, matched: Option<int>, code: nat) returns (signedIn: bool)
      modifies this
      ensures Now() == Transaction(old(Now()), token, ToVerify, matched, code, {})
      ensures signedIn <==> |grants| == |old(grants)| + 1
    {
      Verified(Now(), token, matched, code);
      if row.None? || !row.value.active { return false; }
      var saved := (row, codes);
      var factor: Factor;
      if matched.Some? {
        if row.value.lastStep >= matched.value { return false; }
        row := Some(row.value.(lastStep := matched.value));
        factor := Totp(matched.value);
      } else {
        if code !in codes || codes[code] { return false; }
        codes := codes[code := true];
        factor := Recovery(code);
      }
      var spent := SpendChallenge(token);
      if !spent {
        row, codes := saved.0, saved.1;
        return false;
      }
      grants := grants + [Grant(token, factor, row.value.secret)];
      return true;
    }

    /**
     * The first code of an enrollment: the challenge goes first, then the
     * factor is active and its recovery codes are issued.
     */
    method ActivateEnrollment(token: nat, matched: Option<int>, newCodes: set<nat>) returns (signedIn: bool)
      requires newCodes !! drawn
      modifies this
      ensures Now() == Transaction(old(Now()), token, ToEnroll, matched, 0, newCodes)
      ensures signedIn <==> |grants| == |old(grants)| + 1
    {
      Activated(Now(), token, matched, newCodes);
      if row.None? || row.value.active || matched.None? { return false; }
      var spent := SpendChallenge(token);
      if !spent { return false; }
      row := Some(row.value.(active := true, lastStep := matched.value));
      codes := map c | c in newCodes :: false;
      drawn := drawn + newCodes;
      grants := grants + [Grant(token, Totp(matched.value), row.value.secret)];
      return true;
    }
  }
}
