/** What holds over whole runs of session and administration calls. */
module AccountSafety {
  import opened Base
  import opened Users
  import opened Accounts
  import opened Sessions
  import opened Administration
  import opened AccountRuns

  ghost predicate Sound(s: State) {
    && Numbered(s) && Governed(s) && InactiveSignedOut(s)
    && Chained(s.tokens) && OneOwner(s.tokens) && OneChallengeEach(s.challenges)
  }

  lemma KeepsSound(s: State, e: Event)
    requires Sound(s)
    ensures Sound(Apply(s, e))
  {
    hide Apply, Numbered, Governed, InactiveSignedOut, Chained, OneOwner, OneChallengeEach;
    KeepsNumbered(s, e);
    KeepsGoverned(s, e) by { NumberedUsers(s); }
    KeepsInactiveSignedOut(s, e);
    KeepsChained(s, e);
    KeepsOneOwner(s, e);
    KeepsOneChallengeEach(s, e);
  }

  lemma NumberedUsers(s: State)
    requires Numbered(s)
    ensures UsersNumbered(s)
  {
  }

  /** Any interleaving of the calls keeps an active administrator in charge, leaves
      inactive accounts without a live session, keeps every session family one person's
      chain, and leaves at most one live promotion challenge per person. */
  lemma {:induction false} RunsKeepSound(s: State, es: seq<Event>)
    requires Sound(s)
    ensures Sound(Run(s, es))
    decreases |es|
  {
    hide Apply, Sound;
    if es != [] {
      KeepsSound(s, es[0]);
      RunsKeepSound(Apply(s, es[0]), es[1..]);
    }
  }

  /** In a chain at most one row is unrevoked. */
  lemma OneLivePerFamily(s: State, i: Id, j: Id)
    requires Sound(s) && i in s.tokens && j in s.tokens && s.tokens[i].family == s.tokens[j].family
    requires s.tokens[i].revokedAt.None? && s.tokens[j].revokedAt.None?
    ensures i == j
  {
    assert ChainedAt(s.tokens, i) && ChainedAt(s.tokens, j);
  }

  // ----- replay -----

  ghost predicate FamilyDead(tokens: map<Id, Token>, family: Id) {
    forall i | i in tokens && tokens[i].family == family :: tokens[i].revokedAt.Some?
  }

  /** A used token: still there and revoked, or gone with its whole family. */
  ghost predicate Spent(s: State, raw: Id, family: Id) {
    && family < s.next
    && if raw in s.tokens then s.tokens[raw].family == family && s.tokens[raw].revokedAt.Some?
       else raw < s.next && forall i | i in s.tokens :: s.tokens[i].family != family
  }

  lemma TokenCallsLeaveSpent(s: State, e: Event, raw: Id, family: Id)
    requires TokensNumbered(s) && OneOwner(s.tokens) && Spent(s, raw, family) && IssuesOrDrops(e)
    ensures Spent(Apply(s, e), raw, family)
  {
  }

  lemma SpentStaysSpent(s: State, e: Event, raw: Id, family: Id)
    requires TokensNumbered(s) && UsersNumbered(s) && OneOwner(s.tokens) && Spent(s, raw, family)
    ensures Spent(Apply(s, e), raw, family)
  {
    hide Apply, OneOwner, UsersNumbered, TokensNumbered;
    if IssuesOrDrops(e) {
      TokenCallsLeaveSpent(s, e, raw, family);
    } else {
      KeepsUsersNumbered(s, e);
      OtherCallsOnlyRevoke(s, e);
    }
  }

  lemma DeadStaysDead(s: State, e: Event, family: Id)
    requires family < s.next && FamilyDead(s.tokens, family)
    ensures family < Apply(s, e).next && FamilyDead(Apply(s, e).tokens, family)
  {
  }

  lemma {:induction false} SpentOverRuns(s: State, es: seq<Event>, raw: Id, family: Id)
    requires Sound(s) && Spent(s, raw, family)
    ensures Spent(Run(s, es), raw, family)
    decreases |es|
  {
    if es != [] {
      hide Apply, Spent;
      KeepsSound(s, es[0]);
      SpentStaysSpent(s, es[0], raw, family);
      SpentOverRuns(Apply(s, es[0]), es[1..], raw, family);
    }
  }

  lemma {:induction false} DeadOverRuns(s: State, es: seq<Event>, family: Id)
    requires family < s.next && FamilyDead(s.tokens, family)
    ensures FamilyDead(Run(s, es).tokens, family)
    decreases |es|
  {
    if es != [] {
      hide Apply, FamilyDead;
      DeadStaysDead(s, es[0], family);
      DeadOverRuns(Apply(s, es[0]), es[1..], family);
    }
  }

  /** Presenting a revoked token, however it came to be revoked, is refused and ends its
      family for good: no later run finds a live session in it. */
  lemma RevokedPresentedIsFatal(s: State, raw: Id, after: seq<Event>)
    requires Sound(s) && raw in s.tokens && s.tokens[raw].revokedAt.Some?
    ensures Rotate(s, raw).1 == Refused(InvalidRefreshToken)
    ensures FamilyDead(Run(Rotate(s, raw).0, after).tokens, s.tokens[raw].family)
  {
    FamiliesNumbered(s, raw);
    hide Sound;
    DeadOverRuns(Rotate(s, raw).0, after, s.tokens[raw].family);
  }

  /** In particular a rotated token: presenting it again, however much happened since, is
      refused and ends its family for good. */
  lemma ReplayIsFatal(s: State, raw: Id, between: seq<Event>, after: seq<Event>)
    requires Sound(s) && Rotate(s, raw).1 == Done
    ensures var family := s.tokens[raw].family;
            var replay := Rotate(Run(Rotate(s, raw).0, between), raw);
            replay.1 == Refused(InvalidRefreshToken) && FamilyDead(Run(replay.0, after).tokens, family)
  {
    hide Sound;
    var family := s.tokens[raw].family;
    var rotated := Apply(s, EvRotate(raw));
    KeepsSound(s, EvRotate(raw));
    FamiliesNumbered(s, raw);
    SpentOverRuns(rotated, between, raw, family);
    var later := Run(rotated, between);
    if raw in later.tokens {
      RunsKeepSound(rotated, between);
      RevokedPresentedIsFatal(later, raw, after);
    } else {
      DeadOverRuns(later, after, family);
    }
  }

  lemma FamiliesNumbered(s: State, raw: Id)
    requires Sound(s) && raw in s.tokens
    ensures s.tokens[raw].family < s.next
  {
  }

  // ----- signing out -----

  ghost predicate SignedOut(s: State, user: Id) {
    forall i | i in s.tokens && s.tokens[i].user == user :: s.tokens[i].revokedAt.Some?
  }

  predicate EndsSessions(e: Event, user: Id) {
    || (e.EvChangePassword? && e.user == user)
    || (e.EvResetPassword? && e.target == user)
    || (e.EvSetActive? && e.target == user && !e.active)
    || (e.EvDelete? && e.target == user)
  }

  lemma SignedOutStep(s: State, e: Event, user: Id)
    requires if EndsSessions(e, user) then Call(s, e).1 == Done else SignedOut(s, user) && !(e.EvLogin? && e.user == user)
    ensures SignedOut(Apply(s, e), user)
  {
  }

  lemma {:induction false} NoSessionWithoutLogin(s: State, es: seq<Event>, user: Id)
    requires SignedOut(s, user) && forall e | e in es :: !(e.EvLogin? && e.user == user)
    ensures SignedOut(Run(s, es), user)
    decreases |es|
  {
    if es != [] {
      assert es[0] in es;
      if EndsSessions(es[0], user) && Call(s, es[0]).1 != Done {
        RefusedLeavesTokens(s, es[0], user);
      } else {
        SignedOutStep(s, es[0], user);
      }
      hide Apply, SignedOut;
      NoSessionWithoutLogin(Apply(s, es[0]), es[1..], user);
    }
  }

  lemma RefusedLeavesTokens(s: State, e: Event, user: Id)
    requires EndsSessions(e, user) && Call(s, e).1 != Done
    ensures Apply(s, e) == s
  {
  }

  /** After a password change, a reset, a deactivation or a deletion the account holds no
      live session, and until its owner logs in again no call by anyone gives it one. */
  lemma SignedOutUntilLogin(s: State, e: Event, es: seq<Event>, user: Id)
    requires EndsSessions(e, user) && Call(s, e).1 == Done
    requires forall x | x in es :: !(x.EvLogin? && x.user == user)
    ensures SignedOut(Run(Apply(s, e), es), user)
  {
    SignedOutStep(s, e, user);
    NoSessionWithoutLogin(Apply(s, e), es, user);
  }

  // ----- becoming an administrator -----

  lemma NobodyIsBornAdministrator(s: State, e: Event, u: Id)
    requires u !in s.users && u in Apply(s, e).users
    ensures Apply(s, e).users[u].role != Admin
  {
  }

  /** Only another administrator makes an administrator, by confirming a promotion or by
      setting the role outright; no account is created as one. */
  lemma AdministratorsAreMade(s: State, e: Event, u: Id)
    requires UsersNumbered(s)
    requires u in Apply(s, e).users && Apply(s, e).users[u].role == Admin
    requires u in s.users ==> s.users[u].role != Admin
    ensures u in s.users
    ensures (e.EvConfirm? && e.target == u) || (e.EvChangeRole? && e.target == u && e.role == Admin)
    ensures e.actor != u && e.actor in s.users && ActiveAdmin(s.users[e.actor])
  {
    if u !in s.users {
      hide Apply;
      NobodyIsBornAdministrator(s, e, u);
    } else if Touched(e) != Some(u) {
      hide Apply;
      UntouchedStay(s, e, u);
    }
  }

  /** The guesses the target's challenge still allows. */
  ghost function GuessesLeft(s: State, target: Id): int {
    if Found(s, target).None? then 0 else MAX_ATTEMPTS - s.challenges[Found(s, target).value].attempts
  }

  predicate Wrong(e: Event, reply: Reply, target: Id) {
    e.EvConfirm? && e.target == target && reply == Refused(WrongCode)
  }

  lemma GuessesRunDown(s: State, e: Event, target: Id)
    requires OneChallengeEach(s.challenges) && ChallengesNumbered(s) && !(e.EvRequest? && e.target == target)
    ensures GuessesLeft(Apply(s, e), target) + (if Wrong(e, Call(s, e).1, target) then 1 else 0) <= GuessesLeft(s, target)
  {
    if TouchesChallenges(e) {
      ChallengeCallsRunDown(s, e, target);
    } else {
      hide Apply;
      OtherCallsLeaveChallenges(s, e);
      SameGuesses(s, Apply(s, e), target);
    }
  }

  lemma SameGuesses(s: State, t: State, target: Id)
    requires OneChallengeEach(s.challenges) && s.challenges == t.challenges
    ensures GuessesLeft(t, target) == GuessesLeft(s, target)
  {
  }

  lemma ConfirmationsRunDown(s: State, e: Event, target: Id)
    requires OneChallengeEach(s.challenges) && e.EvConfirm?
    ensures GuessesLeft(Apply(s, e), target) + (if Wrong(e, Call(s, e).1, target) then 1 else 0) <= GuessesLeft(s, target)
  {
  }

  lemma RequestsAndDeletionsRunDown(s: State, e: Event, target: Id)
    requires OneChallengeEach(s.challenges) && ChallengesNumbered(s) && (e.EvRequest? || e.EvDelete?)
    requires !(e.EvRequest? && e.target == target)
    ensures GuessesLeft(Apply(s, e), target) <= GuessesLeft(s, target)
  {
  }

  lemma ChallengeCallsRunDown(s: State, e: Event, target: Id)
    requires OneChallengeEach(s.challenges) && ChallengesNumbered(s) && TouchesChallenges(e)
    requires !(e.EvRequest? && e.target == target)
    ensures GuessesLeft(Apply(s, e), target) + (if Wrong(e, Call(s, e).1, target) then 1 else 0) <= GuessesLeft(s, target)
  {
    hide Apply, Call, GuessesLeft, OneChallengeEach, ChallengesNumbered;
    if e.EvConfirm? {
      ConfirmationsRunDown(s, e, target);
    } else {
      RequestsAndDeletionsRunDown(s, e, target);
    }
  }

  ghost function WrongGuesses(s: State, es: seq<Event>, target: Id): nat
    decreases |es|
  {
    if es == [] then 0
    else (if Wrong(es[0], Call(s, es[0]).1, target) then 1 else 0) + WrongGuesses(Apply(s, es[0]), es[1..], target)
  }

  /** However the guesses are interleaved with other calls, one request buys at most
      MAX_ATTEMPTS wrong codes. */
  lemma {:induction false} OneRequestFewGuesses(s: State, es: seq<Event>, target: Id)
    requires Sound(s) && forall e | e in es :: !(e.EvRequest? && e.target == target)
    ensures WrongGuesses(s, es, target) <= GuessesLeft(s, target) <= MAX_ATTEMPTS
    decreases |es|
  {
    if es != [] {
      assert es[0] in es;
      GuessesRunDown(s, es[0], target);
      KeepsSound(s, es[0]);
      hide Apply, Call, GuessesLeft, Sound;
      OneRequestFewGuesses(Apply(s, es[0]), es[1..], target);
    }
  }
}
