/** What a run must have gone through: where administrators and sessions come from. */
module AccountTraces {
  import opened Base
  import opened Users
  import opened Accounts
  import opened Sessions
  import opened Administration
  import opened AccountRuns
  import opened AccountSafety
  import opened AccountAuthority

  /** The state before event number n. */
  ghost function At(s: State, es: seq<Event>, n: nat): State
    requires n <= |es|
  {
    Run(s, es[..n])
  }

  lemma {:induction false} RunEnds(s: State, es: seq<Event>, e: Event)
    ensures Run(s, es + [e]) == Apply(Run(s, es), e)
    decreases |es|
  {
    hide Apply;
    if es == [] {
      assert [] + [e] == [e] && [e][1..] == [];
      assert Run(s, [e]) == Run(Apply(s, e), []);
    } else {
      assert (es + [e])[0] == es[0] && (es + [e])[1..] == es[1..] + [e];
      RunEnds(Apply(s, es[0]), es[1..], e);
    }
  }

  lemma NextState(s: State, es: seq<Event>, n: nat)
    requires n < |es|
    ensures At(s, es, n + 1) == Apply(At(s, es, n), es[n])
  {
    assert es[..n + 1] == es[..n] + [es[n]];
    RunEnds(s, es[..n], es[n]);
  }

  // ----- where an administrator comes from -----

  /** The same code, for the same person, with the same deadline, whatever was guessed since. */
  predicate SameChallenge(c: Challenge, d: Challenge) {
    c.target == d.target && c.requestedBy == d.requestedBy && c.code == d.code && c.expiresAt == d.expiresAt
  }

  /** Event number i opened the challenge: another administrator asked for it. */
  ghost predicate Opened(s: State, es: seq<Event>, i: nat, c: Challenge) {
    && i < |es| && es[i].EvRequest? && Call(At(s, es, i), es[i]).1 == Done
    && SameChallenge(c, Challenge(es[i].target, es[i].actor, es[i].code, At(s, es, i).clock + CODE_TTL, 0, None))
    && es[i].actor in At(s, es, i).users && ActiveAdmin(At(s, es, i).users[es[i].actor]) && es[i].actor != c.target
  }

  /** The challenge was opened before event number n, or was live when the run began. */
  ghost predicate Origin(s: State, es: seq<Event>, n: nat, c: Challenge) {
    || (exists i: nat :: i < n && Opened(s, es, i, c))
    || (exists id :: id in s.challenges && Live(s.challenges[id], c.target) && SameChallenge(s.challenges[id], c))
  }

  lemma LiveBefore(s: State, e: Event, id: Id, target: Id)
    requires ChallengesNumbered(s) && id in Apply(s, e).challenges && Live(Apply(s, e).challenges[id], target)
    ensures var c := Apply(s, e).challenges[id];
            if id in s.challenges then Live(s.challenges[id], target) && SameChallenge(s.challenges[id], c)
            else
              && e.EvRequest? && Call(s, e).1 == Done && e.actor != target
              && SameChallenge(c, Challenge(e.target, e.actor, e.code, s.clock + CODE_TTL, 0, None))
              && e.actor in s.users && ActiveAdmin(s.users[e.actor])
  {
    if !TouchesChallenges(e) {
      hide Apply;
      OtherCallsLeaveChallenges(s, e);
    }
  }

  lemma {:induction false} ChallengesHaveOrigins(s: State, es: seq<Event>, n: nat, id: Id, target: Id)
    requires Sound(s) && n <= |es|
    requires id in At(s, es, n).challenges && Live(At(s, es, n).challenges[id], target)
    ensures Origin(s, es, n, At(s, es, n).challenges[id])
  {
    hide Apply, Sound, Live;
    var c := At(s, es, n).challenges[id];
    if n == 0 {
      assert At(s, es, 0) == s;
      TargetOf(c, target);
      SameAsItself(c);
      assert id in s.challenges && Live(s.challenges[id], c.target) && SameChallenge(s.challenges[id], c);
    } else {
      var t := At(s, es, n - 1);
      NextState(s, es, n - 1);
      RunsKeepSound(s, es[..n - 1]);
      SoundNumbers(t);
      TargetOf(c, target);
      LiveBefore(t, es[n - 1], id, target);
      if id in t.challenges {
        ChallengesHaveOrigins(s, es, n - 1, id, target);
        OriginCarries(s, es, n - 1, t.challenges[id], c);
      } else {
        assert Opened(s, es, n - 1, c);
      }
    }
  }

  lemma TargetOf(c: Challenge, target: Id)
    requires Live(c, target)
    ensures c.target == target
  {
  }

  lemma SameAsItself(c: Challenge)
    ensures SameChallenge(c, c)
  {
  }

  lemma OriginCarries(s: State, es: seq<Event>, n: nat, c: Challenge, d: Challenge)
    requires Origin(s, es, n, c) && SameChallenge(c, d)
    ensures Origin(s, es, n + 1, d)
  {
    hide At, Call;
    if i: nat :| i < n && Opened(s, es, i, c) {
      assert Opened(s, es, i, d);
    }
  }

  /** Event number j makes u an administrator: another active administrator sets the role,
      or confirms, in time, with the code of a challenge of known origin. */
  ghost predicate Makes(s: State, es: seq<Event>, j: nat, u: Id) {
    && j < |es| && (es[j].EvConfirm? || (es[j].EvChangeRole? && es[j].role == Admin)) && es[j].target == u
    && es[j].actor != u && es[j].actor in At(s, es, j).users && ActiveAdmin(At(s, es, j).users[es[j].actor])
    && (es[j].EvConfirm? ==>
          exists c :: Origin(s, es, j, c) && c.target == u && c.code == es[j].code && At(s, es, j).clock < c.expiresAt)
  }

  lemma ConfirmedWithTheCode(s: State, e: Event)
    requires e.EvConfirm? && e.target in s.users && s.users[e.target].role != Admin
    requires e.target in Apply(s, e).users && Apply(s, e).users[e.target].role == Admin
    ensures var id := Found(s, e.target);
            && id.Some? && s.challenges[id.value].code == e.code && s.clock < s.challenges[id.value].expiresAt
            && Live(s.challenges[id.value], e.target)
  {
  }

  /** In every run, whoever is an administrator at the end and was not one at the beginning
      was made one on the way: outright, or by a confirmation that carried the code of a
      challenge which another active administrator opened for them less than CODE_TTL
      before (or which was already open when the run began). */
  lemma {:induction false} AdministratorsHaveAnOrigin(s: State, es: seq<Event>, n: nat, u: Id)
    requires Sound(s) && n <= |es| && (u in s.users ==> s.users[u].role != Admin)
    requires u in At(s, es, n).users && At(s, es, n).users[u].role == Admin
    ensures exists j: nat :: j < n && Makes(s, es, j, u)
  {
    hide Apply, Sound, Live;
    if n != 0 {
      var t, e := At(s, es, n - 1), es[n - 1];
      NextState(s, es, n - 1);
      if u in t.users && t.users[u].role == Admin {
        AdministratorsHaveAnOrigin(s, es, n - 1, u);
      } else {
        RunsKeepSound(s, es[..n - 1]);
        SoundNumbers(t);
        AdministratorsAreMade(t, e, u);
        if e.EvConfirm? {
          ConfirmedWithTheCode(t, e);
          var id := Found(t, u).value;
          TargetOf(t.challenges[id], u);
          ChallengesHaveOrigins(s, es, n - 1, id, u);
        }
        assert Makes(s, es, n - 1, u);
      }
    }
  }

  // ----- the rows of a session -----

  ghost function Rows(s: State, family: Id): set<Id> {
    set i | i in s.tokens && s.tokens[i].family == family
  }

  predicate Renews(s: State, e: Event, reply: Reply, family: Id) {
    e.EvRotate? && reply == Done && e.raw in s.tokens && s.tokens[e.raw].family == family
  }

  ghost function Renewals(s: State, es: seq<Event>, family: Id): nat
    decreases |es|
  {
    if es == [] then 0
    else (if Renews(s, es[0], Call(s, es[0]).1, family) then 1 else 0) + Renewals(Apply(s, es[0]), es[1..], family)
  }

  lemma TokenCallsMoveRows(s: State, e: Event, family: Id, owner: Id)
    requires TokensNumbered(s) && family < s.next && IssuesOrDrops(e) && owner in Apply(s, e).users
    requires forall i | i in Rows(s, family) :: s.tokens[i].user == owner
    ensures Rows(Apply(s, e), family) == Rows(s, family) + (if Renews(s, e, Call(s, e).1, family) then {s.next} else {})
    ensures s.next !in Rows(s, family)
    ensures forall i | i in Rows(Apply(s, e), family) :: Apply(s, e).tokens[i].user == owner
  {
    if e.EvDelete? && Call(s, e).1 == Done {
      assert owner != e.target;
    }
  }

  lemma OtherCallsKeepRows(s: State, e: Event, family: Id, owner: Id)
    requires !IssuesOrDrops(e) && forall i | i in Rows(s, family) :: s.tokens[i].user == owner
    ensures Rows(Apply(s, e), family) == Rows(s, family)
    ensures forall i | i in Rows(Apply(s, e), family) :: Apply(s, e).tokens[i].user == owner
  {
    hide Apply;
    OtherCallsOnlyRevoke(s, e);
  }

  lemma {:induction false} GoneUsersStayGone(s: State, es: seq<Event>, u: Id)
    requires UsersNumbered(s) && u !in s.users && u < s.next
    ensures u !in Run(s, es).users
    decreases |es|
  {
    hide Apply;
    if es != [] {
      KeepsUsersNumbered(s, es[0]);
      NobodyReturns(s, es[0], u);
      GoneUsersStayGone(Apply(s, es[0]), es[1..], u);
    }
  }

  lemma NobodyReturns(s: State, e: Event, u: Id)
    requires UsersNumbered(s) && u !in s.users && u < s.next
    ensures u !in Apply(s, e).users
  {
    if Touched(e) == Some(u) { TouchedKeepNumbers(s, e, u); }
  }

  /** While its owner exists, a family grows by exactly one row for each successful renewal
      and by nothing else: after a login it was renewed as often as it has rows, less one. */
  lemma {:induction false} RowsAreRenewals(s: State, es: seq<Event>, family: Id, owner: Id)
    requires Sound(s) && family < s.next && owner < s.next && owner in Run(s, es).users
    requires forall i | i in Rows(s, family) :: s.tokens[i].user == owner
    ensures |Rows(Run(s, es), family)| == |Rows(s, family)| + Renewals(s, es, family)
    decreases |es|
  {
    hide Apply, Sound, Rows, Renews, Call;
    if es != [] {
      var t := Apply(s, es[0]);
      SoundNumbers(s);
      TokensOf(s);
      KeepsSound(s, es[0]);
      KeepsUsersNumbered(s, es[0]);
      if owner !in t.users {
        SoundNumbers(t);
        GoneUsersStayGone(t, es[1..], owner);
      }
      if IssuesOrDrops(es[0]) {
        TokenCallsMoveRows(s, es[0], family, owner);
      } else {
        OtherCallsKeepRows(s, es[0], family, owner);
        OtherCallsRenewNothing(s, es[0], family);
      }
      RowsAreRenewals(t, es[1..], family, owner);
    }
  }

  lemma OtherCallsRenewNothing(s: State, e: Event, family: Id)
    requires !IssuesOrDrops(e)
    ensures !Renews(s, e, Call(s, e).1, family)
  {
  }

  lemma TokensOf(s: State)
    requires Sound(s)
    ensures TokensNumbered(s) && OneOwner(s.tokens)
  {
  }

  // ----- a session left alone -----

  /** Calls aimed at the session: at its owner's sessions, at this token, or presenting
      another token of the family. */
  predicate Disturbs(e: Event, owner: Id, raw: Id, rows: set<Id>) {
    EndsSessions(e, owner) || (e.EvLogout? && e.raw == raw) || (e.EvRotate? && e.raw in rows)
  }

  ghost predicate Waiting(s: State, raw: Id, token: Token, rows: set<Id>) {
    && raw in s.tokens && s.tokens[raw] == token && token.revokedAt.None? && token.family < s.next
    && Rows(s, token.family) == rows && token.user in s.users && s.users[token.user].isActive
  }

  lemma TokenCallsLeaveWaiting(s: State, e: Event, raw: Id, token: Token, rows: set<Id>)
    requires TokensNumbered(s) && OneOwner(s.tokens) && Waiting(s, raw, token, rows) && IssuesOrDrops(e)
    requires !Disturbs(e, token.user, raw, rows)
    ensures Waiting(Apply(s, e), raw, token, rows)
  {
  }

  /** The calls that revoke, aimed elsewhere, leave this token alone. */
  lemma OtherTokensStand(s: State, e: Event, raw: Id)
    requires !IssuesOrDrops(e) && raw in s.tokens && !EndsSessions(e, s.tokens[raw].user) && !(e.EvLogout? && e.raw == raw)
    ensures raw in Apply(s, e).tokens && Apply(s, e).tokens[raw] == s.tokens[raw]
  {
  }

  lemma OwnersStand(s: State, e: Event, u: Id)
    requires UsersNumbered(s) && u in s.users && s.users[u].isActive && !EndsSessions(e, u)
    ensures u in Apply(s, e).users && Apply(s, e).users[u].isActive
  {
    if Touched(e) != Some(u) {
      hide Apply;
      UntouchedStay(s, e, u);
    }
  }

  lemma WaitingStep(s: State, e: Event, raw: Id, token: Token, rows: set<Id>)
    requires Sound(s) && Waiting(s, raw, token, rows) && !Disturbs(e, token.user, raw, rows)
    ensures Waiting(Apply(s, e), raw, token, rows)
  {
    hide Apply, Sound, Rows;
    SoundNumbers(s);
    TokensOf(s);
    if IssuesOrDrops(e) {
      TokenCallsLeaveWaiting(s, e, raw, token, rows);
    } else {
      OtherTokensStand(s, e, raw);
      OwnersStand(s, e, token.user);
      NumbersAdvance(s, e);
      RowsOnlyRevoked(s, e, token.family);
    }
  }

  lemma RowsOnlyRevoked(s: State, e: Event, family: Id)
    requires !IssuesOrDrops(e)
    ensures Rows(Apply(s, e), family) == Rows(s, family)
  {
    hide Apply;
    OtherCallsOnlyRevoke(s, e);
  }

  lemma LifeIsFixed(s: State, e: Event)
    ensures Apply(s, e).tokenLife == s.tokenLife
  {
  }

  /** A session nobody aims at survives every run: within its lifetime its token renews, and
      the owner goes on with one new token of a full lifetime. */
  lemma UndisturbedSessionsRenew(s: State, es: seq<Event>, raw: Id)
    requires Sound(s) && raw in s.tokens && s.tokens[raw].revokedAt.None?
    requires var token := s.tokens[raw];
             && s.users[token.user].isActive && Run(s, es).clock <= token.expiresAt
             && forall e | e in es :: !Disturbs(e, token.user, raw, Rows(s, token.family))
    ensures var t := Run(s, es);
            var (after, reply) := Rotate(t, raw);
            && reply == Done && t.next in after.tokens
            && after.tokens[t.next] == Token(s.tokens[raw].user, s.tokens[raw].family, t.clock + s.tokenLife, None, None)
  {
    OwnerKnown(s, raw);
    WaitingOverRuns(s, es, raw, s.tokens[raw], Rows(s, s.tokens[raw].family));
  }

  lemma OwnerKnown(s: State, raw: Id)
    requires Sound(s) && raw in s.tokens
    ensures s.tokens[raw].user in s.users && s.tokens[raw].family < s.next && raw < s.next
  {
  }

  lemma {:induction false} WaitingOverRuns(s: State, es: seq<Event>, raw: Id, token: Token, rows: set<Id>)
    requires Sound(s) && Waiting(s, raw, token, rows)
    requires forall e | e in es :: !Disturbs(e, token.user, raw, rows)
    ensures Waiting(Run(s, es), raw, token, rows) && Run(s, es).tokenLife == s.tokenLife && Sound(Run(s, es))
    decreases |es|
  {
    hide Apply, Sound, Waiting, Disturbs;
    if es != [] {
      assert es[0] in es;
      WaitingStep(s, es[0], raw, token, rows);
      KeepsSound(s, es[0]);
      LifeIsFixed(s, es[0]);
      WaitingOverRuns(Apply(s, es[0]), es[1..], raw, token, rows);
    }
  }
}
