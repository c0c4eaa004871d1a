/** Every interleaving of session and administration calls, over one database. */
module AccountRuns {
  import opened Base
  import opened Users
  import opened Accounts
  import opened Sessions
  import opened Administration

  datatype Event =
    | Tick(now: Time)
    | SetVerified(user: Id, verified: bool)
    | SetDepartments(departments: set<Id>)
    | EvLogin(user: Id, password: nat, portal: Option<Portal>)
    | EvRotate(raw: Id)
    | EvLogout(raw: Id)
    | EvChangePassword(user: Id, current: nat, replacement: nat)
    | EvResetPassword(actor: Id, target: Id, temporary: nat)
    | EvSetActive(actor: Id, target: Id, active: bool)
    | EvChangeRole(actor: Id, target: Id, role: Role)
    | EvUpdateUser(actor: Id, target: Id, patch: Patch)
    | EvDelete(actor: Id, target: Id)
    | EvCreate(actor: Id, department: Option<Id>, temporary: nat, override: Option<Role>)
    | EvRequest(actor: Id, target: Id, code: nat)
    | EvConfirm(actor: Id, target: Id, code: nat)
    | EvStepDown(actor: Id, role: Role)

  /** The challenge a confirmation finds. */
  ghost function Found(s: State, target: Id): (id: Option<Id>)
    ensures if id.Some? then Newest(s.challenges, target, id.value)
            else forall i | i in s.challenges :: !Live(s.challenges[i], target)
  {
    var live := set i | i in s.challenges && Live(s.challenges[i], target);
    assert forall i | i in s.challenges && Live(s.challenges[i], target) :: i in live;
    if live == {} then None
    else
      LargestExists(live);
      var id :| id in live && forall i | i in live :: i <= id;
      Some(id)
  }

  lemma {:induction false} LargestExists(xs: set<Id>)
    requires xs != {}
    ensures exists m :: m in xs && forall x | x in xs :: x <= m
  {
    var x :| x in xs;
    if xs - {x} != {} {
      LargestExists(xs - {x});
      var m :| m in xs - {x} && forall y | y in xs - {x} :: y <= m;
      var top := Max(x, m);
      forall y | y in xs ensures y <= top { assert y == x || y in xs - {x}; }
      assert top in xs;
    } else {
      assert xs == {x};
    }
  }

  ghost function Call(s: State, e: Event): (State, Reply) {
    match e
    case Tick(now) => (s.(clock := Max(s.clock, now)), Done)
    case SetVerified(user, verified) =>
      (if user in s.users then s.(users := s.users[user := s.users[user].(verified := verified)]) else s, Done)
    case SetDepartments(departments) => (s.(departments := departments), Done)
    case EvLogin(user, password, portal) => Login(s, user, password, portal)
    case EvRotate(raw) => Rotate(s, raw)
    case EvLogout(raw) => Logout(s, raw)
    case EvChangePassword(user, current, replacement) => ChangePassword(s, user, current, replacement)
    case EvResetPassword(actor, target, temporary) => ResetPassword(s, actor, target, temporary)
    case EvSetActive(actor, target, active) => SetActive(s, actor, target, active)
    case EvChangeRole(actor, target, role) => ChangeRole(s, actor, target, role)
    case EvUpdateUser(actor, target, patch) => UpdateUser(s, actor, target, patch)
    case EvDelete(actor, target) => Delete(s, actor, target)
    case EvCreate(actor, department, temporary, override) => CreateAccount(s, actor, department, temporary, override)
    case EvRequest(actor, target, code) => RequestPromotion(s, actor, target, code)
    case EvConfirm(actor, target, code) => ConfirmPromotion(s, actor, target, Found(s, target), code)
    case EvStepDown(actor, role) => StepDown(s, actor, role)
  }

  ghost function Apply(s: State, e: Event): State { Call(s, e).0 }

  ghost function Run(s: State, es: seq<Event>): State
    decreases |es|
  {
    if es == [] then s else Run(Apply(s, es[0]), es[1..])
  }

  // ----- what every call keeps -----

  /** Rows are numbered below `next`, users under their own number. */
  ghost predicate UsersNumbered(s: State) {
    forall u | u in s.users :: u < s.next && s.users[u].id == u
  }

  /** Every session belongs to a user. */
  ghost predicate TokensNumbered(s: State) {
    forall i | i in s.tokens :: i < s.next && s.tokens[i].family < s.next && s.tokens[i].user in s.users
  }

  ghost predicate ChallengesNumbered(s: State) {
    forall i | i in s.challenges :: i < s.next && s.challenges[i].target in s.users
  }

  ghost predicate Numbered(s: State) {
    UsersNumbered(s) && TokensNumbered(s) && ChallengesNumbered(s)
  }

  ghost predicate Governed(s: State) {
    exists u :: u in s.users && ActiveAdmin(s.users[u])
  }

  /** A family is one chain: each row that was rotated names the next row of its family,
      and only the last row can be unrevoked. */
  ghost predicate Chained(tokens: map<Id, Token>) {
    forall i | i in tokens :: ChainedAt(tokens, i)
  }

  ghost predicate ChainedAt(tokens: map<Id, Token>, i: Id)
    requires i in tokens
  {
    match tokens[i].replacedBy
    case None => forall k | k in tokens && tokens[k].family == tokens[i].family :: k <= i
    case Some(j) =>
      && tokens[i].revokedAt.Some?
      && i < j && j in tokens && tokens[j].family == tokens[i].family && tokens[j].user == tokens[i].user
      && forall k | k in tokens && tokens[k].family == tokens[i].family :: k <= i || j <= k
  }

  /** All rows of a family are one person's. */
  ghost predicate OneOwner(tokens: map<Id, Token>) {
    forall i, j | i in tokens && j in tokens && tokens[i].family == tokens[j].family :: tokens[i].user == tokens[j].user
  }

  ghost predicate InactiveSignedOut(s: State) {
    forall i | i in s.tokens && s.tokens[i].user in s.users && !s.users[s.tokens[i].user].isActive ::
      s.tokens[i].revokedAt.Some?
  }

  /** At most one live challenge per person, and never more than the allowed guesses. */
  ghost predicate OneChallengeEach(cs: map<Id, Challenge>) {
    && (forall i, j | i in cs && j in cs && Live(cs[i], cs[i].target) && Live(cs[j], cs[i].target) :: i == j)
    && forall i | i in cs :: cs[i].attempts <= MAX_ATTEMPTS
  }

  function Removed(e: Event): Option<Id> { if e.EvDelete? then Some(e.target) else None }

  /** The row a call may change or remove. */
  function Touched(e: Event): Option<Id> {
    match e
    case SetVerified(user, _) => Some(user)
    case EvChangePassword(user, _, _) => Some(user)
    case EvResetPassword(_, target, _) => Some(target)
    case EvSetActive(_, target, _) => Some(target)
    case EvChangeRole(_, target, _) => Some(target)
    case EvUpdateUser(_, target, _) => Some(target)
    case EvDelete(_, target) => Some(target)
    case EvConfirm(_, target, _) => Some(target)
    case EvStepDown(actor, _) => Some(actor)
    case _ => None
  }

  lemma UntouchedStay(s: State, e: Event, u: Id)
    requires UsersNumbered(s) && u in s.users && Touched(e) != Some(u)
    ensures u in Apply(s, e).users && Apply(s, e).users[u] == s.users[u]
  {
  }

  lemma NumbersAdvance(s: State, e: Event)
    ensures s.next <= Apply(s, e).next && s.clock <= Apply(s, e).clock
  {
  }

  /** A call that changes a row keeps it under its number, unless it removes it. */
  lemma TouchedKeepNumbers(s: State, e: Event, u: Id)
    requires UsersNumbered(s) && Touched(e) == Some(u)
    ensures u in Apply(s, e).users ==> u in s.users && Apply(s, e).users[u].id == u
    ensures u in s.users && !e.EvDelete? ==> u in Apply(s, e).users
  {
  }

  lemma NewRowsAreNumbered(s: State, e: Event, u: Id)
    requires u !in s.users && u in Apply(s, e).users
    ensures u < Apply(s, e).next && Apply(s, e).users[u].id == u
  {
  }

  lemma KeepsUsersNumbered(s: State, e: Event)
    requires UsersNumbered(s)
    ensures UsersNumbered(Apply(s, e)) && s.next <= Apply(s, e).next && s.clock <= Apply(s, e).clock
    ensures forall u | u in s.users && Removed(e) != Some(u) :: u in Apply(s, e).users
  {
    hide Apply;
    var t := Apply(s, e);
    NumbersAdvance(s, e);
    if Touched(e).Some? { TouchedKeepNumbers(s, e, Touched(e).value); }
    forall u | u in s.users && Touched(e) != Some(u) ensures u in t.users && t.users[u] == s.users[u] {
      UntouchedStay(s, e, u);
    }
    forall u | u in t.users && u !in s.users ensures u < t.next && t.users[u].id == u {
      NewRowsAreNumbered(s, e, u);
    }
  }

  /** The token table differs at most in rows that are now revoked. */
  ghost predicate OnlyRevoked(a: map<Id, Token>, b: map<Id, Token>) {
    && a.Keys == b.Keys
    && forall i | i in a ::
         || b[i] == a[i]
         || (a[i].revokedAt.None? && b[i].revokedAt.Some? && b[i] == a[i].(revokedAt := b[i].revokedAt))
  }

  predicate IssuesOrDrops(e: Event) { e.EvLogin? || e.EvRotate? || e.EvDelete? }

  /** Every other call at most revokes tokens. */
  lemma OtherCallsOnlyRevoke(s: State, e: Event)
    requires !IssuesOrDrops(e)
    ensures OnlyRevoked(s.tokens, Apply(s, e).tokens)
  {
  }

  lemma TokenCallsKeepNumbered(s: State, e: Event)
    requires UsersNumbered(s) && TokensNumbered(s) && IssuesOrDrops(e)
    ensures TokensNumbered(Apply(s, e))
  {
  }

  lemma KeepsTokensNumbered(s: State, e: Event)
    requires UsersNumbered(s) && TokensNumbered(s)
    ensures TokensNumbered(Apply(s, e))
  {
    hide Apply, UsersNumbered;
    KeepsUsersNumbered(s, e);
    if IssuesOrDrops(e) {
      TokenCallsKeepNumbered(s, e);
    } else {
      OtherCallsOnlyRevoke(s, e);
    }
  }

  predicate TouchesChallenges(e: Event) { e.EvRequest? || e.EvConfirm? || e.EvDelete? }

  lemma OtherCallsLeaveChallenges(s: State, e: Event)
    requires !TouchesChallenges(e)
    ensures Apply(s, e).challenges == s.challenges
  {
  }

  lemma ChallengeCallsKeepNumbered(s: State, e: Event)
    requires UsersNumbered(s) && ChallengesNumbered(s) && TouchesChallenges(e)
    ensures ChallengesNumbered(Apply(s, e))
  {
  }

  lemma KeepsChallengesNumbered(s: State, e: Event)
    requires UsersNumbered(s) && ChallengesNumbered(s)
    ensures ChallengesNumbered(Apply(s, e))
  {
    hide Apply, UsersNumbered;
    KeepsUsersNumbered(s, e);
    if TouchesChallenges(e) {
      ChallengeCallsKeepNumbered(s, e);
    } else {
      OtherCallsLeaveChallenges(s, e);
    }
  }

  lemma KeepsNumbered(s: State, e: Event)
    requires Numbered(s)
    ensures Numbered(Apply(s, e)) && s.next <= Apply(s, e).next && s.clock <= Apply(s, e).clock
  {
    hide Apply, UsersNumbered, TokensNumbered, ChallengesNumbered;
    KeepsUsersNumbered(s, e);
    KeepsTokensNumbered(s, e);
    KeepsChallengesNumbered(s, e);
  }

  /** An administrator stops being one only when another is left. */
  lemma LeavingNeedsAnother(s: State, e: Event, u: Id)
    requires UsersNumbered(s) && u in s.users && ActiveAdmin(s.users[u])
    requires u in Apply(s, e).users ==> !ActiveAdmin(Apply(s, e).users[u])
    ensures Touched(e) == Some(u) && OtherActiveAdmin(s, u)
  {
    if e.EvDelete? {
      assert ActiveAdmin(s.users[e.actor]) && e.actor != u;
    }
  }

  /** No call leaves the platform without an active administrator, although deletion has
      no such check of its own: only an administrator deletes an administrator, and never
      themselves. */
  lemma KeepsGoverned(s: State, e: Event)
    requires UsersNumbered(s) && Governed(s)
    ensures Governed(Apply(s, e))
  {
    hide Apply, UsersNumbered;
    var t := Apply(s, e);
    var u :| u in s.users && ActiveAdmin(s.users[u]);
    if u !in t.users || !ActiveAdmin(t.users[u]) {
      LeavingNeedsAnother(s, e, u);
      var v :| v in s.users && v != u && ActiveAdmin(s.users[v]);
      UntouchedStay(s, e, v);
    }
  }

  lemma TokenCallsKeepInactiveSignedOut(s: State, e: Event)
    requires TokensNumbered(s) && InactiveSignedOut(s) && IssuesOrDrops(e)
    ensures InactiveSignedOut(Apply(s, e))
  {
  }

  /** Only a deactivation makes an active account inactive, and it revokes. */
  lemma InactiveByDeactivation(s: State, e: Event, u: Id)
    requires UsersNumbered(s) && u in s.users && s.users[u].isActive
    requires u in Apply(s, e).users && !Apply(s, e).users[u].isActive
    ensures forall i | i in Apply(s, e).tokens && Apply(s, e).tokens[i].user == u :: Apply(s, e).tokens[i].revokedAt.Some?
  {
  }

  lemma KeepsInactiveSignedOut(s: State, e: Event)
    requires Numbered(s) && InactiveSignedOut(s)
    ensures InactiveSignedOut(Apply(s, e))
  {
    var t := Apply(s, e);
    hide Apply;
    if IssuesOrDrops(e) {
      TokenCallsKeepInactiveSignedOut(s, e);
    } else {
      OtherCallsOnlyRevoke(s, e);
      forall i | i in t.tokens && t.tokens[i].user in t.users && !t.users[t.tokens[i].user].isActive
        ensures t.tokens[i].revokedAt.Some?
      {
        var u := t.tokens[i].user;
        if s.users[u].isActive { InactiveByDeactivation(s, e, u); }
      }
    }
  }

  lemma TokenCallsKeepOneOwner(s: State, e: Event)
    requires TokensNumbered(s) && OneOwner(s.tokens) && IssuesOrDrops(e)
    ensures OneOwner(Apply(s, e).tokens)
  {
  }

  lemma KeepsOneOwner(s: State, e: Event)
    requires Numbered(s) && OneOwner(s.tokens)
    ensures OneOwner(Apply(s, e).tokens)
  {
    hide Apply;
    if IssuesOrDrops(e) {
      TokenCallsKeepOneOwner(s, e);
    } else {
      OtherCallsOnlyRevoke(s, e);
    }
  }

  lemma RevokingKeepsChained(a: map<Id, Token>, b: map<Id, Token>)
    requires Chained(a) && OnlyRevoked(a, b)
    ensures Chained(b)
  {
  }

  lemma LoginKeepsChained(s: State, user: Id)
    requires Numbered(s) && Chained(s.tokens)
    ensures Chained(Issue(s, user, s.next).tokens)
  {
  }

  lemma RotationKeepsChained(a: map<Id, Token>, raw: Id, row: Id, replacement: Token, now: Time)
    requires Chained(a) && raw in a && a[raw].revokedAt.None? && forall i | i in a :: i < row
    requires replacement.family == a[raw].family && replacement.user == a[raw].user
    requires replacement.revokedAt.None? && replacement.replacedBy.None?
    ensures Chained(a[row := replacement][raw := a[raw].(revokedAt := Some(now), replacedBy := Some(row))])
  {
    var b := a[row := replacement][raw := a[raw].(revokedAt := Some(now), replacedBy := Some(row))];
    assert ChainedAt(a, raw);
    forall i | i in b ensures ChainedAt(b, i) {
      if i in a && i != raw {
        assert ChainedAt(a, i);
      }
    }
  }

  lemma LeavingKeepsChained(tokens: map<Id, Token>, user: Id)
    requires Chained(tokens) && OneOwner(tokens)
    ensures Chained(map i | i in tokens && tokens[i].user != user :: tokens[i])
  {
  }

  lemma RefusedRotationOnlyRevokes(s: State, raw: Id)
    requires Rotate(s, raw).1 != Done
    ensures OnlyRevoked(s.tokens, Rotate(s, raw).0.tokens)
  {
  }

  lemma KeepsChained(s: State, e: Event)
    requires Numbered(s) && Chained(s.tokens) && OneOwner(s.tokens)
    ensures Chained(Apply(s, e).tokens)
  {
    hide Chained, OneOwner, OnlyRevoked;
    match e {
      case EvLogin(user, _, _) => LoginKeepsChained(s, user);
      case EvRotate(raw) =>
        if Rotate(s, raw).1.Done? {
          var issued := Token(s.tokens[raw].user, s.tokens[raw].family, s.clock + s.tokenLife, None, None);
          RotationKeepsChained(s.tokens, raw, s.next, issued, s.clock);
        } else {
          RefusedRotationOnlyRevokes(s, raw);
          RevokingKeepsChained(s.tokens, Rotate(s, raw).0.tokens);
        }
      case EvDelete(_, target) => LeavingKeepsChained(s.tokens, target);
      case _ =>
        OtherCallsOnlyRevoke(s, e);
        RevokingKeepsChained(s.tokens, Apply(s, e).tokens);
    }
  }

  lemma RequestingKeepsOneEach(cs: map<Id, Challenge>, target: Id, now: Time, row: Id, c: Challenge)
    requires OneChallengeEach(cs) && row !in cs && c.target == target && c.attempts == 0
    ensures OneChallengeEach(Retire(cs, target, now)[row := c])
  {
  }

  lemma RequestsKeepOneEach(s: State, actor: Id, target: Id, code: nat)
    requires ChallengesNumbered(s) && OneChallengeEach(s.challenges)
    ensures OneChallengeEach(RequestPromotion(s, actor, target, code).0.challenges)
  {
    hide OneChallengeEach, Retire, Acting;
    if RequestPromotion(s, actor, target, code).1 == Done {
      RequestingKeepsOneEach(s.challenges, target, s.clock, s.next, Challenge(target, actor, code, s.clock + CODE_TTL, 0, None));
    }
  }

  lemma ConfirmationsKeepOneEach(s: State, actor: Id, target: Id, code: nat)
    requires OneChallengeEach(s.challenges)
    ensures OneChallengeEach(ConfirmPromotion(s, actor, target, Found(s, target), code).0.challenges)
  {
    hide Acting, Found;
  }

  lemma DeletionsKeepOneEach(s: State, actor: Id, target: Id)
    requires OneChallengeEach(s.challenges)
    ensures OneChallengeEach(Delete(s, actor, target).0.challenges)
  {
    hide Acting, MayDelete;
  }

  lemma ChallengeCallsKeepOneEach(s: State, e: Event)
    requires ChallengesNumbered(s) && OneChallengeEach(s.challenges) && TouchesChallenges(e)
    ensures OneChallengeEach(Apply(s, e).challenges)
  {
    hide OneChallengeEach, RequestPromotion, ConfirmPromotion, Delete;
    match e {
      case EvRequest(actor, target, code) => RequestsKeepOneEach(s, actor, target, code);
      case EvConfirm(actor, target, code) => ConfirmationsKeepOneEach(s, actor, target, code);
      case EvDelete(actor, target) => DeletionsKeepOneEach(s, actor, target);
      case _ =>
    }
  }

  lemma KeepsOneChallengeEach(s: State, e: Event)
    requires Numbered(s) && OneChallengeEach(s.challenges)
    ensures OneChallengeEach(Apply(s, e).challenges)
  {
    hide Apply, OneChallengeEach;
    if TouchesChallenges(e) {
      ChallengeCallsKeepOneEach(s, e);
    } else {
      OtherCallsLeaveChallenges(s, e);
    }
  }
}
