/** How far authority reaches: sessions that lapse, the temporary-password wall, the
    hierarchy and the department. */
module AccountAuthority {
  import opened Base
  import opened Users
  import opened Accounts
  import opened Sessions
  import opened Administration
  import opened AccountRuns
  import opened AccountSafety

  // ----- sessions lapse -----

  /** Every token of the family is revoked or past its lifetime. */
  ghost predicate Lapsed(s: State, family: Id) {
    && family < s.next
    && forall i | i in s.tokens && s.tokens[i].family == family ::
         s.tokens[i].revokedAt.Some? || s.tokens[i].expiresAt < s.clock
  }

  lemma TokenCallsLeaveLapsed(s: State, e: Event, family: Id)
    requires Lapsed(s, family) && IssuesOrDrops(e)
    ensures Lapsed(Apply(s, e), family)
  {
  }

  lemma LapsedStaysLapsed(s: State, e: Event, family: Id)
    requires UsersNumbered(s) && Lapsed(s, family)
    ensures Lapsed(Apply(s, e), family)
  {
    hide Apply, UsersNumbered;
    if IssuesOrDrops(e) {
      TokenCallsLeaveLapsed(s, e, family);
    } else {
      KeepsUsersNumbered(s, e);
      OtherCallsOnlyRevoke(s, e);
    }
  }

  /** A session nobody renewed within the lifetime of its last token can never be renewed
      again, whatever anybody does in between. */
  lemma {:induction false} LapsedSessionsAreOver(s: State, es: seq<Event>, family: Id, raw: Id)
    requires Sound(s) && Lapsed(s, family)
    ensures var t := Run(s, es);
            raw in t.tokens && t.tokens[raw].family == family ==> Rotate(t, raw).1 == Refused(InvalidRefreshToken)
    decreases |es|
  {
    if es != [] {
      SoundNumbers(s);
      LapsedStaysLapsed(s, es[0], family);
      KeepsSound(s, es[0]);
      LapsedSessionsAreOver(Apply(s, es[0]), es[1..], family, raw);
    }
  }

  lemma SoundNumbers(s: State)
    requires Sound(s)
    ensures UsersNumbered(s) && ChallengesNumbered(s) && OneChallengeEach(s.challenges)
  {
  }

  // ----- the temporary password -----

  predicate Walled(s: State, u: Id) { u < s.next && (u in s.users ==> s.users[u].mustChangePassword) }

  lemma WalledStep(s: State, e: Event, u: Id)
    requires UsersNumbered(s) && Walled(s, u) && !(e.EvChangePassword? && e.user == u)
    ensures Walled(Apply(s, e), u)
  {
    if u in s.users && Touched(e) != Some(u) {
      hide Apply;
      UntouchedStay(s, e, u);
      KeepsUsersNumbered(s, e);
    }
  }

  /** An account behind a temporary password stays there over every run in which its owner
      does not replace it, and can exercise no permission meanwhile. */
  lemma {:induction false} WalledUntilChanged(s: State, es: seq<Event>, u: Id, permission: Permission)
    requires UsersNumbered(s) && Walled(s, u) && forall e | e in es :: !(e.EvChangePassword? && e.user == u)
    ensures Acting(Run(s, es), u, permission).Some?
    decreases |es|
  {
    if es != [] {
      assert es[0] in es;
      WalledStep(s, es[0], u);
      KeepsUsersNumbered(s, es[0]);
      WalledUntilChanged(Apply(s, es[0]), es[1..], u, permission);
    }
  }

  /** A created account starts walled, active, unverified and below its creator. */
  lemma CreatedBelow(s: State, creator: Id, named: Option<Id>, temporary: nat, override: Option<Role>)
    requires UsersNumbered(s) && CreateAccount(s, creator, named, temporary, override).1 == Done
    ensures var t := CreateAccount(s, creator, named, temporary, override).0;
            && t.users.Keys == s.users.Keys + {s.next} && s.next !in s.users
            && (forall u | u in s.users :: t.users[u] == s.users[u])
            && var v, c := t.users[s.next], s.users[creator];
               && Walled(t, s.next) && v.isActive && !v.verified && v.password == temporary
               && Rank(v.role) < Rank(c.role)
               && (v.role == Coordinator ==> CoordinatorDepartment(v) == v.department && v.department.Some?)
               && (c.role != Admin ==> v.department.Some? && v.department == ActorDepartment(c) && (c.role == Faculty ==> c.verified))
  {
  }

  // ----- the hierarchy -----

  function Rank(role: Role): nat {
    match role
    case Student => 0
    case Faculty => 1
    case Custodian => 1
    case Coordinator => 2
    case Dean => 3
    case Admin => 4
  }

  /** Who performs a call on other people's accounts. */
  function Performer(e: Event): Option<Id> {
    match e
    case EvResetPassword(actor, _, _) => Some(actor)
    case EvSetActive(actor, _, _) => Some(actor)
    case EvChangeRole(actor, _, _) => Some(actor)
    case EvUpdateUser(actor, _, _) => Some(actor)
    case EvDelete(actor, _) => Some(actor)
    case EvConfirm(actor, _, _) => Some(actor)
    case EvCreate(actor, _, _, _) => Some(actor)
    case EvRequest(actor, _, _) => Some(actor)
    case _ => None
  }

  /** Below the administrators, nobody changes or removes another person's account unless
      that person ranks strictly lower and is in the one department they answer for; and
      an unverified faculty member does so to nobody. */
  lemma AuthorityStaysHome(s: State, e: Event, u: Id)
    requires UsersNumbered(s) && u in s.users
    requires Performer(e).Some? && Performer(e).value in s.users && s.users[Performer(e).value].role != Admin
    requires u !in Apply(s, e).users || Apply(s, e).users[u] != s.users[u]
    ensures var a := s.users[Performer(e).value];
            && u != a.id && Rank(s.users[u].role) < Rank(a.role)
            && s.users[u].department.Some? && s.users[u].department == ActorDepartment(a)
            && (a.role == Faculty ==> a.verified)
  {
    if Touched(e) != Some(u) {
      UntouchedStay(s, e, u);
    }
  }

  // ----- the promotion, from request to confirmation -----

  /** A request leaves the target with one live challenge: this one, with every guess left. */
  lemma RequestOpensOne(s: State, actor: Id, target: Id, code: nat)
    requires ChallengesNumbered(s) && RequestPromotion(s, actor, target, code).1 == Done
    ensures var t := RequestPromotion(s, actor, target, code).0;
            && Found(t, target) == Some(s.next) && GuessesLeft(t, target) == MAX_ATTEMPTS
            && t.challenges[s.next].code == code && t.challenges[s.next].requestedBy == actor
            && t.challenges[s.next].expiresAt == s.clock + CODE_TTL
  {
    var t := RequestPromotion(s, actor, target, code).0;
    assert Live(t.challenges[s.next], target);
  }

  /** No live challenge, or none that is in time and within its guesses. */
  ghost predicate Hopeless(s: State, target: Id) {
    Found(s, target).Some? ==>
      var c := s.challenges[Found(s, target).value];
      c.attempts >= MAX_ATTEMPTS || c.expiresAt <= s.clock
  }

  lemma HopelessOtherwise(s: State, t: State, target: Id)
    requires OneChallengeEach(s.challenges) && t.challenges == s.challenges && s.clock <= t.clock && Hopeless(s, target)
    ensures Hopeless(t, target)
  {
  }

  lemma ChallengeCallsStayHopeless(s: State, e: Event, target: Id)
    requires OneChallengeEach(s.challenges) && ChallengesNumbered(s) && TouchesChallenges(e)
    requires Hopeless(s, target) && !(e.EvRequest? && e.target == target)
    ensures Hopeless(Apply(s, e), target)
  {
  }

  lemma HopelessStays(s: State, e: Event, target: Id)
    requires UsersNumbered(s) && OneChallengeEach(s.challenges) && ChallengesNumbered(s)
    requires Hopeless(s, target) && !(e.EvRequest? && e.target == target)
    ensures Hopeless(Apply(s, e), target)
  {
    hide Apply, Hopeless, UsersNumbered;
    if TouchesChallenges(e) {
      ChallengeCallsStayHopeless(s, e, target);
    } else {
      KeepsUsersNumbered(s, e);
      OtherCallsLeaveChallenges(s, e);
      HopelessOtherwise(s, Apply(s, e), target);
    }
  }

  lemma HopelessStep(s: State, e: Event, target: Id)
    requires UsersNumbered(s) && Hopeless(s, target)
    requires target < s.next && (target in s.users ==> s.users[target].role != Admin)
    requires !(e.EvRequest? && e.target == target) && !(e.EvChangeRole? && e.target == target)
    ensures target in Apply(s, e).users ==> Apply(s, e).users[target].role != Admin
  {
    if target in Apply(s, e).users && Apply(s, e).users[target].role == Admin {
      AdministratorsAreMade(s, e, target);
    }
  }

  /** Once the code has expired or its guesses are spent, no run without a new request or an
      outright role change makes the target an administrator. */
  lemma {:induction false} LateOrExhaustedNeverPromotes(s: State, es: seq<Event>, target: Id)
    requires Sound(s) && Hopeless(s, target)
    requires target < s.next && (target in s.users ==> s.users[target].role != Admin)
    requires forall e | e in es :: !(e.EvRequest? && e.target == target) && !(e.EvChangeRole? && e.target == target)
    ensures target in Run(s, es).users ==> Run(s, es).users[target].role != Admin
    decreases |es|
  {
    hide Apply, Hopeless, Sound;
    if es != [] {
      assert es[0] in es;
      SoundNumbers(s);
      HopelessStep(s, es[0], target);
      HopelessStays(s, es[0], target);
      KeepsSound(s, es[0]);
      KeepsUsersNumbered(s, es[0]);
      LateOrExhaustedNeverPromotes(Apply(s, es[0]), es[1..], target);
    }
  }

  // ----- scope left behind -----

  /** An administrator and a coordinator, both where they belong. */
  function TwoOfficers(): State {
    State(0, 1,
          map[0 := User(0, Role.Admin, true, None, None, None, false, 0, false),
              1 := User(1, Coordinator, true, Some(7), Some(DepartmentScope), Some(7), false, 0, false)],
          map[], map[], {7}, 2)
  }

  lemma TwoOfficersAreSound()
    ensures Sound(TwoOfficers())
    ensures forall u | u in TwoOfficers().users :: InScope(TwoOfficers().users[u]) && Placed(TwoOfficers().users[u])
  {
    assert ActiveAdmin(TwoOfficers().users[0]);
  }

  lemma PromotedThere()
    ensures var s := TwoOfficers();
            var t := Apply(Apply(s, EvRequest(0, 1, 5)), EvConfirm(0, 1, 5));
            t.users == s.users[1 := s.users[1].(role := Role.Admin)]
  {
    RequestOpensOne(TwoOfficers(), 0, 1, 5);
  }

  lemma SteppedDownThere(t: State)
    requires t.users == TwoOfficers().users[1 := TwoOfficers().users[1].(role := Role.Admin)]
    ensures Apply(t, EvStepDown(0, Coordinator)).users == t.users[0 := t.users[0].(role := Coordinator)]
  {
    assert ActiveAdmin(t.users[1]);
  }

  /** Both gaps of `RoleStepsAndScope`, in one run: a coordinator is promoted and keeps scope
      and department, and the administrator who promoted them steps down to a coordinator
      who oversees nothing. */
  lemma PromotionAndStepDownLeaveScopeBehind()
    ensures var s := TwoOfficers();
            Sound(s) && forall u | u in s.users :: InScope(s.users[u]) && Placed(s.users[u])
    ensures var t := Run(TwoOfficers(), [EvRequest(0, 1, 5), EvConfirm(0, 1, 5), EvStepDown(0, Coordinator)]);
            && t.users.Keys == {0, 1}
            && t.users[1].role == Admin && !InScope(t.users[1]) && !Placed(t.users[1])
            && t.users[0].role == Coordinator && !InScope(t.users[0])
  {
    hide Apply, Sound;
    var s, request, confirm := TwoOfficers(), EvRequest(0, 1, 5), EvConfirm(0, 1, 5);
    TwoOfficersAreSound();
    PromotedThere();
    SteppedDownThere(Apply(Apply(s, request), confirm));
    ThreeCalls(s, request, confirm, EvStepDown(0, Coordinator));
  }

  lemma ThreeCalls(s: State, a: Event, b: Event, c: Event)
    ensures Run(s, [a, b, c]) == Apply(Apply(Apply(s, a), b), c)
  {
    hide Apply;
    assert [a, b, c][1..] == [b, c] && [b, c][1..] == [c] && [c][1..] == [];
    assert Run(s, [a, b, c]) == Run(Apply(s, a), [b, c]) == Run(Apply(Apply(s, a), b), [c]);
    assert Run(Apply(Apply(s, a), b), [c]) == Run(Apply(Apply(Apply(s, a), b), c), []);
  }
}
