/** What the calls on openings and applications answer and write. */
module OpeningAnswers {
  import opened Base
  import opened Users
  import opened Applications
  import opened Openings
  import Board

  /** The person is stored under their own number. */
  ghost predicate Keyed(s: State, u: Id) { u in s.board.users ==> s.board.users[u].id == u }

  /** Known, active, and past the temporary password. */
  predicate Present(s: State, u: Id) {
    u in s.board.users && s.board.users[u].isActive && !s.board.users[u].mustChangePassword
  }

  /** The day it is, counted in days of 24 hours. */
  function Day(s: State): int { s.board.clock / 86_400_000_000 }

  /** From s to t: the opening became `row`, and no other changed. */
  ghost predicate OnlyOpening(s: State, t: State, o: Id, row: Opportunity) {
    && t.opportunities.Keys == s.opportunities.Keys && o in t.opportunities && t.opportunities[o] == row
    && forall i | i in s.opportunities && i != o :: t.opportunities[i] == s.opportunities[i]
  }

  /** From s to t: the application became `row`, its timeline gained an entry, and no other
      application changed. */
  ghost predicate OnlyApplication(s: State, t: State, a: Id, row: Application, entry: Entry) {
    && t.applications.Keys == s.applications.Keys && t.timelines.Keys == s.timelines.Keys
    && a in t.applications && t.applications[a] == row
    && a in t.timelines && a in s.timelines && t.timelines[a] == s.timelines[a] + [entry]
    && (forall i | i in s.applications && i != a :: t.applications[i] == s.applications[i])
    && forall i | i in s.timelines && i != a :: t.timelines[i] == s.timelines[i]
  }

  // ----- applying -----

  /** Students apply to anything but collaborations, faculty and coordinators to collaborations
      only; and everybody to openings of others that are open, in time and not full, once. */
  lemma SubmitAnswers(s: State, applicant: Id, o: Id)
    ensures var (t, reply) := Submit(s, applicant, o);
            && (reply == Done <==>
                  && Present(s, applicant) && o in s.opportunities
                  && var user, opening := s.board.users[applicant], s.opportunities[o];
                     && (if opening.kind == Collaboration then user.role in {Faculty, Coordinator} else user.role == Student)
                     && opening.createdBy != applicant && opening.status == Open && Day(s) <= opening.deadline
                     && AcceptedCount(s, o) < opening.positions
                     && forall a | a in s.applications :: s.applications[a].opportunity != o || s.applications[a].applicant != applicant)
            && (reply != Done ==> t == s)
            && (reply == Done && s.next !in s.applications && s.next !in s.timelines ==>
                  && t == s.(applications := t.applications, timelines := t.timelines, next := t.next) && t.next > s.next
                  && t.applications == s.applications[s.next := Application(o, applicant, Submitted, None, None, None)]
                  && t.timelines == s.timelines[s.next := [Entry(Submitted, applicant, None, s.board.clock)]])
  {
    hide AcceptedCount;
  }

  // ----- deciding -----

  /** The decisions a creator can take, by where the application stands. */
  predicate MayDecide(current: Status, target: Status) {
    match target
    case UnderReview => current == Submitted
    case Shortlisted => current in {Submitted, UnderReview}
    case Accepted => current in {UnderReview, Shortlisted}
    case Rejected => current in {Submitted, UnderReview, Shortlisted}
    case _ => false
  }

  /** Who decides, and when: the creator of the opening, one allowed step at a time, and
      accepting only while there is a place. */
  lemma DecidedExactly(s: State, reviewer: Id, a: Id, target: Status, note: Option<string>, join: bool)
    requires s.applications.Keys == s.timelines.Keys && Keyed(s, reviewer)
    ensures var (t, reply) := ChangeStatus(s, reviewer, a, target, note, join);
            && (reply == Done <==>
                  && Present(s, reviewer) && a in s.applications && s.applications[a].opportunity in s.opportunities
                  && var o := s.applications[a].opportunity;
                     && s.opportunities[o].createdBy == reviewer && MayDecide(s.applications[a].status, target)
                     && (target == Accepted ==>
                           s.opportunities[o].status != Filled && AcceptedCount(s, o) < s.opportunities[o].positions))
            && (reply != Done ==> t == s)
  {
    hide AcceptedCount, MarkFilledIfFull;
  }

  /** What a decision writes: the application, signed and dated, with an entry that says so; for
      an acceptance that asks for it, the applicant's place in the project's team, and no other;
      and for an acceptance that leaves no place, the opening as filled and off the board. */
  lemma DecisionsAreWritten(s: State, reviewer: Id, a: Id, target: Status, note: Option<string>, join: bool)
    requires s.applications.Keys == s.timelines.Keys
    requires ChangeStatus(s, reviewer, a, target, note, join).1 == Done
    ensures a in s.applications && s.applications[a].opportunity in s.opportunities
    ensures var t, app := ChangeStatus(s, reviewer, a, target, note, join).0, s.applications[a];
            var o, opening := app.opportunity, s.opportunities[app.opportunity];
            var filled := target == Accepted && opening.status == Open && AcceptedCount(t, o) >= opening.positions;
            && t == s.(applications := t.applications, timelines := t.timelines, members := t.members,
                       opportunities := t.opportunities, board := t.board)
            && OnlyApplication(s, t, a,
                 Application(o, app.applicant, target, note, Some(reviewer), Some(s.board.clock)),
                 Entry(target, reviewer, note, s.board.clock))
            && (forall m :: m in t.members <==>
                  m in s.members || (target == Accepted && join && opening.project.Some? && m == (opening.project.value, app.applicant)))
            && OnlyOpening(s, t, o, if filled then opening.(status := Filled) else opening)
            && t.board == if filled then Board.TakeDown(s.board, o) else s.board
  {
    hide ChangeStatus, AcceptedCount;
    TheApplicationIsWritten(s, reviewer, a, target, note, join);
    TheOpeningFollows(s, reviewer, a, target, note, join);
  }

  lemma TheApplicationIsWritten(s: State, reviewer: Id, a: Id, target: Status, note: Option<string>, join: bool)
    requires s.applications.Keys == s.timelines.Keys
    requires ChangeStatus(s, reviewer, a, target, note, join).1 == Done
    ensures a in s.applications && s.applications[a].opportunity in s.opportunities
    ensures var t, app := ChangeStatus(s, reviewer, a, target, note, join).0, s.applications[a];
            && OnlyApplication(s, t, a,
                 Application(app.opportunity, app.applicant, target, note, Some(reviewer), Some(s.board.clock)),
                 Entry(target, reviewer, note, s.board.clock))
            && (forall m :: m in t.members <==>
                  m in s.members || (target == Accepted && join && s.opportunities[app.opportunity].project.Some?
                                     && m == (s.opportunities[app.opportunity].project.value, app.applicant)))
  {
    hide AcceptedCount, Board.TakeDown;
  }

  lemma TheOpeningFollows(s: State, reviewer: Id, a: Id, target: Status, note: Option<string>, join: bool)
    requires s.applications.Keys == s.timelines.Keys
    requires ChangeStatus(s, reviewer, a, target, note, join).1 == Done
    ensures a in s.applications && s.applications[a].opportunity in s.opportunities
    ensures var t, o := ChangeStatus(s, reviewer, a, target, note, join).0, s.applications[a].opportunity;
            var opening := s.opportunities[o];
            var filled := target == Accepted && opening.status == Open && AcceptedCount(t, o) >= opening.positions;
            && t == s.(applications := t.applications, timelines := t.timelines, members := t.members,
                       opportunities := t.opportunities, board := t.board)
            && OnlyOpening(s, t, o, if filled then opening.(status := Filled) else opening)
            && t.board == if filled then Board.TakeDown(s.board, o) else s.board
  {
    hide AcceptedFor, Board.TakeDown, ActorFor, Allowed;
    var t, o := ChangeStatus(s, reviewer, a, target, note, join).0, s.applications[a].opportunity;
    forall u: State | u.applications == t.applications ensures AcceptedFor(u, o) == AcceptedFor(t, o) { SameRows(u, t, o); }
  }

  lemma SameRows(s: State, t: State, o: Id)
    requires s.applications == t.applications
    ensures AcceptedFor(s, o) == AcceptedFor(t, o)
  {
  }

  /** What a refusal says is so. */
  lemma RefusedForAReason(s: State, person: Id, o: Id, a: Id, target: Status, note: Option<string>, join: bool)
    requires s.applications.Keys == s.timelines.Keys
    ensures match Submit(s, person, o).1
            case Done => true
            case Refused(NotSignedIn) => !Present(s, person)
            case Refused(Forbidden) => s.board.users[person].role !in {Student, Faculty, Coordinator}
            case Refused(OpportunityNotFound) => o !in s.opportunities || s.opportunities[o].status == Drafted
            case Refused(OwnOpportunity) => o in s.opportunities && s.opportunities[o].createdBy == person
            case Refused(Ineligible) =>
              o in s.opportunities && (s.opportunities[o].kind == Collaboration <==> s.board.users[person].role == Student)
            case Refused(NotOpen) => o in s.opportunities && s.opportunities[o].status != Open
            case Refused(DeadlinePassed) => o in s.opportunities && s.opportunities[o].deadline < Day(s)
            case Refused(PositionsFilled) => o in s.opportunities && AcceptedCount(s, o) >= s.opportunities[o].positions
            case Refused(Duplicate) =>
              exists i :: i in s.applications && s.applications[i].opportunity == o && s.applications[i].applicant == person
            case _ => false
    ensures match ChangeStatus(s, person, a, target, note, join).1
            case Done => true
            case Refused(NotSignedIn) => !Present(s, person)
            case Refused(ApplicationNotFound) => true
            case Refused(NotReviewer) =>
              a in s.applications && s.applications[a].opportunity in s.opportunities
              && s.opportunities[s.applications[a].opportunity].createdBy != person
            case Refused(InvalidTransition) => a in s.applications && !MayDecide(s.applications[a].status, target)
            case Refused(PositionsFilled) =>
              target == Accepted && a in s.applications && s.applications[a].opportunity in s.opportunities
              && var opening := s.opportunities[s.applications[a].opportunity];
                 opening.status == Filled || AcceptedCount(s, s.applications[a].opportunity) >= opening.positions
            case _ => false
  {
    hide AcceptedCount, MarkFilledIfFull;
  }

  lemma WithdrawalAnswers(s: State, applicant: Id, a: Id, note: Option<string>)
    requires s.applications.Keys == s.timelines.Keys && Keyed(s, applicant)
    ensures var (t, reply) := WithdrawApplication(s, applicant, a, note);
            && (reply == Done <==>
                  && Present(s, applicant) && a in s.applications && s.applications[a].opportunity in s.opportunities
                  && s.applications[a].applicant == applicant && s.applications[a].status in {Submitted, UnderReview, Shortlisted})
            && (reply != Done ==> t == s)
            && (reply == Done ==>
                  && t == s.(applications := t.applications, timelines := t.timelines)
                  && OnlyApplication(s, t, a, s.applications[a].(status := Withdrawn), Entry(Withdrawn, applicant, note, s.board.clock)))
  {
  }

  // ----- the opening -----

  /** The owner edits a draft or an open opening, within the places already given. */
  lemma UpdateAnswers(s: State, actor: Id, o: Id, p: Patch)
    requires Keyed(s, actor)
    ensures var (t, reply) := UpdateOpportunity(s, actor, o, p);
            && (reply == Done <==>
                  && Present(s, actor) && o in s.opportunities && s.opportunities[o].createdBy == actor
                  && s.opportunities[o].status in {Drafted, Open}
                  && (p.deadline.Some? ==> Day(s) <= p.deadline.value)
                  && (p.positions.Some? ==> 1 <= p.positions.value <= 100 && AcceptedCount(s, o) <= p.positions.value))
            && (reply != Done ==> t == s)
            && (reply == Done ==>
                  && t == s.(opportunities := t.opportunities) && o in t.opportunities
                  && var was, row := s.opportunities[o], t.opportunities[o];
                     && OnlyOpening(s, t, o, was.(title := row.title, text := row.text, kind := row.kind,
                                                  positions := row.positions, deadline := row.deadline))
                     && p == Patch(if p.title.Some? then Some(row.title) else None, if p.text.Some? then Some(row.text) else None,
                                   if p.kind.Some? then Some(row.kind) else None,
                                   if p.positions.Some? then Some(row.positions) else None,
                                   if p.deadline.Some? then Some(row.deadline) else None)
                     && (p.title.None? ==> row.title == was.title) && (p.text.None? ==> row.text == was.text)
                     && (p.kind.None? ==> row.kind == was.kind) && (p.positions.None? ==> row.positions == was.positions)
                     && (p.deadline.None? ==> row.deadline == was.deadline))
  {
    hide AcceptedCount;
  }

  /** The owner opens a draft that is in time and whose project, if it has one, is active; it
      appears on the board. */
  lemma PublishAnswers(s: State, user: Id, o: Id)
    requires Keyed(s, user)
    ensures var (t, reply) := PublishOpportunity(s, user, o);
            && (reply == Done <==>
                  && Present(s, user) && o in s.opportunities && s.opportunities[o].createdBy == user
                  && s.opportunities[o].status == Drafted && Day(s) <= s.opportunities[o].deadline
                  && (s.opportunities[o].project.Some? ==> s.opportunities[o].project.value in s.activeProjects))
            && (reply != Done ==> t == s)
            && (reply == Done ==>
                  && t == s.(opportunities := t.opportunities, board := t.board)
                  && OnlyOpening(s, t, o, s.opportunities[o].(status := Open))
                  && var was := s.opportunities[o];
                     t.board == Board.Raise(s.board, o, Board.Opening(was.title, was.text, was.department, was.createdBy)))
  {
    hide Board.Raise;
  }

  /** The owner and administrators close a draft or an open opening, and the coordinator of its
      department an open one; it leaves the board. */
  lemma CloseAnswers(s: State, user: Id, o: Id)
    requires Keyed(s, user)
    ensures var (t, reply) := CloseOpportunity(s, user, o);
            && (reply == Done <==>
                  && Present(s, user) && o in s.opportunities
                  && var u, opening := s.board.users[user], s.opportunities[o];
                     || (opening.status in {Drafted, Open} && (opening.createdBy == user || u.role == Role.Admin))
                     || (opening.status == Open && u.role == Coordinator && u.scopeType == Some(DepartmentScope)
                         && u.scopeId.Some? && opening.department == u.scopeId))
            && (reply != Done ==> t == s)
            && (reply == Done ==>
                  && t == s.(opportunities := t.opportunities, board := t.board)
                  && OnlyOpening(s, t, o, s.opportunities[o].(status := Closed)) && t.board == Board.TakeDown(s.board, o))
  {
    hide Board.TakeDown;
  }

  /** A draft is its owner's and its overseers' business: to everybody else, each call answers as
      if it did not exist. */
  lemma DraftsAreHidden(s: State, user: Id, o: Id, p: Patch)
    requires Keyed(s, user) && Present(s, user) && o in s.opportunities && s.opportunities[o].status == Drafted
    requires p.positions.Some? ==> ProperPositions(p.positions.value)
    ensures var u, opening := s.board.users[user], s.opportunities[o];
            var concerned := opening.createdBy == user || u.role == Role.Admin
                             || (u.role == Coordinator && u.scopeType == Some(DepartmentScope) && u.scopeId.Some?
                                 && opening.department == u.scopeId);
            && (concerned <==> UpdateOpportunity(s, user, o, p).1 != Refused(OpportunityNotFound))
            && (concerned <==> PublishOpportunity(s, user, o).1 != Refused(OpportunityNotFound))
            && (concerned <==> CloseOpportunity(s, user, o).1 != Refused(OpportunityNotFound))
  {
    hide AcceptedCount, Board.Raise, Board.TakeDown;
  }

  /** An application is its applicant's and its reviewers' business: to everybody else it does
      not exist. */
  lemma ApplicationsAreHidden(s: State, user: Id, a: Id, target: Status, note: Option<string>, join: bool)
    requires s.applications.Keys == s.timelines.Keys && Keyed(s, user) && Present(s, user)
    requires a in s.applications && s.applications[a].opportunity in s.opportunities
    ensures var u, opening := s.board.users[user], s.opportunities[s.applications[a].opportunity];
            var concerned := s.applications[a].applicant == user || opening.createdBy == user || u.role == Role.Admin
                             || (u.role == Coordinator && u.scopeType == Some(DepartmentScope) && u.scopeId.Some?
                                 && opening.department == u.scopeId);
            && (concerned <==> ChangeStatus(s, user, a, target, note, join).1 != Refused(ApplicationNotFound))
            && (concerned <==> WithdrawApplication(s, user, a, note).1 != Refused(ApplicationNotFound))
  {
    hide AcceptedCount, MarkFilledIfFull;
  }

  // ----- rows that go with others -----

  /** Openings that go take their applications with timelines and their notices along, and no
      other row. */
  lemma OpeningsTakeTheirRows(s: State, gone: set<Id>)
    requires s.applications.Keys == s.timelines.Keys
    ensures var t := WithoutOpenings(s, gone);
            && t == s.(opportunities := t.opportunities, applications := t.applications, timelines := t.timelines, board := t.board)
            && t.opportunities == s.opportunities - gone
            && t.applications.Keys == t.timelines.Keys
            && (forall a :: a in t.applications <==> a in s.applications && s.applications[a].opportunity !in gone)
            && (forall a | a in t.applications :: t.applications[a] == s.applications[a] && t.timelines[a] == s.timelines[a])
            && (forall n :: n in t.board.notices <==>
                  n in s.board.notices && (s.board.notices[n].source.None? || s.board.notices[n].source.value !in gone))
            && forall n | n in t.board.notices :: t.board.notices[n] == s.board.notices[n]
  {
  }

  /** A person who goes takes along their openings with all that hangs on them, their applications
      and their places in teams; decisions they took for others stay, unsigned. */
  lemma AccountsTakeTheirRows(s: State, user: Id)
    requires s.applications.Keys == s.timelines.Keys
    ensures var t := WithoutAccount(s, user);
            && t.opportunities.Keys == (set o | o in s.opportunities && s.opportunities[o].createdBy != user)
            && (forall o | o in t.opportunities :: t.opportunities[o] == s.opportunities[o])
            && (forall a :: a in t.applications <==>
                  && a in s.applications && s.applications[a].applicant != user
                  && (s.applications[a].opportunity in s.opportunities ==>
                        s.opportunities[s.applications[a].opportunity].createdBy != user))
            && t.applications.Keys == t.timelines.Keys
            && (forall a | a in t.applications ::
                  && t.timelines[a] == s.timelines[a]
                  && t.applications[a] == s.applications[a].(decidedBy :=
                       if s.applications[a].decidedBy == Some(user) then None else s.applications[a].decidedBy))
            && (forall m :: m in t.members <==> m in s.members && m.1 != user)
            && t.activeProjects == s.activeProjects && t.next == s.next && user !in t.board.users
  {
  }
}
