/** Applying, deciding, withdrawing and moving an opening along, changing rows in place. */
module OpeningService {
  import opened Base
  import opened Users
  import opened Applications
  import opened Openings
  import Board

  class Database {
    var board: Board.State
    var opportunities: map<Id, Opportunity>
    var applications: map<Id, Application>
    var timelines: map<Id, seq<Entry>>
    var members: set<(Id, Id)>
    var activeProjects: set<Id>
    var next: Id

    constructor (s: State)
      ensures Rows() == s
    {
      board, opportunities, applications := s.board, s.opportunities, s.applications;
      timelines, members, activeProjects, next := s.timelines, s.members, s.activeProjects, s.next;
    }

    function Rows(): State
      reads this
    {
      State(board, opportunities, applications, timelines, members, activeProjects, next)
    }

    method RecordEvent(a: Id, actor: Id, note: Option<string>)
      requires a in applications && a in timelines
      modifies this`timelines
      ensures timelines == old(timelines)[a := old(timelines)[a] + [Entry(applications[a].status, actor, note, board.clock)]]
    {
      timelines := timelines[a := timelines[a] + [Entry(applications[a].status, actor, note, board.clock)]];
    }

    method Submit(applicant: Id, o: Id) returns (reply: Reply)
      modifies this
      ensures (Rows(), reply) == Openings.Submit(old(Rows()), applicant, o)
    {
      if !SignedIn(Rows(), applicant) { return Refused(NotSignedIn); }
      if board.users[applicant].role !in {Student, Faculty, Coordinator} { return Refused(Forbidden); }
      var missing := LoadVisible(Rows(), applicant, o);
      if missing.Some? { return Refused(missing.value); }
      var user, opening := board.users[applicant], opportunities[o];
      if opening.createdBy == applicant { return Refused(OwnOpportunity); }
      if !Eligible(user, opening.kind) { return Refused(Ineligible); }
      if opening.status != Open { return Refused(NotOpen); }
      if opening.deadline < Today(Rows()) { return Refused(DeadlinePassed); }
      if AcceptedCount(Rows(), o) >= opening.positions { return Refused(PositionsFilled); }
      if Applied(Rows(), o, applicant) { return Refused(Duplicate); }
      var a := next;
      next := next + 1;
      applications := applications[a := Application(o, applicant, Submitted, None, None, None)];
      timelines := timelines[a := []];
      RecordEvent(a, applicant, None);
      assert [] + [Entry(Submitted, applicant, None, board.clock)] == [Entry(Submitted, applicant, None, board.clock)];
      assert timelines == old(timelines)[a := [Entry(Submitted, applicant, None, board.clock)]];
      reply := Done;
    }

    method MarkFilledIfFull(o: Id)
      requires o in opportunities
      modifies this
      ensures Rows() == Openings.MarkFilledIfFull(old(Rows()), o)
    {
      if opportunities[o].status == Open && AcceptedCount(Rows(), o) >= opportunities[o].positions {
        opportunities := opportunities[o := opportunities[o].(status := Filled)];
        board := Board.TakeDown(board, o);
      }
    }

    method ChangeStatus(reviewer: Id, a: Id, target: Status, note: Option<string>, join: bool) returns (reply: Reply)
      requires a in applications ==> a in timelines
      modifies this
      ensures (Rows(), reply) == Openings.ChangeStatus(old(Rows()), reviewer, a, target, note, join)
    {
      var missing := Load(Rows(), reviewer, a);
      if missing.Some? { return Refused(missing.value); }
      var o := applications[a].opportunity;
      if opportunities[o].createdBy != reviewer { return Refused(NotReviewer); }
      if Reviewer !in Allowed(applications[a].status, target) { return Refused(InvalidTransition); }
      var accepting := target == Accepted;
      if accepting && (opportunities[o].status == Filled || AcceptedCount(Rows(), o) >= opportunities[o].positions) {
        return Refused(PositionsFilled);
      }
      var decided := applications[a].(status := target, note := note);
      applications := applications[a := decided.(decidedBy := Some(reviewer), decidedAt := Some(board.clock))];
      RecordEvent(a, reviewer, note);
      if accepting {
        var project := opportunities[o].project;
        if join && project.Some? && (project.value, applications[a].applicant) !in members {
          members := members + {(project.value, applications[a].applicant)};
        }
        assert members == if join && project.Some? then old(members) + {(project.value, applications[a].applicant)}
                          else old(members);
        MarkFilledIfFull(o);
      }
      reply := Done;
    }

    method WithdrawApplication(applicant: Id, a: Id, note: Option<string>) returns (reply: Reply)
      requires a in applications ==> a in timelines
      modifies this
      ensures (Rows(), reply) == Openings.WithdrawApplication(old(Rows()), applicant, a, note)
    {
      var missing := Load(Rows(), applicant, a);
      if missing.Some? { return Refused(missing.value); }
      if applications[a].applicant != applicant { return Refused(NotApplicant); }
      if Applicant !in Allowed(applications[a].status, Withdrawn) { return Refused(InvalidTransition); }
      applications := applications[a := applications[a].(status := Withdrawn)];
      RecordEvent(a, applicant, note);
      reply := Done;
    }

    method UpdateOpportunity(actor: Id, o: Id, p: Patch) returns (reply: Reply)
      modifies this
      ensures (Rows(), reply) == Openings.UpdateOpportunity(old(Rows()), actor, o, p)
    {
      if !SignedIn(Rows(), actor) { return Refused(NotSignedIn); }
      if p.positions.Some? && !ProperPositions(p.positions.value) { return Refused(Unprocessable); }
      var missing := LoadVisible(Rows(), actor, o);
      if missing.Some? { return Refused(missing.value); }
      var row := opportunities[o];
      if row.createdBy != actor { return Refused(NotOwner); }
      if row.status !in {Drafted, Open} { return Refused(InvalidTransition); }
      if p.deadline.Some? && p.deadline.value < Today(Rows()) { return Refused(InvalidDeadline); }
      if p.positions.Some? && p.positions.value < AcceptedCount(Rows(), o) { return Refused(PositionsBelowAccepted); }
      if p.title.Some? { row := row.(title := p.title.value); }
      if p.text.Some? { row := row.(text := p.text.value); }
      if p.kind.Some? { row := row.(kind := p.kind.value); }
      if p.positions.Some? { row := row.(positions := p.positions.value); }
      if p.deadline.Some? { row := row.(deadline := p.deadline.value); }
      opportunities := opportunities[o := row];
      reply := Done;
    }

    method PublishOpportunity(user: Id, o: Id) returns (reply: Reply)
      modifies this
      ensures (Rows(), reply) == Openings.PublishOpportunity(old(Rows()), user, o)
    {
      var missing := LoadVisible(Rows(), user, o);
      if missing.Some? { return Refused(missing.value); }
      var opening := opportunities[o];
      var relation := ActorFor(board.users[user], opening);
      if relation.None? { return Refused(NotOwner); }
      if relation.value !in MayMove(opening.status, Open) { return Refused(InvalidTransition); }
      if opening.deadline < Today(Rows()) { return Refused(DeadlinePassed); }
      if opening.project.Some? && opening.project.value !in activeProjects { return Refused(ProjectNotActive); }
      opportunities := opportunities[o := opening.(status := Open)];
      board := Board.Raise(board, o, Advert(opening));
      reply := Done;
    }

    method CloseOpportunity(user: Id, o: Id) returns (reply: Reply)
      modifies this
      ensures (Rows(), reply) == Openings.CloseOpportunity(old(Rows()), user, o)
    {
      var missing := LoadVisible(Rows(), user, o);
      if missing.Some? { return Refused(missing.value); }
      var opening := opportunities[o];
      var relation := ActorFor(board.users[user], opening);
      if relation.None? { return Refused(NotOwner); }
      if relation.value !in MayMove(opening.status, Closed) { return Refused(InvalidTransition); }
      opportunities := opportunities[o := opening.(status := Closed)];
      board := Board.TakeDown(board, o);
      reply := Done;
    }
  }
}
