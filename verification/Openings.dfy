/** Openings, the applications to them, and the notices they put on the board. */
module Openings {
  import opened Base
  import opened Users
  import opened Applications
  import Board
  import BoardRuns

  const DAY: Time := 24 * HOUR

  datatype OpportunityStatus = Drafted | Open | Closed | Filled

  /** The deadline is a day number; `text` is what a notice says of the opening. */
  datatype Opportunity = Opportunity(
    createdBy: Id,
    department: Option<Id>,
    project: Option<Id>,
    kind: Kind,
    positions: nat,
    deadline: int,
    status: OpportunityStatus,
    title: string,
    text: string)

  datatype Application = Application(
    opportunity: Id,
    applicant: Id,
    status: Status,
    note: Option<string>,
    decidedBy: Option<Id>,
    decidedAt: Option<Time>)

  datatype State = State(
    board: Board.State,
    opportunities: map<Id, Opportunity>,
    applications: map<Id, Application>,
    timelines: map<Id, seq<Entry>>,
    members: set<(Id, Id)>,
    activeProjects: set<Id>,
    next: Id)

  datatype Error =
    | NotSignedIn | Forbidden | OpportunityNotFound | OwnOpportunity | Ineligible | NotOpen | DeadlinePassed
    | PositionsFilled | Duplicate | ApplicationNotFound | NotReviewer | NotApplicant | InvalidTransition
    | NotOwner | InvalidDeadline | PositionsBelowAccepted | ProjectNotActive | Unprocessable

  datatype Reply = Done | Refused(error: Error)

  // ----- policies -----

  datatype Relation = Owner | ScopedCoordinator | Administrator | TheSystem

  function MayMove(current: OpportunityStatus, target: OpportunityStatus): set<Relation> {
    match (current, target)
    case (Drafted, Open) => {Owner}
    case (Drafted, Closed) => {Owner, Administrator}
    case (Open, Closed) => {Owner, ScopedCoordinator, Administrator}
    case (Open, Filled) => {TheSystem}
    case _ => {}
  }

  function ActorFor(user: User, o: Opportunity): Option<Relation> {
    if o.createdBy == user.id then Some(Owner)
    else if user.role == Admin then Some(Administrator)
    else if CoordinatorDepartment(user).Some? && CoordinatorDepartment(user) == o.department then Some(ScopedCoordinator)
    else None
  }

  predicate Visible(viewer: User, o: Opportunity) {
    || viewer.role == Admin || o.status != Drafted || o.createdBy == viewer.id
    || (CoordinatorDepartment(viewer).Some? && CoordinatorDepartment(viewer) == o.department)
  }

  predicate Eligible(applicant: User, kind: Kind) {
    if applicant.role == Student then kind != Collaboration
    else applicant.role in {Faculty, Coordinator} && kind == Collaboration
  }

  // ----- helpers -----

  predicate SignedIn(s: State, u: Id) { Board.SignedIn(s.board, u) }

  function Today(s: State): int { s.board.clock / DAY }

  function AcceptedFor(s: State, o: Id): set<Id> {
    set a | a in s.applications && s.applications[a].opportunity == o && s.applications[a].status == Accepted
  }

  function AcceptedCount(s: State, o: Id): nat { |AcceptedFor(s, o)| }

  function LoadVisible(s: State, viewer: Id, o: Id): Option<Error> {
    if !SignedIn(s, viewer) then Some(NotSignedIn)
    else if o !in s.opportunities || !Visible(s.board.users[viewer], s.opportunities[o]) then Some(OpportunityNotFound)
    else None
  }

  /** The row and its opening, if the viewer may know of them. */
  function Load(s: State, viewer: Id, a: Id): Option<Error> {
    if !SignedIn(s, viewer) then Some(NotSignedIn)
    else if a !in s.applications || s.applications[a].opportunity !in s.opportunities then Some(ApplicationNotFound)
    else if s.applications[a].applicant != viewer
            && ActorFor(s.board.users[viewer], s.opportunities[s.applications[a].opportunity]).None? then
      Some(ApplicationNotFound)
    else None
  }

  predicate Applied(s: State, o: Id, applicant: Id) {
    exists a | a in s.applications :: s.applications[a].opportunity == o && s.applications[a].applicant == applicant
  }

  // ----- the calls -----

  function Submit(s: State, applicant: Id, o: Id): (State, Reply) {
    if !SignedIn(s, applicant) then (s, Refused(NotSignedIn))
    else if s.board.users[applicant].role !in {Student, Faculty, Coordinator} then (s, Refused(Forbidden))
    else if LoadVisible(s, applicant, o).Some? then (s, Refused(LoadVisible(s, applicant, o).value))
    else
      var user, opening := s.board.users[applicant], s.opportunities[o];
      if opening.createdBy == applicant then (s, Refused(OwnOpportunity))
      else if !Eligible(user, opening.kind) then (s, Refused(Ineligible))
      else if opening.status != Open then (s, Refused(NotOpen))
      else if opening.deadline < Today(s) then (s, Refused(DeadlinePassed))
      else if AcceptedCount(s, o) >= opening.positions then (s, Refused(PositionsFilled))
      else if Applied(s, o, applicant) then (s, Refused(Duplicate))
      else
        (s.(applications := s.applications[s.next := Application(o, applicant, Submitted, None, None, None)],
            timelines := s.timelines[s.next := [Entry(Submitted, applicant, None, s.board.clock)]],
            next := s.next + 1), Done)
  }

  /** The last acceptance fills the opening and takes its notice off the board. */
  function MarkFilledIfFull(s: State, o: Id): State
    requires o in s.opportunities
  {
    if s.opportunities[o].status == Open && AcceptedCount(s, o) >= s.opportunities[o].positions then
      s.(opportunities := s.opportunities[o := s.opportunities[o].(status := Filled)],
         board := Board.TakeDown(s.board, o))
    else s
  }

  /** The application in its new status, with the entry that says so. */
  function Recorded(s: State, a: Id, row: Application, actor: Id, note: Option<string>): State
    requires a in s.timelines
  {
    s.(applications := s.applications[a := row],
       timelines := s.timelines[a := s.timelines[a] + [Entry(row.status, actor, note, s.board.clock)]])
  }

  function ChangeStatus(s: State, reviewer: Id, a: Id, target: Status, note: Option<string>, join: bool): (State, Reply)
    requires a in s.applications ==> a in s.timelines
  {
    if Load(s, reviewer, a).Some? then (s, Refused(Load(s, reviewer, a).value))
    else
      var app := s.applications[a];
      var o := app.opportunity;
      var opening := s.opportunities[o];
      if opening.createdBy != reviewer then (s, Refused(NotReviewer))
      else if Reviewer !in Allowed(app.status, target) then (s, Refused(InvalidTransition))
      else if target == Accepted && (opening.status == Filled || AcceptedCount(s, o) >= opening.positions) then
        (s, Refused(PositionsFilled))
      else
        var decided := app.(status := target, note := note, decidedBy := Some(reviewer), decidedAt := Some(s.board.clock));
        var recorded := Recorded(s, a, decided, reviewer, note);
        if target == Accepted then
          var joined := if join && opening.project.Some? then
                          recorded.(members := recorded.members + {(opening.project.value, app.applicant)})
                        else recorded;
          (MarkFilledIfFull(joined, o), Done)
        else (recorded, Done)
  }

  function WithdrawApplication(s: State, applicant: Id, a: Id, note: Option<string>): (State, Reply)
    requires a in s.applications ==> a in s.timelines
  {
    if Load(s, applicant, a).Some? then (s, Refused(Load(s, applicant, a).value))
    else if s.applications[a].applicant != applicant then (s, Refused(NotApplicant))
    else if Applicant !in Allowed(s.applications[a].status, Withdrawn) then (s, Refused(InvalidTransition))
    else (Recorded(s, a, s.applications[a].(status := Withdrawn), applicant, note), Done)
  }

  datatype Patch = Patch(title: Option<string>, text: Option<string>, kind: Option<Kind>,
                         positions: Option<nat>, deadline: Option<int>)

  function Patched(o: Opportunity, p: Patch): Opportunity {
    o.(title := if p.title.Some? then p.title.value else o.title,
       text := if p.text.Some? then p.text.value else o.text,
       kind := if p.kind.Some? then p.kind.value else o.kind,
       positions := if p.positions.Some? then p.positions.value else o.positions,
       deadline := if p.deadline.Some? then p.deadline.value else o.deadline)
  }

  const MAX_POSITIONS := 100

  /** The numbers of places a request may name. */
  predicate ProperPositions(n: int) { 1 <= n <= MAX_POSITIONS }

  function UpdateOpportunity(s: State, actor: Id, o: Id, p: Patch): (State, Reply) {
    if !SignedIn(s, actor) then (s, Refused(NotSignedIn))
    else if p.positions.Some? && !ProperPositions(p.positions.value) then (s, Refused(Unprocessable))
    else if LoadVisible(s, actor, o).Some? then (s, Refused(LoadVisible(s, actor, o).value))
    else if s.opportunities[o].createdBy != actor then (s, Refused(NotOwner))
    else if s.opportunities[o].status !in {Drafted, Open} then (s, Refused(InvalidTransition))
    else if p.deadline.Some? && p.deadline.value < Today(s) then (s, Refused(InvalidDeadline))
    else if p.positions.Some? && p.positions.value < AcceptedCount(s, o) then (s, Refused(PositionsBelowAccepted))
    else (s.(opportunities := s.opportunities[o := Patched(s.opportunities[o], p)]), Done)
  }

  function PublishOpportunity(s: State, user: Id, o: Id): (State, Reply) {
    if LoadVisible(s, user, o).Some? then (s, Refused(LoadVisible(s, user, o).value))
    else
      var opening := s.opportunities[o];
      var relation := ActorFor(s.board.users[user], opening);
      if relation.None? then (s, Refused(NotOwner))
      else if relation.value !in MayMove(opening.status, Open) then (s, Refused(InvalidTransition))
      else if opening.deadline < Today(s) then (s, Refused(DeadlinePassed))
      else if opening.project.Some? && opening.project.value !in s.activeProjects then (s, Refused(ProjectNotActive))
      else
        (s.(opportunities := s.opportunities[o := opening.(status := Open)],
            board := Board.Raise(s.board, o, Advert(opening))), Done)
  }

  function Advert(o: Opportunity): Board.Opening { Board.Opening(o.title, o.text, o.department, o.createdBy) }

  function CloseOpportunity(s: State, user: Id, o: Id): (State, Reply) {
    if LoadVisible(s, user, o).Some? then (s, Refused(LoadVisible(s, user, o).value))
    else
      var opening := s.opportunities[o];
      var relation := ActorFor(s.board.users[user], opening);
      if relation.None? then (s, Refused(NotOwner))
      else if relation.value !in MayMove(opening.status, Closed) then (s, Refused(InvalidTransition))
      else
        (s.(opportunities := s.opportunities[o := opening.(status := Closed)], board := Board.TakeDown(s.board, o)), Done)
  }

  // ----- rows that go with others -----

  /** Openings go with their applications, timelines and notices. */
  function WithoutOpenings(s: State, gone: set<Id>): State {
    var notices := set n | n in s.board.notices && s.board.notices[n].source.Some?
                           && s.board.notices[n].source.value in gone;
    WithoutApplications(s.(opportunities := s.opportunities - gone, board := Board.Removed(s.board, notices)),
                        set a | a in s.applications && s.applications[a].opportunity in gone)
  }

  function WithoutApplications(s: State, gone: set<Id>): State {
    s.(applications := s.applications - gone, timelines := s.timelines - gone)
  }

  /** Deleting an account takes its openings and applications along; its decisions and
      its notices stay, unsigned. */
  function WithoutAccount(s: State, user: Id): State {
    var a := WithoutOpenings(s, set o | o in s.opportunities && s.opportunities[o].createdBy == user);
    var b := WithoutApplications(a, set i | i in a.applications && a.applications[i].applicant == user);
    b.(board := BoardRuns.WithoutUser(b.board, user),
       members := (set m | m in b.members && m.1 != user),
       applications := map i | i in b.applications ::
         if b.applications[i].decidedBy == Some(user) then b.applications[i].(decidedBy := None) else b.applications[i])
  }
}
