/** Openings, applications and the board over whole runs. */
module OpeningRuns {
  import opened Base
  import opened Users
  import opened Applications
  import opened Openings
  import Board
  import BoardRuns

  datatype Event =
    | UsersChange(users: map<Id, User>)
    | ProjectsChange(active: set<Id>)
    | MembersChange(members: set<(Id, Id)>)
    | OpeningsGone(gone: set<Id>)
    | AccountGone(user: Id)
    | Posted(opening: Opportunity)
    | BoardCall(call: BoardRuns.Event)
    | EvSubmit(applicant: Id, o: Id)
    | EvChangeStatus(reviewer: Id, a: Id, target: Status, note: Option<string>, join: bool)
    | EvWithdraw(applicant: Id, a: Id, note: Option<string>)
    | EvUpdate(actor: Id, o: Id, patch: Patch)
    | EvPublish(user: Id, o: Id)
    | EvClose(user: Id, o: Id)

  /** What people and the clock do to the board directly; notices of openings are raised
      and taken down only by the calls on openings. */
  predicate Direct(call: BoardRuns.Event) {
    !call.EvRaise? && !call.EvTakeDown? && !call.UsersChange? && !call.UserGone?
  }

  function Call(s: State, e: Event): (State, Reply)
    requires s.applications.Keys == s.timelines.Keys
  {
    match e
    case UsersChange(users) => (s.(board := s.board.(users := users)), Done)
    case ProjectsChange(active) => (s.(activeProjects := active), Done)
    case MembersChange(members) => (s.(members := members), Done)
    case OpeningsGone(gone) => (WithoutOpenings(s, gone), Done)
    case AccountGone(user) => (WithoutAccount(s, user), Done)
    case Posted(opening) =>
      (if opening.status == Drafted && ProperPositions(opening.positions)
       then s.(opportunities := s.opportunities[s.next := opening], next := s.next + 1) else s, Done)
    case BoardCall(call) => (if Direct(call) then s.(board := BoardRuns.Apply(s.board, call)) else s, Done)
    case EvSubmit(applicant, o) => Submit(s, applicant, o)
    case EvChangeStatus(reviewer, a, target, note, join) => ChangeStatus(s, reviewer, a, target, note, join)
    case EvWithdraw(applicant, a, note) => WithdrawApplication(s, applicant, a, note)
    case EvUpdate(actor, o, patch) => UpdateOpportunity(s, actor, o, patch)
    case EvPublish(user, o) => PublishOpportunity(s, user, o)
    case EvClose(user, o) => CloseOpportunity(s, user, o)
  }

  function Apply(s: State, e: Event): (t: State)
    requires s.applications.Keys == s.timelines.Keys
    ensures t.applications.Keys == t.timelines.Keys
  {
    Call(s, e).0
  }

  function Run(s: State, es: seq<Event>): State
    requires s.applications.Keys == s.timelines.Keys
    decreases |es|
  {
    if es == [] then s else Run(Apply(s, es[0]), es[1..])
  }

  // ----- what every call keeps -----

  /** The part of an application's row that never changes. */
  ghost predicate Rooted(s: State) {
    && s.applications.Keys == s.timelines.Keys
    && (forall o | o in s.opportunities :: o < s.next)
    && forall a | a in s.applications ::
         && a < s.next
         && s.applications[a].opportunity in s.opportunities
         && s.applications[a].applicant != s.opportunities[s.applications[a].opportunity].createdBy
  }

  ghost predicate WithinPositions(s: State) {
    forall o | o in s.opportunities :: AcceptedCount(s, o) <= s.opportunities[o].positions
  }

  ghost predicate OneEach(s: State) {
    forall a, b | a in s.applications && b in s.applications
                  && s.applications[a].opportunity == s.applications[b].opportunity
                  && s.applications[a].applicant == s.applications[b].applicant :: a == b
  }

  ghost predicate TimelineHolds(s: State, a: Id)
    requires a in s.applications
  {
    && a in s.timelines && s.applications[a].opportunity in s.opportunities
    && Path(s.timelines[a], s.applications[a].applicant, s.opportunities[s.applications[a].opportunity].createdBy,
            s.applications[a].status, s.board.clock)
  }

  ghost predicate Timelines(s: State) { forall a | a in s.applications :: TimelineHolds(s, a) }

  /** An opening is advertised while a published notice names it. */
  ghost predicate Advertised(b: Board.State, o: Id) {
    exists n :: n in b.notices && b.notices[n].status == Board.Published && b.notices[n].source == Some(o)
  }

  /** The board advertises only openings that are open. */
  ghost predicate BoardFollows(s: State) {
    forall o | Advertised(s.board, o) :: o in s.opportunities && s.opportunities[o].status == Open
  }

  ghost predicate Consistent(s: State) { Rooted(s) && WithinPositions(s) && OneEach(s) && Timelines(s) }

  // ----- the shapes a step can have -----

  /** Rows only leave, whole families at a time; what stays keeps what identifies it. */
  ghost predicate Shrunk(s: State, t: State) {
    && t.next == s.next && t.board.clock == s.board.clock
    && t.applications.Keys == t.timelines.Keys
    && (forall o | o in t.opportunities :: o in s.opportunities && t.opportunities[o] == s.opportunities[o])
    && forall a | a in t.applications ::
         && a in s.applications && a in s.timelines && t.timelines[a] == s.timelines[a]
         && t.applications[a].opportunity == s.applications[a].opportunity
         && t.applications[a].applicant == s.applications[a].applicant
         && t.applications[a].status == s.applications[a].status
         && t.applications[a].opportunity in t.opportunities
  }

  lemma ShrinkingKeeps(s: State, t: State)
    requires Consistent(s) && Shrunk(s, t)
    ensures Consistent(t)
  {
    assert Rooted(t) && OneEach(t);
    forall o | o in t.opportunities ensures AcceptedCount(t, o) <= t.opportunities[o].positions {
      assert AcceptedFor(t, o) <= AcceptedFor(s, o);
      SubsetIsSmaller(AcceptedFor(t, o), AcceptedFor(s, o));
      assert AcceptedCount(s, o) <= s.opportunities[o].positions;
    }
    forall a | a in t.applications ensures TimelineHolds(t, a) { assert TimelineHolds(s, a); }
  }

  /** An opening is written, or rewritten within what is already accepted. */
  lemma WritingAnOpeningKeeps(s: State, t: State, o: Id, row: Opportunity)
    requires Consistent(s) && o < t.next && s.next <= t.next && t.board.clock == s.board.clock
    requires t.applications == s.applications && t.timelines == s.timelines
    requires t.opportunities == s.opportunities[o := row]
    requires if o in s.opportunities then row.createdBy == s.opportunities[o].createdBy && AcceptedCount(s, o) <= row.positions
             else forall a | a in s.applications :: s.applications[a].opportunity != o
    ensures Consistent(t)
  {
    assert Rooted(t) && OneEach(t);
    forall i | i in t.opportunities ensures AcceptedCount(t, i) <= t.opportunities[i].positions {
      assert AcceptedFor(t, i) == AcceptedFor(s, i);
      if i !in s.opportunities { assert AcceptedFor(s, i) == {}; }
    }
    forall a | a in t.applications ensures TimelineHolds(t, a) { assert TimelineHolds(s, a); }
  }

  /** A fresh application, to an opening of somebody else's it was not sent to before. */
  ghost predicate Arrived(s: State, t: State, row: Application) {
    && t == s.(applications := s.applications[s.next := row],
               timelines := s.timelines[s.next := [Entry(Submitted, row.applicant, None, s.board.clock)]],
               next := s.next + 1)
    && row.status == Submitted && row.opportunity in s.opportunities
    && row.applicant != s.opportunities[row.opportunity].createdBy
    && !Applied(s, row.opportunity, row.applicant)
  }

  lemma ArrivingKeepsRows(s: State, t: State, row: Application)
    requires Rooted(s) && OneEach(s) && Arrived(s, t, row)
    ensures Rooted(t) && OneEach(t)
  {
  }

  lemma ArrivingKeepsPositions(s: State, t: State, row: Application, o: Id)
    requires Rooted(s) && WithinPositions(s) && Arrived(s, t, row) && o in t.opportunities
    ensures AcceptedCount(t, o) <= t.opportunities[o].positions
  {
    assert AcceptedFor(t, o) == AcceptedFor(s, o);
  }

  lemma ArrivingKeepsTimelines(s: State, t: State, row: Application, a: Id)
    requires Timelines(s) && Arrived(s, t, row) && a in t.applications
    ensures TimelineHolds(t, a)
  {
    if a != s.next { assert TimelineHolds(s, a); }
  }

  lemma ArrivingKeeps(s: State, t: State, row: Application)
    requires Consistent(s) && Arrived(s, t, row)
    ensures Consistent(t)
  {
    hide Rooted, OneEach, Arrived, TimelineHolds, AcceptedCount;
    ArrivingKeepsRows(s, t, row);
    forall o | o in t.opportunities ensures AcceptedCount(t, o) <= t.opportunities[o].positions {
      ArrivingKeepsPositions(s, t, row, o);
    }
    forall a | a in t.applications ensures TimelineHolds(t, a) { ArrivingKeepsTimelines(s, t, row, a); }
  }

  lemma SubmittingKeeps(s: State, applicant: Id, o: Id)
    requires Consistent(s)
    ensures Consistent(Submit(s, applicant, o).0)
  {
    if Submit(s, applicant, o).1 == Done {
      var t := Submit(s, applicant, o).0;
      hide Consistent;
      ArrivingKeeps(s, t, t.applications[s.next]);
    }
  }

  /** One application moves on, and openings change at most their status. */
  ghost predicate Moved(s: State, t: State, a: Id, row: Application, e: Entry)
    requires Rooted(s)
  {
    && a in s.applications && t.next == s.next && t.board.clock == s.board.clock == e.at
    && t.applications == s.applications[a := row] && t.timelines == s.timelines[a := s.timelines[a] + [e]]
    && row.opportunity == s.applications[a].opportunity && row.applicant == s.applications[a].applicant
    && row.status == e.status
    && t.opportunities.Keys == s.opportunities.Keys
    && (forall o | o in s.opportunities ::
          && t.opportunities[o].positions == s.opportunities[o].positions
          && t.opportunities[o].createdBy == s.opportunities[o].createdBy)
    && (row.status == Accepted ==> AcceptedCount(s, row.opportunity) < s.opportunities[row.opportunity].positions)
    && ((e.actor == row.applicant && Applicant in Allowed(s.applications[a].status, e.status))
        || (e.actor == s.opportunities[row.opportunity].createdBy && Reviewer in Allowed(s.applications[a].status, e.status)))
  }

  lemma AcceptedAfterMove(s: State, t: State, a: Id, row: Application, o: Id)
    requires a in s.applications && t.applications == s.applications[a := row]
    requires row.opportunity == s.applications[a].opportunity && s.applications[a].status != Accepted
    ensures AcceptedFor(t, o) == AcceptedFor(s, o) + (if o == row.opportunity && row.status == Accepted then {a} else {})
    ensures a !in AcceptedFor(s, o)
  {
  }

  lemma MovingKeepsPositions(s: State, t: State, a: Id, row: Application, e: Entry, o: Id)
    requires Rooted(s) && WithinPositions(s) && Moved(s, t, a, row, e) && o in t.opportunities
    ensures AcceptedCount(t, o) <= t.opportunities[o].positions
  {
    hide Rooted, AcceptedFor;
    AcceptedAfterMove(s, t, a, row, o);
    assert AcceptedCount(s, o) <= s.opportunities[o].positions;
  }

  lemma MovingKeepsTimelines(s: State, t: State, a: Id, row: Application, e: Entry, i: Id)
    requires Rooted(s) && Timelines(s) && Moved(s, t, a, row, e) && i in t.applications
    ensures TimelineHolds(t, i)
  {
    assert TimelineHolds(s, i);
    if i == a {
      PathGrows(s.timelines[a], row.applicant, s.opportunities[row.opportunity].createdBy,
                s.applications[a].status, s.board.clock, e) by { LastEntry(s, a); }
    }
  }

  lemma LastEntry(s: State, a: Id)
    requires a in s.applications && TimelineHolds(s, a)
    ensures s.timelines[a] != []
    ensures s.timelines[a][|s.timelines[a]| - 1].status == s.applications[a].status
    ensures s.timelines[a][|s.timelines[a]| - 1].at <= s.board.clock
  {
  }

  lemma MovingKeepsRows(s: State, t: State, a: Id, row: Application, e: Entry)
    requires Rooted(s) && OneEach(s) && Moved(s, t, a, row, e)
    ensures Rooted(t) && OneEach(t)
  {
  }

  lemma MovingKeeps(s: State, t: State, a: Id, row: Application, e: Entry)
    requires Consistent(s) && Moved(s, t, a, row, e)
    ensures Consistent(t)
  {
    hide Rooted, OneEach, Moved, TimelineHolds, AcceptedCount;
    MovingKeepsRows(s, t, a, row, e);
    forall o | o in t.opportunities ensures AcceptedCount(t, o) <= t.opportunities[o].positions {
      MovingKeepsPositions(s, t, a, row, e, o);
    }
    forall i | i in t.applications ensures TimelineHolds(t, i) { MovingKeepsTimelines(s, t, a, row, e, i); }
  }

  /** Nothing about openings or applications changes, and time may pass. */
  lemma StandingKeeps(s: State, t: State)
    requires Consistent(s) && s.next <= t.next && s.board.clock <= t.board.clock
    requires t.opportunities == s.opportunities && t.applications == s.applications && t.timelines == s.timelines
    ensures Consistent(t)
  {
    assert Rooted(t) && OneEach(t);
    forall o | o in t.opportunities ensures AcceptedCount(t, o) <= t.opportunities[o].positions {
      assert AcceptedFor(t, o) == AcceptedFor(s, o);
    }
    forall a | a in t.applications ensures TimelineHolds(t, a) { assert TimelineHolds(s, a); }
  }

  lemma KeysMatch(s: State)
    requires Consistent(s)
    ensures s.applications.Keys == s.timelines.Keys
  {
  }

  // ----- each call has one of the shapes -----

  lemma LeavingKeeps(s: State, gone: set<Id>)
    requires Consistent(s)
    ensures Consistent(WithoutOpenings(s, gone))
  {
    ShrinkingKeeps(s, WithoutOpenings(s, gone));
  }

  lemma AccountShrinks(s: State, user: Id)
    requires Rooted(s)
    ensures var a := WithoutOpenings(s, set o | o in s.opportunities && s.opportunities[o].createdBy == user);
            Shrunk(s, a) && (Rooted(a) ==> Shrunk(a, WithoutAccount(s, user)))
  {
  }

  lemma AccountLeavingKeeps(s: State, user: Id)
    requires Consistent(s)
    ensures Consistent(WithoutAccount(s, user))
  {
    hide WithoutAccount, WithoutOpenings, Shrunk, WithinPositions, OneEach, Timelines;
    var a := WithoutOpenings(s, set o | o in s.opportunities && s.opportunities[o].createdBy == user);
    AccountShrinks(s, user);
    ShrinkingKeeps(s, a);
    ShrinkingKeeps(a, WithoutAccount(s, user));
  }

  lemma DecisionMoves(s: State, reviewer: Id, a: Id, target: Status, note: Option<string>, join: bool)
    requires Rooted(s) && ChangeStatus(s, reviewer, a, target, note, join).1 == Done
    ensures var t := ChangeStatus(s, reviewer, a, target, note, join).0;
            a in t.applications && Moved(s, t, a, t.applications[a], Entry(target, reviewer, note, s.board.clock))
  {
    hide AcceptedCount;
  }

  lemma RefusalsChangeNothing(s: State, user: Id, a: Id, target: Status, note: Option<string>, join: bool)
    requires s.applications.Keys == s.timelines.Keys
    ensures ChangeStatus(s, user, a, target, note, join).1 != Done ==> ChangeStatus(s, user, a, target, note, join).0 == s
    ensures WithdrawApplication(s, user, a, note).1 != Done ==> WithdrawApplication(s, user, a, note).0 == s
  {
    hide AcceptedCount;
  }

  lemma DecidingKeeps(s: State, reviewer: Id, a: Id, target: Status, note: Option<string>, join: bool)
    requires Consistent(s)
    ensures Consistent(ChangeStatus(s, reviewer, a, target, note, join).0)
  {
    hide Rooted, WithinPositions, OneEach, Timelines, ChangeStatus, Moved;
    KeysMatch(s);
    RefusalsChangeNothing(s, reviewer, a, target, note, join);
    var r := ChangeStatus(s, reviewer, a, target, note, join);
    if r.1 == Done {
      DecisionMoves(s, reviewer, a, target, note, join);
      MovingKeeps(s, r.0, a, r.0.applications[a], Entry(target, reviewer, note, s.board.clock));
    }
  }

  lemma WithdrawalMoves(s: State, applicant: Id, a: Id, note: Option<string>)
    requires Rooted(s) && WithdrawApplication(s, applicant, a, note).1 == Done
    ensures var t := WithdrawApplication(s, applicant, a, note).0;
            a in t.applications && Moved(s, t, a, t.applications[a], Entry(Withdrawn, applicant, note, s.board.clock))
  {
  }

  lemma WithdrawingKeeps(s: State, applicant: Id, a: Id, note: Option<string>)
    requires Consistent(s)
    ensures Consistent(WithdrawApplication(s, applicant, a, note).0)
  {
    hide Rooted, WithinPositions, OneEach, Timelines, WithdrawApplication, Moved;
    KeysMatch(s);
    RefusalsChangeNothing(s, applicant, a, Withdrawn, note, false);
    var r := WithdrawApplication(s, applicant, a, note);
    if r.1 == Done {
      WithdrawalMoves(s, applicant, a, note);
      MovingKeeps(s, r.0, a, r.0.applications[a], Entry(Withdrawn, applicant, note, s.board.clock));
    }
  }

  lemma UpdatingKeeps(s: State, actor: Id, o: Id, patch: Patch)
    requires Consistent(s)
    ensures Consistent(UpdateOpportunity(s, actor, o, patch).0)
  {
    hide AcceptedCount, OneEach, Timelines;
    var r := UpdateOpportunity(s, actor, o, patch);
    if r.1 == Done {
      WritingAnOpeningKeeps(s, r.0, o, r.0.opportunities[o]);
    }
  }

  lemma PublishingKeeps(s: State, user: Id, o: Id)
    requires Consistent(s)
    ensures Consistent(PublishOpportunity(s, user, o).0)
  {
    hide AcceptedCount, OneEach, Timelines;
    var r := PublishOpportunity(s, user, o);
    if r.1 == Done {
      WritingAnOpeningKeeps(s, r.0, o, r.0.opportunities[o]);
    }
  }

  lemma ClosingKeeps(s: State, user: Id, o: Id)
    requires Consistent(s)
    ensures Consistent(CloseOpportunity(s, user, o).0)
  {
    hide AcceptedCount, OneEach, Timelines;
    var r := CloseOpportunity(s, user, o);
    if r.1 == Done {
      WritingAnOpeningKeeps(s, r.0, o, r.0.opportunities[o]);
    }
  }

  lemma BoardCallKeeps(s: State, call: BoardRuns.Event)
    requires Consistent(s) && Direct(call)
    ensures Consistent(s.(board := BoardRuns.Apply(s.board, call)))
  {
    hide Consistent;
    StandingKeeps(s, s.(board := BoardRuns.Apply(s.board, call)));
  }

  lemma PostingKeeps(s: State, opening: Opportunity)
    requires Consistent(s)
    ensures Consistent(s.(opportunities := s.opportunities[s.next := opening], next := s.next + 1))
  {
    WritingAnOpeningKeeps(s, s.(opportunities := s.opportunities[s.next := opening], next := s.next + 1), s.next, opening);
  }

  lemma KeepsConsistent(s: State, e: Event)
    requires Consistent(s)
    ensures Consistent(Apply(s, e))
  {
    hide Rooted, WithinPositions, OneEach, Timelines;
    hide WithoutOpenings, WithoutAccount, Submit, ChangeStatus, WithdrawApplication;
    hide UpdateOpportunity, PublishOpportunity, CloseOpportunity, BoardRuns.Apply;
    KeysMatch(s);
    match e {
      case OpeningsGone(gone) => LeavingKeeps(s, gone);
      case AccountGone(user) => AccountLeavingKeeps(s, user);
      case EvSubmit(applicant, o) => SubmittingKeeps(s, applicant, o);
      case EvChangeStatus(reviewer, a, target, note, join) => DecidingKeeps(s, reviewer, a, target, note, join);
      case EvWithdraw(applicant, a, note) => WithdrawingKeeps(s, applicant, a, note);
      case EvUpdate(actor, o, patch) => UpdatingKeeps(s, actor, o, patch);
      case EvPublish(user, o) => PublishingKeeps(s, user, o);
      case EvClose(user, o) => ClosingKeeps(s, user, o);
      case Posted(opening) => PostingKeeps(s, opening);
      case BoardCall(call) => if Direct(call) { BoardCallKeeps(s, call); }
      case _ => StandingKeeps(s, Apply(s, e));
    }
  }

  // ----- the board follows the openings -----

  /** What a call does to the board is a short run of board events. */
  function BoardSteps(s: State, e: Event): seq<BoardRuns.Event>
    requires s.applications.Keys == s.timelines.Keys
  {
    match e
    case UsersChange(users) => [BoardRuns.UsersChange(users)]
    case OpeningsGone(gone) => [BoardRuns.NoticesGone(NoticesOf(s, gone))]
    case AccountGone(user) =>
      [BoardRuns.NoticesGone(NoticesOf(s, set o | o in s.opportunities && s.opportunities[o].createdBy == user)),
       BoardRuns.UserGone(user)]
    case BoardCall(call) => if Direct(call) then [call] else []
    case EvChangeStatus(_, a, _, _, _) =>
      if a in s.applications && Apply(s, e).board != s.board
      then [BoardRuns.EvTakeDown(s.applications[a].opportunity)] else []
    case EvPublish(_, o) =>
      if o in s.opportunities && Call(s, e).1 == Done then [BoardRuns.EvRaise(o, Advert(s.opportunities[o]))] else []
    case EvClose(_, o) => if Call(s, e).1 == Done then [BoardRuns.EvTakeDown(o)] else []
    case _ => []
  }

  function NoticesOf(s: State, openings: set<Id>): set<Id> {
    set n | n in s.board.notices && s.board.notices[n].source.Some? && s.board.notices[n].source.value in openings
  }

  lemma BoardStepsAreTaken(s: State, e: Event)
    requires s.applications.Keys == s.timelines.Keys
    ensures Apply(s, e).board == BoardRuns.Run(s.board, BoardSteps(s, e))
  {
    hide AcceptedCount, Board.Raise, Board.TakeDown, Board.Removed, BoardRuns.WithoutUser;
    OneStep(s.board);
    if e.AccountGone? {
      TwoSteps(s.board, BoardSteps(s, e)[0], BoardSteps(s, e)[1]);
    }
  }

  lemma OneStep(s: Board.State)
    ensures BoardRuns.Run(s, []) == s
    ensures forall e :: BoardRuns.Run(s, [e]) == BoardRuns.Apply(s, e)
  {
  }

  lemma TwoSteps(s: Board.State, a: BoardRuns.Event, b: BoardRuns.Event)
    ensures BoardRuns.Run(s, [a, b]) == BoardRuns.Apply(BoardRuns.Apply(s, a), b)
  {
    BoardRuns.RunsFollow(s, [a], [b]);
    assert [a] + [b] == [a, b];
    OneStep(s);
    OneStep(BoardRuns.Apply(s, a));
  }

  lemma DirectCallsAdvertiseNothing(b: Board.State, call: BoardRuns.Event, o: Id)
    requires Direct(call) && BoardRuns.RaisedPublished(b) && Advertised(BoardRuns.Apply(b, call), o)
    ensures Advertised(b, o)
  {
    var t := BoardRuns.Apply(b, call);
    var n :| n in t.notices && t.notices[n].status == Board.Published && t.notices[n].source == Some(o);
    assert n in b.notices && b.notices[n].status == Board.Published && b.notices[n].source == Some(o);
  }

  lemma DeletionsAdvertiseNothing(s: State, e: Event, o: Id)
    requires s.applications.Keys == s.timelines.Keys && (e.OpeningsGone? || e.AccountGone?)
    requires BoardFollows(s) && Advertised(Apply(s, e).board, o)
    ensures Advertised(s.board, o) && o in Apply(s, e).opportunities && Apply(s, e).opportunities[o] == s.opportunities[o]
  {
    var t := Apply(s, e);
    var n :| n in t.board.notices && t.board.notices[n].status == Board.Published && t.board.notices[n].source == Some(o);
    assert n in s.board.notices && s.board.notices[n].status == Board.Published && s.board.notices[n].source == Some(o);
  }

  lemma TakingDownStops(b: Board.State, gone: Id, o: Id)
    requires Advertised(Board.TakeDown(b, gone), o)
    ensures Advertised(b, o) && o != gone
  {
    var t := Board.TakeDown(b, gone);
    var n :| n in t.notices && t.notices[n].status == Board.Published && t.notices[n].source == Some(o);
    assert n in b.notices && b.notices[n].status == Board.Published && b.notices[n].source == Some(o);
  }

  lemma RaisingStarts(b: Board.State, id: Id, opening: Board.Opening, o: Id)
    requires Advertised(Board.Raise(b, id, opening), o)
    ensures Advertised(b, o) || o == id
  {
    var t := Board.Raise(b, id, opening);
    var n :| n in t.notices && t.notices[n].status == Board.Published && t.notices[n].source == Some(o);
    if o != id {
      assert n in b.notices && b.notices[n].status == Board.Published && b.notices[n].source == Some(o);
    }
  }

  lemma DecisionsAdvertise(s: State, e: Event, o: Id)
    requires s.applications.Keys == s.timelines.Keys && e.EvChangeStatus?
    requires BoardFollows(s) && Advertised(Apply(s, e).board, o)
    ensures o in Apply(s, e).opportunities && Apply(s, e).opportunities[o].status == Open
  {
    hide AcceptedCount, Advertised, Board.TakeDown;
    if Apply(s, e).opportunities != s.opportunities {
      TakingDownStops(s.board, s.applications[e.a].opportunity, o);
    }
  }

  lemma OpeningCallsAdvertise(s: State, e: Event, o: Id)
    requires s.applications.Keys == s.timelines.Keys && (forall i | i in s.opportunities :: i < s.next)
    requires !e.OpeningsGone? && !e.AccountGone? && !e.BoardCall?
    requires BoardFollows(s) && Advertised(Apply(s, e).board, o)
    ensures o in Apply(s, e).opportunities && Apply(s, e).opportunities[o].status == Open
  {
    hide AcceptedCount, Advertised, Board.TakeDown, Board.Raise, ChangeStatus;
    match e {
      case UsersChange(_) => SameNotices(s.board, Apply(s, e).board, o);
      case EvPublish(user, id) => if Call(s, e).1 == Done { RaisingStarts(s.board, id, Advert(s.opportunities[id]), o); }
      case EvClose(user, id) => if Call(s, e).1 == Done { TakingDownStops(s.board, id, o); }
      case EvChangeStatus(_, _, _, _, _) => DecisionsAdvertise(s, e, o);
      case _ =>
    }
  }

  lemma SameNotices(a: Board.State, b: Board.State, o: Id)
    requires a.notices == b.notices && Advertised(b, o)
    ensures Advertised(a, o)
  {
  }

  lemma BoardCallAdvertises(s: State, call: BoardRuns.Event, o: Id)
    requires s.applications.Keys == s.timelines.Keys && BoardRuns.RaisedPublished(s.board)
    requires Advertised(Apply(s, BoardCall(call)).board, o)
    ensures Advertised(s.board, o) && Apply(s, BoardCall(call)).opportunities == s.opportunities
  {
    if Direct(call) { DirectCallsAdvertiseNothing(s.board, call, o); }
  }

  lemma KeepsBoardFollows(s: State, e: Event)
    requires s.applications.Keys == s.timelines.Keys && (forall o | o in s.opportunities :: o < s.next)
    requires BoardFollows(s) && BoardRuns.RaisedPublished(s.board)
    ensures BoardFollows(Apply(s, e))
  {
    var t := Apply(s, e);
    forall o | Advertised(t.board, o) ensures o in t.opportunities && t.opportunities[o].status == Open {
      hide Apply, BoardRuns.RaisedPublished, Advertised;
      match e {
        case OpeningsGone(_) => DeletionsAdvertiseNothing(s, e, o);
        case AccountGone(_) => DeletionsAdvertiseNothing(s, e, o);
        case BoardCall(call) => BoardCallAdvertises(s, call, o);
        case _ => OpeningCallsAdvertise(s, e, o);
      }
    }
  }
}
