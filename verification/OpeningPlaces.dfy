/** The places of an opening: when an open one still has one to give. */
module OpeningPlaces {
  import opened Base
  import opened Users
  import opened Applications
  import opened Openings
  import opened OpeningRuns
  import opened OpeningSafety
  import Board
  import BoardRuns

  /** Nobody has applied to a draft. */
  ghost predicate Unsent(s: State) {
    forall a | a in s.applications && s.applications[a].opportunity in s.opportunities ::
      s.opportunities[s.applications[a].opportunity].status != Drafted
  }

  ghost predicate Orderly(s: State) { Sound(s) && Unsent(s) }

  lemma KeepsUnsent(s: State, e: Event)
    requires Orderly(s) && s.applications.Keys == s.timelines.Keys
    ensures Unsent(Apply(s, e))
  {
    var t := Apply(s, e);
    hide Apply, Sound, MayApply;
    forall a | a in t.applications && t.applications[a].opportunity in t.opportunities
      ensures t.opportunities[t.applications[a].opportunity].status != Drafted
    {
      hide Rooted;
      RootedOf(s);
      var o := t.applications[a].opportunity;
      if a in s.applications {
        CarriedByStep(s, e, a);
        OpeningOf(s, a);
        ForwardByStep(s, e, o);
      } else {
        NewRowsWereSubmitted(s, e, a);
        assert o in s.opportunities && s.opportunities[o].status == Open by { ToOpenings(s, t.applications[a].applicant, o); }
        ForwardByStep(s, e, o);
      }
    }
  }

  lemma OpeningOf(s: State, a: Id)
    requires Rooted(s) && a in s.applications
    ensures s.applications[a].opportunity in s.opportunities
  {
  }

  lemma ToOpenings(s: State, applicant: Id, o: Id)
    requires MayApply(s, applicant, o)
    ensures o in s.opportunities && s.opportunities[o].status == Open
  {
  }

  lemma KeepsOrderly(s: State, e: Event)
    requires Orderly(s) && s.applications.Keys == s.timelines.Keys
    ensures Orderly(Apply(s, e))
  {
    hide Apply, Sound, Unsent;
    KeepsSound(s, e);
    KeepsUnsent(s, e);
  }

  // ----- one call -----

  /** If the opening may still come to take somebody, it has a place to give. */
  ghost predicate Roomy(s: State, o: Id) {
    o in s.opportunities && s.opportunities[o].status in {Drafted, Open} ==> AcceptedCount(s, o) < s.opportunities[o].positions
  }

  /** An edit that names exactly the number already accepted; only fewer are refused. */
  ghost predicate CutToFit(s: State, e: Event, o: Id)
    requires s.applications.Keys == s.timelines.Keys
  {
    e.EvUpdate? && e.o == o && Call(s, e).1 == Done && e.patch.positions == Some(AcceptedCount(s, o))
  }

  predicate Accepts(s: State, e: Event, a: Id)
    requires s.applications.Keys == s.timelines.Keys
  {
    e.EvChangeStatus? && e.a == a && e.target == Accepted && Call(s, e).1 == Done
  }

  /** Only a decision that says so makes an application accepted. */
  lemma NewlyAccepted(s: State, e: Event, a: Id)
    requires s.applications.Keys == s.timelines.Keys
    requires a in Apply(s, e).applications && Apply(s, e).applications[a].status == Accepted
    ensures a in s.applications && (s.applications[a].status == Accepted || Accepts(s, e, a))
  {
    hide AcceptedCount;
  }

  lemma AcceptedOnlyLeave(s: State, e: Event, o: Id)
    requires Orderly(s) && s.applications.Keys == s.timelines.Keys
    requires forall a | a in s.applications && Accepts(s, e, a) :: s.applications[a].opportunity != o
    ensures AcceptedCount(Apply(s, e), o) <= AcceptedCount(s, o)
  {
    var t := Apply(s, e);
    hide Apply, Sound, Rooted, Accepts;
    RootedOf(s);
    forall a | a in AcceptedFor(t, o) ensures a in AcceptedFor(s, o) {
      NewlyAccepted(s, e, a);
      CarriedByStep(s, e, a);
    }
    SubsetIsSmaller(AcceptedFor(t, o), AcceptedFor(s, o));
  }

  /** The row of an opening that a call leaves in place, but for what an edit names. */
  lemma PositionsStay(s: State, e: Event, o: Id)
    requires s.applications.Keys == s.timelines.Keys && (forall i | i in s.opportunities :: i < s.next)
    requires o in s.opportunities && o in Apply(s, e).opportunities
    ensures Apply(s, e).opportunities[o].positions ==
              if e.EvUpdate? && e.o == o && Call(s, e).1 == Done && e.patch.positions.Some? then e.patch.positions.value
              else s.opportunities[o].positions
  {
    hide AcceptedCount;
  }

  lemma AcceptanceLeavesRoom(s: State, e: Event, a: Id)
    requires Orderly(s) && s.applications.Keys == s.timelines.Keys && Accepts(s, e, a)
    ensures a in s.applications && Roomy(Apply(s, e), s.applications[a].opportunity)
  {
    hide ChangeStatus, Sound, AcceptedCount, Advertised, Rooted;
    RootedOf(s);
    AcceptanceShape(s, e.reviewer, a, e.note, e.join);
    AcceptanceFills(s, e.reviewer, a, e.note, e.join);
    var o := s.applications[a].opportunity;
    OpeningOf(s, a);
    RootedNumbers(s);
    PositionsStay(s, e, o);
  }

  lemma RootedNumbers(s: State)
    requires Rooted(s)
    ensures forall o | o in s.opportunities :: o < s.next
  {
  }

  lemma DraftsHaveNone(s: State, o: Id)
    requires Unsent(s) && o in s.opportunities && s.opportunities[o].status == Drafted
    ensures AcceptedCount(s, o) == 0
  {
    assert AcceptedFor(s, o) == {};
  }

  lemma EditLeavesRoom(s: State, e: Event, o: Id)
    requires Orderly(s) && s.applications.Keys == s.timelines.Keys
    requires e.EvUpdate? && e.o == o && Call(s, e).1 == Done && Roomy(s, o)
    ensures Roomy(Apply(s, e), o) <==> !CutToFit(s, e, o)
  {
    hide AcceptedFor, Sound, Unsent;
    var t := Apply(s, e);
    assert AcceptedFor(t, o) == AcceptedFor(s, o) by { SameAccepted(s, t, o); }
    if s.opportunities[o].status == Drafted { DraftsHaveNone(s, o); }
  }

  lemma SameAccepted(s: State, t: State, o: Id)
    requires t.applications == s.applications
    ensures AcceptedFor(t, o) == AcceptedFor(s, o)
  {
  }

  lemma FreshOpeningsHaveNone(s: State, e: Event, o: Id)
    requires Orderly(s) && s.applications.Keys == s.timelines.Keys && o !in s.opportunities
    ensures Roomy(Apply(s, e), o) && !CutToFit(s, e, o)
  {
    var t := Apply(s, e);
    if o in t.opportunities {
      FreshOpeningsWerePosted(s, e, o);
      assert Rooted(s);
      assert AcceptedFor(t, o) == {};
    }
    if e.EvUpdate? && e.o == o { NoEditOfNothing(s, e); }
  }

  lemma NoEditOfNothing(s: State, e: Event)
    requires s.applications.Keys == s.timelines.Keys && e.EvUpdate? && e.o !in s.opportunities
    ensures Call(s, e).1 != Done
  {
  }

  lemma FreshOpeningsWerePosted(s: State, e: Event, o: Id)
    requires s.applications.Keys == s.timelines.Keys && o !in s.opportunities && o in Apply(s, e).opportunities
    ensures e.Posted? && Apply(s, e).applications == s.applications && Apply(s, e).opportunities[o].positions > 0
  {
    hide AcceptedCount;
  }

  lemma OtherCallsLeaveRoom(s: State, e: Event, o: Id)
    requires Orderly(s) && s.applications.Keys == s.timelines.Keys && o in s.opportunities && Roomy(s, o)
    requires forall a | a in s.applications && Accepts(s, e, a) :: s.applications[a].opportunity != o
    requires !(e.EvUpdate? && e.o == o && Call(s, e).1 == Done)
    ensures Roomy(Apply(s, e), o)
  {
    var t := Apply(s, e);
    hide Apply, Call, Sound, Rooted, AcceptedCount, Accepts;
    if o in t.opportunities {
      RootedOf(s);
      RootedNumbers(s);
      ForwardByStep(s, e, o);
      PositionsStay(s, e, o);
      AcceptedOnlyLeave(s, e, o);
    }
  }

  /** One call takes the last place of an opening and leaves it open in exactly one way: an
      edit that names the number already accepted. */
  lemma RoomyByStep(s: State, e: Event, o: Id)
    requires Orderly(s) && s.applications.Keys == s.timelines.Keys && Roomy(s, o)
    ensures Roomy(Apply(s, e), o) <==> !CutToFit(s, e, o)
  {
    hide Apply, Call, Sound, Unsent, Roomy;
    if o !in s.opportunities {
      FreshOpeningsHaveNone(s, e, o);
    } else if e.EvUpdate? && e.o == o && Call(s, e).1 == Done {
      EditLeavesRoom(s, e, o);
    } else if a :| a in s.applications && Accepts(s, e, a) && s.applications[a].opportunity == o {
      AcceptanceLeavesRoom(s, e, a);
    } else {
      OtherCallsLeaveRoom(s, e, o);
    }
  }

  // ----- whole runs -----

  ghost predicate NeverCut(s: State, es: seq<Event>, o: Id)
    requires s.applications.Keys == s.timelines.Keys
    decreases |es|
  {
    es == [] || (!CutToFit(s, es[0], o) && NeverCut(Apply(s, es[0]), es[1..], o))
  }

  lemma {:induction false} RoomyOverRuns(s: State, es: seq<Event>, o: Id)
    requires Orderly(s) && s.applications.Keys == s.timelines.Keys && Roomy(s, o) && NeverCut(s, es, o)
    ensures Roomy(Run(s, es), o)
    decreases |es|
  {
    hide Apply, Orderly, Roomy, CutToFit;
    if es != [] {
      RoomyByStep(s, es[0], o);
      KeepsOrderly(s, es[0]);
      RoomyOverRuns(Apply(s, es[0]), es[1..], o);
    }
  }

  /** Before anything was posted: accounts, projects and a clock, and nothing else. */
  function Start(now: Time, users: map<Id, User>, activeProjects: set<Id>): State {
    State(Board.State(now, users, map[], [], map[], {}, 0), map[], map[], map[], {}, activeProjects, 0)
  }

  lemma StartIsOrderly(now: Time, users: map<Id, User>, activeProjects: set<Id>)
    ensures Orderly(Start(now, users, activeProjects))
  {
    var s := Start(now, users, activeProjects);
    assert Rooted(s) && WithinPositions(s) && OneEach(s) && Timelines(s);
    assert forall o :: !Advertised(s.board, o);
  }

  /** Over every run from an empty database in which no edit cuts the opening to the number
      already accepted, being open means having a place left: nobody is refused for want of one. */
  lemma OpenMeansAPlaceLeft(now: Time, users: map<Id, User>, activeProjects: set<Id>, es: seq<Event>, o: Id, applicant: Id)
    requires NeverCut(Start(now, users, activeProjects), es, o)
    ensures var t := Run(Start(now, users, activeProjects), es);
            && (o in t.opportunities && t.opportunities[o].status == Open ==>
                  AcceptedCount(t, o) < t.opportunities[o].positions)
            && Submit(t, applicant, o).1 != Refused(PositionsFilled)
  {
    var s := Start(now, users, activeProjects);
    hide Run, NeverCut, AcceptedCount, Orderly;
    StartIsOrderly(now, users, activeProjects);
    RoomyOverRuns(s, es, o);
  }

  // ----- an opening cut to fit -----

  /** Open, and without a place. */
  predicate OpenAndFull(s: State, o: Id) {
    o in s.opportunities && s.opportunities[o].status == Open && AcceptedCount(s, o) == s.opportunities[o].positions
  }

  /** Every owner of an open opening that has accepted somebody can cut it to fit; it stays open
      and on the board as it was. */
  lemma CuttingToFitIsAccepted(s: State, o: Id)
    requires s.applications.Keys == s.timelines.Keys && o in s.opportunities && s.opportunities[o].status == Open
    requires SignedIn(s, s.opportunities[o].createdBy)
    requires s.board.users[s.opportunities[o].createdBy].id == s.opportunities[o].createdBy
    requires ProperPositions(AcceptedCount(s, o))
    ensures var e := EvUpdate(s.opportunities[o].createdBy, o, Patch(None, None, None, Some(AcceptedCount(s, o)), None));
            Call(s, e).1 == Done && OpenAndFull(Apply(s, e), o) && Apply(s, e).board == s.board
  {
    hide AcceptedFor;
    var e := EvUpdate(s.opportunities[o].createdBy, o, Patch(None, None, None, Some(AcceptedCount(s, o)), None));
    SameAccepted(s, Apply(s, e), o);
  }

  /** Nobody can apply to it, and nobody who has applied can be accepted. */
  lemma FullRefusesAll(s: State, o: Id, person: Id, a: Id, note: Option<string>, join: bool)
    requires s.applications.Keys == s.timelines.Keys && OpenAndFull(s, o)
    ensures Submit(s, person, o).1 != Done
    ensures a in s.applications && s.applications[a].opportunity == o ==>
              ChangeStatus(s, person, a, Accepted, note, join).1 != Done
  {
    hide AcceptedCount;
  }

  /** The calls that can end it: another edit of its places, closing it, and deletions. */
  predicate Releases(e: Event, o: Id) {
    (e.EvUpdate? && e.o == o && e.patch.positions.Some?) || (e.EvClose? && e.o == o) || e.OpeningsGone? || e.AccountGone?
  }

  lemma RowsStay(s: State, e: Event, a: Id)
    requires s.applications.Keys == s.timelines.Keys && !e.OpeningsGone? && !e.AccountGone? && a in s.applications
    ensures a in Apply(s, e).applications
  {
    hide AcceptedCount;
  }

  lemma OpenUnlessFilled(s: State, e: Event, o: Id)
    requires s.applications.Keys == s.timelines.Keys && (forall i | i in s.opportunities :: i < s.next) && !Releases(e, o)
    requires o in s.opportunities && s.opportunities[o].status == Open
    requires forall a | a in s.applications && Accepts(s, e, a) :: s.applications[a].opportunity != o
    ensures o in Apply(s, e).opportunities && Apply(s, e).opportunities[o].status == Open
    ensures Apply(s, e).opportunities[o].positions == s.opportunities[o].positions
  {
    hide AcceptedCount;
  }

  lemma FullStaysByStep(s: State, e: Event, o: Id)
    requires Orderly(s) && s.applications.Keys == s.timelines.Keys && OpenAndFull(s, o) && !Releases(e, o)
    ensures OpenAndFull(Apply(s, e), o)
  {
    var t := Apply(s, e);
    hide Apply, Sound, Rooted, ChangeStatus, Submit;
    RootedOf(s);
    RootedNumbers(s);
    forall a | a in s.applications && Accepts(s, e, a) ensures s.applications[a].opportunity != o {
      FullRefusesAll(s, o, e.reviewer, a, e.note, e.join);
    }
    OpenUnlessFilled(s, e, o);
    hide Accepts;
    AcceptedOnlyLeave(s, e, o);
    forall a | a in AcceptedFor(s, o) ensures a in AcceptedFor(t, o) {
      RowsStay(s, e, a);
      CarriedByStep(s, e, a);
    }
    SubsetIsSmaller(AcceptedFor(s, o), AcceptedFor(t, o));
  }

  /** And so it stays, full and open: nothing the system does on its own ends it. */
  lemma {:induction false} FullStaysOpen(s: State, es: seq<Event>, o: Id)
    requires Orderly(s) && s.applications.Keys == s.timelines.Keys && OpenAndFull(s, o)
    requires forall i | 0 <= i < |es| :: !Releases(es[i], o)
    ensures OpenAndFull(Run(s, es), o)
    decreases |es|
  {
    hide Apply, Orderly, OpenAndFull, Releases;
    if es != [] {
      FullStaysByStep(s, es[0], o);
      KeepsOrderly(s, es[0]);
      FullStaysOpen(Apply(s, es[0]), es[1..], o);
    }
  }

  // ----- a run that gets there -----

  const LEAD := User(1, Faculty, true, None, None, None, true, 0, false)
  const STUDENT := User(2, Student, true, None, None, None, false, 0, false)

  /** An opening of two places, its one application, and where they stand. */
  function Hiring(now: Time, board: Board.State, places: nat, status: OpportunityStatus,
                  es: seq<Entry>, row: Option<Application>): State
  {
    var opening := Opportunity(1, None, None, ResearchAssistant, places, now / DAY, status, "", "");
    State(board, map[0 := opening], if row.Some? then map[1 := row.value] else map[],
          if row.Some? then map[1 := es] else map[], {}, {}, if row.Some? then 2 else 1)
  }

  function Row(status: Status, now: Time): Application {
    if status == Submitted then Application(0, 2, Submitted, None, None, None)
    else Application(0, 2, status, None, Some(1), Some(now))
  }

  function Empty(now: Time): Board.State { Board.State(now, map[1 := LEAD, 2 := STUDENT], map[], [], map[], {}, 0) }

  function Raised(now: Time): Board.State { Board.Raise(Empty(now), 0, Board.Opening("", "", None, 1)) }

  lemma RaisedAdvertises(now: Time)
    ensures Advertised(Raised(now), 0) && Raised(now).users == Empty(now).users && Raised(now).clock == now
  {
    var b := Raised(now);
    assert 0 in b.notices && b.notices[0].status == Board.Published && b.notices[0].source == Some(0);
  }

  lemma Accepteds(s: State, row: Application)
    requires s.applications == map[1 := row] && row.opportunity == 0
    ensures AcceptedCount(s, 0) == if row.status == Accepted then 1 else 0
  {
    assert AcceptedFor(s, 0) == if row.status == Accepted then {1} else {};
  }

  lemma PostedAndPublished(now: Time)
    ensures var s := Start(now, Empty(now).users, {});
            var posted := Hiring(now, Empty(now), 2, Drafted, [], None);
            && Apply(s, Posted(posted.opportunities[0])) == posted
            && Apply(posted, EvPublish(1, 0)) == Hiring(now, Raised(now), 2, Open, [], None)
  {
  }

  lemma AppliedFor(now: Time)
    ensures Apply(Hiring(now, Raised(now), 2, Open, [], None), EvSubmit(2, 0))
         == Hiring(now, Raised(now), 2, Open, [Entry(Submitted, 2, None, now)], Some(Row(Submitted, now)))
  {
    hide Board.Raise;
    RaisedAdvertises(now);
    var s := Hiring(now, Raised(now), 2, Open, [], None);
    assert AcceptedFor(s, 0) == {};
  }

  lemma MovedTo(now: Time, from: Status, to: Status, es: seq<Entry>)
    requires from != Accepted && Reviewer in Allowed(from, to)
    ensures Apply(Hiring(now, Raised(now), 2, Open, es, Some(Row(from, now))), EvChangeStatus(1, 1, to, None, false))
         == Hiring(now, Raised(now), 2, Open, es + [Entry(to, 1, None, now)], Some(Row(to, now)))
  {
    hide Board.Raise, AcceptedCount, Raised;
    RaisedAdvertises(now);
    var s := Hiring(now, Raised(now), 2, Open, es, Some(Row(from, now)));
    var t := Hiring(now, Raised(now), 2, Open, es + [Entry(to, 1, None, now)], Some(Row(to, now)));
    Accepteds(s, Row(from, now));
    Accepteds(t, Row(to, now));
    assert Recorded(s, 1, Row(to, now), 1, None) == t;
  }

  /** From an empty database: two places, one acceptance, and then an edit to one place. The
      opening is full, open and advertised. */
  lemma CutToFitHappens(now: Time) returns (es: seq<Event>)
    ensures var t := Run(Start(now, Empty(now).users, {}), es);
            OpenAndFull(t, 0) && Advertised(t.board, 0) && |es| == 6
  {
    hide Apply, Raised, AcceptedCount, Advertised;
    var s0 := Start(now, Empty(now).users, {});
    var s1 := Hiring(now, Empty(now), 2, Drafted, [], None);
    PostedAndPublished(now);
    AppliedFor(now);
    var submitted := [Entry(Submitted, 2, None, now)];
    MovedTo(now, Submitted, UnderReview, submitted);
    MovedTo(now, UnderReview, Accepted, submitted + [Entry(UnderReview, 1, None, now)]);
    var s5 := Hiring(now, Raised(now), 2, Open, submitted + [Entry(UnderReview, 1, None, now)] + [Entry(Accepted, 1, None, now)],
                     Some(Row(Accepted, now)));
    Accepteds(s5, Row(Accepted, now));
    RaisedAdvertises(now);
    CuttingToFitIsAccepted(s5, 0);
    es := [Posted(s1.opportunities[0])];
    RunEnds(s0, [], Posted(s1.opportunities[0]));
    es := Then(s0, es, EvPublish(1, 0));
    es := Then(s0, es, EvSubmit(2, 0));
    es := Then(s0, es, EvChangeStatus(1, 1, UnderReview, None, false));
    es := Then(s0, es, EvChangeStatus(1, 1, Accepted, None, false));
    es := Then(s0, es, EvUpdate(1, 0, Patch(None, None, None, Some(1), None)));
  }

  lemma Then(s: State, es: seq<Event>, e: Event) returns (longer: seq<Event>)
    requires s.applications.Keys == s.timelines.Keys
    ensures Run(s, es).applications.Keys == Run(s, es).timelines.Keys
    ensures |longer| == |es| + 1 && Run(s, longer) == Apply(Run(s, es), e)
  {
    RunEnds(s, es, e);
    longer := es + [e];
  }
}
