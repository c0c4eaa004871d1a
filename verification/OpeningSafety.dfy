/** What holds over whole runs of openings, applications and the board together. */
module OpeningSafety {
  import opened Base
  import opened Applications
  import opened Openings
  import opened OpeningRuns
  import Board
  import BoardRuns

  ghost predicate Sound(s: State) {
    Consistent(s) && BoardFollows(s) && BoardRuns.Sound(s.board)
  }

  lemma KeepsSound(s: State, e: Event)
    requires Sound(s)
    ensures s.applications.Keys == s.timelines.Keys && Sound(Apply(s, e))
  {
    KeysMatch(s);
    KeepsConsistent(s, e);
    KeepsBoardFollows(s, e);
    BoardStepsAreTaken(s, e);
    BoardRuns.RunsKeepSound(s.board, BoardSteps(s, e));
  }

  /** Over any run: acceptances stay within positions, nobody applies twice to an opening
      or to their own, every timeline is a path of allowed moves, and a published notice
      of an opening means that it is open. */
  lemma {:induction false} RunsKeepSound(s: State, es: seq<Event>)
    requires Sound(s)
    ensures s.applications.Keys == s.timelines.Keys && Sound(Run(s, es))
    decreases |es|
  {
    if es == [] {
      KeysMatch(s);
    } else {
      KeepsSound(s, es[0]);
      hide Apply, Sound;
      RunsKeepSound(Apply(s, es[0]), es[1..]);
    }
  }

  // ----- accepting -----

  /** What an acceptance writes, by the count taken inside the transaction. */
  lemma AcceptanceShape(s: State, reviewer: Id, a: Id, note: Option<string>, join: bool)
    requires s.applications.Keys == s.timelines.Keys
    requires ChangeStatus(s, reviewer, a, Accepted, note, join).1 == Done
    ensures a in s.applications
    ensures var t, o := ChangeStatus(s, reviewer, a, Accepted, note, join).0, s.applications[a].opportunity;
            && a in t.applications && t.applications == s.applications[a := t.applications[a]]
            && t.applications[a].opportunity == o && t.applications[a].status == Accepted
            && s.applications[a].status != Accepted && AcceptedCount(s, o) < s.opportunities[o].positions
            && o in t.opportunities
            && t.opportunities[o].status == (if s.opportunities[o].status == Open && AcceptedCount(t, o) >= s.opportunities[o].positions
                                             then Filled else s.opportunities[o].status)
  {
    var t, o := ChangeStatus(s, reviewer, a, Accepted, note, join).0, s.applications[a].opportunity;
    assert forall u: State | u.applications == t.applications :: AcceptedFor(u, o) == AcceptedFor(t, o);
    hide AcceptedFor;
  }

  /** Accepting takes one place, never more than there are, and fills an open opening
      exactly when it takes the last one; a filled opening is no longer advertised. */
  lemma AcceptanceFills(s: State, reviewer: Id, a: Id, note: Option<string>, join: bool)
    requires Sound(s) && s.applications.Keys == s.timelines.Keys
    requires ChangeStatus(s, reviewer, a, Accepted, note, join).1 == Done
    ensures var t, o := ChangeStatus(s, reviewer, a, Accepted, note, join).0, s.applications[a].opportunity;
            && AcceptedCount(t, o) == AcceptedCount(s, o) + 1 <= s.opportunities[o].positions
            && o in t.opportunities
            && t.opportunities[o].status == (if s.opportunities[o].status == Open && AcceptedCount(t, o) == s.opportunities[o].positions
                                             then Filled else s.opportunities[o].status)
            && (t.opportunities[o].status != Open ==> !Advertised(t.board, o))
  {
    hide ChangeStatus, AcceptedFor, Consistent, Advertised, BoardRuns.Sound;
    AcceptanceShape(s, reviewer, a, note, join);
    var t, o := ChangeStatus(s, reviewer, a, Accepted, note, join).0, s.applications[a].opportunity;
    AcceptedAfterMove(s, t, a, t.applications[a], o);
    KeepsSound(s, EvChangeStatus(reviewer, a, Accepted, note, join));
  }

  // ----- applications only move forward -----

  /** In `t` the application is gone, or its timeline has only grown. */
  predicate Carried(s: State, t: State, a: Id)
    requires a in s.applications && a in s.timelines
  {
    if a !in t.applications then a < t.next
    else
      && a in t.timelines && s.timelines[a] <= t.timelines[a]
      && t.applications[a].opportunity == s.applications[a].opportunity
      && t.applications[a].applicant == s.applications[a].applicant
      && (s.applications[a].status in FINAL ==>
            t.applications[a].status == s.applications[a].status && t.timelines[a] == s.timelines[a])
  }

  lemma CarriedByDecision(s: State, reviewer: Id, b: Id, target: Status, note: Option<string>, join: bool, a: Id)
    requires Rooted(s) && a in s.applications
    ensures Carried(s, ChangeStatus(s, reviewer, b, target, note, join).0, a)
  {
    hide AcceptedCount;
  }

  lemma CarriedByStep(s: State, e: Event, a: Id)
    requires Rooted(s) && a in s.applications
    ensures Carried(s, Apply(s, e), a)
  {
    hide AcceptedCount;
    if e.EvChangeStatus? {
      hide Carried, ChangeStatus;
      CarriedByDecision(s, e.reviewer, e.a, e.target, e.note, e.join, a);
    }
  }

  lemma AbsentStaysAbsent(s: State, e: Event, a: Id)
    requires s.applications.Keys == s.timelines.Keys && a !in s.applications && a < s.next
    ensures a !in Apply(s, e).applications && a < Apply(s, e).next
  {
    hide AcceptedCount;
  }

  lemma {:induction false} AbsentOverRuns(s: State, es: seq<Event>, a: Id)
    requires s.applications.Keys == s.timelines.Keys && a !in s.applications && a < s.next
    ensures a !in Run(s, es).applications && a < Run(s, es).next
    decreases |es|
  {
    if es != [] {
      AbsentStaysAbsent(s, es[0], a);
      hide Apply;
      AbsentOverRuns(Apply(s, es[0]), es[1..], a);
    }
  }

  /** No run takes an entry out of a timeline, and a decided or withdrawn application
      never changes again. */
  lemma {:induction false} DecisionsAreFinal(s: State, es: seq<Event>, a: Id)
    requires Sound(s) && a in s.applications
    ensures a in s.timelines && s.applications.Keys == s.timelines.Keys && Carried(s, Run(s, es), a)
    decreases |es|
  {
    KeysOf(s);
    RootedOf(s);
    hide Apply, Sound, Rooted;
    if es != [] {
      CarriedByStep(s, es[0], a);
      KeepsSound(s, es[0]);
      var t := Apply(s, es[0]);
      if a in t.applications {
        DecisionsAreFinal(t, es[1..], a);
      } else {
        AbsentOverRuns(t, es[1..], a);
      }
    }
  }

  lemma KeysOf(s: State)
    requires Sound(s)
    ensures s.applications.Keys == s.timelines.Keys
  {
    KeysMatch(s);
  }

  lemma RootedOf(s: State)
    requires Sound(s)
    ensures Rooted(s)
  {
  }

  /** The timelines of a sound state, spelled out. */
  lemma TimelinesAreShort(s: State, a: Id)
    requires Sound(s) && a in s.applications
    ensures a in s.timelines && 1 <= |s.timelines[a]| <= 4
    ensures s.timelines[a][0].status == Submitted
    ensures s.timelines[a][|s.timelines[a]| - 1].status == s.applications[a].status
  {
    assert TimelineHolds(s, a);
    AtMostFourEntries(s.timelines[a], s.applications[a].applicant,
                      s.opportunities[s.applications[a].opportunity].createdBy, s.applications[a].status, s.board.clock);
  }

  // ----- openings only move forward -----

  function Phase(status: OpportunityStatus): nat {
    match status
    case Drafted => 0
    case Open => 1
    case Closed => 2
    case Filled => 2
  }

  predicate Forward(s: State, t: State, o: Id)
    requires o in s.opportunities
  {
    if o !in t.opportunities then o < t.next
    else
      && Phase(s.opportunities[o].status) <= Phase(t.opportunities[o].status)
      && (Phase(s.opportunities[o].status) == 2 ==> t.opportunities[o] == s.opportunities[o])
  }

  predicate TouchesOpenings(e: Event) {
    e.OpeningsGone? || e.AccountGone? || e.Posted? || e.EvChangeStatus? || e.EvUpdate? || e.EvPublish? || e.EvClose?
  }

  lemma OtherCallsLeaveOpenings(s: State, e: Event)
    requires s.applications.Keys == s.timelines.Keys && !TouchesOpenings(e)
    ensures Apply(s, e).opportunities == s.opportunities
  {
    hide AcceptedCount;
  }

  lemma OpeningsRemovedOrPosted(s: State, e: Event, o: Id)
    requires Rooted(s) && o in s.opportunities && (e.OpeningsGone? || e.AccountGone? || e.Posted?)
    ensures Forward(s, Apply(s, e), o)
  {
  }

  lemma OpeningsMoved(s: State, e: Event, o: Id)
    requires Rooted(s) && o in s.opportunities && (e.EvChangeStatus? || e.EvUpdate? || e.EvPublish? || e.EvClose?)
    ensures Forward(s, Apply(s, e), o)
  {
    hide AcceptedCount;
  }

  lemma ForwardByStep(s: State, e: Event, o: Id)
    requires Rooted(s) && o in s.opportunities
    ensures Forward(s, Apply(s, e), o)
  {
    hide Apply;
    if !TouchesOpenings(e) {
      OtherCallsLeaveOpenings(s, e);
    } else if e.OpeningsGone? || e.AccountGone? || e.Posted? {
      OpeningsRemovedOrPosted(s, e, o);
    } else {
      OpeningsMoved(s, e, o);
    }
  }

  lemma OpeningStaysAbsent(s: State, e: Event, o: Id)
    requires s.applications.Keys == s.timelines.Keys && o !in s.opportunities && o < s.next
    ensures o !in Apply(s, e).opportunities && o < Apply(s, e).next
  {
    hide AcceptedCount;
  }

  lemma {:induction false} OpeningAbsentOverRuns(s: State, es: seq<Event>, o: Id)
    requires s.applications.Keys == s.timelines.Keys && o !in s.opportunities && o < s.next
    ensures o !in Run(s, es).opportunities && o < Run(s, es).next
    decreases |es|
  {
    if es != [] {
      OpeningStaysAbsent(s, es[0], o);
      hide Apply;
      OpeningAbsentOverRuns(Apply(s, es[0]), es[1..], o);
    }
  }

  /** A closed or filled opening is never reopened or edited. */
  lemma {:induction false} ClosedStaysClosed(s: State, es: seq<Event>, o: Id)
    requires Sound(s) && o in s.opportunities
    ensures s.applications.Keys == s.timelines.Keys && Forward(s, Run(s, es), o)
    decreases |es|
  {
    KeysOf(s);
    RootedOf(s);
    hide Apply, Sound, Rooted;
    if es != [] {
      ForwardByStep(s, es[0], o);
      KeepsSound(s, es[0]);
      var t := Apply(s, es[0]);
      if o in t.opportunities {
        ClosedStaysClosed(t, es[1..], o);
      } else {
        OpeningAbsentOverRuns(t, es[1..], o);
      }
    }
  }

  // ----- the board inside the larger runs -----

  function BoardRun(s: State, es: seq<Event>): seq<BoardRuns.Event>
    requires s.applications.Keys == s.timelines.Keys
    decreases |es|
  {
    if es == [] then [] else BoardSteps(s, es[0]) + BoardRun(Apply(s, es[0]), es[1..])
  }

  lemma {:induction false} BoardRunIsTaken(s: State, es: seq<Event>)
    requires s.applications.Keys == s.timelines.Keys
    ensures Run(s, es).board == BoardRuns.Run(s.board, BoardRun(s, es))
    decreases |es|
  {
    if es != [] {
      BoardStepsAreTaken(s, es[0]);
      hide Apply, BoardSteps;
      var t := Apply(s, es[0]);
      BoardRunIsTaken(t, es[1..]);
      BoardRuns.RunsFollow(s.board, BoardSteps(s, es[0]), BoardRun(t, es[1..]));
    }
  }

  /** What the board has said stands, whatever happens to openings and accounts. */
  lemma NoticesStandThroughout(s: State, es: seq<Event>, notice: Id)
    requires Sound(s) && notice in s.board.notices && s.board.notices[notice].status != Board.Draft
    ensures s.applications.Keys == s.timelines.Keys && BoardRuns.StillSays(s.board, Run(s, es).board, notice)
  {
    KeysMatch(s);
    BoardRunIsTaken(s, es);
    BoardRuns.SaidIsSaid(s.board, BoardRun(s, es), notice);
  }

  // ----- where an application comes from, and who ends it -----

  /** The state before event number n. */
  function At(s: State, es: seq<Event>, n: nat): State
    requires s.applications.Keys == s.timelines.Keys && n <= |es|
  {
    Run(s, es[..n])
  }

  lemma {:induction false} RunEnds(s: State, es: seq<Event>, e: Event)
    requires s.applications.Keys == s.timelines.Keys
    ensures Run(s, es).applications.Keys == Run(s, es).timelines.Keys
    ensures Run(s, es + [e]) == Apply(Run(s, es), e)
    decreases |es|
  {
    hide Apply;
    if es == [] {
      assert [] + [e] == [e] && [e][1..] == [];
      assert Run(s, [e]) == Run(Apply(s, e), []);
    } else {
      assert (es + [e])[0] == es[0] && (es + [e])[1..] == es[1..] + [e];
      RunEnds(Apply(s, es[0]), es[1..], e);
    }
  }

  lemma NextState(s: State, es: seq<Event>, n: nat)
    requires s.applications.Keys == s.timelines.Keys && n < |es|
    ensures At(s, es, n).applications.Keys == At(s, es, n).timelines.Keys
    ensures At(s, es, n + 1) == Apply(At(s, es, n), es[n])
  {
    assert es[..n + 1] == es[..n] + [es[n]];
    RunEnds(s, es[..n], es[n]);
  }

  /** In this state the person may apply to the opening: it is open, in time, somebody else's,
      for people like them, with a place left, and they have not applied before. */
  predicate MayApply(s: State, applicant: Id, o: Id) {
    && SignedIn(s, applicant) && o in s.opportunities && s.opportunities[o].status == Open
    && Today(s) <= s.opportunities[o].deadline && s.opportunities[o].createdBy != applicant
    && Eligible(s.board.users[applicant], s.opportunities[o].kind)
    && AcceptedCount(s, o) < s.opportunities[o].positions && !Applied(s, o, applicant)
  }

  /** Event number i is the application of this row, made when it could be made. */
  predicate Came(s: State, es: seq<Event>, i: nat, row: Application, first: Entry)
    requires s.applications.Keys == s.timelines.Keys
  {
    && i < |es| && es[i] == EvSubmit(row.applicant, row.opportunity)
    && MayApply(At(s, es, i), row.applicant, row.opportunity)
    && first == Entry(Submitted, row.applicant, None, At(s, es, i).board.clock)
  }

  lemma NewRowsWereSubmitted(s: State, e: Event, a: Id)
    requires s.applications.Keys == s.timelines.Keys && a !in s.applications && a in Apply(s, e).applications
    ensures var t := Apply(s, e);
            && t.timelines[a] == [Entry(Submitted, t.applications[a].applicant, None, s.board.clock)]
            && e == EvSubmit(t.applications[a].applicant, t.applications[a].opportunity)
            && MayApply(s, t.applications[a].applicant, t.applications[a].opportunity)
  {
    hide AcceptedCount;
  }

  /** Every application made during a run was made by an eligible person while the opening
      was open, in time and not full; and its timeline still begins with that moment,
      however the opening and the applicant changed since. */
  lemma {:induction false} ApplicationsCameInTime(s: State, es: seq<Event>, n: nat, a: Id)
    requires Sound(s) && s.applications.Keys == s.timelines.Keys && n <= |es|
    requires a in At(s, es, n).applications && a !in s.applications
    ensures a in At(s, es, n).timelines && At(s, es, n).timelines[a] != []
    ensures exists i: nat :: i < n && Came(s, es, i, At(s, es, n).applications[a], At(s, es, n).timelines[a][0])
  {
    hide Apply, Sound, Rooted, MayApply;
    if n != 0 {
      var t := At(s, es, n - 1);
      NextState(s, es, n - 1);
      if a in t.applications {
        RunsKeepSound(s, es[..n - 1]);
        RootedOf(t);
        CarriedByStep(t, es[n - 1], a);
        ApplicationsCameInTime(s, es, n - 1, a);
        assert At(s, es, n).timelines[a][0] == t.timelines[a][0];
        var i: nat :| i < n - 1 && Came(s, es, i, t.applications[a], t.timelines[a][0]);
        assert Came(s, es, i, At(s, es, n).applications[a], At(s, es, n).timelines[a][0]);
      } else {
        NewRowsWereSubmitted(t, es[n - 1], a);
        assert Came(s, es, n - 1, At(s, es, n).applications[a], At(s, es, n).timelines[a][0]);
      }
    }
  }

  /** Nobody is accepted unread, and each ending is by the person it belongs to: a decision
      by the creator of the opening, a withdrawal by the applicant. */
  lemma EndingsAreTheirs(s: State, a: Id)
    requires Sound(s) && a in s.applications
    ensures a in s.timelines && s.applications[a].opportunity in s.opportunities
    ensures var row, es := s.applications[a], s.timelines[a];
            && (row.status in FINAL ==>
                  |es| >= 2 && es[|es| - 1].actor ==
                    if row.status == Withdrawn then row.applicant else s.opportunities[row.opportunity].createdBy)
            && (row.status == Accepted ==> |es| >= 3 && es[|es| - 2].status in {UnderReview, Shortlisted})
  {
    assert TimelineHolds(s, a);
    var es, row := s.timelines[a], s.applications[a];
    if row.status in FINAL {
      assert |es| >= 2;
      assert Moves(es[|es| - 2], es[|es| - 1], row.applicant, s.opportunities[row.opportunity].createdBy);
    }
  }
}
