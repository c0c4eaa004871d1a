/** The application workflow: one transition table, and what timelines it allows. */
module Applications {
  import opened Base

  datatype Status = Submitted | UnderReview | Shortlisted | Accepted | Rejected | Withdrawn

  datatype Actor = Reviewer | Applicant

  function Allowed(current: Status, target: Status): set<Actor> {
    match (current, target)
    case (Submitted, UnderReview) => {Reviewer}
    case (Submitted, Shortlisted) => {Reviewer}
    case (Submitted, Rejected) => {Reviewer}
    case (UnderReview, Shortlisted) => {Reviewer}
    case (UnderReview, Accepted) => {Reviewer}
    case (UnderReview, Rejected) => {Reviewer}
    case (Shortlisted, Accepted) => {Reviewer}
    case (Shortlisted, Rejected) => {Reviewer}
    case (Submitted, Withdrawn) => {Applicant}
    case (UnderReview, Withdrawn) => {Applicant}
    case (Shortlisted, Withdrawn) => {Applicant}
    case _ => {}
  }

  const FINAL: set<Status> := {Accepted, Rejected, Withdrawn}

  datatype Entry = Entry(status: Status, actor: Id, note: Option<string>, at: Time)

  /** A timeline: submitted by the applicant, then one allowed move after another, each
      by the person it belongs to and none before the last, ending where the
      application stands. */
  ghost predicate Path(es: seq<Entry>, applicant: Id, reviewer: Id, current: Status, now: Time) {
    && es != [] && es[0].status == Submitted && es[0].actor == applicant
    && es[|es| - 1].status == current && es[|es| - 1].at <= now
    && forall i | 0 < i < |es| :: Moves(es[i - 1], es[i], applicant, reviewer)
  }

  predicate Moves(a: Entry, b: Entry, applicant: Id, reviewer: Id) {
    && a.at <= b.at
    && ((b.actor == applicant && Applicant in Allowed(a.status, b.status))
        || (b.actor == reviewer && Reviewer in Allowed(a.status, b.status)))
  }

  lemma PathGrows(es: seq<Entry>, applicant: Id, reviewer: Id, current: Status, now: Time, e: Entry)
    requires Path(es, applicant, reviewer, current, now) && Moves(es[|es| - 1], e, applicant, reviewer)
    ensures Path(es + [e], applicant, reviewer, e.status, e.at)
  {
    forall i | 0 < i < |es + [e]| ensures Moves((es + [e])[i - 1], (es + [e])[i], applicant, reviewer) {
      if i < |es| { assert Moves(es[i - 1], es[i], applicant, reviewer); }
    }
  }

  /** How far along the workflow a status is. */
  function Stage(s: Status): nat {
    match s
    case Submitted => 0
    case UnderReview => 1
    case Shortlisted => 2
    case _ => 3
  }

  lemma {:induction false} EachEntryIsFurther(es: seq<Entry>, applicant: Id, reviewer: Id, i: nat)
    requires i < |es| && forall k | 0 < k < |es| :: Moves(es[k - 1], es[k], applicant, reviewer)
    ensures i <= Stage(es[i].status)
  {
    if i > 0 {
      EachEntryIsFurther(es, applicant, reviewer, i - 1);
      assert Moves(es[i - 1], es[i], applicant, reviewer);
    }
  }

  /** A timeline has at most four entries, and only its last can be final. */
  lemma AtMostFourEntries(es: seq<Entry>, applicant: Id, reviewer: Id, current: Status, now: Time)
    requires Path(es, applicant, reviewer, current, now)
    ensures |es| <= 4
    ensures forall i | 0 <= i < |es| - 1 :: es[i].status !in FINAL
  {
    EachEntryIsFurther(es, applicant, reviewer, |es| - 1);
    forall i | 0 <= i < |es| - 1 ensures es[i].status !in FINAL {
      assert Moves(es[i], es[i + 1], applicant, reviewer);
    }
  }

  // ----- who may apply -----

  datatype Kind = ResearchAssistant | StudentResearcher | ProjectAssistant | ResearchInternship | Collaboration
}
