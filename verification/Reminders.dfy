/** The reminder jobs: what a run asks to be sent, and what the notifications table
    makes of it. */
module Reminders {
  import opened Base

  /** What makes a reminder the same reminder, for one recipient. */
  datatype Key =
    | DeadlineKey(kind: Kind, item: Id, lead: nat)
    | DueKey(milestone: Id, lead: nat)
    | OverdueKey(milestone: Id)

  datatype Kind = Opportunity | Funding

  datatype Notification = Notification(user: Id, key: Option<Key>, message: string)

  /** One call of `notify` by a job. */
  datatype Demand = Demand(user: Id, key: Key, message: string)

  // ----- the tables the jobs read -----

  /** A saved row bookmarks an opportunity or a funding call. */
  datatype Saved = Saved(user: Id, kind: Kind, item: Id)

  datatype Item = Item(title: string, isOpen: bool, deadline: int)

  datatype Milestone = Milestone(id: Id, project: Id, title: string, dueDate: Option<int>, settled: bool)

  datatype Project = Project(owner: Id, title: string, deleted: bool)

  datatype Member = Member(project: Id, user: Id)

  datatype Data = Data(
    saved: seq<Saved>,
    opportunities: map<Id, Item>,
    funding: map<Id, Item>,
    milestones: seq<Milestone>,
    projects: map<Id, Project>,
    members: seq<Member>)

  const LEAD_DAYS: seq<nat> := [7, 1]

  // ----- what a run demands -----

  function Items(data: Data, kind: Kind): map<Id, Item> {
    if kind == Opportunity then data.opportunities else data.funding
  }

  predicate Falls(data: Data, s: Saved, kind: Kind, day: int) {
    s.kind == kind && s.item in Items(data, kind) && Items(data, kind)[s.item].isOpen && Items(data, kind)[s.item].deadline == day
  }

  /** The rows of the join, one per bookmark. */
  function SavedRows(data: Data, saved: seq<Saved>, kind: Kind, day: int): (rows: seq<Saved>)
    ensures forall s :: s in rows <==> s in saved && Falls(data, s, kind, day)
  {
    if saved == [] then []
    else (if Falls(data, saved[0], kind, day) then [saved[0]] else []) + SavedRows(data, saved[1..], kind, day)
  }

  function SavedDemands(data: Data, rows: seq<Saved>, kind: Kind, lead: nat): seq<Demand>
    requires forall s <- rows :: s.item in Items(data, kind)
  {
    seq(|rows|, i requires 0 <= i < |rows| =>
      Demand(rows[i].user, DeadlineKey(kind, rows[i].item, lead), Items(data, kind)[rows[i].item].title))
  }

  /** The opportunities of one lead time, then its funding calls. */
  function DemandsAt(data: Data, today: int, lead: nat): seq<Demand> {
    SavedDemands(data, SavedRows(data, data.saved, Opportunity, today + lead), Opportunity, lead)
    + SavedDemands(data, SavedRows(data, data.saved, Funding, today + lead), Funding, lead)
  }

  function DeadlineDemands(data: Data, today: int, leads: seq<nat>): seq<Demand> {
    if leads == [] then [] else DemandsAt(data, today, leads[0]) + DeadlineDemands(data, today, leads[1..])
  }

  function MembersOf(members: seq<Member>, project: Id): (r: seq<Id>)
    ensures forall u :: u in r <==> Member(project, u) in members
  {
    if members == [] then []
    else (if members[0].project == project then [members[0].user] else []) + MembersOf(members[1..], project)
  }

  /** Each id once, where it first stands. */
  function Dedupe(ids: seq<Id>): (r: seq<Id>)
    ensures forall u :: u in r <==> u in ids
    ensures forall i, j | 0 <= i < j < |r| :: r[i] != r[j]
  {
    if ids == [] then []
    else
      var init, last := ids[..|ids| - 1], ids[|ids| - 1];
      assert ids == init + [last];
      Dedupe(init) + if last in init then [] else [last]
  }

  function Audience(data: Data, project: Id): seq<Id> {
    Dedupe((if project in data.projects then [data.projects[project].owner] else []) + MembersOf(data.members, project))
  }

  predicate Outstanding(data: Data, m: Milestone) {
    !m.settled && m.project in data.projects && !data.projects[m.project].deleted
  }

  function Matching(data: Data, milestones: seq<Milestone>, day: int, exactly: bool): (rows: seq<Milestone>)
    ensures forall m :: m in rows <==> m in milestones && Outstanding(data, m) && m.dueDate.Some?
                                       && if exactly then m.dueDate.value == day else m.dueDate.value < day
  {
    if milestones == [] then []
    else
      var m := milestones[0];
      var taken := Outstanding(data, m) && m.dueDate.Some? && if exactly then m.dueDate.value == day else m.dueDate.value < day;
      (if taken then [m] else []) + Matching(data, milestones[1..], day, exactly)
  }

  function ToEach(users: seq<Id>, key: Key, message: string): (r: seq<Demand>)
    ensures |r| == |users| && forall i | 0 <= i < |r| :: r[i] == Demand(users[i], key, message)
  {
    seq(|users|, i requires 0 <= i < |users| => Demand(users[i], key, message))
  }

  /** `lead` is absent for the overdue pass. */
  function MilestoneKey(m: Milestone, lead: Option<nat>): Key {
    if lead.Some? then DueKey(m.id, lead.value) else OverdueKey(m.id)
  }

  function TeamDemands(data: Data, rows: seq<Milestone>, lead: Option<nat>): seq<Demand> {
    if rows == [] then []
    else ToEach(Audience(data, rows[0].project), MilestoneKey(rows[0], lead), rows[0].title)
         + TeamDemands(data, rows[1..], lead)
  }

  function DueDemands(data: Data, today: int, leads: seq<nat>): seq<Demand> {
    if leads == [] then []
    else TeamDemands(data, Matching(data, data.milestones, today + leads[0], true), Some(leads[0]))
         + DueDemands(data, today, leads[1..])
  }

  function MilestoneDemands(data: Data, today: int, leads: seq<nat>): seq<Demand> {
    DueDemands(data, today, leads) + TeamDemands(data, Matching(data, data.milestones, today, false), None)
  }

  // ----- what the table makes of demands -----

  predicate Told(ns: seq<Notification>, user: Id, key: Key) {
    exists n <- ns :: n.user == user && n.key == Some(key)
  }

  function Deliver(ns: seq<Notification>, d: Demand): seq<Notification> {
    if Told(ns, d.user, d.key) then ns else ns + [Notification(d.user, Some(d.key), d.message)]
  }

  function Send(ns: seq<Notification>, ds: seq<Demand>): (r: seq<Notification>)
    decreases |ds|
  {
    if ds == [] then ns else Send(Deliver(ns, ds[0]), ds[1..])
  }

  lemma {:induction false} SendSplits(ns: seq<Notification>, a: seq<Demand>, b: seq<Demand>)
    ensures Send(ns, a + b) == Send(Send(ns, a), b)
    decreases |a|
  {
    if a == [] {
      assert a + b == b;
    } else {
      assert (a + b)[0] == a[0] && (a + b)[1..] == a[1..] + b;
      SendSplits(Deliver(ns, a[0]), a[1..], b);
    }
  }

  lemma SendLast(ns: seq<Notification>, ds: seq<Demand>, d: Demand)
    ensures Send(ns, ds + [d]) == Deliver(Send(ns, ds), d)
  {
    SendSplits(ns, ds, [d]);
    assert Send(Send(ns, ds), [d]) == Send(Deliver(Send(ns, ds), d), []);
  }

  /** The unique index: nobody is told the same thing twice. */
  ghost predicate OncePerKey(ns: seq<Notification>) {
    forall i, j | 0 <= i < j < |ns| && ns[i].key.Some? :: ns[i].user != ns[j].user || ns[i].key != ns[j].key
  }

  lemma DeliveryTellsOnce(ns: seq<Notification>, d: Demand)
    requires OncePerKey(ns)
    ensures OncePerKey(Deliver(ns, d)) && Told(Deliver(ns, d), d.user, d.key)
  {
    if !Told(ns, d.user, d.key) {
      var once := Deliver(ns, d);
      assert once[|ns|] in once;
      forall i | 0 <= i < |ns| && ns[i].key == Some(d.key) ensures ns[i].user != d.user { assert ns[i] in ns; }
    }
  }

  lemma {:induction false} SendingOnlyAdds(ns: seq<Notification>, ds: seq<Demand>)
    ensures ns <= Send(ns, ds)
    ensures forall n <- Send(ns, ds)[|ns|..] :: n.key.Some? && Demand(n.user, n.key.value, n.message) in ds
    decreases |ds|
  {
    if ds != [] {
      var once, sent := Deliver(ns, ds[0]), Send(ns, ds);
      SendingOnlyAdds(once, ds[1..]);
      assert sent[|ns|..] == once[|ns|..] + sent[|once|..];
    }
  }

  /** Sending keeps what is there, adds only what is demanded, repeats nothing, and
      leaves everybody told who was to be told. */
  lemma {:induction false} SendingTellsEachOnce(ns: seq<Notification>, ds: seq<Demand>)
    requires OncePerKey(ns)
    ensures OncePerKey(Send(ns, ds)) && ns <= Send(ns, ds)
    ensures forall n <- Send(ns, ds)[|ns|..] :: n.key.Some? && Demand(n.user, n.key.value, n.message) in ds
    ensures forall d <- ds :: Told(Send(ns, ds), d.user, d.key)
    decreases |ds|
  {
    SendingOnlyAdds(ns, ds);
    if ds != [] {
      var d, once := ds[0], Deliver(ns, ds[0]);
      DeliveryTellsOnce(ns, d);
      SendingTellsEachOnce(once, ds[1..]);
      ToldIsKept(once, Send(ns, ds), d.user, d.key);
      hide Told, OncePerKey;
      forall x | x in ds ensures Told(Send(ns, ds), x.user, x.key) {
        if x != d { assert x in ds[1..]; }
      }
    }
  }

  lemma ToldIsKept(a: seq<Notification>, b: seq<Notification>, user: Id, key: Key)
    requires a <= b && Told(a, user, key)
    ensures Told(b, user, key)
  {
    var n :| n in a && n.user == user && n.key == Some(key);
    var i :| 0 <= i < |a| && a[i] == n;
    assert b[i] == n;
  }

  lemma {:induction false} NothingNewIsWritten(ns: seq<Notification>, ds: seq<Demand>)
    requires forall d <- ds :: Told(ns, d.user, d.key)
    ensures Send(ns, ds) == ns
    decreases |ds|
  {
    if ds != [] {
      assert ds[0] in ds;
      NothingNewIsWritten(ns, ds[1..]);
    }
  }

  /** An immediate rerun, in whatever order its queries answer, writes nothing. */
  lemma RerunWritesNothing(ns: seq<Notification>, ds: seq<Demand>, again: seq<Demand>)
    requires OncePerKey(ns) && forall d <- again :: d in ds
    ensures Send(Send(ns, ds), again) == Send(ns, ds)
  {
    SendingTellsEachOnce(ns, ds);
    NothingNewIsWritten(Send(ns, ds), again);
  }

  // ----- schedules -----

  /** A job run sees the data as it then is; other notifications come in between, keyed
      or not, and an account takes its notifications with it. */
  datatype Step =
    | DeadlineJob(data: Data, today: int)
    | MilestoneJob(data: Data, today: int)
    | Other(notification: Notification)
    | AccountGone(user: Id)

  function Remaining(ns: seq<Notification>, gone: Id): (r: seq<Notification>)
    ensures forall n :: n in r <==> n in ns && n.user != gone
  {
    if ns == [] then [] else (if ns[0].user == gone then [] else [ns[0]]) + Remaining(ns[1..], gone)
  }

  function Apply(ns: seq<Notification>, s: Step): seq<Notification> {
    match s
    case DeadlineJob(data, today) => Send(ns, DeadlineDemands(data, today, LEAD_DAYS))
    case MilestoneJob(data, today) => Send(ns, MilestoneDemands(data, today, LEAD_DAYS))
    case Other(n) => if n.key.Some? then Deliver(ns, Demand(n.user, n.key.value, n.message)) else ns + [n]
    case AccountGone(user) => Remaining(ns, user)
  }

  function Run(ns: seq<Notification>, ss: seq<Step>): seq<Notification>
    decreases |ss|
  {
    if ss == [] then ns else Run(Apply(ns, ss[0]), ss[1..])
  }

  lemma {:induction false} RemainingOnce(ns: seq<Notification>, gone: Id)
    requires OncePerKey(ns)
    ensures OncePerKey(Remaining(ns, gone))
    decreases |ns|
  {
    if ns != [] {
      RemainingOnce(ns[1..], gone);
      var rest := Remaining(ns[1..], gone);
      forall i | 0 <= i < |rest| && ns[0].key.Some? ensures rest[i].user != ns[0].user || rest[i].key != ns[0].key {
        assert rest[i] in ns[1..];
        var j :| 0 <= j < |ns| - 1 && ns[1..][j] == rest[i];
        assert ns[j + 1] == rest[i];
      }
    }
  }

  lemma StepTellsOnce(ns: seq<Notification>, s: Step)
    requires OncePerKey(ns)
    ensures OncePerKey(Apply(ns, s))
  {
    hide DeadlineDemands, MilestoneDemands, Send, Remaining, Deliver;
    match s {
      case DeadlineJob(data, today) => SendingTellsEachOnce(ns, DeadlineDemands(data, today, LEAD_DAYS));
      case MilestoneJob(data, today) => SendingTellsEachOnce(ns, MilestoneDemands(data, today, LEAD_DAYS));
      case Other(n) => if n.key.Some? { DeliveryTellsOnce(ns, Demand(n.user, n.key.value, n.message)); }
      case AccountGone(user) => RemainingOnce(ns, user);
    }
  }

  /** Over any schedule of runs over changing data, each person has at most one overdue
      notice per milestone, one due notice per milestone and lead time, and one deadline
      reminder per saved item and lead time. */
  lemma {:induction false} ToldAtMostOnce(ns: seq<Notification>, ss: seq<Step>)
    requires OncePerKey(ns)
    ensures OncePerKey(Run(ns, ss))
    decreases |ss|
  {
    if ss != [] {
      StepTellsOnce(ns, ss[0]);
      hide Apply, OncePerKey;
      ToldAtMostOnce(Apply(ns, ss[0]), ss[1..]);
    }
  }

  /** Two runs on one day over the same data are one run. */
  lemma SameDaySameData(ns: seq<Notification>, data: Data, today: int)
    requires OncePerKey(ns)
    ensures Run(ns, [DeadlineJob(data, today), DeadlineJob(data, today)]) == Run(ns, [DeadlineJob(data, today)])
    ensures Run(ns, [MilestoneJob(data, today), MilestoneJob(data, today)]) == Run(ns, [MilestoneJob(data, today)])
  {
    var d, m := DeadlineDemands(data, today, LEAD_DAYS), MilestoneDemands(data, today, LEAD_DAYS);
    RerunWritesNothing(ns, d, d);
    RerunWritesNothing(ns, m, m);
    TwoRuns(ns, DeadlineJob(data, today));
    TwoRuns(ns, MilestoneJob(data, today));
  }

  lemma TwoRuns(ns: seq<Notification>, s: Step)
    ensures Run(ns, [s]) == Apply(ns, s) && Run(ns, [s, s]) == Apply(Apply(ns, s), s)
  {
    assert [s, s][1..] == [s];
    assert Run(ns, [s, s]) == Run(Apply(ns, s), [s]);
    assert Run(Apply(ns, s), [s]) == Run(Apply(Apply(ns, s), s), []);
    assert Run(ns, [s]) == Run(Apply(ns, s), []);
  }

  // ----- who is told -----

  lemma {:induction false} TeamDemandsExactly(data: Data, rows: seq<Milestone>, lead: Option<nat>, d: Demand)
    ensures d in TeamDemands(data, rows, lead) <==>
              exists m <- rows :: d.key == MilestoneKey(m, lead) && d.message == m.title && d.user in Audience(data, m.project)
    decreases |rows|
  {
    if rows != [] {
      TeamDemandsExactly(data, rows[1..], lead, d);
      var first := ToEach(Audience(data, rows[0].project), MilestoneKey(rows[0], lead), rows[0].title);
      if d.key == MilestoneKey(rows[0], lead) && d.message == rows[0].title && d.user in Audience(data, rows[0].project) {
        var i :| 0 <= i < |first| && Audience(data, rows[0].project)[i] == d.user;
        assert first[i] == d;
      }
    }
  }

  /** The overdue pass tells exactly the owner and the members of each live project with
      an unsettled milestone whose date has passed. */
  lemma OverdueGoesToTheTeam(data: Data, today: int, leads: seq<nat>, user: Id, id: Id)
    ensures (exists title :: Demand(user, OverdueKey(id), title) in MilestoneDemands(data, today, leads)) <==>
              exists m <- data.milestones ::
                && m.id == id && !m.settled && m.dueDate.Some? && m.dueDate.value < today
                && m.project in data.projects && !data.projects[m.project].deleted
                && (user == data.projects[m.project].owner || Member(m.project, user) in data.members)
  {
    var rows := Matching(data, data.milestones, today, false);
    forall title ensures Demand(user, OverdueKey(id), title) in MilestoneDemands(data, today, leads) <==>
                           Demand(user, OverdueKey(id), title) in TeamDemands(data, rows, None) {
      DueIsNotOverdue(data, today, leads, Demand(user, OverdueKey(id), title));
    }
    if title :| Demand(user, OverdueKey(id), title) in TeamDemands(data, rows, None) {
      TeamDemandsExactly(data, rows, None, Demand(user, OverdueKey(id), title));
    }
    if m :| m in data.milestones && m.id == id && Outstanding(data, m) && m.dueDate.Some? && m.dueDate.value < today
            && (user == data.projects[m.project].owner || Member(m.project, user) in data.members) {
      assert m in rows && user in Audience(data, m.project);
      TeamDemandsExactly(data, rows, None, Demand(user, OverdueKey(id), m.title));
    }
  }

  lemma {:induction false} DueIsNotOverdue(data: Data, today: int, leads: seq<nat>, d: Demand)
    requires d.key.OverdueKey?
    ensures d !in DueDemands(data, today, leads)
    decreases |leads|
  {
    if leads != [] {
      DueIsNotOverdue(data, today, leads[1..], d);
      TeamDemandsExactly(data, Matching(data, data.milestones, today + leads[0], true), Some(leads[0]), d);
    }
  }

  /** The demand is for an unsettled milestone of a live project, the given number of days away,
      and for the owner or a member of that project. */
  ghost predicate DueIn(data: Data, today: int, lead: nat, d: Demand) {
    exists m <- data.milestones ::
      && !m.settled && m.project in data.projects && !data.projects[m.project].deleted && m.dueDate == Some(today + lead)
      && d.key == DueKey(m.id, lead) && d.message == m.title
      && (d.user == data.projects[m.project].owner || Member(m.project, d.user) in data.members)
  }

  lemma OnePassIsDueIn(data: Data, today: int, lead: nat, d: Demand)
    ensures d in TeamDemands(data, Matching(data, data.milestones, today + lead, true), Some(lead)) <==> DueIn(data, today, lead, d)
  {
    hide TeamDemands;
    var rows := Matching(data, data.milestones, today + lead, true);
    TeamDemandsExactly(data, rows, Some(lead), d);
    if m :| m in rows && d.key == MilestoneKey(m, Some(lead)) && d.message == m.title && d.user in Audience(data, m.project) {
      assert m in data.milestones && m.dueDate == Some(today + lead);
    }
    if m :| m in data.milestones && !m.settled && m.project in data.projects && !data.projects[m.project].deleted
            && m.dueDate == Some(today + lead) && d.key == DueKey(m.id, lead) && d.message == m.title
            && (d.user == data.projects[m.project].owner || Member(m.project, d.user) in data.members) {
      assert m in rows && d.user in Audience(data, m.project);
    }
  }

  ghost predicate DueSoon(data: Data, today: int, leads: seq<nat>, d: Demand) {
    exists lead <- leads :: DueIn(data, today, lead, d)
  }

  lemma DueSoonSplits(data: Data, today: int, leads: seq<nat>, d: Demand)
    requires leads != []
    ensures DueSoon(data, today, leads, d) <==> DueIn(data, today, leads[0], d) || DueSoon(data, today, leads[1..], d)
  {
    hide DueIn;
  }

  lemma NothingIsDueSoon(data: Data, today: int, d: Demand)
    ensures !DueSoon(data, today, [], d)
  {
    hide DueIn;
  }

  /** The due passes tell exactly the teams of the milestones a listed number of days away. */
  lemma {:induction false} DueGoesToTheTeam(data: Data, today: int, leads: seq<nat>, d: Demand)
    ensures d in DueDemands(data, today, leads) <==> DueSoon(data, today, leads, d)
    decreases |leads|
  {
    hide DueIn, DueSoon, TeamDemands, Matching;
    if leads == [] {
      NothingIsDueSoon(data, today, d);
    } else {
      DueGoesToTheTeam(data, today, leads[1..], d);
      OnePassIsDueIn(data, today, leads[0], d);
      DueSoonSplits(data, today, leads, d);
    }
  }

  /** The demand is for an open item the person saved, the given number of days ahead. */
  ghost predicate SavedFor(data: Data, kind: Kind, today: int, lead: nat, d: Demand) {
    exists s <- data.saved ::
      var items := if kind == Opportunity then data.opportunities else data.funding;
      && s.kind == kind && s.item in items && items[s.item].isOpen && items[s.item].deadline == today + lead
      && d == Demand(s.user, DeadlineKey(kind, s.item, lead), items[s.item].title)
  }

  lemma SavedDemandsExactly(data: Data, kind: Kind, today: int, lead: nat, d: Demand)
    ensures d in SavedDemands(data, SavedRows(data, data.saved, kind, today + lead), kind, lead)
            <==> SavedFor(data, kind, today, lead, d)
  {
    var rows := SavedRows(data, data.saved, kind, today + lead);
    var ds := SavedDemands(data, rows, kind, lead);
    var items := if kind == Opportunity then data.opportunities else data.funding;
    assert items == Items(data, kind);
    if s :| s in data.saved && s.kind == kind && s.item in items && items[s.item].isOpen && items[s.item].deadline == today + lead
            && d == Demand(s.user, DeadlineKey(kind, s.item, lead), items[s.item].title) {
      assert s in rows;
      var i :| 0 <= i < |rows| && rows[i] == s;
      assert ds[i] == d;
    }
    if i :| 0 <= i < |ds| && ds[i] == d {
      assert rows[i] in rows && Falls(data, rows[i], kind, today + lead);
    }
  }

  /** A deadline run tells exactly those who saved an open item a listed number of days
      from its deadline. */
  lemma {:induction false} DeadlineGoesToWhoSaved(data: Data, today: int, leads: seq<nat>, d: Demand)
    ensures d in DeadlineDemands(data, today, leads) <==>
              exists lead <- leads :: SavedFor(data, Opportunity, today, lead, d) || SavedFor(data, Funding, today, lead, d)
    decreases |leads|
  {
    if leads != [] {
      hide SavedFor, SavedDemands, SavedRows;
      DeadlineGoesToWhoSaved(data, today, leads[1..], d);
      SavedDemandsExactly(data, Opportunity, today, leads[0], d);
      SavedDemandsExactly(data, Funding, today, leads[0], d);
    }
  }

  /** The jobs look a week and a day ahead. */
  lemma AWeekAndADayAhead(data: Data, today: int, d: Demand)
    ensures d in DeadlineDemands(data, today, LEAD_DAYS) <==>
              || SavedFor(data, Opportunity, today, 7, d) || SavedFor(data, Funding, today, 7, d)
              || SavedFor(data, Opportunity, today, 1, d) || SavedFor(data, Funding, today, 1, d)
    ensures d in DueDemands(data, today, LEAD_DAYS) <==> DueIn(data, today, 7, d) || DueIn(data, today, 1, d)
  {
    hide SavedFor, DueIn, DeadlineDemands, DueDemands;
    DeadlineGoesToWhoSaved(data, today, LEAD_DAYS, d);
    DueGoesToTheTeam(data, today, LEAD_DAYS, d);
    assert 7 in LEAD_DAYS && 1 in LEAD_DAYS;
  }
}
