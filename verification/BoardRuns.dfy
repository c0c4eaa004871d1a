/** The board over whole runs of calls, account changes and deletions. */
module BoardRuns {
  import opened Base
  import opened Users
  import opened Board

  datatype Event =
    | Tick(now: Time)
    | UsersChange(users: map<Id, User>)
    | UserGone(user: Id)
    | NoticesGone(gone: set<Id>)
    | EvCreate(actor: Id, subject: string, body: string, links: seq<Link>)
    | EvUpdate(id: Id, actor: Id, newSubject: Option<string>, newBody: Option<string>, newLinks: Option<seq<Link>>)
    | EvPublish(id: Id, actor: Id)
    | EvWithdraw(id: Id, actor: Id)
    | EvDelete(id: Id, actor: Id)
    | EvMarkRead(id: Id, viewer: Id)
    | EvAttach(id: Id, actor: Id, file: Option<File>)
    | EvDetach(id: Id, attachment: Id, actor: Id)
    | EvRaise(id: Id, opening: Opening)
    | EvTakeDown(id: Id)

  /** A notice outlives the account that posted it; its receipts do not. */
  function WithoutUser(s: State, user: Id): State {
    s.(users := s.users - {user},
       notices := map id | id in s.notices ::
         if s.notices[id].postedBy == Some(user) then s.notices[id].(postedBy := None) else s.notices[id],
       receipts := set r | r in s.receipts && r.1 != user)
  }

  function Apply(s: State, e: Event): State {
    match e
    case Tick(now) => s.(clock := Max(s.clock, now))
    case UsersChange(users) => s.(users := users)
    case UserGone(user) => WithoutUser(s, user)
    case NoticesGone(gone) => Removed(s, gone)
    case EvCreate(actor, subject, body, links) => Create(s, actor, subject, body, links).0
    case EvUpdate(id, actor, subject, body, links) => Update(s, id, actor, subject, body, links).0
    case EvPublish(id, actor) => Publish(s, id, actor).0
    case EvWithdraw(id, actor) => Withdraw(s, id, actor).0
    case EvDelete(id, actor) => Delete(s, id, actor).0
    case EvMarkRead(id, viewer) => MarkRead(s, id, viewer).0
    case EvAttach(id, actor, file) => Attach(s, id, actor, file).0
    case EvDetach(id, attachment, actor) => Detach(s, id, attachment, actor).0
    case EvRaise(id, opening) => Raise(s, id, opening)
    case EvTakeDown(id) => TakeDown(s, id)
  }

  function Run(s: State, es: seq<Event>): State
    decreases |es|
  {
    if es == [] then s else Run(Apply(s, es[0]), es[1..])
  }

  lemma {:induction false} RunsFollow(s: State, a: seq<Event>, b: seq<Event>)
    ensures Run(s, a + b) == Run(Run(s, a), b)
    decreases |a|
  {
    if a == [] {
      assert a + b == b;
    } else {
      hide Apply;
      assert (a + b)[0] == a[0] && (a + b)[1..] == a[1..] + b;
      RunsFollow(Apply(s, a[0]), a[1..], b);
    }
  }

  // ----- what every call keeps -----

  predicate NoticesNumbered(s: State) { forall id | id in s.notices :: id < s.next }

  predicate DatedWhenPublished(s: State) {
    forall id | id in s.notices && s.notices[id].status == Published :: s.notices[id].publishedAt.Some?
  }

  predicate AddressedSomewhere(s: State) {
    forall id | id in s.notices && s.notices[id].audience == OneDepartment :: s.notices[id].department.Some?
  }

  /** A notice raised from an opening was never a draft. */
  predicate RaisedPublished(s: State) {
    forall id | id in s.notices && s.notices[id].status == Draft :: s.notices[id].source.None?
  }

  predicate OnePerOpening(s: State) {
    forall i, j | i in s.notices && j in s.notices && s.notices[i].source.Some? && s.notices[i].source == s.notices[j].source ::
      i == j
  }

  /** How far a notice carries follows from who spoke: the institution hears the roles that
      answer to it, a department its coordinator, and openings speak to their own. */
  predicate VoicesHold(s: State) {
    forall id | id in s.notices ::
      var n := s.notices[id];
      if n.source.Some? then n.audience == Institution <==> n.department.None?
      else if n.audience == Institution then n.postedByRole in INSTITUTION_WIDE && n.department.None?
      else n.postedByRole == Coordinator && n.department.Some?
  }

  predicate FilesNumbered(s: State) { forall a | a in s.attachments :: a < s.next }

  predicate Sound(s: State) {
    && NoticesNumbered(s) && FilesNumbered(s) && DatedWhenPublished(s) && AddressedSomewhere(s)
    && RaisedPublished(s) && OnePerOpening(s) && VoicesHold(s)
  }

  lemma KeepsNumbered(s: State, e: Event)
    requires NoticesNumbered(s) && FilesNumbered(s)
    ensures NoticesNumbered(Apply(s, e)) && FilesNumbered(Apply(s, e)) && s.next <= Apply(s, e).next
  {
  }

  lemma KeepsConstraints(s: State, e: Event)
    requires DatedWhenPublished(s) && AddressedSomewhere(s)
    ensures DatedWhenPublished(Apply(s, e)) && AddressedSomewhere(Apply(s, e))
  {
  }

  lemma KeepsRaisedPublished(s: State, e: Event)
    requires RaisedPublished(s)
    ensures RaisedPublished(Apply(s, e))
  {
  }

  /** No call but raising gives a notice a source. */
  lemma SourcesStand(s: State, e: Event, id: Id)
    requires id in Apply(s, e).notices && Apply(s, e).notices[id].source.Some? && !e.EvRaise?
    ensures id in s.notices && s.notices[id].source == Apply(s, e).notices[id].source
  {
  }

  lemma KeepsOnePerOpening(s: State, e: Event)
    requires OnePerOpening(s)
    ensures OnePerOpening(Apply(s, e))
  {
    if !e.EvRaise? {
      var t := Apply(s, e);
      hide Apply;
      forall id | id in t.notices && t.notices[id].source.Some?
        ensures id in s.notices && s.notices[id].source == t.notices[id].source
      {
        SourcesStand(s, e, id);
      }
    }
  }

  lemma KeepsVoices(s: State, e: Event)
    requires VoicesHold(s)
    ensures VoicesHold(Apply(s, e))
  {
  }

  /** Whoever sees a published notice of a coordinator's own writing is in the department it
      was written for, answers to the institution, or wrote it; and a published notice of
      the institution is seen by everybody. */
  lemma HeardExactly(s: State, id: Id, viewer: User)
    requires Sound(s) && id in s.notices && s.notices[id].status == Published && s.notices[id].source.None?
    ensures var n := s.notices[id];
            Visible(viewer, n) <==>
              || n.postedByRole in INSTITUTION_WIDE || viewer.role in INSTITUTION_WIDE
              || n.postedBy == Some(viewer.id) || (n.department == viewer.department && viewer.department.Some?)
  {
    assert VoicesHold(s);
  }

  lemma KeepsSound(s: State, e: Event)
    requires Sound(s)
    ensures Sound(Apply(s, e)) && s.next <= Apply(s, e).next
  {
    hide Apply, NoticesNumbered, FilesNumbered, DatedWhenPublished, AddressedSomewhere, RaisedPublished, OnePerOpening;
    hide VoicesHold;
    KeepsVoices(s, e);
    KeepsNumbered(s, e);
    KeepsConstraints(s, e);
    KeepsRaisedPublished(s, e);
    KeepsOnePerOpening(s, e);
  }

  lemma {:induction false} RunsKeepSound(s: State, es: seq<Event>)
    requires Sound(s)
    ensures Sound(Run(s, es))
    decreases |es|
  {
    if es != [] {
      hide Apply, Sound;
      KeepsSound(s, es[0]);
      RunsKeepSound(Apply(s, es[0]), es[1..]);
    }
  }

  // ----- said is said -----

  function Rank(status: Status): nat {
    match status
    case Draft => 0
    case Published => 1
    case Withdrawn => 2
  }

  function FilesOf(s: State, id: Id): map<Id, Attachment> {
    map a | a in s.attachments && s.attachments[a].notice == id :: s.attachments[a]
  }

  /** In `t` the notice is gone for good, or says what it said in `s` and stands no
      earlier in its life. */
  predicate StillSays(s: State, t: State, id: Id)
    requires id in s.notices
  {
    if id !in t.notices then id < t.next
    else
      var n, m := s.notices[id], t.notices[id];
      && m == n.(status := m.status, postedBy := m.postedBy) && Rank(n.status) <= Rank(m.status)
      && RowsOf(t.links, id) == RowsOf(s.links, id)
      && FilesOf(t, id) == FilesOf(s, id)
  }

  predicate TouchesLinks(e: Event) { e.EvCreate? || e.EvUpdate? || e.EvDelete? || e.NoticesGone? }

  lemma OtherCallsLeaveLinks(s: State, e: Event)
    requires !TouchesLinks(e)
    ensures Apply(s, e).links == s.links
  {
  }

  lemma UpdatesLeaveOtherLinks(s: State, e: Event, id: Id)
    requires e.EvUpdate? && id in s.notices && s.notices[id].status != Draft
    ensures RowsOf(Apply(s, e).links, id) == RowsOf(s.links, id)
  {
    hide RowsOf, Without;
    if e.newLinks.Some? && e.id != id {
      WrittenLinksReadBack(s.links, e.id, e.newLinks.value, id);
    }
  }

  lemma DeletionsLeaveOtherLinks(s: State, e: Event, id: Id)
    requires (e.EvDelete? || e.NoticesGone?) && id in Apply(s, e).notices
    ensures RowsOf(Apply(s, e).links, id) == RowsOf(s.links, id)
  {
    hide RowsOf, Kept;
    if e.NoticesGone? {
      RowsOfKept(s.links, e.gone, id);
    } else if Delete(s, e.id, e.actor).1 == Done {
      RowsOfKept(s.links, {e.id}, id);
    }
  }

  lemma LinksStand(s: State, e: Event, id: Id)
    requires id in s.notices && s.notices[id].status != Draft && NoticesNumbered(s)
    requires id in Apply(s, e).notices
    ensures RowsOf(Apply(s, e).links, id) == RowsOf(s.links, id)
  {
    hide RowsOf, Without, Kept;
    if !TouchesLinks(e) {
      OtherCallsLeaveLinks(s, e);
    } else if e.EvUpdate? {
      UpdatesLeaveOtherLinks(s, e, id);
    } else if e.EvCreate? {
      WrittenLinksReadBack(s.links, s.next, e.links, id);
    } else {
      DeletionsLeaveOtherLinks(s, e, id);
    }
  }

  lemma WordsStand(s: State, e: Event, id: Id)
    requires id in s.notices && s.notices[id].status != Draft && NoticesNumbered(s)
    requires id in Apply(s, e).notices
    ensures var n, m := s.notices[id], Apply(s, e).notices[id];
            m == n.(status := m.status, postedBy := m.postedBy) && Rank(n.status) <= Rank(m.status)
  {
  }

  lemma FilesStand(s: State, e: Event, id: Id)
    requires id in s.notices && s.notices[id].status != Draft && NoticesNumbered(s) && FilesNumbered(s)
    requires id in Apply(s, e).notices
    ensures FilesOf(Apply(s, e), id) == FilesOf(s, id)
  {
  }

  /** Once published, a notice keeps its words, its reach, its links and its files through
      every run, its status only moves forward, and once deleted it never returns. */
  lemma {:induction false} SaidIsSaid(s: State, es: seq<Event>, id: Id)
    requires Sound(s) && id in s.notices && s.notices[id].status != Draft
    ensures StillSays(s, Run(s, es), id)
    decreases |es|
  {
    if es != [] {
      var t := Apply(s, es[0]);
      KeepsSound(s, es[0]);
      if id in t.notices {
        LinksStand(s, es[0], id);
        WordsStand(s, es[0], id);
        FilesStand(s, es[0], id);
        hide Apply, Sound, FilesOf, RowsOf;
        SaidIsSaid(t, es[1..], id);
      } else {
        GoneForGood(t, es[1..], id);
      }
    }
  }

  lemma GoneStaysGone(s: State, e: Event, id: Id)
    requires id !in s.notices && id < s.next
    ensures id !in Apply(s, e).notices && id < Apply(s, e).next
  {
  }

  lemma {:induction false} GoneForGood(s: State, es: seq<Event>, id: Id)
    requires id !in s.notices && id < s.next
    ensures id !in Run(s, es).notices && id < Run(s, es).next
    decreases |es|
  {
    if es != [] {
      GoneStaysGone(s, es[0], id);
      hide Apply;
      GoneForGood(Apply(s, es[0]), es[1..], id);
    }
  }
}
