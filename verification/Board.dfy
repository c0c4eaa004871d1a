/** The notice board: who sees a notice, what may be done to it, and what is unread. */
module Board {
  import opened Base
  import opened Users

  datatype Audience = Institution | OneDepartment

  datatype Status = Draft | Published | Withdrawn

  datatype Notice = Notice(
    subject: string,
    body: string,
    audience: Audience,
    department: Option<Id>,
    postedBy: Option<Id>,
    postedByRole: Role,
    source: Option<Id>,
    status: Status,
    publishedAt: Option<Time>,
    createdAt: Time)

  datatype Link = Link(title: Option<string>, url: string)

  datatype LinkRow = LinkRow(notice: Id, link: Link, position: nat)

  /** A stored file: its sniffed type, its name and its bytes. */
  datatype File = File(name: string, contentType: string, data: seq<bv8>)

  datatype Attachment = Attachment(notice: Id, file: File)

  /** A receipt is the pair of a notice and the person who opened it. */
  datatype State = State(
    clock: Time,
    users: map<Id, User>,
    notices: map<Id, Notice>,
    links: seq<LinkRow>,
    attachments: map<Id, Attachment>,
    receipts: set<(Id, Id)>,
    next: Id)

  datatype Error = NotSignedIn | Forbidden | NoScopeToPost | NotFound | WrongStatus | NotYours | InvalidFile

  datatype Reply = Done | Refused(error: Error)

  // ----- policies -----

  /** How far a person's notices carry: never named in the request. */
  function ReachOf(actor: User): Option<(Audience, Option<Id>)> {
    if actor.role in INSTITUTION_WIDE then Some((Institution, None))
    else if CoordinatorDepartment(actor).Some? then Some((OneDepartment, CoordinatorDepartment(actor)))
    else None
  }

  predicate Addressed(viewer: User, n: Notice) {
    && n.status == Published
    && (viewer.role in INSTITUTION_WIDE || n.audience == Institution
        || (viewer.department.Some? && n.department == viewer.department))
  }

  predicate Visible(viewer: User, n: Notice) {
    Addressed(viewer, n) || n.postedBy == Some(viewer.id) || (viewer.role == Admin && n.status == Withdrawn)
  }

  predicate MayEdit(actor: User, n: Notice) { n.postedBy == Some(actor.id) && n.status == Draft }

  predicate MayWithdraw(actor: User, n: Notice) {
    n.status == Published && (n.postedBy == Some(actor.id) || actor.role == Admin)
  }

  predicate MayDelete(actor: User, n: Notice) {
    if n.status == Draft then n.postedBy == Some(actor.id) else n.status == Withdrawn && actor.role == Admin
  }

  // ----- the calls -----

  predicate SignedIn(s: State, u: Id) {
    u in s.users && s.users[u].isActive && !s.users[u].mustChangePassword
  }

  /** The one way a notice is fetched: absent and hidden are the same answer. */
  function Fetch(s: State, id: Id, viewer: Id): Option<Error> {
    if !SignedIn(s, viewer) then Some(NotSignedIn)
    else if id !in s.notices || !Visible(s.users[viewer], s.notices[id]) then Some(NotFound)
    else None
  }

  /** Refusing an edit: status first, authorship second. */
  function FetchToEdit(s: State, id: Id, actor: Id): Option<Error> {
    if Fetch(s, id, actor).Some? then Fetch(s, id, actor)
    else if MayEdit(s.users[actor], s.notices[id]) then None
    else if s.notices[id].status != Draft then Some(WrongStatus)
    else Some(NotYours)
  }

  function Without(rows: seq<LinkRow>, id: Id): (r: seq<LinkRow>)
    ensures forall row <- r :: row in rows && row.notice != id
  {
    if rows == [] then [] else (if rows[0].notice == id then [] else [rows[0]]) + Without(rows[1..], id)
  }

  function RowsOf(rows: seq<LinkRow>, id: Id): (r: seq<LinkRow>)
    ensures forall row <- r :: row in rows && row.notice == id
  {
    if rows == [] then [] else (if rows[0].notice == id then [rows[0]] else []) + RowsOf(rows[1..], id)
  }

  /** One row per link, numbered in the author's order. */
  function Written(id: Id, links: seq<Link>): (r: seq<LinkRow>)
    ensures |r| == |links| && forall k | 0 <= k < |links| :: r[k] == LinkRow(id, links[k], k)
  {
    seq(|links|, k requires 0 <= k < |links| => LinkRow(id, links[k], k))
  }

  function Create(s: State, actor: Id, subject: string, body: string, links: seq<Link>): (State, Reply) {
    if !SignedIn(s, actor) then (s, Refused(NotSignedIn))
    else if s.users[actor].role !in {Coordinator, Dean, Role.Admin} then (s, Refused(Forbidden))
    else if ReachOf(s.users[actor]).None? then (s, Refused(NoScopeToPost))
    else
      var reach := ReachOf(s.users[actor]).value;
      var n := Notice(subject, body, reach.0, reach.1, Some(actor), s.users[actor].role, None, Draft, None, s.clock);
      (s.(notices := s.notices[s.next := n], links := Without(s.links, s.next) + Written(s.next, links),
          next := s.next + 1), Done)
  }

  function Update(s: State, id: Id, actor: Id, subject: Option<string>, body: Option<string>, links: Option<seq<Link>>)
    : (State, Reply)
  {
    if FetchToEdit(s, id, actor).Some? then (s, Refused(FetchToEdit(s, id, actor).value))
    else
      var n := s.notices[id];
      var changed := n.(subject := if subject.Some? then subject.value else n.subject,
                        body := if body.Some? then body.value else n.body);
      (s.(notices := s.notices[id := changed],
          links := if links.Some? then Without(s.links, id) + Written(id, links.value) else s.links), Done)
  }

  function Publish(s: State, id: Id, actor: Id): (State, Reply) {
    if FetchToEdit(s, id, actor).Some? then (s, Refused(FetchToEdit(s, id, actor).value))
    else (s.(notices := s.notices[id := s.notices[id].(status := Published, publishedAt := Some(s.clock))]), Done)
  }

  function Withdraw(s: State, id: Id, actor: Id): (State, Reply) {
    if Fetch(s, id, actor).Some? then (s, Refused(Fetch(s, id, actor).value))
    else if !MayWithdraw(s.users[actor], s.notices[id]) then
      (s, Refused(if s.notices[id].status != Published then WrongStatus else NotYours))
    else (s.(notices := s.notices[id := s.notices[id].(status := Withdrawn)]), Done)
  }

  /** Rows that reference the notices go with them. */
  function Removed(s: State, gone: set<Id>): State {
    s.(notices := s.notices - gone,
       links := Kept(s.links, gone),
       attachments := map a | a in s.attachments && s.attachments[a].notice !in gone :: s.attachments[a],
       receipts := set r | r in s.receipts && r.0 !in gone)
  }

  function Kept(rows: seq<LinkRow>, gone: set<Id>): (r: seq<LinkRow>)
    ensures forall row <- r :: row in rows && row.notice !in gone
  {
    if rows == [] then [] else (if rows[0].notice in gone then [] else [rows[0]]) + Kept(rows[1..], gone)
  }

  function Delete(s: State, id: Id, actor: Id): (State, Reply) {
    if Fetch(s, id, actor).Some? then (s, Refused(Fetch(s, id, actor).value))
    else if !MayDelete(s.users[actor], s.notices[id]) then
      (s, Refused(if s.notices[id].status == Published then WrongStatus else NotYours))
    else (Removed(s, {id}), Done)
  }

  function MarkRead(s: State, id: Id, viewer: Id): (State, Reply) {
    if Fetch(s, id, viewer).Some? then (s, Refused(Fetch(s, id, viewer).value))
    else (s.(receipts := s.receipts + {(id, viewer)}), Done)
  }

  /** `file` is what validation makes of the bytes, None when it refuses them. */
  function Attach(s: State, id: Id, actor: Id, file: Option<File>): (State, Reply) {
    if FetchToEdit(s, id, actor).Some? then (s, Refused(FetchToEdit(s, id, actor).value))
    else if file.None? then (s, Refused(InvalidFile))
    else (s.(attachments := s.attachments[s.next := Attachment(id, file.value)], next := s.next + 1), Done)
  }

  function Detach(s: State, id: Id, attachment: Id, actor: Id): (State, Reply) {
    if FetchToEdit(s, id, actor).Some? then (s, Refused(FetchToEdit(s, id, actor).value))
    else if attachment !in s.attachments || s.attachments[attachment].notice != id then (s, Refused(NotFound))
    else (s.(attachments := s.attachments - {attachment}), Done)
  }

  function ReadAttachment(s: State, id: Id, attachment: Id, viewer: Id): Outcome<File, Error> {
    if Fetch(s, id, viewer).Some? then Err(Fetch(s, id, viewer).value)
    else if attachment !in s.attachments || s.attachments[attachment].notice != id then Err(NotFound)
    else Ok(s.attachments[attachment].file)
  }

  // ----- notices raised from openings -----

  /** What a notice takes from an opening: `text` is the body derived from it. */
  datatype Opening = Opening(title: string, text: string, department: Option<Id>, createdBy: Id)

  const SUBJECT_MAX: nat := 200

  function SubjectOf(title: string): string {
    var full := "Opening: " + title;
    if |full| <= SUBJECT_MAX then full else full[..SUBJECT_MAX]
  }

  predicate OnBoard(s: State, opening: Id) {
    exists id | id in s.notices :: s.notices[id].source == Some(opening)
  }

  function Raise(s: State, id: Id, o: Opening): State {
    if OnBoard(s, id) || o.createdBy !in s.users then s
    else
      var n := Notice(SubjectOf(o.title), o.text, if o.department.Some? then OneDepartment else Institution,
                      o.department, Some(o.createdBy), s.users[o.createdBy].role, Some(id), Published,
                      Some(s.clock), s.clock);
      s.(notices := s.notices[s.next := n], next := s.next + 1)
  }

  function TakeDown(s: State, opening: Id): State {
    s.(notices := map id | id in s.notices ::
         if s.notices[id].source == Some(opening) && s.notices[id].status == Published
         then s.notices[id].(status := Withdrawn) else s.notices[id])
  }

  // ----- hidden and absent -----

  /** Whatever a person asks about a notice they may not see, the answer is the one they
      would get if it did not exist, and nothing changes. */
  lemma HiddenIsAbsent(s: State, id: Id, viewer: Id, subject: Option<string>, links: Option<seq<Link>>, file: Option<File>, a: Id)
    requires viewer in s.users && id in s.notices && !Visible(s.users[viewer], s.notices[id])
    ensures var t := s.(notices := s.notices - {id});
            && Update(s, id, viewer, subject, subject, links) == (s, Update(t, id, viewer, subject, subject, links).1)
            && Publish(s, id, viewer) == (s, Publish(t, id, viewer).1)
            && Withdraw(s, id, viewer) == (s, Withdraw(t, id, viewer).1)
            && Delete(s, id, viewer) == (s, Delete(t, id, viewer).1)
            && MarkRead(s, id, viewer) == (s, MarkRead(t, id, viewer).1)
            && Attach(s, id, viewer, file) == (s, Attach(t, id, viewer, file).1)
            && Detach(s, id, a, viewer) == (s, Detach(t, id, a, viewer).1)
            && ReadAttachment(s, id, a, viewer) == ReadAttachment(t, id, a, viewer)
  {
  }

  /** A draft is visible to its author alone, administrators included; so an edit is never
      answered with "not yours", and is answered with "wrong status" exactly when the
      notice is visible and no longer a draft. */
  lemma EditsAreRefusedByStatus(s: State, id: Id, actor: Id)
    requires SignedIn(s, actor) && s.users[actor].id == actor && id in s.notices
    ensures s.notices[id].status == Draft ==>
              (Visible(s.users[actor], s.notices[id]) <==> s.notices[id].postedBy == Some(actor))
    ensures FetchToEdit(s, id, actor) != Some(NotYours)
    ensures FetchToEdit(s, id, actor) == Some(WrongStatus) <==>
              Visible(s.users[actor], s.notices[id]) && s.notices[id].status != Draft
  {
  }

  // ----- links -----

  lemma {:induction false} RowsOfSplit(a: seq<LinkRow>, b: seq<LinkRow>, id: Id)
    ensures RowsOf(a + b, id) == RowsOf(a, id) + RowsOf(b, id)
    decreases |a|
  {
    if a == [] {
      assert a + b == b;
    } else {
      RowsOfSplit(a[1..], b, id);
      assert (a + b)[1..] == a[1..] + b;
    }
  }

  lemma {:induction false} RowsOfKept(rows: seq<LinkRow>, gone: set<Id>, id: Id)
    requires id !in gone
    ensures RowsOf(Kept(rows, gone), id) == RowsOf(rows, id)
    decreases |rows|
  {
    if rows != [] {
      RowsOfKept(rows[1..], gone, id);
      RowsOfSplit(if rows[0].notice in gone then [] else [rows[0]], Kept(rows[1..], gone), id);
    }
  }

  lemma {:induction false} WithoutIsKept(rows: seq<LinkRow>, id: Id)
    ensures Without(rows, id) == Kept(rows, {id})
    decreases |rows|
  {
    if rows != [] {
      WithoutIsKept(rows[1..], id);
    }
  }

  lemma {:induction false} RowsOfUniform(rows: seq<LinkRow>, owner: Id, id: Id)
    requires forall row <- rows :: row.notice == owner
    ensures RowsOf(rows, id) == if owner == id then rows else []
    decreases |rows|
  {
    if rows != [] {
      RowsOfUniform(rows[1..], owner, id);
    }
  }

  lemma {:induction false} NoneLeft(rows: seq<LinkRow>, id: Id)
    ensures RowsOf(Without(rows, id), id) == []
    decreases |rows|
  {
    if rows != [] {
      NoneLeft(rows[1..], id);
      RowsOfSplit(if rows[0].notice == id then [] else [rows[0]], Without(rows[1..], id), id);
    }
  }

  /** Writing the links of a notice replaces all of its rows, in the author's order, and
      no other notice's. */
  lemma WrittenLinksReadBack(rows: seq<LinkRow>, id: Id, links: seq<Link>, other: Id)
    ensures RowsOf(Without(rows, id) + Written(id, links), id) == Written(id, links)
    ensures other != id ==> RowsOf(Without(rows, id) + Written(id, links), other) == RowsOf(rows, other)
  {
    RowsOfSplit(Without(rows, id), Written(id, links), id);
    RowsOfUniform(Written(id, links), id, id);
    NoneLeft(rows, id);
    if other != id {
      RowsOfSplit(Without(rows, id), Written(id, links), other);
      RowsOfUniform(Written(id, links), id, other);
      WithoutIsKept(rows, id);
      RowsOfKept(rows, {id}, other);
    }
  }
}
