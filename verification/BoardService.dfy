/** The calls on the board, changing its rows in place. */
module BoardService {
  import opened Base
  import opened Users
  import opened Board

  class Database {
    var clock: Time
    var users: map<Id, User>
    var notices: map<Id, Notice>
    var links: seq<LinkRow>
    var attachments: map<Id, Attachment>
    var receipts: set<(Id, Id)>
    var next: Id

    constructor (s: State)
      ensures Rows() == s
    {
      clock, users, notices, links := s.clock, s.users, s.notices, s.links;
      attachments, receipts, next := s.attachments, s.receipts, s.next;
    }

    function Rows(): State
      reads this
    {
      State(clock, users, notices, links, attachments, receipts, next)
    }

    method WriteLinks(id: Id, wanted: seq<Link>)
      modifies this`links
      ensures links == Without(old(links), id) + Written(id, wanted)
    {
      links := Without(links, id);
      for position := 0 to |wanted|
        invariant links == Without(old(links), id) + Written(id, wanted)[..position]
      {
        links := links + [LinkRow(id, wanted[position], position)];
      }
      assert Written(id, wanted)[..|wanted|] == Written(id, wanted);
    }

    method Create(actor: Id, subject: string, body: string, wanted: seq<Link>) returns (reply: Reply)
      modifies this
      ensures (Rows(), reply) == Board.Create(old(Rows()), actor, subject, body, wanted)
    {
      if !SignedIn(Rows(), actor) { return Refused(NotSignedIn); }
      if users[actor].role !in {Coordinator, Dean, Role.Admin} { return Refused(Forbidden); }
      var reach := ReachOf(users[actor]);
      if reach.None? { return Refused(NoScopeToPost); }
      var id := next;
      notices := notices[id := Notice(subject, body, reach.value.0, reach.value.1, Some(actor), users[actor].role,
                                      None, Draft, None, clock)];
      next := next + 1;
      WriteLinks(id, wanted);
      reply := Done;
    }

    method Update(id: Id, actor: Id, subject: Option<string>, body: Option<string>, wanted: Option<seq<Link>>)
      returns (reply: Reply)
      modifies this
      ensures (Rows(), reply) == Board.Update(old(Rows()), id, actor, subject, body, wanted)
    {
      var refused := FetchToEdit(Rows(), id, actor);
      if refused.Some? { return Refused(refused.value); }
      if subject.Some? { notices := notices[id := notices[id].(subject := subject.value)]; }
      if body.Some? { notices := notices[id := notices[id].(body := body.value)]; }
      assert notices == old(notices)[id := notices[id]];
      if wanted.Some? { WriteLinks(id, wanted.value); }
      reply := Done;
    }

    method Publish(id: Id, actor: Id) returns (reply: Reply)
      modifies this
      ensures (Rows(), reply) == Board.Publish(old(Rows()), id, actor)
    {
      var refused := Fetch(Rows(), id, actor);
      if refused.Some? { return Refused(refused.value); }
      var n := notices[id];
      if !MayEdit(users[actor], n) {
        return Refused(if n.status != Draft then WrongStatus else NotYours);
      }
      notices := notices[id := n.(status := Published, publishedAt := Some(clock))];
      reply := Done;
    }

    method Withdraw(id: Id, actor: Id) returns (reply: Reply)
      modifies this
      ensures (Rows(), reply) == Board.Withdraw(old(Rows()), id, actor)
    {
      var refused := Fetch(Rows(), id, actor);
      if refused.Some? { return Refused(refused.value); }
      var n := notices[id];
      if !MayWithdraw(users[actor], n) {
        return Refused(if n.status != Published then WrongStatus else NotYours);
      }
      notices := notices[id := n.(status := Withdrawn)];
      reply := Done;
    }

    method Delete(id: Id, actor: Id) returns (reply: Reply)
      modifies this
      ensures (Rows(), reply) == Board.Delete(old(Rows()), id, actor)
    {
      var refused := Fetch(Rows(), id, actor);
      if refused.Some? { return Refused(refused.value); }
      if !MayDelete(users[actor], notices[id]) {
        return Refused(if notices[id].status == Published then WrongStatus else NotYours);
      }
      notices := notices - {id};
      links := Kept(links, {id});
      attachments := map a | a in attachments && attachments[a].notice != id :: attachments[a];
      receipts := set r | r in receipts && r.0 != id;
      assert attachments == Removed(old(Rows()), {id}).attachments;
      assert receipts == Removed(old(Rows()), {id}).receipts;
      reply := Done;
    }

    method MarkRead(id: Id, viewer: Id) returns (reply: Reply)
      modifies this
      ensures (Rows(), reply) == Board.MarkRead(old(Rows()), id, viewer)
    {
      var refused := Fetch(Rows(), id, viewer);
      if refused.Some? { return Refused(refused.value); }
      receipts := receipts + {(id, viewer)};
      reply := Done;
    }

    method Attach(id: Id, actor: Id, file: Option<File>) returns (reply: Reply)
      modifies this
      ensures (Rows(), reply) == Board.Attach(old(Rows()), id, actor, file)
    {
      var refused := FetchToEdit(Rows(), id, actor);
      if refused.Some? { return Refused(refused.value); }
      if file.None? { return Refused(InvalidFile); }
      attachments := attachments[next := Attachment(id, file.value)];
      next := next + 1;
      reply := Done;
    }

    method Detach(id: Id, attachment: Id, actor: Id) returns (reply: Reply)
      modifies this
      ensures (Rows(), reply) == Board.Detach(old(Rows()), id, attachment, actor)
    {
      var refused := FetchToEdit(Rows(), id, actor);
      if refused.Some? { return Refused(refused.value); }
      if attachment !in attachments || attachments[attachment].notice != id { return Refused(NotFound); }
      attachments := attachments - {attachment};
      reply := Done;
    }

    method RaiseNotice(id: Id, o: Opening)
      modifies this
      ensures Rows() == Board.Raise(old(Rows()), id, o)
    {
      if OnBoard(Rows(), id) { return; }
      if o.createdBy !in users { return; }
      var audience := if o.department.Some? then OneDepartment else Institution;
      notices := notices[next := Notice(SubjectOf(o.title), o.text, audience, o.department, Some(o.createdBy),
                                        users[o.createdBy].role, Some(id), Published, Some(clock), clock)];
      next := next + 1;
    }

    /** The query returns at most one row: an opening is on the board once. */
    method WithdrawNotice(opening: Id)
      requires forall i, j | i in notices && j in notices && notices[i].source == Some(opening)
                             && notices[i].source == notices[j].source :: i == j
      modifies this
      ensures Rows() == Board.TakeDown(old(Rows()), opening)
    {
      var found := set id | id in notices && notices[id].source == Some(opening) && notices[id].status == Published;
      if found == {} {
        assert forall id | id in notices :: id !in found;
        assert notices == Board.TakeDown(Rows(), opening).notices;
        return;
      }
      var id :| id in found;
      notices := notices[id := notices[id].(status := Withdrawn)];
      assert notices == Board.TakeDown(old(Rows()), opening).notices;
    }
  }
}
