/** What the calls on the board answer and write, in terms of people, roles and notices. */
module BoardAnswers {
  import opened Base
  import opened Users
  import opened Board
  import BoardRuns

  /** People are stored under their own number. */
  ghost predicate Keyed(s: State) { forall u | u in s.users :: s.users[u].id == u }

  /** Known, active, and past the temporary password. */
  predicate Present(s: State, u: Id) { u in s.users && s.users[u].isActive && !s.users[u].mustChangePassword }

  predicate Author(s: State, id: Id, actor: Id)
    requires id in s.notices
  {
    s.notices[id].postedBy == Some(actor)
  }

  predicate IsAdministrator(s: State, actor: Id) { actor in s.users && s.users[actor].role == Role.Admin }

  /** From s to t: the notice became `n`, and nothing else changed. */
  ghost predicate OnlyNotice(s: State, t: State, id: Id, n: Notice) {
    && t == s.(notices := t.notices) && t.notices.Keys == s.notices.Keys && id in t.notices && t.notices[id] == n
    && forall i | i in s.notices && i != id :: t.notices[i] == s.notices[i]
  }

  // ----- who sees what -----

  /** A notice raised from an opening is heard by the opening's department, or by everybody if
      it has none, besides those who answer to the institution and whoever posted it. */
  lemma RaisedNoticesAreHeard(s: State, id: Id, viewer: User)
    requires BoardRuns.Sound(s) && id in s.notices && s.notices[id].status == Published && s.notices[id].source.Some?
    ensures var n := s.notices[id];
            Visible(viewer, n) <==>
              || n.department.None? || n.department == viewer.department
              || viewer.role in {Role.Admin, Dean} || n.postedBy == Some(viewer.id)
  {
    assert BoardRuns.VoicesHold(s);
  }

  /** Before it is published a notice is its author's alone; once withdrawn, also the
      administrators'. */
  lemma UnpublishedNoticesAreHeard(n: Notice, viewer: User)
    requires n.status != Published
    ensures Visible(viewer, n) <==> n.postedBy == Some(viewer.id) || (n.status == Withdrawn && viewer.role == Role.Admin)
  {
  }

  // ----- writing -----

  /** Administrators and deans write for the institution, a coordinator for the department they
      oversee, nobody else; what is written is a draft that nobody has seen, with its links. */
  lemma CreateAnswers(s: State, actor: Id, subject: string, body: string, links: seq<Link>)
    ensures var (t, reply) := Create(s, actor, subject, body, links);
            && (reply == Done <==>
                  Present(s, actor)
                  && (s.users[actor].role in {Role.Admin, Dean}
                      || (s.users[actor].role == Coordinator && s.users[actor].scopeType == Some(DepartmentScope)
                          && s.users[actor].scopeId.Some?)))
            && (reply == Refused(Forbidden) <==> Present(s, actor) && s.users[actor].role !in {Coordinator, Dean, Role.Admin})
            && (reply != Done ==> t == s)
            && (reply == Done && s.next !in s.notices ==>
                  && t == s.(notices := t.notices, links := t.links, next := t.next) && t.next > s.next
                  && t.notices.Keys == s.notices.Keys + {s.next} && (forall i | i in s.notices :: t.notices[i] == s.notices[i])
                  && RowsOf(t.links, s.next) == Written(s.next, links)
                  && (forall i | i in s.notices :: RowsOf(t.links, i) == RowsOf(s.links, i))
                  && var n := t.notices[s.next];
                     && n.subject == subject && n.body == body && n.postedBy == Some(actor)
                     && n.postedByRole == s.users[actor].role && n.source.None?
                     && n.status == Draft && n.publishedAt.None? && n.createdAt == s.clock
                     && (n.audience, n.department) ==
                          if s.users[actor].role == Coordinator then (OneDepartment, s.users[actor].scopeId) else (Institution, None))
  {
    hide RowsOf, Without;
    forall i ensures RowsOf(Without(s.links, s.next) + Written(s.next, links), s.next) == Written(s.next, links)
             ensures i != s.next ==> RowsOf(Without(s.links, s.next) + Written(s.next, links), i) == RowsOf(s.links, i) {
      WrittenLinksReadBack(s.links, s.next, links, i);
    }
  }

  /** An author edits their own draft: what is named changes, and nothing else. */
  lemma UpdateAnswers(s: State, id: Id, actor: Id, subject: Option<string>, body: Option<string>, links: Option<seq<Link>>)
    requires Keyed(s)
    ensures var (t, reply) := Update(s, id, actor, subject, body, links);
            && (reply == Done <==> Present(s, actor) && id in s.notices && Author(s, id, actor) && s.notices[id].status == Draft)
            && (reply != Done ==> t == s)
            && (reply == Done ==>
                  && OnlyNotice(s.(links := t.links), t, id,
                                s.notices[id].(subject := if subject.Some? then subject.value else s.notices[id].subject,
                                               body := if body.Some? then body.value else s.notices[id].body))
                  && (if links.None? then t.links == s.links
                      else RowsOf(t.links, id) == Written(id, links.value)
                           && forall i | i != id :: RowsOf(t.links, i) == RowsOf(s.links, i)))
  {
    hide RowsOf, Without;
    if links.Some? {
      forall i ensures RowsOf(Without(s.links, id) + Written(id, links.value), id) == Written(id, links.value)
               ensures i != id ==> RowsOf(Without(s.links, id) + Written(id, links.value), i) == RowsOf(s.links, i) {
        WrittenLinksReadBack(s.links, id, links.value, i);
      }
    }
  }

  lemma PublishAnswers(s: State, id: Id, actor: Id)
    requires Keyed(s)
    ensures var (t, reply) := Publish(s, id, actor);
            && (reply == Done <==> Present(s, actor) && id in s.notices && Author(s, id, actor) && s.notices[id].status == Draft)
            && (reply != Done ==> t == s)
            && (reply == Done ==> OnlyNotice(s, t, id, s.notices[id].(status := Published, publishedAt := Some(s.clock))))
  {
  }

  lemma WithdrawAnswers(s: State, id: Id, actor: Id)
    requires Keyed(s)
    ensures var (t, reply) := Withdraw(s, id, actor);
            && (reply == Done <==>
                  && Present(s, actor) && id in s.notices && s.notices[id].status == Published
                  && (Author(s, id, actor) || IsAdministrator(s, actor)))
            && (reply != Done ==> t == s)
            && (reply == Done ==> OnlyNotice(s, t, id, s.notices[id].(status := Withdrawn)))
  {
  }

  /** An author deletes their draft and an administrator a withdrawn notice; its links, files and
      receipts go with it, and no others do. */
  lemma DeleteAnswers(s: State, id: Id, actor: Id)
    requires Keyed(s)
    ensures var (t, reply) := Delete(s, id, actor);
            && (reply == Done <==>
                  && Present(s, actor) && id in s.notices
                  && if s.notices[id].status == Draft then Author(s, id, actor)
                     else s.notices[id].status == Withdrawn && IsAdministrator(s, actor))
            && (reply != Done ==> t == s)
            && (reply == Done ==>
                  && t == s.(notices := t.notices, links := t.links, attachments := t.attachments, receipts := t.receipts)
                  && t.notices == s.notices - {id}
                  && (forall i :: RowsOf(t.links, i) == if i == id then [] else RowsOf(s.links, i))
                  && (forall a :: a in t.attachments <==> a in s.attachments && s.attachments[a].notice != id)
                  && (forall a | a in t.attachments :: t.attachments[a] == s.attachments[a])
                  && forall r :: r in t.receipts <==> r in s.receipts && r.0 != id)
  {
    hide RowsOf, Kept;
    forall i ensures RowsOf(Kept(s.links, {id}), i) == if i == id then [] else RowsOf(s.links, i) {
      LinksAfterDeletion(s.links, id, i);
    }
  }

  lemma LinksAfterDeletion(rows: seq<LinkRow>, id: Id, i: Id)
    ensures RowsOf(Kept(rows, {id}), i) == if i == id then [] else RowsOf(rows, i)
  {
    hide RowsOf, Kept;
    if i == id {
      NoneLeft(rows, id);
      WithoutIsKept(rows, id);
    } else {
      RowsOfKept(rows, {id}, i);
    }
  }

  lemma MarkReadAnswers(s: State, id: Id, viewer: Id)
    ensures var (t, reply) := MarkRead(s, id, viewer);
            && (reply == Done <==> Present(s, viewer) && id in s.notices && Visible(s.users[viewer], s.notices[id]))
            && (reply != Done ==> t == s)
            && (reply == Done ==> t == s.(receipts := t.receipts) && forall r :: r in t.receipts <==> r in s.receipts || r == (id, viewer))
  {
  }

  /** Files join an author's draft and leave it, one at a time, and are read by whoever sees
      the notice they belong to. */
  lemma FileAnswers(s: State, id: Id, actor: Id, file: Option<File>, a: Id)
    requires Keyed(s)
    ensures var mine := Present(s, actor) && id in s.notices && Author(s, id, actor) && s.notices[id].status == Draft;
            var (t, attached) := Attach(s, id, actor, file);
            var (v, detached) := Detach(s, id, a, actor);
            && (attached == Done <==> mine && file.Some?) && (attached != Done ==> t == s)
            && (detached == Done <==> mine && a in s.attachments && s.attachments[a].notice == id) && (detached != Done ==> v == s)
            && (attached == Done && s.next !in s.attachments ==>
                  && t == s.(attachments := t.attachments, next := t.next) && t.next > s.next
                  && t.attachments == s.attachments[s.next := Attachment(id, file.value)])
            && (detached == Done ==> v == s.(attachments := v.attachments) && v.attachments == s.attachments - {a})
    ensures ReadAttachment(s, id, a, actor).Ok?
       <==> Present(s, actor) && id in s.notices && Visible(s.users[actor], s.notices[id])
            && a in s.attachments && s.attachments[a].notice == id
    ensures ReadAttachment(s, id, a, actor).Ok? ==> ReadAttachment(s, id, a, actor).value == s.attachments[a].file
  {
  }

  // ----- notices of openings -----

  /** An opening whose creator is known gets one published notice, dated now, in the creator's
      name, for the opening's department or for everybody; an opening on the board gets none. */
  lemma RaiseAnswers(s: State, id: Id, o: Opening)
    requires s.next !in s.notices
    ensures var t := Raise(s, id, o);
            if (exists n :: n in s.notices && s.notices[n].source == Some(id)) || o.createdBy !in s.users then t == s
            else
              && t == s.(notices := t.notices, next := t.next) && t.next > s.next
              && t.notices.Keys == s.notices.Keys + {s.next} && (forall i | i in s.notices :: t.notices[i] == s.notices[i])
              && var n := t.notices[s.next];
                 && n.body == o.text && n.source == Some(id) && n.status == Published
                 && n.publishedAt == Some(s.clock) && n.createdAt == s.clock
                 && n.postedBy == Some(o.createdBy) && n.postedByRole == s.users[o.createdBy].role
                 && n.department == o.department && n.audience == (if o.department.Some? then OneDepartment else Institution)
                 && n.subject <= "Opening: " + o.title && |n.subject| == Min(9 + |o.title|, 200)
  {
  }

  /** Taking an opening off the board withdraws its published notices and nothing else. */
  lemma TakeDownAnswers(s: State, opening: Id)
    ensures var t := TakeDown(s, opening);
            && t == s.(notices := t.notices) && t.notices.Keys == s.notices.Keys
            && forall i | i in s.notices ::
                 t.notices[i] == if s.notices[i].source == Some(opening) && s.notices[i].status == Published
                                 then s.notices[i].(status := Withdrawn) else s.notices[i]
  {
  }

  /** The notice exists and the person, signed in, sees it. */
  predicate Seen(s: State, id: Id, actor: Id) { Present(s, actor) && id in s.notices && Visible(s.users[actor], s.notices[id]) }

  /** The reply tells of the sign-in and of what is not seen, and of them only when it is so. */
  predicate Hides(s: State, id: Id, actor: Id, reply: Reply) {
    && (reply == Refused(NotSignedIn) <==> !Present(s, actor))
    && (reply == Refused(NotFound) <==> Present(s, actor) && !Seen(s, id, actor))
  }

  /** Which refusal is given, exactly. A person who is not signed in, or does not see the notice,
      learns only that; otherwise the status is named first, and the person only if the status
      would do. */
  lemma RefusedForAReason(s: State, id: Id, actor: Id)
    requires Keyed(s)
    ensures Hides(s, id, actor, Publish(s, id, actor).1) && Hides(s, id, actor, Withdraw(s, id, actor).1)
    ensures Hides(s, id, actor, Delete(s, id, actor).1) && Hides(s, id, actor, MarkRead(s, id, actor).1)
    ensures Publish(s, id, actor).1 == Refused(WrongStatus) <==> Seen(s, id, actor) && s.notices[id].status != Draft
    ensures Withdraw(s, id, actor).1 == Refused(WrongStatus) <==> Seen(s, id, actor) && s.notices[id].status != Published
    ensures Withdraw(s, id, actor).1 == Refused(NotYours)
       <==> Seen(s, id, actor) && s.notices[id].status == Published && !Author(s, id, actor) && !IsAdministrator(s, actor)
    ensures Delete(s, id, actor).1 == Refused(WrongStatus) <==> Seen(s, id, actor) && s.notices[id].status == Published
    ensures Delete(s, id, actor).1 == Refused(NotYours)
       <==> Seen(s, id, actor) && s.notices[id].status == Withdrawn && !IsAdministrator(s, actor)
  {
  }

  /** An account that goes takes its receipts along; its notices stay, unsigned. */
  lemma AccountsLeaveTheirNotices(s: State, user: Id)
    ensures var t := BoardRuns.WithoutUser(s, user);
            && t == s.(users := t.users, notices := t.notices, receipts := t.receipts)
            && t.users == s.users - {user} && t.notices.Keys == s.notices.Keys
            && (forall i | i in s.notices ::
                  t.notices[i] == s.notices[i].(postedBy := if s.notices[i].postedBy == Some(user) then None else s.notices[i].postedBy))
            && forall r :: r in t.receipts <==> r in s.receipts && r.1 != user
  {
  }
}
