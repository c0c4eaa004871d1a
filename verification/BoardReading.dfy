/** The list, its unread filter, the flag on each row and the unread badge: four answers
    to one question. */
module BoardReading {
  import opened Base
  import opened Users
  import opened Board

  /** The flag a row carries when it is shown to a viewer. */
  predicate Flagged(s: State, viewer: User, id: Id)
    requires id in s.notices
  {
    (id, viewer.id) !in s.receipts && s.notices[id].status == Published
  }

  /** The rows the list's conditions admit. `q` holds the full-text matches, if asked for. */
  function Listed(s: State, viewer: User, q: Option<set<Id>>, unreadOnly: bool, mine: bool): set<Id> {
    set id | id in s.notices && Visible(viewer, s.notices[id])
             && (q.Some? ==> id in q.value)
             && (mine ==> s.notices[id].postedBy == Some(viewer.id))
             && (unreadOnly ==> s.notices[id].status == Published && (id, viewer.id) !in s.receipts)
  }

  function UnreadSet(s: State, viewer: User): set<Id> {
    set id | id in s.notices && s.notices[id].status == Published && Visible(viewer, s.notices[id])
             && (id, viewer.id) !in s.receipts
  }

  function UnreadCount(s: State, viewer: User): nat { |UnreadSet(s, viewer)| }

  function SortDate(n: Notice): Time { if n.publishedAt.Some? then n.publishedAt.value else n.createdAt }

  predicate Before(s: State, a: Id, b: Id)
    requires a in s.notices && b in s.notices
  {
    SortDate(s.notices[a]) > SortDate(s.notices[b]) || (SortDate(s.notices[a]) == SortDate(s.notices[b]) && a > b)
  }

  /** A query answer: each admitted row once, in the order asked for. */
  ghost predicate Answers(s: State, ids: set<Id>, rows: seq<Id>) {
    && (forall id :: id in rows <==> id in ids)
    && ids <= s.notices.Keys
    && forall i, j | 0 <= i < j < |rows| :: Before(s, rows[i], rows[j])
  }

  function Clip(n: nat, limit: nat): nat { if n <= limit then n else limit }

  /** Page numbers start at one. */
  function Page(rows: seq<Id>, page: nat, size: nat): seq<Id>
    requires page > 0
  {
    rows[Clip((page - 1) * size, |rows|)..Clip((page - 1) * size + size, |rows|)]
  }

  function FlaggedIn(s: State, viewer: User, rows: seq<Id>): nat
    requires forall id <- rows :: id in s.notices
  {
    if rows == [] then 0 else (if Flagged(s, viewer, rows[0]) then 1 else 0) + FlaggedIn(s, viewer, rows[1..])
  }

  /** What a reader counts by paging through the list. */
  function FlaggedOnPages(s: State, viewer: User, rows: seq<Id>, pages: nat, size: nat): nat
    requires forall id <- rows :: id in s.notices
  {
    if pages == 0 then 0
    else FlaggedOnPages(s, viewer, rows, pages - 1, size) + FlaggedIn(s, viewer, Page(rows, pages, size))
  }

  lemma {:induction false} FlaggedAdds(s: State, viewer: User, a: seq<Id>, b: seq<Id>)
    requires forall id <- a + b :: id in s.notices
    ensures (forall id <- a :: id in s.notices) && (forall id <- b :: id in s.notices)
    ensures FlaggedIn(s, viewer, a + b) == FlaggedIn(s, viewer, a) + FlaggedIn(s, viewer, b)
    decreases |a|
  {
    forall id | id in a ensures id in s.notices { assert id in a + b; }
    forall id | id in b ensures id in s.notices { assert id in a + b; }
    if a == [] {
      assert a + b == b;
    } else {
      assert (a + b)[1..] == a[1..] + b;
      FlaggedAdds(s, viewer, a[1..], b);
    }
  }

  /** The first pages hold exactly the first rows, each once. */
  lemma {:induction false} PagesCoverTheList(s: State, viewer: User, rows: seq<Id>, pages: nat, size: nat)
    requires forall id <- rows :: id in s.notices
    ensures FlaggedOnPages(s, viewer, rows, pages, size) == FlaggedIn(s, viewer, rows[..Clip(pages * size, |rows|)])
  {
    if pages == 0 {
      assert rows[..Clip(0, |rows|)] == [];
    } else {
      PagesCoverTheList(s, viewer, rows, pages - 1, size);
      assert pages * size == (pages - 1) * size + size;
      var before, page := rows[..Clip((pages - 1) * size, |rows|)], Page(rows, pages, size);
      assert before + page == rows[..Clip(pages * size, |rows|)];
      FlaggedAdds(s, viewer, before, page);
    }
  }

  lemma {:induction false} FlaggedAreASet(s: State, viewer: User, rows: seq<Id>)
    requires forall id <- rows :: id in s.notices
    requires forall i, j | 0 <= i < j < |rows| :: rows[i] != rows[j]
    ensures FlaggedIn(s, viewer, rows) == |set id | id in rows && Flagged(s, viewer, id)|
    decreases |rows|
  {
    if rows != [] {
      var rest := rows[1..];
      FlaggedAreASet(s, viewer, rest);
      var tail := set id | id in rest && Flagged(s, viewer, id);
      var all := set id | id in rows && Flagged(s, viewer, id);
      assert rows[0] !in rest;
      if Flagged(s, viewer, rows[0]) {
        assert all == tail + {rows[0]};
      } else {
        assert all == tail;
      }
    }
  }

  lemma {:induction false} AnswerSize(s: State, ids: set<Id>, rows: seq<Id>)
    requires Answers(s, ids, rows)
    ensures |rows| == |ids|
    decreases |rows|
  {
    if rows == [] {
      assert forall id | id in ids :: id in rows;
    } else {
      var last := rows[|rows| - 1];
      var rest := rows[..|rows| - 1];
      assert rows == rest + [last];
      forall id ensures id in rest <==> id in ids - {last} {
        if id in rest {
          var i :| 0 <= i < |rest| && rest[i] == id;
          assert rows[i] == id && Before(s, rows[i], last);
          assert id in rows && id != last;
        }
        if id in ids - {last} { assert id in rows; }
      }
      AnswerSize(s, ids - {last}, rest);
      assert last in rows && last in ids;
      assert ids == (ids - {last}) + {last};
    }
  }

  /** The badge, the total of the unread-only list, and the number of rows flagged unread
      that a reader meets by paging through the whole list are one number. */
  lemma UnreadAgrees(s: State, viewer: User, list: seq<Id>, unread: seq<Id>, pages: nat, size: nat)
    requires Answers(s, Listed(s, viewer, None, false, false), list)
    requires Answers(s, Listed(s, viewer, None, true, false), unread)
    requires pages * size >= |list|
    ensures |unread| == UnreadCount(s, viewer)
    ensures FlaggedOnPages(s, viewer, list, pages, size) == UnreadCount(s, viewer)
    ensures forall id <- unread :: Flagged(s, viewer, id)
  {
    var all := Listed(s, viewer, None, false, false);
    var ids := Listed(s, viewer, None, true, false);
    AnswerSize(s, ids, unread);
    assert ids == UnreadSet(s, viewer);
    PagesCoverTheList(s, viewer, list, pages, size);
    assert list[..Clip(pages * size, |list|)] == list;
    forall i, j | 0 <= i < j < |list| ensures list[i] != list[j] { assert Before(s, list[i], list[j]); }
    FlaggedAreASet(s, viewer, list);
    assert (set id | id in list && Flagged(s, viewer, id)) == ids;
  }

  /** Opening a notice takes exactly one off the opener's count if it was counted, and
      nothing off anybody else's; opening it again changes nothing. */
  lemma MarkReadTakesOneOff(s: State, id: Id, viewer: Id, other: User)
    requires MarkRead(s, id, viewer).1 == Done && s.users[viewer].id == viewer && other.id != viewer
    ensures var t := MarkRead(s, id, viewer).0;
            && UnreadCount(t, s.users[viewer]) ==
                 UnreadCount(s, s.users[viewer]) - (if Flagged(s, s.users[viewer], id) then 1 else 0)
            && UnreadCount(t, other) == UnreadCount(s, other)
            && MarkRead(t, id, viewer).0 == t
  {
    var t := MarkRead(s, id, viewer).0;
    var u := s.users[viewer];
    assert UnreadSet(t, u) == UnreadSet(s, u) - {id};
    assert id in UnreadSet(s, u) <==> Flagged(s, u, id);
    assert UnreadSet(t, other) == UnreadSet(s, other);
    assert t.receipts + {(id, viewer)} == t.receipts;
  }

  /** Two rows are always in one order, and never in both. */
  lemma OneOrder(s: State, a: Id, b: Id)
    requires a in s.notices && b in s.notices && a != b
    ensures Before(s, a, b) <==> !Before(s, b, a)
  {
  }

  /** The list shows what was published last first, and of what was published together the later
      number first; what is not published stands where it was written. */
  lemma NewestFirst(s: State, ids: set<Id>, rows: seq<Id>, i: nat, j: nat)
    requires Answers(s, ids, rows) && i < j < |rows|
    ensures var date := (n: Notice) => if n.publishedAt.Some? then n.publishedAt.value else n.createdAt;
            date(s.notices[rows[i]]) >= date(s.notices[rows[j]])
            && (date(s.notices[rows[i]]) == date(s.notices[rows[j]]) ==> rows[i] > rows[j])
  {
    assert Before(s, rows[i], rows[j]);
  }

  /** What each filter leaves of the list: a viewer's own notices are all on it, and a search and
      the unread filter take away exactly what does not match and what is not unread. */
  lemma FiltersNarrowTheList(s: State, viewer: User, q: set<Id>)
    ensures Listed(s, viewer, None, false, true) == set id | id in s.notices && s.notices[id].postedBy == Some(viewer.id)
    ensures Listed(s, viewer, Some(q), false, false) == Listed(s, viewer, None, false, false) * q
    ensures forall id | id in Listed(s, viewer, None, false, false) ::
              id in s.notices && (id in Listed(s, viewer, None, true, false) <==> Flagged(s, viewer, id))
  {
  }
}
