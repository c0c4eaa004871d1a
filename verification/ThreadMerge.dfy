/** Migration 0021: one relationship and one conversation per pair of people. Each
    statement of the migration rewrites one table; an aborted statement rolls the
    whole migration back. */
module ThreadMerge {
  import opened Base
  import opened Sorting

  datatype RequestStatus = Pending | Accepted | Declined | Cancelled | Ended

  datatype PairState = Untouched | Requested | Active | Over

  /** Two people, least identifier first. */
  type Pair = (Id, Id)

  datatype Request = Request(id: Id, sender: Id, recipient: Id, status: RequestStatus)

  datatype Conversation = Conversation(
    id: Id, request: Option<Id>, createdAt: Time, lastMessageAt: Option<Time>, pair: Option<Pair>)

  datatype Message = Message(id: Id, conversation: Id, sender: Id, createdAt: Time)

  datatype Participant = Participant(conversation: Id, user: Id, lastReadAt: Option<Time>, muted: bool)

  datatype Database = Database(
    requests: seq<Request>,
    relationships: map<Pair, PairState>,
    conversations: seq<Conversation>,
    messages: seq<Message>,
    participants: seq<Participant>)

  /** Why PostgreSQL refuses: a relationship with oneself, or one row upserted twice. */
  datatype Abort = PairIsNotOrdered | RowTouchedTwice

  function PairOf(r: Request): Pair {
    (Min(r.sender, r.recipient), Max(r.sender, r.recipient))
  }

  // ----- the statements -----

  function StrongestState(requests: seq<Request>, p: Pair): PairState {
    if exists i | 0 <= i < |requests| :: PairOf(requests[i]) == p && requests[i].status == Accepted then Active
    else if exists i | 0 <= i < |requests| :: PairOf(requests[i]) == p && requests[i].status == Ended then Over
    else if exists i | 0 <= i < |requests| :: PairOf(requests[i]) == p && requests[i].status == Pending then Requested
    else Untouched
  }

  function Relationships(requests: seq<Request>): map<Pair, PairState> {
    map p | p in (set i | 0 <= i < |requests| :: PairOf(requests[i])) :: StrongestState(requests, p)
  }

  function PairOfRequest(requests: seq<Request>, id: Id): Option<Pair> {
    if requests == [] then None
    else if requests[0].id == id then Some(PairOf(requests[0]))
    else PairOfRequest(requests[1..], id)
  }

  function LinkedRow(requests: seq<Request>, c: Conversation): Conversation {
    c.(pair := if c.request.Some? then PairOfRequest(requests, c.request.value) else None)
  }

  /** Conversations follow the pair of their request; project threads have none. */
  function Linked(requests: seq<Request>, cs: seq<Conversation>): (r: seq<Conversation>)
    ensures |r| == |cs| && forall i | 0 <= i < |r| :: r[i] == LinkedRow(requests, cs[i])
  {
    seq(|cs|, i requires 0 <= i < |cs| => LinkedRow(requests, cs[i]))
  }

  predicate Older(c: Conversation, d: Conversation) {
    c.createdAt < d.createdAt || (c.createdAt == d.createdAt && c.id <= d.id)
  }

  /** The first thread of a pair, by creation and then by identifier. */
  function Oldest(cs: seq<Conversation>, p: Pair): Option<Conversation> {
    if cs == [] then None
    else
      var rest := Oldest(cs[1..], p);
      if cs[0].pair == Some(p) && (rest.None? || Older(cs[0], rest.value)) then Some(cs[0]) else rest
  }

  /** The temporary merge table: the thread each thread of a pair goes into. */
  function MergeTable(cs: seq<Conversation>, all: seq<Conversation>): map<Id, Id> {
    if cs == [] then map[]
    else
      var rest := MergeTable(cs[1..], all);
      if cs[0].pair.Some? && Oldest(all, cs[0].pair.value).Some?
      then rest[cs[0].id := Oldest(all, cs[0].pair.value).value.id]
      else rest
  }

  predicate IsDuplicate(merge: map<Id, Id>, id: Id) {
    id in merge && merge[id] != id
  }

  function KeptIn(merge: map<Id, Id>, id: Id): Id {
    if id in merge then merge[id] else id
  }

  function Repointed(merge: map<Id, Id>, ms: seq<Message>): (r: seq<Message>)
    ensures |r| == |ms| && forall i | 0 <= i < |r| :: r[i] == ms[i].(conversation := KeptIn(merge, ms[i].conversation))
  {
    seq(|ms|, i requires 0 <= i < |ms| => ms[i].(conversation := KeptIn(merge, ms[i].conversation)))
  }

  function MovedRow(merge: map<Id, Id>, p: Participant): Option<Participant> {
    if IsDuplicate(merge, p.conversation) then Some(p.(conversation := merge[p.conversation])) else None
  }

  /** The rows the upsert inserts: participants of duplicates, under the keeper. */
  function Moved(merge: map<Id, Id>, ps: seq<Participant>): seq<Participant> {
    Collect(p => MovedRow(merge, p), ps)
  }

  predicate SameKey(p: Participant, q: Participant) {
    p.conversation == q.conversation && p.user == q.user
  }

  predicate SomeRowTwice(rows: seq<Participant>) {
    exists i, j | 0 <= i < j < |rows| :: SameKey(rows[i], rows[j])
  }

  function FindRow(rows: seq<Participant>, conversation: Id, user: Id): Option<Participant> {
    if rows == [] then None
    else if rows[0].conversation == conversation && rows[0].user == user then Some(rows[0])
    else FindRow(rows[1..], conversation, user)
  }

  /** NULL, never opened, wins; otherwise the earlier of the two. */
  function Cautious(a: Option<Time>, b: Option<Time>): Option<Time> {
    if a.None? || b.None? then None else Some(Min(a.value, b.value))
  }

  function MergedRow(rows: seq<Participant>, p: Participant): Participant {
    var r := FindRow(rows, p.conversation, p.user);
    if r.None? then p else p.(lastReadAt := Cautious(p.lastReadAt, r.value.lastReadAt))
  }

  /** ON CONFLICT DO UPDATE: existing rows become more cautious, new rows are added. */
  function Upserted(ps: seq<Participant>, rows: seq<Participant>): seq<Participant> {
    Collect(p => Some(MergedRow(rows, p)), ps)
    + Collect((r: Participant) => if FindRow(ps, r.conversation, r.user).None? then Some(r) else None, rows)
  }

  function Newest(ms: seq<Message>, conversation: Id): Option<Time> {
    if ms == [] then None
    else
      var rest := Newest(ms[1..], conversation);
      if ms[0].conversation != conversation then rest
      else if rest.None? then Some(ms[0].createdAt)
      else Some(Max(ms[0].createdAt, rest.value))
  }

  function DatedRow(ms: seq<Message>, c: Conversation): Conversation {
    if Newest(ms, c.id).Some? then c.(lastMessageAt := Newest(ms, c.id)) else c
  }

  function Dated(ms: seq<Message>, cs: seq<Conversation>): seq<Conversation> {
    Collect(c => Some(DatedRow(ms, c)), cs)
  }

  /** Drop duplicates, with the rows that cascade from them. */
  function Survivors(merge: map<Id, Id>, cs: seq<Conversation>): seq<Conversation> {
    Collect((c: Conversation) => if IsDuplicate(merge, c.id) then None else Some(c), cs)
  }

  function SurvivingRows(merge: map<Id, Id>, ps: seq<Participant>): seq<Participant> {
    Collect((p: Participant) => if IsDuplicate(merge, p.conversation) then None else Some(p), ps)
  }

  function SurvivingMessages(merge: map<Id, Id>, ms: seq<Message>): seq<Message> {
    Collect((m: Message) => if IsDuplicate(merge, m.conversation) then None else Some(m), ms)
  }

  function MergeOf(db: Database): map<Id, Id> {
    var linked := Linked(db.requests, db.conversations);
    MergeTable(linked, linked)
  }

  function Upgrade(db: Database): Outcome<Database, Abort> {
    var linked := Linked(db.requests, db.conversations);
    var merge := MergeTable(linked, linked);
    var messages := Repointed(merge, db.messages);
    var moved := Moved(merge, db.participants);
    if exists i | 0 <= i < |db.requests| :: db.requests[i].sender == db.requests[i].recipient then Err(PairIsNotOrdered)
    else if SomeRowTwice(moved) then Err(RowTouchedTwice)
    else
      var dated := Dated(messages, linked);
      Ok(Database(
        db.requests,
        Relationships(db.requests),
        Survivors(merge, dated),
        SurvivingMessages(merge, messages),
        SurvivingRows(merge, Upserted(db.participants, moved))))
  }

  class Migration {
    var requests: seq<Request>
    var relationships: map<Pair, PairState>
    var conversations: seq<Conversation>
    var messages: seq<Message>
    var participants: seq<Participant>
    var merge: map<Id, Id>

    function Tables(): Database
      reads this
    {
      Database(requests, relationships, conversations, messages, participants)
    }

    method Run() returns (abort: Option<Abort>)
      modifies this
      ensures match Upgrade(old(Tables()))
              case Ok(after) => abort == None && Tables() == after
              case Err(error) => abort == Some(error) && Tables() == old(Tables())
    {
      var before := Tables();
      if exists i | 0 <= i < |requests| :: requests[i].sender == requests[i].recipient {
        return Some(PairIsNotOrdered);
      }
      relationships := Relationships(requests);
      conversations := Linked(requests, conversations);
      merge := MergeTable(conversations, conversations);
      messages := Repointed(merge, messages);
      var moved := Moved(merge, participants);
      if SomeRowTwice(moved) {
        relationships, conversations := before.relationships, before.conversations;
        messages, participants := before.messages, before.participants;
        return Some(RowTouchedTwice);
      }
      participants := Upserted(participants, moved);
      conversations := Dated(messages, conversations);
      var table := merge;
      conversations := Survivors(table, conversations);
      messages := SurvivingMessages(table, messages);
      participants := SurvivingRows(table, participants);
      merge := map[];
      abort := None;
    }
  }

  // ----- what the constraints of the old schema promise -----

  ghost predicate UniqueIds(cs: seq<Conversation>) {
    forall i, j | 0 <= i < j < |cs| :: cs[i].id != cs[j].id
  }

  ghost predicate UniqueRows(ps: seq<Participant>) {
    forall i, j | 0 <= i < j < |ps| :: !SameKey(ps[i], ps[j])
  }

  ghost predicate Consistent(db: Database) {
    && UniqueIds(db.conversations)
    && UniqueRows(db.participants)
    && (forall i | 0 <= i < |db.conversations| && db.conversations[i].request.Some? ::
          PairOfRequest(db.requests, db.conversations[i].request.value).Some?)
    && (forall i | 0 <= i < |db.messages| ::
          exists j :: 0 <= j < |db.conversations| && db.conversations[j].id == db.messages[i].conversation)
  }

  /** The pair a thread belongs to through its request, if it is not a project's. */
  function PairOfThread(db: Database, c: Conversation): Option<Pair> {
    if c.request.Some? then PairOfRequest(db.requests, c.request.value) else None
  }

  // ----- the merge table -----

  lemma {:induction false} OldestIsFirst(cs: seq<Conversation>, p: Pair)
    ensures var o := Oldest(cs, p);
            && (o.Some? <==> exists i :: 0 <= i < |cs| && cs[i].pair == Some(p))
            && (o.Some? ==> o.value in cs && o.value.pair == Some(p))
            && forall i | 0 <= i < |cs| && cs[i].pair == Some(p) :: Older(o.value, cs[i])
  {
    if cs != [] {
      OldestIsFirst(cs[1..], p);
      var rest := Oldest(cs[1..], p);
      if rest.Some? {
        var j :| 0 <= j < |cs[1..]| && cs[1..][j].pair == Some(p);
        assert cs[j + 1].pair == Some(p);
      }
      forall i | 0 <= i < |cs| && cs[i].pair == Some(p)
        ensures Oldest(cs, p).Some? && Older(Oldest(cs, p).value, cs[i])
      {
        if i > 0 { assert cs[1..][i - 1].pair == Some(p); }
      }
    }
  }

  ghost predicate HasPairThread(cs: seq<Conversation>, id: Id) {
    exists i :: 0 <= i < |cs| && cs[i].id == id && cs[i].pair.Some?
  }

  /** The merge table sends each thread of a pair to the pair's oldest thread. */
  lemma {:induction false} MergeTableIsOldest(cs: seq<Conversation>, all: seq<Conversation>)
    requires UniqueIds(cs) && forall i | 0 <= i < |cs| :: cs[i] in all
    ensures var t := MergeTable(cs, all);
            && (forall id | id in t :: HasPairThread(cs, id))
            && (forall i | 0 <= i < |cs| && cs[i].pair.Some? ::
                  && cs[i].id in t
                  && Oldest(all, cs[i].pair.value).Some?
                  && t[cs[i].id] == Oldest(all, cs[i].pair.value).value.id)
  {
    if cs != [] {
      var rest := cs[1..];
      assert forall i | 0 <= i < |rest| :: rest[i] == cs[i + 1];
      MergeTableIsOldest(rest, all);
      var t, u := MergeTable(cs, all), MergeTable(rest, all);
      if cs[0].pair.Some? {
        OldestIsFirst(all, cs[0].pair.value);
        var k :| 0 <= k < |all| && all[k] == cs[0];
      }
      forall id | id in t ensures HasPairThread(cs, id) {
        if id in u {
          assert HasPairThread(rest, id);
          var i :| 0 <= i < |rest| && rest[i].id == id && rest[i].pair.Some?;
          assert cs[i + 1].id == id;
        } else {
          assert cs[0].id == id;
        }
      }
      forall i | 0 <= i < |cs| && cs[i].pair.Some?
        ensures cs[i].id in t && Oldest(all, cs[i].pair.value).Some?
             && t[cs[i].id] == Oldest(all, cs[i].pair.value).value.id
      {
        if i > 0 { assert rest[i - 1] == cs[i]; }
      }
    }
  }

  /** What the merge does with thread number i: a pair's thread goes into the oldest of
      the pair, a project's stays, and whatever a thread goes into is never dropped. */
  lemma ThreadFacts(db: Database, i: nat)
    requires Consistent(db) && i < |db.conversations|
    ensures var linked, merge, c := Linked(db.requests, db.conversations), MergeOf(db), db.conversations[i];
            && linked[i].id == c.id && linked[i].pair == PairOfThread(db, c)
            && (linked[i].pair.None? ==> c.id !in merge)
            && (linked[i].pair.Some? ==>
                  && Oldest(linked, linked[i].pair.value).Some?
                  && c.id in merge && merge[c.id] == Oldest(linked, linked[i].pair.value).value.id)
            && !IsDuplicate(merge, KeptIn(merge, c.id))
  {
    var linked := Linked(db.requests, db.conversations);
    assert UniqueIds(linked);
    MergeTableIsOldest(linked, linked);
    if linked[i].pair.Some? {
      var p := linked[i].pair.value;
      OldestIsFirst(linked, p);
      var k :| 0 <= k < |linked| && linked[k] == Oldest(linked, p).value;
      assert linked[k].pair == Some(p);
    } else {
      assert !HasPairThread(linked, linked[i].id);
    }
  }

  lemma SurvivorsOf(merge: map<Id, Id>, ms: seq<Message>, cs: seq<Conversation>, c: Conversation)
    ensures c in Survivors(merge, Dated(ms, cs)) <==> exists x :: x in cs && c == DatedRow(ms, x) && !IsDuplicate(merge, x.id)
  {
    hide Newest, IsDuplicate;
    CollectIff((c: Conversation) => if IsDuplicate(merge, c.id) then None else Some(c), Dated(ms, cs), c);
    CollectIff(c => Some(DatedRow(ms, c)), cs, c);
  }

  /** The threads left are exactly the ones that were not dropped, by their old number. */
  lemma SurvivorIff(db: Database, c: Conversation)
    requires Consistent(db) && Upgrade(db).Ok?
    ensures var messages := Repointed(MergeOf(db), db.messages);
            c in Upgrade(db).value.conversations
            <==> exists i :: 0 <= i < |db.conversations| && !IsDuplicate(MergeOf(db), db.conversations[i].id)
                   && c == DatedRow(messages, LinkedRow(db.requests, db.conversations[i]))
  {
    hide MergeTable, Repointed, IsDuplicate, Consistent, DatedRow, Survivors, Dated, Moved;
    var linked, merge := Linked(db.requests, db.conversations), MergeOf(db);
    var messages := Repointed(merge, db.messages);
    SurvivorsOf(merge, messages, linked, c);
    if x :| x in linked && c == DatedRow(messages, x) && !IsDuplicate(merge, x.id) {
      var i :| 0 <= i < |linked| && linked[i] == x;
      assert x.id == db.conversations[i].id;
    }
    if i :| 0 <= i < |db.conversations| && !IsDuplicate(merge, db.conversations[i].id)
            && c == DatedRow(messages, LinkedRow(db.requests, db.conversations[i])) {
      assert linked[i] in linked;
    }
  }

  lemma {:induction false} CollectEverything<T>(f: T -> Option<T>, xs: seq<T>)
    requires forall i | 0 <= i < |xs| :: f(xs[i]) == Some(xs[i])
    ensures Collect(f, xs) == xs
  {
    if xs != [] { CollectEverything(f, xs[1..]); }
  }

  /** No message is lost or altered, and each one is in a surviving thread of the very
      pair, or project, it was written to. */
  lemma MessagesStayWithTheirPair(db: Database, i: nat, j: nat)
    requires Consistent(db) && Upgrade(db).Ok?
    requires i < |db.messages| && j < |db.conversations| && db.conversations[j].id == db.messages[i].conversation
    ensures var after := Upgrade(db).value;
            && |after.messages| == |db.messages|
            && after.messages[i] == db.messages[i].(conversation := after.messages[i].conversation)
            && exists c :: c in after.conversations && c.id == after.messages[i].conversation
                 && c.pair == PairOfThread(db, db.conversations[j])
                 && (c.pair.None? ==> c.id == db.messages[i].conversation)
  {
    var linked, merge, after := Linked(db.requests, db.conversations), MergeOf(db), Upgrade(db).value;
    var messages := Repointed(merge, db.messages);
    MessagesSurvive(db);
    ThreadFacts(db, j);
    var target := KeptIn(merge, db.conversations[j].id);
    var k := j;
    if linked[j].pair.Some? {
      OldestIsFirst(linked, linked[j].pair.value);
      k :| 0 <= k < |linked| && linked[k] == Oldest(linked, linked[j].pair.value).value;
    }
    assert linked[k].id == target && linked[k].pair == linked[j].pair;
    SurvivorIff(db, DatedRow(messages, LinkedRow(db.requests, db.conversations[k])));
  }

  lemma MessagesSurvive(db: Database)
    requires Consistent(db) && Upgrade(db).Ok?
    ensures Upgrade(db).value.messages == Repointed(MergeOf(db), db.messages)
  {
    var merge := MergeOf(db);
    var messages := Repointed(merge, db.messages);
    forall i | 0 <= i < |messages| ensures !IsDuplicate(merge, messages[i].conversation) {
      var j :| 0 <= j < |db.conversations| && db.conversations[j].id == db.messages[i].conversation;
      ThreadFacts(db, j);
    }
    CollectEverything((m: Message) => if IsDuplicate(merge, m.conversation) then None else Some(m), messages);
  }

  /** At most one thread per pair, and it is the oldest the pair had. */
  lemma OneThreadPerPair(db: Database, c: Conversation, d: Conversation)
    requires Consistent(db) && Upgrade(db).Ok?
    requires c in Upgrade(db).value.conversations && d in Upgrade(db).value.conversations
    requires c.pair.Some? && c.pair == d.pair
    ensures c == d
    ensures forall i | 0 <= i < |db.conversations| && PairOfThread(db, db.conversations[i]) == c.pair ::
              var d := db.conversations[i]; c.createdAt < d.createdAt || (c.createdAt == d.createdAt && c.id <= d.id)
  {
    hide Repointed, MergeOf, Upgrade, Oldest, Newest, PairOfRequest;
    var linked := Linked(db.requests, db.conversations);
    SurvivorIff(db, c);
    SurvivorIff(db, d);
    var messages := Repointed(MergeOf(db), db.messages);
    var i :| 0 <= i < |db.conversations| && !IsDuplicate(MergeOf(db), db.conversations[i].id)
             && c == DatedRow(messages, LinkedRow(db.requests, db.conversations[i]));
    var j :| 0 <= j < |db.conversations| && !IsDuplicate(MergeOf(db), db.conversations[j].id)
             && d == DatedRow(messages, LinkedRow(db.requests, db.conversations[j]));
    ThreadFacts(db, i);
    ThreadFacts(db, j);
    assert linked[i].id == linked[j].id;
    assert i == j;
    OldestIsFirst(linked, c.pair.value);
    var o := Oldest(linked, c.pair.value).value;
    var k :| 0 <= k < |linked| && linked[k] == o;
    assert k == i;
    forall l | 0 <= l < |db.conversations| && PairOfThread(db, db.conversations[l]) == c.pair
      ensures Older(c, db.conversations[l])
    {
      assert linked[l].pair == c.pair && Older(o, linked[l]);
    }
  }

  lemma {:induction false} NewestIsMax(ms: seq<Message>, conversation: Id)
    ensures Newest(ms, conversation).None? <==> forall m | m in ms :: m.conversation != conversation
    ensures Newest(ms, conversation).Some? ==>
              && (exists m :: m in ms && m.conversation == conversation && m.createdAt == Newest(ms, conversation).value)
              && forall m | m in ms && m.conversation == conversation :: m.createdAt <= Newest(ms, conversation).value
  {
    if ms != [] {
      NewestIsMax(ms[1..], conversation);
      assert ms == [ms[0]] + ms[1..];
      var rest := Newest(ms[1..], conversation);
      if ms[0].conversation == conversation && (rest.None? || rest.value <= ms[0].createdAt) {
        assert ms[0] in ms && ms[0].createdAt == Newest(ms, conversation).value;
      } else if rest.Some? {
        var m :| m in ms[1..] && m.conversation == conversation && m.createdAt == rest.value;
        assert m in ms;
      }
    }
  }

  /** Every surviving thread that holds messages is dated by the newest of them. */
  lemma ThreadsAreDatedByTheirNewestMessage(db: Database, c: Conversation)
    requires Consistent(db) && Upgrade(db).Ok? && c in Upgrade(db).value.conversations
    ensures var ms := Upgrade(db).value.messages;
            (exists m :: m in ms && m.conversation == c.id) ==>
              && c.lastMessageAt.Some?
              && (exists m :: m in ms && m.conversation == c.id && m.createdAt == c.lastMessageAt.value)
              && forall m | m in ms && m.conversation == c.id :: m.createdAt <= c.lastMessageAt.value
  {
    MessagesSurvive(db);
    SurvivorIff(db, c);
    NewestIsMax(Upgrade(db).value.messages, c.id);
  }

  // ----- the state of a pair -----

  function Strength(s: PairState): nat {
    match s case Untouched => 0 case Requested => 1 case Over => 2 case Active => 3
  }

  function Implies(s: RequestStatus): PairState {
    match s
    case Accepted => Active
    case Ended => Over
    case Pending => Requested
    case Declined => Untouched
    case Cancelled => Untouched
  }

  /** The requests that passed between two people, in either direction. */
  function Between(rs: seq<Request>, a: Id, b: Id): set<nat> {
    set i: nat | i < |rs| && {rs[i].sender, rs[i].recipient} == {a, b}
  }

  lemma BetweenIsPairOf(rs: seq<Request>, a: Id, b: Id, i: nat)
    requires a < b && i < |rs|
    ensures i in Between(rs, a, b) <==> PairOf(rs[i]) == (a, b)
  {
    if i in Between(rs, a, b) {
      assert rs[i].sender in {a, b} && rs[i].recipient in {a, b} && a in {rs[i].sender, rs[i].recipient};
      assert b in {rs[i].sender, rs[i].recipient};
    }
  }

  lemma StrongestIsImplied(rs: seq<Request>, p: Pair, i: nat)
    requires i < |rs| && PairOf(rs[i]) == p
    ensures exists k :: 0 <= k < |rs| && PairOf(rs[k]) == p && Implies(rs[k].status) == StrongestState(rs, p)
    ensures forall k | 0 <= k < |rs| && PairOf(rs[k]) == p :: Strength(Implies(rs[k].status)) <= Strength(StrongestState(rs, p))
  {
    hide PairOf;
    var s := StrongestState(rs, p);
    assert s == Untouched ==> Implies(rs[i].status) == s;
  }

  /** A pair has a relationship exactly when a request passed between the two, in either
      direction, and its state is the strongest that any of those requests implies. */
  lemma RelationshipIsTheStrongest(db: Database, a: Id, b: Id)
    requires Upgrade(db).Ok? && a < b
    ensures var between, after := Between(db.requests, a, b), Upgrade(db).value.relationships;
            && ((a, b) in after <==> between != {})
            && ((a, b) in after ==>
                  && (exists i :: i in between && Implies(db.requests[i].status) == after[(a, b)])
                  && forall i | i in between :: Strength(Implies(db.requests[i].status)) <= Strength(after[(a, b)]))
  {
    hide StrongestState, PairOf, Strength, Implies, MergeTable, Linked, Repointed, Moved;
    var rs := db.requests;
    forall i: nat | i < |rs| ensures i in Between(rs, a, b) <==> PairOf(rs[i]) == (a, b) {
      BetweenIsPairOf(rs, a, b, i);
    }
    if (a, b) in Relationships(rs) {
      var i: nat :| i < |rs| && PairOf(rs[i]) == (a, b);
      StrongestIsImplied(rs, (a, b), i);
    }
    if Between(rs, a, b) != {} {
      var i :| i in Between(rs, a, b);
      assert PairOf(rs[i]) in (set i | 0 <= i < |rs| :: PairOf(rs[i]));
    }
  }

  // ----- read marks -----

  lemma {:induction false} FindRowIff(rows: seq<Participant>, conversation: Id, user: Id)
    ensures var r := FindRow(rows, conversation, user);
            && (r.Some? <==> exists p :: p in rows && p.conversation == conversation && p.user == user)
            && (r.Some? ==> r.value in rows && r.value.conversation == conversation && r.value.user == user)
  {
    if rows != [] {
      FindRowIff(rows[1..], conversation, user);
      assert rows == [rows[0]] + rows[1..];
    }
  }

  lemma FindRowUnique(rows: seq<Participant>, p: Participant)
    requires UniqueRows(rows) && p in rows
    ensures FindRow(rows, p.conversation, p.user) == Some(p)
  {
    FindRowIff(rows, p.conversation, p.user);
    var r := FindRow(rows, p.conversation, p.user).value;
    var i :| 0 <= i < |rows| && rows[i] == p;
    var j :| 0 <= j < |rows| && rows[j] == r;
    assert if i < j then SameKey(rows[i], rows[j]) else SameKey(rows[j], rows[i]);
  }

  lemma MovedIff(merge: map<Id, Id>, ps: seq<Participant>, r: Participant)
    ensures r in Moved(merge, ps)
       <==> exists p :: p in ps && IsDuplicate(merge, p.conversation) && r == p.(conversation := merge[p.conversation])
  {
    CollectIff(p => MovedRow(merge, p), ps, r);
    if p :| p in ps && IsDuplicate(merge, p.conversation) && r == p.(conversation := merge[p.conversation]) {
      assert MovedRow(merge, p) == Some(r);
    }
  }

  lemma UpsertedIff(ps: seq<Participant>, rows: seq<Participant>, q: Participant)
    ensures q in Upserted(ps, rows)
       <==> (exists p :: p in ps && q == MergedRow(rows, p))
            || (q in rows && FindRow(ps, q.conversation, q.user).None?)
  {
    CollectIff(p => Some(MergedRow(rows, p)), ps, q);
    CollectIff((r: Participant) => if FindRow(ps, r.conversation, r.user).None? then Some(r) else None, rows, q);
    if p :| p in ps && q == MergedRow(rows, p) {
      assert Some(MergedRow(rows, p)) == Some(q);
    }
  }

  /** A row of the new table stands for the old row p of the same person in a thread
      that went into its own. */
  ghost predicate StandsFor(db: Database, q: Participant, p: Participant) {
    p in db.participants && p.user == q.user && KeptIn(MergeOf(db), p.conversation) == q.conversation
  }

  ghost predicate ThreadsExist(db: Database) {
    forall i | 0 <= i < |db.participants| ::
      exists j :: 0 <= j < |db.conversations| && db.conversations[j].id == db.participants[i].conversation
  }

  lemma KeptRowIff(db: Database, q: Participant)
    requires Upgrade(db).Ok?
    ensures q in Upgrade(db).value.participants
       <==> q in Upserted(db.participants, Moved(MergeOf(db), db.participants)) && !IsDuplicate(MergeOf(db), q.conversation)
  {
    var merge := MergeOf(db);
    CollectIff((p: Participant) => if IsDuplicate(merge, p.conversation) then None else Some(p),
               Upserted(db.participants, Moved(merge, db.participants)), q);
  }

  lemma MovedIsUnique(db: Database)
    requires Upgrade(db).Ok?
    ensures UniqueRows(Moved(MergeOf(db), db.participants))
  {
  }

  /** Nobody loses a thread: every old row is stood for by a new one. */
  lemma EveryRowIsStoodFor(db: Database, p: Participant) returns (q: Participant)
    requires Consistent(db) && ThreadsExist(db) && Upgrade(db).Ok? && p in db.participants
    ensures q in Upgrade(db).value.participants && StandsFor(db, q, p)
  {
    hide Upgrade, Upserted, Moved, MergeTable, FindRow, Linked;
    var merge, ps := MergeOf(db), db.participants;
    var moved := Moved(merge, ps);
    var i :| 0 <= i < |ps| && ps[i] == p;
    var j :| 0 <= j < |db.conversations| && db.conversations[j].id == ps[i].conversation;
    ThreadFacts(db, j);
    var target := KeptIn(merge, p.conversation);
    FindRowIff(ps, target, p.user);
    var e := FindRow(ps, target, p.user);
    if e.Some? {
      q := MergedRow(moved, e.value);
    } else {
      q := p.(conversation := target);
      MovedIff(merge, ps, q);
    }
    UpsertedIff(ps, moved, q);
    KeptRowIff(db, q);
  }

  /** The read mark of a merged thread is exactly the most cautious of the marks it
      stands for: one of them, never opened if any of them was never opened, and
      otherwise no later than any. */
  lemma ReadMarkIsTheMostCautious(db: Database, q: Participant)
    requires Consistent(db) && ThreadsExist(db) && Upgrade(db).Ok? && q in Upgrade(db).value.participants
    ensures exists p :: StandsFor(db, q, p) && p.lastReadAt == q.lastReadAt
    ensures forall p | StandsFor(db, q, p) ::
              q.lastReadAt.None? || (p.lastReadAt.Some? && q.lastReadAt.value <= p.lastReadAt.value)
  {
    hide Upgrade, Upserted, Moved, MergeTable, FindRow, ThreadsExist;
    var merge, ps := MergeOf(db), db.participants;
    var moved := Moved(merge, ps);
    KeptRowIff(db, q);
    UpsertedIff(ps, moved, q);
    MovedIsUnique(db);
    if e :| e in ps && q == MergedRow(moved, e) {
      assert StandsFor(db, q, e);
      FindRowIff(moved, e.conversation, e.user);
      var r := FindRow(moved, e.conversation, e.user);
      if r.Some? {
        MovedIff(merge, ps, r.value);
        var p :| p in ps && IsDuplicate(merge, p.conversation) && r.value == p.(conversation := merge[p.conversation]);
        assert StandsFor(db, q, p);
      }
      forall p | StandsFor(db, q, p)
        ensures q.lastReadAt.None? || (p.lastReadAt.Some? && q.lastReadAt.value <= p.lastReadAt.value)
      {
        if IsDuplicate(merge, p.conversation) {
          MovedIff(merge, ps, p.(conversation := merge[p.conversation]));
          FindRowUnique(moved, p.(conversation := merge[p.conversation]));
        } else {
          FindRowUnique(ps, p);
          FindRowUnique(ps, e);
        }
      }
    } else {
      MovedIff(merge, ps, q);
      var m :| m in ps && IsDuplicate(merge, m.conversation) && q == m.(conversation := merge[m.conversation]);
      assert StandsFor(db, q, m);
      forall p | StandsFor(db, q, p) ensures p.lastReadAt == q.lastReadAt {
        FindRowIff(ps, q.conversation, q.user);
        assert IsDuplicate(merge, p.conversation);
        MovedIff(merge, ps, p.(conversation := merge[p.conversation]));
        FindRowUnique(moved, p.(conversation := merge[p.conversation]));
        FindRowUnique(moved, q);
      }
    }
  }

  /** The merge marks nothing read, as the thread list counts it: what was unread for someone in its old thread is
      unread for them in the thread it went into. */
  lemma NothingIsMarkedRead(db: Database, i: nat, p: Participant) returns (q: Participant)
    requires Consistent(db) && ThreadsExist(db) && Upgrade(db).Ok?
    requires i < |db.messages| && p in db.participants
    requires var m := db.messages[i];
             m.conversation == p.conversation && m.sender != p.user && (p.lastReadAt.None? || m.createdAt > p.lastReadAt.value)
    ensures q in Upgrade(db).value.participants && q.user == p.user
    ensures i < |Upgrade(db).value.messages|
    ensures var m := Upgrade(db).value.messages[i];
            m.conversation == q.conversation && m.sender != q.user && (q.lastReadAt.None? || m.createdAt > q.lastReadAt.value)
  {
    q := EveryRowIsStoodFor(db, p);
    ReadMarkIsTheMostCautious(db, q);
    MessagesSurvive(db);
  }

  // ----- everything else stays -----

  /** Rows whose keys are kept one by one stay unique. */
  lemma {:induction false} CollectKeepsKeys(f: Participant -> Option<Participant>, ps: seq<Participant>)
    requires UniqueRows(ps) && forall p | f(p).Some? :: SameKey(p, f(p).value)
    ensures UniqueRows(Collect(f, ps))
    ensures forall q | q in Collect(f, ps) :: exists p :: p in ps && SameKey(p, q)
  {
    if ps != [] {
      var rest := ps[1..];
      forall i, j | 0 <= i < j < |rest| ensures !SameKey(rest[i], rest[j]) {
        assert !SameKey(ps[i + 1], ps[j + 1]);
      }
      CollectKeepsKeys(f, rest);
      var qs := Collect(f, rest);
      forall q | q in qs ensures (exists p :: p in ps && SameKey(p, q)) && !SameKey(ps[0], q) {
        var p :| p in rest && SameKey(p, q);
        var i :| 0 <= i < |rest| && rest[i] == p;
        assert ps[i + 1] == p && !SameKey(ps[0], ps[i + 1]);
      }
      if f(ps[0]).Some? { UniqueRowsJoin([f(ps[0]).value], qs); }
    }
  }

  lemma UniqueRowsJoin(a: seq<Participant>, b: seq<Participant>)
    requires UniqueRows(a) && UniqueRows(b) && forall p, q | p in a && q in b :: !SameKey(p, q)
    ensures UniqueRows(a + b)
  {
    forall i, j | 0 <= i < j < |a + b| ensures !SameKey((a + b)[i], (a + b)[j]) {
      if i < |a| <= j { assert (a + b)[i] in a && (a + b)[j] in b; }
    }
  }

  lemma UpsertingKeepsKeys(ps: seq<Participant>, rows: seq<Participant>)
    requires UniqueRows(ps) && UniqueRows(rows)
    ensures UniqueRows(Upserted(ps, rows))
  {
    hide FindRow;
    var kept, added := Collect(p => Some(MergedRow(rows, p)), ps), Collect((r: Participant) =>
      if FindRow(ps, r.conversation, r.user).None? then Some(r) else None, rows);
    CollectKeepsKeys(p => Some(MergedRow(rows, p)), ps);
    CollectKeepsKeys((r: Participant) => if FindRow(ps, r.conversation, r.user).None? then Some(r) else None, rows);
    forall p, q | p in kept && q in added ensures !SameKey(p, q) {
      CollectIff((r: Participant) => if FindRow(ps, r.conversation, r.user).None? then Some(r) else None, rows, q);
      FindRowIff(ps, q.conversation, q.user);
      var x :| x in ps && SameKey(x, p);
    }
    UniqueRowsJoin(kept, added);
  }

  /** Nobody ends up with two rows in one thread. */
  lemma OneRowEach(db: Database, i: nat, j: nat)
    requires Consistent(db) && Upgrade(db).Ok? && i < j < |Upgrade(db).value.participants|
    ensures var p, q := Upgrade(db).value.participants[i], Upgrade(db).value.participants[j];
            p.conversation != q.conversation || p.user != q.user
  {
    hide Moved, Upserted, MergeTable, Linked;
    var merge := MergeOf(db);
    MovedIsUnique(db);
    UpsertingKeepsKeys(db.participants, Moved(merge, db.participants));
    CollectKeepsKeys((p: Participant) => if IsDuplicate(merge, p.conversation) then None else Some(p),
                     Upserted(db.participants, Moved(merge, db.participants)));
  }

  /** Whoever had a row in the kept thread keeps that row as it was, but for the read mark;
      whoever had none there gets a row of theirs in a thread merged into it as it was, but for
      the thread. */
  lemma RowsStayAsTheyWere(db: Database, q: Participant)
    requires Consistent(db) && Upgrade(db).Ok? && q in Upgrade(db).value.participants
    ensures forall p | p in db.participants && p.conversation == q.conversation && p.user == q.user ::
              q == p.(lastReadAt := q.lastReadAt)
    ensures (forall p | p in db.participants && p.user == q.user :: p.conversation != q.conversation) ==>
              exists p :: p in db.participants && q == p.(conversation := q.conversation) && StandsFor(db, q, p)
  {
    hide Upgrade, Upserted, Moved, MergeTable, FindRow, Linked;
    var merge, ps := MergeOf(db), db.participants;
    var moved := Moved(merge, ps);
    KeptRowIff(db, q);
    UpsertedIff(ps, moved, q);
    if e :| e in ps && q == MergedRow(moved, e) {
      forall p | p in ps && p.conversation == q.conversation && p.user == q.user ensures p == e {
        FindRowUnique(ps, p);
        FindRowUnique(ps, e);
      }
    } else {
      FindRowIff(ps, q.conversation, q.user);
      MovedIff(merge, ps, q);
      var m :| m in ps && IsDuplicate(merge, m.conversation) && q == m.(conversation := merge[m.conversation]);
      assert StandsFor(db, q, m);
    }
  }

  /** A thread that is left is an old thread, linked to its pair; only the date of its last
      message may be new, and a thread without messages keeps the date it had. */
  lemma ThreadsStayAsTheyWere(db: Database, c: Conversation)
    requires Consistent(db) && Upgrade(db).Ok? && c in Upgrade(db).value.conversations
    ensures Upgrade(db).value.requests == db.requests
    ensures exists i :: 0 <= i < |db.conversations|
              && c == db.conversations[i].(pair := PairOfThread(db, db.conversations[i]), lastMessageAt := c.lastMessageAt)
              && ((forall m | m in Upgrade(db).value.messages :: m.conversation != c.id) ==>
                    c.lastMessageAt == db.conversations[i].lastMessageAt)
  {
    SurvivorIff(db, c);
    MessagesSurvive(db);
    var messages := Repointed(MergeOf(db), db.messages);
    NewestIsMax(messages, c.id);
    hide Upgrade, Newest, MergeOf, Repointed, PairOfRequest;
    var i :| 0 <= i < |db.conversations| && !IsDuplicate(MergeOf(db), db.conversations[i].id)
             && c == DatedRow(messages, LinkedRow(db.requests, db.conversations[i]));
  }

  lemma {:induction false} PairOfRequestIff(rs: seq<Request>, id: Id)
    ensures PairOfRequest(rs, id).Some? <==> exists r :: r in rs && r.id == id
    ensures PairOfRequest(rs, id).Some? ==> exists r :: r in rs && r.id == id && PairOfRequest(rs, id) == Some(PairOf(r))
  {
    if rs != [] {
      PairOfRequestIff(rs[1..], id);
      assert rs == [rs[0]] + rs[1..];
    }
  }

  /** The pair of a thread is the two people of its own request, the smaller number first. */
  lemma ThreadsFollowTheirRequest(db: Database, c: Conversation, r: Request)
    requires forall x, y | x in db.requests && y in db.requests && x.id == y.id :: x == y
    requires r in db.requests && c.request == Some(r.id)
    ensures var p := PairOfThread(db, c);
            p.Some? && p.value.0 <= p.value.1 && {p.value.0, p.value.1} == {r.sender, r.recipient}
    ensures PairOfThread(db, c.(request := None)).None?
  {
    PairOfRequestIff(db.requests, r.id);
  }

  /** The first thing that stops the migration is a request of somebody to themselves. */
  lemma SelfRequestsAbort(db: Database)
    ensures Upgrade(db) == Err(PairIsNotOrdered)
       <==> exists i :: 0 <= i < |db.requests| && db.requests[i].sender == db.requests[i].recipient
  {
    hide MergeTable, Moved, Repointed, Linked;
  }

  // ----- when the migration cannot run -----

  /** Two rows of one person in two duplicates of one thread. */
  predicate Clash(merge: map<Id, Id>, p: Participant, q: Participant) {
    && p.user == q.user
    && IsDuplicate(merge, p.conversation) && IsDuplicate(merge, q.conversation)
    && merge[p.conversation] == merge[q.conversation]
  }

  ghost predicate ClaimedTwice(merge: map<Id, Id>, ps: seq<Participant>) {
    exists i, j :: 0 <= i < j < |ps| && Clash(merge, ps[i], ps[j])
  }

  lemma RowTwiceSplits(rows: seq<Participant>)
    requires rows != []
    ensures SomeRowTwice(rows) <==> (exists q :: q in rows[1..] && SameKey(rows[0], q)) || SomeRowTwice(rows[1..])
  {
    var rest := rows[1..];
    if i, j :| 0 <= i < j < |rows| && SameKey(rows[i], rows[j]) {
      assert rows[j] == rest[j - 1];
      if i > 0 { assert SameKey(rest[i - 1], rest[j - 1]); }
    }
    if q :| q in rest && SameKey(rows[0], q) {
      var j :| 0 <= j < |rest| && rest[j] == q;
      assert SameKey(rows[0], rows[j + 1]);
    }
    if i, j :| 0 <= i < j < |rest| && SameKey(rest[i], rest[j]) {
      assert SameKey(rows[i + 1], rows[j + 1]);
    }
  }

  lemma ClaimedTwiceSplits(merge: map<Id, Id>, ps: seq<Participant>)
    requires ps != []
    ensures ClaimedTwice(merge, ps)
       <==> (exists q :: q in ps[1..] && Clash(merge, ps[0], q)) || ClaimedTwice(merge, ps[1..])
  {
    var rest := ps[1..];
    if i, j :| 0 <= i < j < |ps| && Clash(merge, ps[i], ps[j]) {
      assert ps[j] == rest[j - 1];
      if i > 0 { assert Clash(merge, rest[i - 1], rest[j - 1]); }
    }
    if q :| q in rest && Clash(merge, ps[0], q) {
      var j :| 0 <= j < |rest| && rest[j] == q;
      assert Clash(merge, ps[0], ps[j + 1]);
    }
    if i, j :| 0 <= i < j < |rest| && Clash(merge, rest[i], rest[j]) {
      assert Clash(merge, ps[i + 1], ps[j + 1]);
    }
  }

  lemma {:induction false} TwiceIsClaimedTwice(merge: map<Id, Id>, ps: seq<Participant>)
    ensures SomeRowTwice(Moved(merge, ps)) <==> ClaimedTwice(merge, ps)
  {
    if ps != [] {
      var p, rest := ps[0], ps[1..];
      var rows, moved := Moved(merge, ps), Moved(merge, rest);
      TwiceIsClaimedTwice(merge, rest);
      ClaimedTwiceSplits(merge, ps);
      hide ClaimedTwice, SomeRowTwice;
      if IsDuplicate(merge, p.conversation) {
        assert rows == [p.(conversation := merge[p.conversation])] + moved;
        RowTwiceSplits(rows);
        assert rows[1..] == moved;
        forall q | q in rest && Clash(merge, p, q) ensures exists r :: r in moved && SameKey(rows[0], r) {
          MovedIff(merge, rest, q.(conversation := merge[q.conversation]));
        }
        forall r | r in moved && SameKey(rows[0], r) ensures exists q :: q in rest && Clash(merge, p, q) {
          MovedIff(merge, rest, r);
        }
      } else {
        assert rows == moved;
      }
    }
  }

  /** The upsert refuses exactly when someone has a row in two duplicates of one thread. */
  lemma AbortsExactlyWhenClaimedTwice(db: Database)
    requires forall i | 0 <= i < |db.requests| :: db.requests[i].sender != db.requests[i].recipient
    ensures Upgrade(db).Ok? <==> !ClaimedTwice(MergeOf(db), db.participants)
  {
    TwiceIsClaimedTwice(MergeOf(db), db.participants);
  }

  ghost predicate TakesPart(db: Database, conversation: Id, user: Id) {
    exists k :: 0 <= k < |db.participants| && db.participants[k].conversation == conversation
      && db.participants[k].user == user
  }

  /** Both people of a pair take part in each of the pair's threads. */
  ghost predicate Staffed(db: Database) {
    forall i | 0 <= i < |db.conversations| && PairOfThread(db, db.conversations[i]).Some? ::
      && TakesPart(db, db.conversations[i].id, PairOfThread(db, db.conversations[i]).value.0)
      && TakesPart(db, db.conversations[i].id, PairOfThread(db, db.conversations[i]).value.1)
  }

  ghost predicate ThreeThreads(db: Database, i: nat, j: nat, k: nat) {
    && i < |db.conversations| && j < |db.conversations| && k < |db.conversations|
    && i != j && j != k && i != k
    && PairOfThread(db, db.conversations[i]).Some?
    && PairOfThread(db, db.conversations[i]) == PairOfThread(db, db.conversations[j])
    && PairOfThread(db, db.conversations[j]) == PairOfThread(db, db.conversations[k])
  }

  /** Where both people take part in their threads, the migration runs exactly when no
      pair has three threads: with two it merges, with three it aborts. */
  lemma TwoThreadsPerPairIsTheLimit(db: Database)
    requires Consistent(db) && ThreadsExist(db) && Staffed(db)
    requires forall i | 0 <= i < |db.requests| :: db.requests[i].sender != db.requests[i].recipient
    ensures Upgrade(db).Ok? <==> !exists i, j, k :: ThreeThreads(db, i, j, k)
  {
    AbortsExactlyWhenClaimedTwice(db);
    if i, j, k :| ThreeThreads(db, i, j, k) {
      ThreeThreadsClash(db, i, j, k);
    }
    if ClaimedTwice(MergeOf(db), db.participants) {
      var i, j, k := ClashHasThreeThreads(db);
    }
  }

  /** Two people, three accepted requests, a thread for each of them, and both people in
      every thread. */
  function TwoPeopleThreeThreads(): Database {
    Database(
      [Request(0, 1, 2, Accepted), Request(1, 2, 1, Accepted), Request(2, 1, 2, Accepted)],
      map[],
      [Conversation(0, Some(0), 0, None, None), Conversation(1, Some(1), 1, None, None),
       Conversation(2, Some(2), 2, None, None)],
      [],
      [Participant(0, 1, None, false), Participant(0, 2, None, false),
       Participant(1, 1, None, false), Participant(1, 2, None, false),
       Participant(2, 1, None, false), Participant(2, 2, None, false)])
  }

  lemma OnePairThere(c: Conversation)
    requires c in TwoPeopleThreeThreads().conversations
    ensures PairOfThread(TwoPeopleThreeThreads(), c) == Some((1, 2))
  {
    var rs := TwoPeopleThreeThreads().requests;
    var b, a := rs[1..], rs[2..];
    assert b[1..] == a && a[0] == rs[2] && b[0] == rs[1];
    assert PairOfRequest(rs, 0) == Some((1, 2));
    assert PairOfRequest(rs, 1) == PairOfRequest(b, 1) == Some((1, 2));
    assert PairOfRequest(rs, 2) == PairOfRequest(b, 2) == PairOfRequest(a, 2) == Some((1, 2));
  }

  lemma BothTakePartThere(c: Id)
    requires c < 3
    ensures TakesPart(TwoPeopleThreeThreads(), c, 1) && TakesPart(TwoPeopleThreeThreads(), c, 2)
  {
    var ps := TwoPeopleThreeThreads().participants;
    assert ps[2 * c].conversation == c && ps[2 * c].user == 1;
    assert ps[2 * c + 1].conversation == c && ps[2 * c + 1].user == 2;
  }

  lemma ConsistentThere()
    ensures Consistent(TwoPeopleThreeThreads()) && ThreadsExist(TwoPeopleThreeThreads())
  {
    hide PairOfRequest;
    var db := TwoPeopleThreeThreads();
    forall i | 0 <= i < |db.conversations| ensures PairOfThread(db, db.conversations[i]).Some? {
      OnePairThere(db.conversations[i]);
    }
    assert UniqueIds(db.conversations) && UniqueRows(db.participants);
    assert forall i | 0 <= i < |db.conversations| :: PairOfThread(db, db.conversations[i]).Some?;
    forall i | 0 <= i < |db.participants|
      ensures exists j :: 0 <= j < |db.conversations| && db.conversations[j].id == db.participants[i].conversation
    {
      assert db.conversations[i / 2].id == db.participants[i].conversation;
    }
  }

  lemma StaffedThere()
    ensures Staffed(TwoPeopleThreeThreads()) && ThreeThreads(TwoPeopleThreeThreads(), 0, 1, 2)
  {
    hide PairOfThread, TakesPart;
    var db := TwoPeopleThreeThreads();
    forall i | 0 <= i < |db.conversations|
      ensures PairOfThread(db, db.conversations[i]) == Some((1, 2))
      ensures TakesPart(db, db.conversations[i].id, 1) && TakesPart(db, db.conversations[i].id, 2)
    {
      OnePairThere(db.conversations[i]);
      BothTakePartThere(db.conversations[i].id);
    }
  }

  /** The migration does refuse: a database that meets every constraint of the old schema,
      each thread under a request of its own, on which the upsert aborts. */
  lemma ThreeThreadsAbort()
    ensures var db := TwoPeopleThreeThreads();
            && Consistent(db) && ThreadsExist(db) && Staffed(db) && ThreeThreads(db, 0, 1, 2)
            && (forall i, j | 0 <= i < j < |db.conversations| :: db.conversations[i].request != db.conversations[j].request)
            && Upgrade(db) == Err(RowTouchedTwice)
  {
    ConsistentThere();
    StaffedThere();
    RequestsThere();
    hide Consistent, ThreadsExist, Staffed, ThreeThreads, TwoPeopleThreeThreads, MergeTable, Moved, Repointed;
    TwoThreadsPerPairIsTheLimit(TwoPeopleThreeThreads());
  }

  lemma RequestsThere()
    ensures var db := TwoPeopleThreeThreads();
            && (forall i | 0 <= i < |db.requests| :: db.requests[i].sender != db.requests[i].recipient)
            && forall i, j | 0 <= i < j < |db.conversations| :: db.conversations[i].request != db.conversations[j].request
  {
  }

  lemma TwoDuplicatesClash(db: Database, a: nat, b: nat)
    requires Consistent(db) && Staffed(db)
    requires a < |db.conversations| && b < |db.conversations| && a != b
    requires PairOfThread(db, db.conversations[a]).Some?
    requires PairOfThread(db, db.conversations[a]) == PairOfThread(db, db.conversations[b])
    requires IsDuplicate(MergeOf(db), db.conversations[a].id) && IsDuplicate(MergeOf(db), db.conversations[b].id)
    ensures ClaimedTwice(MergeOf(db), db.participants)
  {
    ThreadFacts(db, a);
    ThreadFacts(db, b);
    var ps, user := db.participants, PairOfThread(db, db.conversations[a]).value.0;
    assert TakesPart(db, db.conversations[a].id, user) && TakesPart(db, db.conversations[b].id, user);
    var k :| 0 <= k < |ps| && ps[k].conversation == db.conversations[a].id && ps[k].user == user;
    var l :| 0 <= l < |ps| && ps[l].conversation == db.conversations[b].id && ps[l].user == user;
    assert Clash(MergeOf(db), ps[k], ps[l]) && Clash(MergeOf(db), ps[l], ps[k]);
    assert db.conversations[a].id != db.conversations[b].id;
  }

  lemma ThreeThreadsClash(db: Database, i: nat, j: nat, k: nat)
    requires Consistent(db) && Staffed(db) && ThreeThreads(db, i, j, k)
    ensures ClaimedTwice(MergeOf(db), db.participants)
  {
    ThreadFacts(db, i);
    ThreadFacts(db, j);
    ThreadFacts(db, k);
    var id := (n: nat) requires n < |db.conversations| => db.conversations[n].id;
    assert id(i) != id(j) && id(j) != id(k) && id(i) != id(k);
    if !IsDuplicate(MergeOf(db), id(i)) {
      TwoDuplicatesClash(db, j, k);
    } else if !IsDuplicate(MergeOf(db), id(j)) {
      TwoDuplicatesClash(db, i, k);
    } else {
      TwoDuplicatesClash(db, i, j);
    }
  }

  lemma ClashHasThreeThreads(db: Database) returns (i: nat, j: nat, k: nat)
    requires Consistent(db) && ThreadsExist(db) && ClaimedTwice(MergeOf(db), db.participants)
    ensures ThreeThreads(db, i, j, k)
  {
    hide Oldest, MergeOf, PairOfRequest;
    var ps, linked, merge := db.participants, Linked(db.requests, db.conversations), MergeOf(db);
    var x, y :| 0 <= x < y < |ps| && Clash(merge, ps[x], ps[y]);
    assert !SameKey(ps[x], ps[y]);
    i :| 0 <= i < |db.conversations| && db.conversations[i].id == ps[x].conversation;
    j :| 0 <= j < |db.conversations| && db.conversations[j].id == ps[y].conversation;
    ThreadFacts(db, i);
    ThreadFacts(db, j);
    OldestIsFirst(linked, linked[i].pair.value);
    OldestIsFirst(linked, linked[j].pair.value);
    k :| 0 <= k < |linked| && linked[k] == Oldest(linked, linked[i].pair.value).value;
    var l :| 0 <= l < |linked| && linked[l] == Oldest(linked, linked[j].pair.value).value;
    assert linked[k].id == linked[l].id && k == l;
  }
}
