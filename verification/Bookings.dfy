/** Equipment bookings: the rules, the status machine, the EXCLUDE constraint and
    the availability view. A run is any list of events over one database. */
module Bookings {
  import opened Base
  import opened Users

  datatype Status = Pending | Approved | Rejected | Cancelled | Completed

  datatype Actor = Owner | Approver

  datatype Equipment = Equipment(
    available: bool,
    studentsAllowed: bool,
    requiresApproval: bool,
    maxHours: int,
    minLeadHours: int,
    department: Option<Id>,
    custodian: Option<Id>)

  datatype Booking = Booking(
    equipment: Id,
    user: Id,
    start: Time,
    end: Time,
    status: Status,
    decidedBy: Option<Id>,
    decidedAt: Option<Time>,
    note: Option<string>)

  datatype Error =
    | EquipmentNotFound | EquipmentUnavailable | StudentsNotAllowed | InThePast | TooLong | TooSoon
    | EmptyPeriod | Overlap | BookingNotFound | InvalidTransition | WrongActor | AlreadyStarted

  /** The tables one service call sees. A booking's identifier is its row number. */
  datatype State = State(clock: Time, equipment: map<Id, Equipment>, bookings: seq<Booking>)

  const TRANSITIONS: map<(Status, Status), set<Actor>> := map[
    (Pending, Approved) := {Approver},
    (Pending, Rejected) := {Approver},
    (Pending, Cancelled) := {Owner},
    (Approved, Cancelled) := {Owner, Approver},
    (Approved, Completed) := {Owner, Approver}]

  const MAX_HOURS := 336
  const MAX_LEAD_HOURS := 720

  /** What the equipment form accepts: one hour to two weeks at a time, and up to thirty
      days of notice. */
  predicate Permitted(e: Equipment) {
    1 <= e.maxHours <= MAX_HOURS && 0 <= e.minLeadHours <= MAX_LEAD_HOURS
  }

  // ----- one step -----

  function AssertRules(now: Time, user: User, e: Equipment, start: Time, end: Time): Option<Error> {
    if !e.available then Some(EquipmentUnavailable)
    else if user.role == Student && !e.studentsAllowed then Some(StudentsNotAllowed)
    else if start < now then Some(InThePast)
    else if end - start > e.maxHours * HOUR then Some(TooLong)
    else if start - now < e.minLeadHours * HOUR then Some(TooSoon)
    else None
  }

  /** Half-open periods: one ending where the next starts does not overlap it. */
  predicate Overlaps(s1: Time, e1: Time, s2: Time, e2: Time) {
    s1 < e2 && s2 < e1
  }

  /** What the EXCLUDE constraint refuses: an approved row of this item in the period. */
  predicate Taken(bookings: seq<Booking>, equipment: Id, start: Time, end: Time) {
    exists i | 0 <= i < |bookings| ::
      bookings[i].status == Approved && bookings[i].equipment == equipment
      && Overlaps(bookings[i].start, bookings[i].end, start, end)
  }

  function Create(s: State, user: User, equipment: Id, start: Time, end: Time): Outcome<State, Error> {
    if equipment !in s.equipment then Err(EquipmentNotFound)
    else
      var e := s.equipment[equipment];
      match AssertRules(s.clock, user, e, start, end)
      case Some(error) => Err(error)
      case None =>
        var status := if e.requiresApproval then Pending else Approved;
        var decidedAt := if e.requiresApproval then None else Some(s.clock);
        if start >= end then Err(EmptyPeriod)
        else if status == Approved && Taken(s.bookings, equipment, start, end) then Err(Overlap)
        else Ok(s.(bookings := s.bookings + [Booking(equipment, user.id, start, end, status, None, decidedAt, None)]))
  }

  function ActorFor(s: State, user: User, b: Booking): Option<Actor> {
    if b.user == user.id then Some(Owner)
    else if user.role == Admin then Some(Approver)
    else
      var facility := if b.equipment in s.equipment
                      then (s.equipment[b.equipment].custodian, s.equipment[b.equipment].department)
                      else (None, None);
      if user.role == Custodian then
        if facility.0 == Some(user.id) then Some(Approver) else None
      else if CoordinatorDepartment(user).Some? && CoordinatorDepartment(user) == facility.1 then Some(Approver)
      else None
  }

  function Decide(s: State, user: User, id: Id, target: Status, note: Option<string>): Outcome<State, Error> {
    if id >= |s.bookings| then Err(BookingNotFound)
    else
      var b := s.bookings[id];
      match ActorFor(s, user, b)
      case None => Err(BookingNotFound)
      case Some(actor) =>
        if (b.status, target) !in TRANSITIONS then Err(InvalidTransition)
        else if actor !in TRANSITIONS[(b.status, target)] then Err(WrongActor)
        else if target == Cancelled && b.start <= s.clock then Err(AlreadyStarted)
        else if target == Completed && b.end > s.clock then Err(InvalidTransition)
        else if target == Approved && Taken(s.bookings, b.equipment, b.start, b.end) then Err(Overlap)
        else
          var moved := b.(status := target);
          var decided := if actor == Approver
                         then moved.(decidedBy := Some(user.id), decidedAt := Some(s.clock), note := note)
                         else moved;
          Ok(s.(bookings := s.bookings[id := decided]))
  }

  // ----- runs -----

  datatype Event =
    | Tick(now: Time)
    | EditEquipment(id: Id, to: Equipment)
    | Book(user: User, equipment: Id, start: Time, end: Time)
    | Judge(user: User, booking: Id, target: Status, note: Option<string>)

  /** A refused call changes nothing, and the clock never goes back. */
  function Apply(s: State, e: Event): State {
    match e
    case Tick(now) => s.(clock := Max(s.clock, now))
    case EditEquipment(id, to) => if Permitted(to) then s.(equipment := s.equipment[id := to]) else s
    case Book(user, equipment, start, end) =>
      var r := Create(s, user, equipment, start, end); if r.Ok? then r.value else s
    case Judge(user, booking, target, note) =>
      var r := Decide(s, user, booking, target, note); if r.Ok? then r.value else s
  }

  function Run(s: State, es: seq<Event>): State
    decreases |es|
  {
    if es == [] then s else Run(Apply(s, es[0]), es[1..])
  }

  ghost predicate Reachable(s: State) {
    exists t: Time, es: seq<Event> :: s == Run(State(t, map[], []), es)
  }

  // ----- what every step keeps -----

  predicate Held(b: Booking) { b.status == Approved || b.status == Completed }

  ghost predicate Disjoint(b: Booking, c: Booking) {
    b.equipment == c.equipment ==> !Overlaps(b.start, b.end, c.start, c.end)
  }

  ghost predicate ApprovedDisjoint(bs: seq<Booking>) {
    forall i, j | 0 <= i < j < |bs| && bs[i].status == bs[j].status == Approved :: Disjoint(bs[i], bs[j])
  }

  /** Approved and completed periods of one item, taken together. */
  ghost predicate HeldDisjoint(bs: seq<Booking>, equipment: Id) {
    forall i, j | 0 <= i < j < |bs| && Held(bs[i]) && Held(bs[j]) && bs[i].equipment == equipment ::
      Disjoint(bs[i], bs[j])
  }

  ghost predicate Sound(s: State) {
    && (forall i | 0 <= i < |s.bookings| ::
          var b := s.bookings[i];
          b.start < b.end && (b.status == Completed ==> b.end <= s.clock) && b.decidedBy != Some(b.user))
    && ApprovedDisjoint(s.bookings)
  }

  lemma StepKeepsSound(s: State, e: Event)
    requires Sound(s)
    ensures Sound(Apply(s, e))
  {
    var t := Apply(s, e);
    if t.bookings != s.bookings {
      if e.Book? {
        assert t.bookings[..|s.bookings|] == s.bookings;
      }
      forall i, j | 0 <= i < j < |t.bookings| && t.bookings[i].status == t.bookings[j].status == Approved
        ensures Disjoint(t.bookings[i], t.bookings[j])
      {
        if j < |s.bookings| && s.bookings[i].status == s.bookings[j].status == Approved {
          assert Disjoint(s.bookings[i], s.bookings[j]);
        }
      }
    }
  }

  /** Over every run: approved bookings of one item never overlap, nobody decides
      a booking of their own, and a completed booking lies in the past. */
  lemma {:induction false} RunsAreSound(s: State, es: seq<Event>)
    requires Sound(s)
    ensures Sound(Run(s, es))
    decreases |es|
  {
    if es != [] {
      StepKeepsSound(s, es[0]);
      RunsAreSound(Apply(s, es[0]), es[1..]);
    }
  }

  lemma ReachableIsSound(s: State)
    requires Reachable(s)
    ensures Sound(s)
  {
    var t: Time, es: seq<Event> :| s == Run(State(t, map[], []), es);
    RunsAreSound(State(t, map[], []), es);
  }

  ghost predicate Short(s: State) {
    && (forall id | id in s.equipment :: Permitted(s.equipment[id]))
    && forall i | 0 <= i < |s.bookings| ::
         var b := s.bookings[i]; b.start < b.end <= b.start + MAX_HOURS * HOUR
  }

  lemma StepKeepsShort(s: State, e: Event)
    requires Short(s)
    ensures Short(Apply(s, e))
  {
    if e.Book? && Create(s, e.user, e.equipment, e.start, e.end).Ok? {
      var item := s.equipment[e.equipment];
      assert Permitted(item) && item.maxHours * HOUR <= MAX_HOURS * HOUR;
    }
  }

  lemma {:induction false} RunsAreShort(s: State, es: seq<Event>)
    requires Short(s)
    ensures Short(Run(s, es))
    decreases |es|
  {
    if es != [] {
      StepKeepsShort(s, es[0]);
      RunsAreShort(Apply(s, es[0]), es[1..]);
    }
  }

  /** No booking ever stored is empty or longer than two weeks. */
  lemma ReachableIsShort(s: State)
    requires Reachable(s)
    ensures Short(s)
  {
    var t: Time, es: seq<Event> :| s == Run(State(t, map[], []), es);
    RunsAreShort(State(t, map[], []), es);
  }

  /** Neither too strict nor too lax: the constraint refuses exactly the approved row
      that would break disjointness. */
  lemma ConstraintIsExact(bs: seq<Booking>, b: Booking)
    requires ApprovedDisjoint(bs) && b.status == Approved
    ensures ApprovedDisjoint(bs + [b]) <==> !Taken(bs, b.equipment, b.start, b.end)
  {
    var cs := bs + [b];
    if i :| 0 <= i < |bs| && bs[i].status == Approved && bs[i].equipment == b.equipment
            && Overlaps(bs[i].start, bs[i].end, b.start, b.end) {
      assert cs[i] == bs[i] && cs[|bs|] == b && !Disjoint(cs[i], cs[|bs|]);
    } else {
      forall i, j | 0 <= i < j < |cs| && cs[i].status == cs[j].status == Approved
        ensures Disjoint(cs[i], cs[j])
      {
        assert cs[i] == bs[i] && (j < |bs| ==> Disjoint(bs[i], bs[j]));
      }
    }
  }

  /** A booking is accepted exactly when every rule of the item holds at this moment
      and, if it is booked outright, the table stays free of overlaps. */
  lemma AcceptedExactly(s: State, user: User, equipment: Id, start: Time, end: Time)
    requires Sound(s)
    ensures Create(s, user, equipment, start, end).Ok?
       <==> && equipment in s.equipment && start < end
            && var e := s.equipment[equipment];
               && e.available && (user.role == Student ==> e.studentsAllowed)
               && s.clock + Max(0, e.minLeadHours * HOUR) <= start && end <= start + e.maxHours * HOUR
               && (e.requiresApproval ||
                   ApprovedDisjoint(s.bookings + [Booking(equipment, user.id, start, end, Approved, None, Some(s.clock), None)]))
  {
    ConstraintIsExact(s.bookings, Booking(equipment, user.id, start, end, Approved, None, Some(s.clock), None));
  }

  // ----- booked hours -----

  /** The part of [s, e) that falls inside [from, to). */
  function Clip(s: Time, e: Time, from: Time, to: Time): (d: Time)
    ensures d >= 0
  {
    Max(0, Min(e, to) - Max(s, from))
  }

  /** Approved time on one item inside a window: the sum behind equipment_utilisation. */
  function BookedTime(bs: seq<Booking>, equipment: Id, from: Time, to: Time): (d: Time)
    ensures d >= 0
  {
    if bs == [] then 0
    else
      (if bs[0].status == Approved && bs[0].equipment == equipment then Clip(bs[0].start, bs[0].end, from, to) else 0)
      + BookedTime(bs[1..], equipment, from, to)
  }

  /** Rows that avoid [s, e) contribute the same to a window as to what is left of it. */
  lemma {:induction false} BookedTimeSplits(bs: seq<Booking>, equipment: Id, s: Time, e: Time, from: Time, to: Time)
    requires from <= s <= e <= to
    requires forall i | 0 <= i < |bs| && bs[i].status == Approved && bs[i].equipment == equipment ::
               bs[i].end <= s || e <= bs[i].start
    ensures BookedTime(bs, equipment, from, to)
         == BookedTime(bs, equipment, from, s) + BookedTime(bs, equipment, e, to)
  {
    if bs != [] {
      BookedTimeSplits(bs[1..], equipment, s, e, from, to);
    }
  }

  /** Disjoint approved periods never add up to more than the window they lie in. */
  lemma {:induction false} BookedTimeFits(bs: seq<Booking>, equipment: Id, from: Time, to: Time)
    requires ApprovedDisjoint(bs)
    requires forall i | 0 <= i < |bs| :: bs[i].start < bs[i].end
    requires from <= to
    ensures BookedTime(bs, equipment, from, to) <= to - from
    decreases |bs|
  {
    if bs != [] {
      var b, rest := bs[0], bs[1..];
      assert ApprovedDisjoint(rest) by {
        forall i, j | 0 <= i < j < |rest| && rest[i].status == rest[j].status == Approved
          ensures Disjoint(rest[i], rest[j])
        {
          assert Disjoint(bs[i + 1], bs[j + 1]);
        }
      }
      if b.status == Approved && b.equipment == equipment && Overlaps(b.start, b.end, from, to) {
        var s, e := Max(b.start, from), Min(b.end, to);
        forall i | 0 <= i < |rest| && rest[i].status == Approved && rest[i].equipment == equipment
          ensures rest[i].end <= s || e <= rest[i].start
        {
          assert Disjoint(bs[0], bs[i + 1]);
        }
        BookedTimeSplits(rest, equipment, s, e, from, to);
        BookedTimeFits(rest, equipment, from, s);
        BookedTimeFits(rest, equipment, e, to);
      } else {
        BookedTimeFits(rest, equipment, from, to);
      }
    }
  }

  /** No item is ever booked for more time than there is. */
  lemma BookedTimeNeverExceedsTheWindow(s: State, equipment: Id, from: Time, to: Time)
    requires Reachable(s)
    requires from <= to
    ensures BookedTime(s.bookings, equipment, from, to) <= to - from
  {
    ReachableIsSound(s);
    BookedTimeFits(s.bookings, equipment, from, to);
  }

  // ----- booked hours by name -----

  /** The sum behind one row of equipment_utilisation: all approved time on the items that
      share a name. */
  function UsedTime(bs: seq<Booking>, items: set<Id>): Time {
    if bs == [] then 0
    else
      (if bs[0].status == Approved && bs[0].equipment in items then bs[0].end - bs[0].start else 0) + UsedTime(bs[1..], items)
  }

  ghost predicate Within(bs: seq<Booking>, items: set<Id>, from: Time, to: Time) {
    forall i | 0 <= i < |bs| && bs[i].status == Approved && bs[i].equipment in items :: from <= bs[i].start && bs[i].end <= to
  }

  lemma {:induction false} UsedTimeSplits(bs: seq<Booking>, items: set<Id>, x: Id, from: Time, to: Time)
    requires x in items && Within(bs, items, from, to)
    requires forall i | 0 <= i < |bs| :: bs[i].start < bs[i].end
    ensures UsedTime(bs, items) == BookedTime(bs, x, from, to) + UsedTime(bs, items - {x})
  {
    if bs != [] {
      UsedTimeSplits(bs[1..], items, x, from, to);
    }
  }

  lemma {:induction false} UsedTimeOfNone(bs: seq<Booking>)
    ensures UsedTime(bs, {}) == 0
  {
    if bs != [] { UsedTimeOfNone(bs[1..]); }
  }

  /** Items sharing a name are together booked for at most the window times their number. */
  lemma {:induction false} UsedTimeFits(bs: seq<Booking>, items: set<Id>, from: Time, to: Time)
    requires ApprovedDisjoint(bs) && (forall i | 0 <= i < |bs| :: bs[i].start < bs[i].end)
    requires from <= to && Within(bs, items, from, to)
    ensures UsedTime(bs, items) <= |items| * (to - from)
    decreases |items|
  {
    if items == {} {
      UsedTimeOfNone(bs);
    } else {
      var x :| x in items;
      UsedTimeSplits(bs, items, x, from, to);
      BookedTimeFits(bs, x, from, to);
      UsedTimeFits(bs, items - {x}, from, to);
      assert |items| == |items - {x}| + 1;
      assert (|items - {x}| + 1) * (to - from) == |items - {x}| * (to - from) + (to - from);
    }
  }

  /** What a row of equipment_utilisation can show in any reachable database: at most the
      window its bookings lie in, times the number of items that share the name. */
  lemma UtilisationIsBounded(s: State, items: set<Id>, from: Time, to: Time)
    requires Reachable(s) && from <= to && Within(s.bookings, items, from, to)
    ensures UsedTime(s.bookings, items) <= |items| * (to - from)
  {
    ReachableIsSound(s);
    UsedTimeFits(s.bookings, items, from, to);
  }

  /** When a row stays within its window, exactly: when no two items share its name. */
  lemma SharedNamesAddUp(items: set<Id>, from: Time, to: Time)
    requires from < to
    ensures (forall s: State | Reachable(s) && Within(s.bookings, items, from, to) :: UsedTime(s.bookings, items) <= to - from)
       <==> |items| <= 1
  {
    hide UsedTime, Reachable;
    if |items| <= 1 {
      forall s: State | Reachable(s) && Within(s.bookings, items, from, to)
        ensures UsedTime(s.bookings, items) <= to - from
      {
        UtilisationIsBounded(s, items, from, to);
        ProductFits(|items|, to - from);
      }
    } else {
      var s := EveryItemFull(items, items, from, to);
      ProductFits(|items|, to - from);
      assert Reachable(s) && Within(s.bookings, items, from, to);
    }
  }

  lemma ProductFits(n: nat, d: int)
    requires d > 0
    ensures n * d <= d <==> n <= 1
  {
    if n > 1 {
      assert n * d == d + (n - 1) * d;
    }
  }

  const GUEST := User(1, Student, true, None, None, None, false, 0, false)
  const SELF_SERVICE := Equipment(true, true, false, MAX_HOURS, 0, None, None)

  /** The bound is reached for any items and any window: a database in which each of
      `items` is booked for all of [from, to). */
  lemma {:induction false} EveryItemFull(items: set<Id>, named: set<Id>, from: Time, to: Time) returns (s: State)
    requires from <= to && items <= named
    ensures Reachable(s) && s.clock == from
    ensures forall i | 0 <= i < |s.bookings| ::
              s.bookings[i].equipment in items && from <= s.bookings[i].start && s.bookings[i].end <= to
    ensures UsedTime(s.bookings, named) == |items| * (to - from)
    decreases |items|
  {
    hide Reachable, Run;
    if items == {} {
      s := State(from, map[], []);
      StartIsReachable(from);
    } else {
      var x :| x in items;
      var before := EveryItemFull(items - {x}, named, from, to);
      StepStaysReachable(before, EditEquipment(x, SELF_SERVICE));
      s := BookThrough(Apply(before, EditEquipment(x, SELF_SERVICE)), x, named, from, to);
      assert |items| == |items - {x}| + 1;
      assert (|items - {x}| + 1) * (to - from) == |items - {x}| * (to - from) + (to - from);
    }
  }

  /** One item booked from `at` to `to`, two weeks at a time. */
  lemma {:induction false} BookThrough(s: State, x: Id, named: set<Id>, at: Time, to: Time) returns (t: State)
    requires Reachable(s) && s.clock <= at <= to && x in named
    requires x in s.equipment && s.equipment[x] == SELF_SERVICE
    requires forall i | 0 <= i < |s.bookings| && s.bookings[i].equipment == x :: s.bookings[i].end <= at
    ensures Reachable(t) && t.clock == s.clock
    ensures forall i | 0 <= i < |t.bookings| ::
              t.bookings[i] in s.bookings || (t.bookings[i].equipment == x && at <= t.bookings[i].start && t.bookings[i].end <= to)
    ensures UsedTime(t.bookings, named) == UsedTime(s.bookings, named) + (to - at)
    decreases (to - at)
  {
    hide Reachable, Run, UsedTime;
    t := s;
    if at < to {
      var end := Min(to, at + MAX_HOURS * HOUR);
      var next := Apply(s, Book(GUEST, x, at, end));
      var b := Booking(x, GUEST.id, at, end, Approved, None, Some(s.clock), None);
      assert next == s.(bookings := s.bookings + [b]);
      StepStaysReachable(s, Book(GUEST, x, at, end));
      UsedTimeAppends(s.bookings, b, named);
      t := BookThrough(next, x, named, end, to);
    }
  }

  lemma {:induction false} UsedTimeAppends(bs: seq<Booking>, b: Booking, items: set<Id>)
    requires b.status == Approved && b.equipment in items
    ensures UsedTime(bs + [b], items) == UsedTime(bs, items) + (b.end - b.start)
  {
    if bs == [] {
      assert [b][1..] == [] && UsedTime([b], items) == b.end - b.start + UsedTime([], items);
      assert [] + [b] == [b];
    } else {
      assert (bs + [b])[1..] == bs[1..] + [b];
      UsedTimeAppends(bs[1..], b, items);
    }
  }

  // ----- approved and completed together -----

  /** An approval that lands after its period has begun; the code does not look. */
  ghost predicate LateApproval(s: State, e: Event, equipment: Id) {
    && e.Judge? && e.target == Approved
    && Decide(s, e.user, e.booking, e.target, e.note).Ok?
    && s.bookings[e.booking].equipment == equipment
    && s.bookings[e.booking].start < s.clock
  }

  ghost predicate Timely(s: State, es: seq<Event>, equipment: Id)
    decreases |es|
  {
    es == [] || (!LateApproval(s, es[0], equipment) && Timely(Apply(s, es[0]), es[1..], equipment))
  }

  lemma StepKeepsHeldDisjoint(s: State, e: Event, equipment: Id)
    requires Sound(s) && HeldDisjoint(s.bookings, equipment)
    requires !LateApproval(s, e, equipment)
    ensures HeldDisjoint(Apply(s, e).bookings, equipment)
  {
    var bs, cs := s.bookings, Apply(s, e).bookings;
    if cs != bs {
      if e.Book? {
        assert cs[..|bs|] == bs;
      }
      forall i, j | 0 <= i < j < |cs| && Held(cs[i]) && Held(cs[j]) && cs[i].equipment == equipment
        ensures Disjoint(cs[i], cs[j])
      {
        if j < |bs| && Held(bs[i]) && Held(bs[j]) {
          assert Disjoint(bs[i], bs[j]);
        }
      }
    }
  }

  /** While every approval of an item comes no later than its start, a period once
      used or promised is never given out again. */
  lemma {:induction false} TimelyRunsNeverDoubleBook(s: State, es: seq<Event>, equipment: Id)
    requires Sound(s) && HeldDisjoint(s.bookings, equipment)
    requires Timely(s, es, equipment)
    ensures HeldDisjoint(Run(s, es).bookings, equipment)
    decreases |es|
  {
    if es != [] {
      StepKeepsSound(s, es[0]);
      StepKeepsHeldDisjoint(s, es[0], equipment);
      TimelyRunsNeverDoubleBook(Apply(s, es[0]), es[1..], equipment);
    }
  }

  ghost predicate BookedOutright(s: State, equipment: Id) {
    && (equipment in s.equipment ==> !s.equipment[equipment].requiresApproval)
    && forall i | 0 <= i < |s.bookings| && s.bookings[i].equipment == equipment :: s.bookings[i].status != Pending
  }

  ghost predicate NeverNeedsApproval(es: seq<Event>, equipment: Id) {
    forall i | 0 <= i < |es| && es[i].EditEquipment? && es[i].id == equipment :: !es[i].to.requiresApproval
  }

  lemma {:induction false} SelfServiceRunsAreTimely(s: State, es: seq<Event>, equipment: Id)
    requires BookedOutright(s, equipment) && NeverNeedsApproval(es, equipment)
    ensures Timely(s, es, equipment)
    decreases |es|
  {
    if es != [] {
      assert NeverNeedsApproval(es[1..], equipment);
      assert BookedOutright(Apply(s, es[0]), equipment);
      SelfServiceRunsAreTimely(Apply(s, es[0]), es[1..], equipment);
    }
  }

  /** An item that never requires approval is never held twice over the same moment,
      whatever else happens and whoever acts. */
  lemma SelfServiceNeverDoubleBooks(t: Time, es: seq<Event>, equipment: Id)
    requires NeverNeedsApproval(es, equipment)
    ensures HeldDisjoint(Run(State(t, map[], []), es).bookings, equipment)
  {
    SelfServiceRunsAreTimely(State(t, map[], []), es, equipment);
    TimelyRunsNeverDoubleBook(State(t, map[], []), es, equipment);
  }

  ghost predicate ApprovalIsSafe(s: State, user: User, id: Id) {
    var r := Decide(s, user, id, Approved, None);
    r.Ok? && HeldDisjoint(s.bookings, s.bookings[id].equipment) ==>
      HeldDisjoint(r.value.bookings, s.bookings[id].equipment)
  }

  ghost predicate Awaits(s: State, id: Id, start: Time, end: Time, now: Time) {
    && Reachable(s) && s.clock == now
    && id < |s.bookings| && s.bookings[id].start == start && s.bookings[id].end == end
  }

  /** The guard `_decide` lacks, exactly: approving a request for [start, end) at `now`
      can never double-book, in any reachable database, if and only if now <= start or no
      item can be booked for that period at all. */
  lemma ApprovalIsSafeExactlyUntilTheStart(start: Time, end: Time, now: Time)
    ensures (forall s: State, user: User, id: Id | Awaits(s, id, start, end, now) :: ApprovalIsSafe(s, user, id))
       <==> now <= start || end <= start || end > start + MAX_HOURS * HOUR
  {
    if start < now && start < end <= start + MAX_HOURS * HOUR {
      var s, admin := LateApprovalWitness(start, end, now);
      assert Awaits(s, 1, start, end, now) && !ApprovalIsSafe(s, admin, 1);
    } else {
      forall s: State, user: User, id: Id | Awaits(s, id, start, end, now)
        ensures ApprovalIsSafe(s, user, id)
      {
        ReachableIsSound(s);
        ReachableIsShort(s);
        if Decide(s, user, id, Approved, None).Ok? && HeldDisjoint(s.bookings, s.bookings[id].equipment) {
          StepKeepsHeldDisjoint(s, Judge(user, id, Approved, None), s.bookings[id].equipment);
        }
      }
    }
  }

  /** Two requests for the same start: the short one is approved and completed, and
      the long one is approved afterwards. */
  lemma LateApprovalWitness(start: Time, end: Time, now: Time) returns (s: State, admin: User)
    requires start < end <= start + MAX_HOURS * HOUR && start < now
    ensures Awaits(s, 1, start, end, now)
    ensures !ApprovalIsSafe(s, admin, 1)
  {
    hide Reachable, Run, ApprovalIsSafe;
    admin := User(9, Role.Admin, true, None, None, None, false, 0, false);
    var guest := GUEST;
    var e := SELF_SERVICE.(requiresApproval := true);
    var s0 := State(start, map[], []);
    var s1 := Apply(s0, EditEquipment(0, e));
    var s2 := Apply(s1, Book(guest, 0, start, start + 1));
    assert s2.bookings == [Booking(0, 1, start, start + 1, Pending, None, None, None)];
    var s3 := Apply(s2, Book(guest, 0, start, end));
    assert s3.bookings == s2.bookings + [Booking(0, 1, start, end, Pending, None, None, None)];
    var s4 := Apply(s3, Judge(admin, 0, Approved, None));
    assert s4.bookings == [Booking(0, 1, start, start + 1, Approved, Some(9), Some(start), None), s3.bookings[1]];
    var s5 := Apply(s4, Tick(now));
    s := Apply(s5, Judge(admin, 0, Completed, None));
    assert s.bookings == [Booking(0, 1, start, start + 1, Completed, Some(9), Some(now), None), s3.bookings[1]];
    StartIsReachable(start);
    StepStaysReachable(s0, EditEquipment(0, e));
    StepStaysReachable(s1, Book(guest, 0, start, start + 1));
    StepStaysReachable(s2, Book(guest, 0, start, end));
    StepStaysReachable(s3, Judge(admin, 0, Approved, None));
    StepStaysReachable(s4, Tick(now));
    StepStaysReachable(s5, Judge(admin, 0, Completed, None));
    ApprovingDoubleBooks(s, admin);
  }

  /** Approving a request for a period that a completed booking has used. */
  lemma ApprovingDoubleBooks(s: State, admin: User)
    requires |s.bookings| == 2 && s.bookings[0].status == Completed && s.bookings[1].status == Pending
    requires s.bookings[0].equipment == s.bookings[1].equipment && !Disjoint(s.bookings[0], s.bookings[1])
    requires admin.role == Role.Admin && s.bookings[1].user != admin.id
    ensures !ApprovalIsSafe(s, admin, 1)
  {
    var t := Decide(s, admin, 1, Approved, None).value;
    assert Held(t.bookings[0]) && Held(t.bookings[1]) && !Disjoint(t.bookings[0], t.bookings[1]);
  }

  lemma {:induction false} RunExtends(s: State, es: seq<Event>, e: Event)
    ensures Run(s, es + [e]) == Apply(Run(s, es), e)
    decreases |es|
  {
    if es == [] {
      assert [e][1..] == [] && Run(Apply(s, e), []) == Apply(s, e);
    } else {
      assert (es + [e])[1..] == es[1..] + [e];
      RunExtends(Apply(s, es[0]), es[1..], e);
    }
  }

  lemma StartIsReachable(t: Time)
    ensures Reachable(State(t, map[], []))
  {
    assert State(t, map[], []) == Run(State(t, map[], []), []);
  }

  lemma StepStaysReachable(s: State, e: Event)
    requires Reachable(s)
    ensures Reachable(Apply(s, e))
  {
    var t: Time, es: seq<Event> :| s == Run(State(t, map[], []), es);
    RunExtends(State(t, map[], []), es, e);
  }

  // ----- what a decided booking keeps -----

  /** What may become of one row: its subject never changes, a final status is final,
      and a slot that had begun while approved can only be completed. */
  ghost predicate Follows(b: Booking, c: Booking, begun: bool) {
    && c.(status := b.status, decidedBy := b.decidedBy, decidedAt := b.decidedAt, note := b.note) == b
    && (b.status in {Rejected, Cancelled, Completed} ==> c == b)
    && (b.status == Approved && begun ==> c.status in {Approved, Completed})
    && (b.status == Approved ==> c.status in {Approved, Cancelled, Completed})
  }

  /** Over every run of these events (a person or an item that is deleted takes its bookings
      along, and no event does that) no row disappears or changes hands, a rejected, cancelled or
      completed booking stays exactly as it is, and a slot whose time had come while
      it was approved is never handed back. */
  lemma {:induction false} RunsFollow(s: State, es: seq<Event>)
    ensures |s.bookings| <= |Run(s, es).bookings| && s.clock <= Run(s, es).clock
    ensures forall i | 0 <= i < |s.bookings| ::
              Follows(s.bookings[i], Run(s, es).bookings[i], s.bookings[i].start <= s.clock)
    decreases |es|
  {
    if es != [] {
      var t := Apply(s, es[0]);
      assert |s.bookings| <= |t.bookings| && s.clock <= t.clock;
      forall i | 0 <= i < |s.bookings|
        ensures Follows(s.bookings[i], t.bookings[i], s.bookings[i].start <= s.clock)
      {
        if es[0].Judge? && t.bookings[i] != s.bookings[i] {
          assert (s.bookings[i].status, es[0].target) in TRANSITIONS;
        }
      }
      RunsFollow(t, es[1..]);
    }
  }

  // ----- the availability view -----

  datatype Slot = Slot(start: Time, end: Time, isMine: bool)

  /** WHERE: approved rows of the item whose period meets the window; an empty window meets none. */
  function Selected(bs: seq<Booking>, equipment: Id, from: Time, to: Time): seq<Booking> {
    if bs == [] then []
    else
      (if bs[0].status == Approved && bs[0].equipment == equipment && from < to
          && Overlaps(bs[0].start, bs[0].end, from, to) then [bs[0]] else [])
      + Selected(bs[1..], equipment, from, to)
  }

  /** ORDER BY period: by start, then by end. */
  ghost predicate ByPeriod(rows: seq<Booking>) {
    forall i, j | 0 <= i < j < |rows| ::
      rows[i].start < rows[j].start || (rows[i].start == rows[j].start && rows[i].end <= rows[j].end)
  }

  /** Any answer the query may give. */
  ghost predicate Answers(rows: seq<Booking>, s: State, equipment: Id, from: Time, to: Time) {
    multiset(rows) == multiset(Selected(s.bookings, equipment, from, to)) && ByPeriod(rows)
  }

  lemma {:induction false} SelectedIff(bs: seq<Booking>, equipment: Id, from: Time, to: Time, b: Booking)
    ensures b in Selected(bs, equipment, from, to)
       <==> b in bs && b.status == Approved && b.equipment == equipment && from < to && Overlaps(b.start, b.end, from, to)
  {
    if bs != [] {
      SelectedIff(bs[1..], equipment, from, to, b);
      assert bs == [bs[0]] + bs[1..];
    }
  }

  /** Selected rows come from different places, so two of them never overlap even if equal. */
  lemma {:induction false} SelectedCount(bs: seq<Booking>, equipment: Id, from: Time, to: Time, b: Booking)
    requires ApprovedDisjoint(bs) && forall i | 0 <= i < |bs| :: bs[i].start < bs[i].end
    ensures multiset(Selected(bs, equipment, from, to))[b] <= 1
    decreases |bs|
  {
    if bs != [] {
      var rest := bs[1..];
      forall i, j | 0 <= i < j < |rest| && rest[i].status == rest[j].status == Approved
        ensures Disjoint(rest[i], rest[j])
      {
        assert Disjoint(bs[i + 1], bs[j + 1]);
      }
      SelectedCount(rest, equipment, from, to, b);
      SelectedIff(rest, equipment, from, to, b);
      forall j | 0 <= j < |rest| && rest[j].status == Approved
        ensures bs[0].status == Approved ==> rest[j] != bs[0]
      {
        assert bs[0].status == Approved ==> Disjoint(bs[0], bs[j + 1]);
      }
    }
  }

  /** The view and the constraint agree: inside the window, a period touches a busy
      slot exactly when the EXCLUDE constraint would refuse it. */
  lemma AvailabilityIsTheConstraint(rows: seq<Booking>, s: State, equipment: Id, from: Time, to: Time, start: Time, end: Time)
    requires Answers(rows, s, equipment, from, to)
    requires from <= start < end <= to
    ensures Taken(s.bookings, equipment, start, end)
       <==> exists i :: 0 <= i < |rows| && Overlaps(rows[i].start, rows[i].end, start, end)
  {
    var bs, sel := s.bookings, Selected(s.bookings, equipment, from, to);
    if Taken(bs, equipment, start, end) {
      var k :| 0 <= k < |bs| && bs[k].status == Approved && bs[k].equipment == equipment
               && Overlaps(bs[k].start, bs[k].end, start, end);
      SelectedIff(bs, equipment, from, to, bs[k]);
      assert bs[k] in multiset(rows);
    }
    if i :| 0 <= i < |rows| && Overlaps(rows[i].start, rows[i].end, start, end) {
      assert rows[i] in multiset(sel);
      SelectedIff(bs, equipment, from, to, rows[i]);
    }
  }

  /** Busy slots are listed in order and each ends before the next begins. */
  lemma AvailabilityIsATimeline(rows: seq<Booking>, s: State, equipment: Id, from: Time, to: Time, i: nat, j: nat)
    requires Reachable(s) && Answers(rows, s, equipment, from, to)
    requires i < j < |rows|
    ensures rows[i].end <= rows[j].start
  {
    ReachableIsSound(s);
    SelectedCount(s.bookings, equipment, from, to, rows[i]);
    CountedOnceIsDistinct(rows, i, j);
    assert rows[i] in multiset(Selected(s.bookings, equipment, from, to));
    assert rows[j] in multiset(Selected(s.bookings, equipment, from, to));
    SelectedAreApart(s.bookings, equipment, from, to, rows[i], rows[j]);
  }

  lemma CountedOnceIsDistinct(rows: seq<Booking>, i: nat, j: nat)
    requires i < j < |rows| && multiset(rows)[rows[i]] <= 1
    ensures rows[i] != rows[j]
  {
    assert rows == rows[..j] + [rows[j]] + rows[j + 1..];
    assert rows[i] in rows[..j];
  }

  lemma SelectedAreApart(bs: seq<Booking>, equipment: Id, from: Time, to: Time, b: Booking, c: Booking)
    requires ApprovedDisjoint(bs) && forall i | 0 <= i < |bs| :: bs[i].start < bs[i].end
    requires b in Selected(bs, equipment, from, to) && c in Selected(bs, equipment, from, to) && b != c
    ensures b.start < b.end && c.start < c.end && !Overlaps(b.start, b.end, c.start, c.end)
  {
    SelectedIff(bs, equipment, from, to, b);
    SelectedIff(bs, equipment, from, to, c);
    var k :| 0 <= k < |bs| && bs[k] == b;
    var l :| 0 <= l < |bs| && bs[l] == c;
    assert if k < l then Disjoint(bs[k], bs[l]) else Disjoint(bs[l], bs[k]);
  }

  // ----- the service over its tables -----

  class BookingService {
    var clock: Time
    var equipment: map<Id, Equipment>
    var bookings: seq<Booking>

    function Snapshot(): State
      reads this
    {
      State(clock, equipment, bookings)
    }

    constructor (now: Time)
      ensures Snapshot() == State(now, map[], [])
    {
      clock, equipment, bookings := now, map[], [];
    }

    method CreateBooking(user: User, item: Id, start: Time, end: Time) returns (r: Outcome<Id, Error>)
      modifies this`bookings
      ensures match Create(old(Snapshot()), user, item, start, end)
              case Ok(after) => r == Ok(|old(bookings)|) && Snapshot() == after
              case Err(error) => r == Err(error) && Snapshot() == old(Snapshot())
    {
      if item !in equipment { return Err(EquipmentNotFound); }
      var e := equipment[item];
      var broken := AssertRules(clock, user, e, start, end);
      if broken.Some? { return Err(broken.value); }
      var booking := Booking(item, user.id, start, end, if e.requiresApproval then Pending else Approved, None, None, None);
      if !e.requiresApproval {
        booking := booking.(decidedAt := Some(clock));
      }
      if start >= end { return Err(EmptyPeriod); }
      if booking.status == Approved && Taken(bookings, item, start, end) { return Err(Overlap); }
      r := Ok(|bookings|);
      bookings := bookings + [booking];
    }

    /** Writes the status first and lets the constraint judge the written row; a
        conflict rolls the write back. */
    method Decision(user: User, id: Id, target: Status, note: Option<string>) returns (r: Outcome<(), Error>)
      modifies this`bookings
      ensures match Decide(old(Snapshot()), user, id, target, note)
              case Ok(after) => r == Ok(()) && Snapshot() == after
              case Err(error) => r == Err(error) && Snapshot() == old(Snapshot())
    {
      if id >= |bookings| { return Err(BookingNotFound); }
      var booking := bookings[id];
      var actor := ActorFor(Snapshot(), user, booking);
      if actor == None { return Err(BookingNotFound); }
      if (booking.status, target) !in TRANSITIONS { return Err(InvalidTransition); }
      if actor.value !in TRANSITIONS[(booking.status, target)] { return Err(WrongActor); }
      if target == Cancelled && booking.status in {Pending, Approved} {
        if booking.start <= clock { return Err(AlreadyStarted); }
      }
      if target == Completed {
        if booking.end > clock { return Err(InvalidTransition); }
      }
      var before := bookings;
      booking := booking.(status := target);
      if actor.value == Approver {
        booking := booking.(decidedBy := Some(user.id), decidedAt := Some(clock), note := note);
      }
      bookings := bookings[id := booking];
      if target == Approved {
        WrittenRowIsJudgedAlike(before, id, booking);
        if TakenByOther(bookings, id) {
          bookings := before;
          return Err(Overlap);
        }
      }
      r := Ok(());
    }

    method Approve(user: User, id: Id, note: Option<string>) returns (r: Outcome<(), Error>)
      modifies this`bookings
      ensures r.Ok? ==> id < |old(bookings)| && old(bookings)[id].status == Pending && old(bookings)[id].user != user.id
      ensures Snapshot() == Apply(old(Snapshot()), Judge(user, id, Approved, note))
    {
      r := Decision(user, id, Approved, note);
    }

    method Reject(user: User, id: Id, note: Option<string>) returns (r: Outcome<(), Error>)
      modifies this`bookings
      ensures r.Ok? ==> id < |old(bookings)| && old(bookings)[id].status == Pending && old(bookings)[id].user != user.id
      ensures Snapshot() == Apply(old(Snapshot()), Judge(user, id, Rejected, note))
    {
      r := Decision(user, id, Rejected, note);
    }

    method Cancel(user: User, id: Id) returns (r: Outcome<(), Error>)
      modifies this`bookings
      ensures r.Ok? ==> id < |old(bookings)| && clock < old(bookings)[id].start
      ensures Snapshot() == Apply(old(Snapshot()), Judge(user, id, Cancelled, None))
    {
      r := Decision(user, id, Cancelled, None);
    }

    method Complete(user: User, id: Id) returns (r: Outcome<(), Error>)
      modifies this`bookings
      ensures r.Ok? ==> id < |old(bookings)| && old(bookings)[id].end <= clock
      ensures Snapshot() == Apply(old(Snapshot()), Judge(user, id, Completed, None))
    {
      r := Decision(user, id, Completed, None);
    }

    /** `rows` is the query's answer; a window that ends before it starts is refused. */
    method Availability(user: User, item: Id, from: Time, to: Time, rows: seq<Booking>)
      returns (r: Outcome<seq<Slot>, Error>)
      requires Answers(rows, Snapshot(), item, from, to)
      ensures item !in equipment ==> r == Err(EquipmentNotFound)
      ensures item in equipment && from > to ==> r == Err(EmptyPeriod)
      ensures item in equipment && from <= to ==> (r.Ok? && |r.value| == |rows|
                && forall i | 0 <= i < |rows| ::
                     r.value[i] == Slot(rows[i].start, rows[i].end, rows[i].user == user.id))
    {
      if item !in equipment { return Err(EquipmentNotFound); }
      if from > to { return Err(EmptyPeriod); }
      var busy := [];
      for k := 0 to |rows|
        invariant |busy| == k
        invariant forall i | 0 <= i < k :: busy[i] == Slot(rows[i].start, rows[i].end, rows[i].user == user.id)
      {
        var booking := rows[k];
        busy := busy + [Slot(booking.start, booking.end, booking.user == user.id)];
      }
      r := Ok(busy);
    }
  }

  /** Whether an approved row other than `id` overlaps row `id`. */
  predicate TakenByOther(bookings: seq<Booking>, id: Id)
    requires id < |bookings|
  {
    exists i | 0 <= i < |bookings| :: i != id
      && bookings[i].status == Approved && bookings[i].equipment == bookings[id].equipment
      && Overlaps(bookings[i].start, bookings[i].end, bookings[id].start, bookings[id].end)
  }

  /** The constraint answers the same about the written row as about the row to come. */
  lemma WrittenRowIsJudgedAlike(before: seq<Booking>, id: Id, b: Booking)
    requires id < |before| && before[id].status != Approved
    ensures TakenByOther(before[id := b], id) <==> Taken(before, b.equipment, b.start, b.end)
  {
    var after := before[id := b];
    if i :| 0 <= i < |before| && before[i].status == Approved && before[i].equipment == b.equipment
            && Overlaps(before[i].start, before[i].end, b.start, b.end) {
      assert after[i] == before[i];
    }
  }
}
