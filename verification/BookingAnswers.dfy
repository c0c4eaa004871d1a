/** What the booking calls answer and write, in terms of people, items and periods. */
module BookingAnswers {
  import opened Base
  import opened Users
  import opened Bookings

  // ----- deciding -----

  predicate Own(user: User, b: Booking) { b.user == user.id }

  /** Somebody other than the requester who answers for the item: an administrator, its
      custodian, or the coordinator of the department it belongs to. */
  predicate InCharge(s: State, user: User, b: Booking) {
    && b.user != user.id
    && (|| user.role == Admin
        || (&& b.equipment in s.equipment
            && var e := s.equipment[b.equipment];
               || (user.role == Custodian && e.custodian == Some(user.id))
               || (user.role == Coordinator && user.scopeType == Some(DepartmentScope) && user.scopeId.Some?
                   && e.department == user.scopeId)))
  }

  /** The person may bring this booking to this status now. */
  ghost predicate MayBring(s: State, user: User, id: Id, target: Status)
    requires id < |s.bookings|
  {
    var b := s.bookings[id];
    match target
    case Pending => false
    case Approved =>
      b.status == Pending && InCharge(s, user, b) && ApprovedDisjoint(s.bookings[id := b.(status := Approved)])
    case Rejected => b.status == Pending && InCharge(s, user, b)
    case Cancelled =>
      && s.clock < b.start
      && ((Own(user, b) && b.status in {Pending, Approved}) || (InCharge(s, user, b) && b.status == Approved))
    case Completed => b.status == Approved && b.end <= s.clock && (Own(user, b) || InCharge(s, user, b))
  }

  /** Approving keeps the table free of overlaps exactly when no approved row is in the way. */
  lemma ApprovingIsJudged(bs: seq<Booking>, id: Id)
    requires ApprovedDisjoint(bs) && id < |bs| && bs[id].status == Pending
    ensures ApprovedDisjoint(bs[id := bs[id].(status := Approved)]) <==> !Taken(bs, bs[id].equipment, bs[id].start, bs[id].end)
  {
    var b, cs := bs[id], bs[id := bs[id].(status := Approved)];
    if i :| 0 <= i < |bs| && bs[i].status == Approved && bs[i].equipment == b.equipment
            && Overlaps(bs[i].start, bs[i].end, b.start, b.end) {
      assert if i < id then !Disjoint(cs[i], cs[id]) else !Disjoint(cs[id], cs[i]);
    } else {
      forall i, j | 0 <= i < j < |cs| && cs[i].status == cs[j].status == Approved
        ensures Disjoint(cs[i], cs[j])
      {
        if i != id && j != id { assert Disjoint(bs[i], bs[j]); }
      }
    }
  }

  /** Who may decide what, and when, exactly; and to everybody else, as for a number that no
      booking has, there is no such booking. */
  lemma DecidedExactly(s: State, user: User, id: Id, target: Status, note: Option<string>)
    requires Sound(s)
    ensures Decide(s, user, id, target, note).Ok? <==> id < |s.bookings| && MayBring(s, user, id, target)
    ensures Decide(s, user, id, target, note) == Err(BookingNotFound)
       <==> id >= |s.bookings| || !(Own(user, s.bookings[id]) || InCharge(s, user, s.bookings[id]))
  {
    if id < |s.bookings| && s.bookings[id].status == Pending {
      hide ApprovedDisjoint, Taken;
      ApprovingIsJudged(s.bookings, id);
    }
  }

  /** A decision writes one row. An owner's leaves no name on it; anyone else's is signed,
      dated and may carry a note. */
  lemma DecisionsAreSigned(s: State, user: User, id: Id, target: Status, note: Option<string>)
    requires Decide(s, user, id, target, note).Ok?
    ensures id < |s.bookings|
    ensures var b, t := s.bookings[id], Decide(s, user, id, target, note).value;
            && t == s.(bookings := t.bookings) && |t.bookings| == |s.bookings|
            && (forall i | 0 <= i < |s.bookings| && i != id :: t.bookings[i] == s.bookings[i])
            && var c := t.bookings[id];
               && c.status == target && (c.equipment, c.user, c.start, c.end) == (b.equipment, b.user, b.start, b.end)
               && (c.decidedBy, c.decidedAt, c.note) ==
                    if Own(user, b) then (b.decidedBy, b.decidedAt, b.note) else (Some(user.id), Some(s.clock), note)
  {
    hide ApprovedDisjoint, Taken;
  }

  /** What a refusal says is so. */
  lemma RefusedForAReason(s: State, user: User, id: Id, target: Status, note: Option<string>)
    requires Decide(s, user, id, target, note).Err? && Decide(s, user, id, target, note).error != BookingNotFound
    ensures id < |s.bookings|
    ensures var b := s.bookings[id];
            match Decide(s, user, id, target, note).error
            case WrongActor => b.status == Pending && if Own(user, b) then target in {Approved, Rejected} else target == Cancelled
            case AlreadyStarted => target == Cancelled && b.status in {Pending, Approved} && b.start <= s.clock
            case Overlap => target == Approved && b.status == Pending && Taken(s.bookings, b.equipment, b.start, b.end)
            case InvalidTransition =>
              || target == Pending || b.status in {Rejected, Cancelled, Completed}
              || (b.status == Pending && target == Completed) || (b.status == Approved && target in {Approved, Rejected})
              || (b.status == Approved && target == Completed && s.clock < b.end)
            case _ => false
  {
    hide Taken;
  }

  // ----- booking -----

  /** A booking that is accepted is one new row: the person's, for this item and period,
      waiting if the item requires approval and approved at this moment if not. */
  lemma BookingsAreWritten(s: State, user: User, equipment: Id, start: Time, end: Time)
    requires Create(s, user, equipment, start, end).Ok?
    ensures equipment in s.equipment
    ensures var t := Create(s, user, equipment, start, end).value;
            && t == s.(bookings := t.bookings)
            && |t.bookings| == |s.bookings| + 1 && t.bookings[..|s.bookings|] == s.bookings
            && var b := t.bookings[|s.bookings|];
               && (b.equipment, b.user, b.start, b.end) == (equipment, user.id, start, end)
               && b.decidedBy.None? && b.note.None?
               && (s.equipment[equipment].requiresApproval ==> b.status == Pending && b.decidedAt.None?)
               && (!s.equipment[equipment].requiresApproval ==> b.status == Approved && b.decidedAt == Some(s.clock))
  {
    hide Taken;
  }

  /** What a refusal says is so: the item is missing, or the rule named is broken. */
  lemma RefusedByARule(s: State, user: User, equipment: Id, start: Time, end: Time)
    requires Create(s, user, equipment, start, end).Err?
    ensures var error := Create(s, user, equipment, start, end).error;
            if equipment !in s.equipment then error == EquipmentNotFound
            else
              var e := s.equipment[equipment];
              match error
              case EquipmentUnavailable => !e.available
              case StudentsNotAllowed => user.role == Student && !e.studentsAllowed
              case InThePast => start < s.clock
              case TooLong => end > start + e.maxHours * HOUR
              case TooSoon => start < s.clock + e.minLeadHours * HOUR
              case EmptyPeriod => end <= start
              case Overlap => !e.requiresApproval && Taken(s.bookings, equipment, start, end)
              case _ => false
  {
    hide Taken;
  }

  // ----- the limits -----

  /** The equipment form takes one to 336 hours at a time and up to 720 hours of notice. */
  lemma EditsWithinTheForm(s: State, id: Id, to: Equipment)
    ensures var t := Apply(s, EditEquipment(id, to));
            && t == s.(equipment := t.equipment)
            && t.equipment == if 1 <= to.maxHours <= 336 && 0 <= to.minLeadHours <= 720 then s.equipment[id := to] else s.equipment
  {
  }

  /** So no booking that can ever be stored is empty or lasts more than two weeks of 24-hour days,
      in microseconds. */
  lemma TwoWeeksAtMost(s: State, i: nat)
    requires Reachable(s) && i < |s.bookings|
    ensures s.bookings[i].start < s.bookings[i].end <= s.bookings[i].start + 14 * 86_400_000_000
  {
    ReachableIsShort(s);
  }

  /** The hours an item allows and asks for are hours of 3600 seconds. */
  lemma HoursAreHours(s: State, user: User, equipment: Id, start: Time, end: Time)
    requires Create(s, user, equipment, start, end).Ok?
    ensures equipment in s.equipment
    ensures end - start <= s.equipment[equipment].maxHours * 3_600_000_000
    ensures start - s.clock >= s.equipment[equipment].minLeadHours * 3_600_000_000
  {
    hide Taken;
  }
}
