/** The two database tables the booking routes share, TimeSlot and
    Reservation, and the queries over them that more than one route issues:
    the reservations attached to a slot, the CONFIRMED ones among them, and
    the ids of the slots whose start lies in a time window, ascending by start. */
module Records {
  import opened Common
  import Ordering

  /** A bookable interval.  Instants are ms since the epoch (UTC); duration is
      in minutes. */
  datatype TimeSlot = TimeSlot(
    startTime: int,
    endTime: int,
    isAvailable: bool,
    maxPatients: int,
    isFirstVisit: bool,
    duration: int)

  datatype ReservationStatus = Confirmed | Cancelled | Completed

  /** A booking of one patient (by database key) on one slot.  visitStatus is
      kept as the stored text, since the listing screens check it. */
  datatype Reservation = Reservation(
    timeSlotId: nat,
    patientKey: nat,
    isFirstVisit: bool,
    status: ReservationStatus,
    visitStatus: string)

  /** The slot shapes the routes produce: 15 or 30 minutes, the end instant
      agreeing with the duration. */
  predicate WellFormedSlot(s: TimeSlot)
  {
    (s.duration == 15 || s.duration == 30)
    && s.endTime == s.startTime + s.duration * MS_PER_MINUTE
  }

  /** Ids of the reservations, of any status, attached to a slot. */
  function ReservationsOn(reservations: map<nat, Reservation>, slotId: nat): (ids: set<nat>)
    ensures forall r :: r in ids <==> r in reservations && reservations[r].timeSlotId == slotId
  {
    set r | r in reservations.Keys && reservations[r].timeSlotId == slotId
  }

  predicate HasReservations(reservations: map<nat, Reservation>, slotId: nat)
  {
    ReservationsOn(reservations, slotId) != {}
  }

  /** Ids of the CONFIRMED reservations on a slot. */
  function ConfirmedOn(reservations: map<nat, Reservation>, slotId: nat): (ids: set<nat>)
    ensures ids <= ReservationsOn(reservations, slotId)
    ensures forall r :: r in ids <==>
      r in reservations && reservations[r].timeSlotId == slotId && reservations[r].status == Confirmed
  {
    set r | r in reservations.Keys && reservations[r].timeSlotId == slotId
                                   && reservations[r].status == Confirmed
  }

  function ConfirmedCount(reservations: map<nat, Reservation>, slotId: nat): nat
  {
    |ConfirmedOn(reservations, slotId)|
  }

  /** The startTime column, as the sort key of a query ordered by startTime. */
  function StartKeys(slots: map<nat, TimeSlot>): (key: map<nat, int>)
    ensures key.Keys == slots.Keys
    ensures forall id :: id in slots ==> key[id] == slots[id].startTime
  {
    map id | id in slots.Keys :: slots[id].startTime
  }

  /** Ids of the slots whose start lies in [lo, hi). */
  function IdsStartingIn(slots: map<nat, TimeSlot>, lo: int, hi: int): (ids: set<nat>)
    ensures forall id :: id in ids <==> id in slots && lo <= slots[id].startTime < hi
  {
    set id | id in slots.Keys && lo <= slots[id].startTime < hi
  }

  /** `findMany({ where: { startTime: { gte: lo, lt: hi } }, orderBy: { startTime: 'asc' } })`:
      every slot starting in [lo, hi) exactly once, ascending by start. */
  function Listing(slots: map<nat, TimeSlot>, lo: int, hi: int): (ids: seq<nat>)
    ensures Ordering.Distinct(ids)
    ensures forall i :: 0 <= i < |ids| ==> ids[i] in slots && lo <= slots[ids[i]].startTime < hi
    ensures forall id :: id in slots && lo <= slots[id].startTime < hi ==> id in ids
    ensures forall i, j :: 0 <= i < j < |ids| ==> slots[ids[i]].startTime <= slots[ids[j]].startTime
  {
    var key := StartKeys(slots);
    var s := Ordering.SortByKey(IdsStartingIn(slots, lo, hi), key);
    assert forall i, j :: 0 <= i < j < |s| ==> key[s[i]] <= key[s[j]];
    s
  }
}
