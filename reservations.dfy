/** The reservation engine: the reservations route (slot query with capacity
    annotation, booking, cancellation) and the patient's upcoming-reservation
    list.  The Reservation table is a class holding a map from row id to row;
    the TimeSlot table, which these handlers only read, is passed in as a map. */
module Reservations {
  import opened Common
  import opened Calendar
  import opened Records
  import Ordering
  import Slots

  datatype ReservationError =
    | Unauthorized          // 401: no login session
    | NotRegistered         // 403: the session has no patient record
    | PatientNotFound       // 404: the same, on the cancel and list routes
    | MissingDate
    | MissingTimeSlotId
    | SlotNotFound
    | SlotClosed
    | SlotFull
    | FirstVisitNeedsThirty
    | FollowUpNeedsFifteen
    | AlreadyBooked
    | MissingReservationId
    | ReservationNotFound
    | NotOwner
    | TooLateToCancel
    | SlotMissing           // 500: the reservation's slot row is gone

  /** The visit status a new row receives from the database default. */
  const INITIAL_VISIT_STATUS: string := "WAITING"

  /** A slot as the query returns it: its columns, the number of CONFIRMED
      reservations on it, and whether one more fits. */
  datatype AvailableSlot = AvailableSlot(
    id: nat,
    startTime: int,
    endTime: int,
    isAvailable: bool,
    maxPatients: int,
    currentPatients: nat,
    isFirstVisit: bool,
    duration: int)

  /** Every reservation refers to a slot that exists.  Combine deletes only a
      slot without reservations and split deletes none, so the slot routes
      keep this. */
  predicate SlotsReferenced(slots: map<nat, TimeSlot>, reservations: map<nat, Reservation>)
  {
    forall r :: r in reservations ==> reservations[r].timeSlotId in slots
  }

  /** Combine deletes only a neighbour without reservations, so no
      reservation loses its slot. */
  lemma CombineKeepsReferences(slots: map<nat, TimeSlot>, reservations: map<nat, Reservation>,
                               id: nat, next: nat, maxPatients: Option<int>)
    requires SlotsReferenced(slots, reservations)
    requires id in slots && next in slots && id != next && !HasReservations(reservations, next)
    ensures SlotsReferenced(Slots.Merged(slots, id, next, maxPatients), reservations)
  {
    forall r | r in reservations
      ensures reservations[r].timeSlotId in Slots.Merged(slots, id, next, maxPatients)
    {
      assert r !in ReservationsOn(reservations, next);
    }
  }

  /** Split only adds a row, so no reservation loses its slot. */
  lemma SplitKeepsReferences(slots: map<nat, TimeSlot>, reservations: map<nat, Reservation>,
                             id: nat, newId: nat)
    requires SlotsReferenced(slots, reservations)
    requires id in slots && newId !in slots
    ensures SlotsReferenced(Slots.SplitResult(slots, id, newId), reservations)
  {
  }

  /** Duration a visit type books: 30 minutes for a first visit, 15 for a
      follow-up. */
  function VisitDuration(isFirstVisit: bool): (d: int)
    ensures d == 15 || d == 30
  {
    if isFirstVisit then 30 else 15
  }

  /** Does the patient already hold a CONFIRMED reservation on the slot? */
  predicate HoldsConfirmed(reservations: map<nat, Reservation>, patientKey: nat, slotId: nat)
  {
    exists r :: r in reservations && reservations[r].patientKey == patientKey
      && reservations[r].timeSlotId == slotId && reservations[r].status == Confirmed
  }

  /** The slot named by the request exists, is open and has a free place:
      the first four booking checks pass. */
  predicate HasRoom(slots: map<nat, TimeSlot>, reservations: map<nat, Reservation>, timeSlotId: Option<nat>)
  {
    && timeSlotId.Some? && timeSlotId.value in slots
    && slots[timeSlotId.value].isAvailable
    && ConfirmedCount(reservations, timeSlotId.value) < slots[timeSlotId.value].maxPatients
  }

  /** The booking checks of POST /api/reservations, after the session checks,
      in the order the handler makes them; None when all pass. */
  function CreateRejection(slots: map<nat, TimeSlot>, reservations: map<nat, Reservation>,
                           patientKey: nat, timeSlotId: Option<nat>, isFirstVisit: bool): (e: Option<ReservationError>)
    ensures e == Some(MissingTimeSlotId) <==> timeSlotId.None?
    ensures e == Some(SlotNotFound) <==> timeSlotId.Some? && timeSlotId.value !in slots
    ensures e == Some(SlotClosed) <==> (timeSlotId.Some? && timeSlotId.value in slots
      && !slots[timeSlotId.value].isAvailable)
    ensures e == Some(SlotFull) <==> (timeSlotId.Some? && timeSlotId.value in slots
      && slots[timeSlotId.value].isAvailable
      && ConfirmedCount(reservations, timeSlotId.value) >= slots[timeSlotId.value].maxPatients)
    ensures e == Some(FirstVisitNeedsThirty) <==> (HasRoom(slots, reservations, timeSlotId)
      && isFirstVisit && slots[timeSlotId.value].duration != 30)
    ensures e == Some(FollowUpNeedsFifteen) <==> (HasRoom(slots, reservations, timeSlotId)
      && !isFirstVisit && slots[timeSlotId.value].duration != 15)
    ensures e == Some(AlreadyBooked) <==> (HasRoom(slots, reservations, timeSlotId)
      && slots[timeSlotId.value].duration == VisitDuration(isFirstVisit)
      && HoldsConfirmed(reservations, patientKey, timeSlotId.value))
    ensures e.None? <==> (HasRoom(slots, reservations, timeSlotId)
      && slots[timeSlotId.value].duration == VisitDuration(isFirstVisit)
      && !HoldsConfirmed(reservations, patientKey, timeSlotId.value))
    ensures e.Some? ==> e.value in {MissingTimeSlotId, SlotNotFound, SlotClosed, SlotFull,
                                    FirstVisitNeedsThirty, FollowUpNeedsFifteen, AlreadyBooked}
  {
    if timeSlotId.None? then Some(MissingTimeSlotId)
    else if timeSlotId.value !in slots then Some(SlotNotFound)
    else
      var slot := slots[timeSlotId.value];
      if !slot.isAvailable then Some(SlotClosed)
      else if ConfirmedCount(reservations, timeSlotId.value) >= slot.maxPatients then Some(SlotFull)
      else if isFirstVisit && slot.duration != 30 then Some(FirstVisitNeedsThirty)
      else if !isFirstVisit && slot.duration != 15 then Some(FollowUpNeedsFifteen)
      else if HoldsConfirmed(reservations, patientKey, timeSlotId.value) then Some(AlreadyBooked)
      else None
  }

  /** Booking looks at the slot's duration only, never at its own
      isFirstVisit flag: a first visit may book a 30-minute slot marked as a
      follow-up slot, and the other way round. */
  lemma CreateIgnoresSlotVisitType(slots: map<nat, TimeSlot>, reservations: map<nat, Reservation>,
                                   patientKey: nat, slotId: nat, isFirstVisit: bool, flag: bool)
    requires slotId in slots
    ensures CreateRejection(slots[slotId := slots[slotId].(isFirstVisit := flag)], reservations,
                            patientKey, Some(slotId), isFirstVisit)
         == CreateRejection(slots, reservations, patientKey, Some(slotId), isFirstVisit)
  {
  }

  /** Adding a CONFIRMED row under a fresh id raises the count of its slot by
      exactly one and leaves every other slot's count alone. */
  lemma {:induction false} ConfirmedAfterInsert(reservations: map<nat, Reservation>, newId: nat,
                                                row: Reservation, slotId: nat)
    requires newId !in reservations && row.status == Confirmed
    ensures ConfirmedCount(reservations[newId := row], slotId)
         == ConfirmedCount(reservations, slotId) + (if row.timeSlotId == slotId then 1 else 0)
  {
    var before := ConfirmedOn(reservations, slotId);
    var after := ConfirmedOn(reservations[newId := row], slotId);
    if row.timeSlotId == slotId {
      assert after == before + {newId};
    } else {
      assert after == before;
    }
  }

  /** Marking a row CANCELLED lowers the count of its slot by one when it was
      CONFIRMED and leaves every other count alone. */
  lemma {:induction false} ConfirmedAfterCancel(reservations: map<nat, Reservation>, id: nat, slotId: nat)
    requires id in reservations
    ensures var after := reservations[id := reservations[id].(status := Cancelled)];
      ConfirmedCount(after, slotId)
        == ConfirmedCount(reservations, slotId)
           - (if reservations[id].timeSlotId == slotId && reservations[id].status == Confirmed then 1 else 0)
  {
    var after := reservations[id := reservations[id].(status := Cancelled)];
    var before := ConfirmedOn(reservations, slotId);
    if reservations[id].timeSlotId == slotId && reservations[id].status == Confirmed {
      assert before == ConfirmedOn(after, slotId) + {id};
    } else {
      assert ConfirmedOn(after, slotId) == before;
    }
  }

  /** The slots GET /api/reservations selects: starting on the UTC day of
      `date`, open, of the visit type's duration and flagged with that visit
      type. */
  function MatchingSlots(slots: map<nat, TimeSlot>, date: Date, isFirstVisit: bool): (ids: set<nat>)
    requires 1 <= date.month <= 12
    ensures forall id :: id in ids <==> (id in slots
      && LocalMidnightMs(date) <= slots[id].startTime < LocalMidnightMs(date) + MS_PER_DAY
      && slots[id].isAvailable
      && slots[id].duration == VisitDuration(isFirstVisit)
      && slots[id].isFirstVisit == isFirstVisit)
  {
    var lo := LocalMidnightMs(date);
    set id | id in IdsStartingIn(slots, lo, lo + MS_PER_DAY)
      && slots[id].isAvailable
      && slots[id].duration == (if isFirstVisit then 30 else 15)
      && slots[id].isFirstVisit == isFirstVisit
  }

  /** The capacity annotation of one slot. */
  function Annotate(slots: map<nat, TimeSlot>, reservations: map<nat, Reservation>, id: nat): (a: AvailableSlot)
    requires id in slots
    ensures a.id == id && a.startTime == slots[id].startTime && a.endTime == slots[id].endTime
    ensures a.maxPatients == slots[id].maxPatients && a.duration == slots[id].duration
    ensures a.isFirstVisit == slots[id].isFirstVisit
    ensures a.currentPatients == ConfirmedCount(reservations, id)
    ensures a.isAvailable <==> a.currentPatients < a.maxPatients
  {
    var slot := slots[id];
    var confirmed := ConfirmedCount(reservations, id);
    AvailableSlot(id, slot.startTime, slot.endTime, confirmed < slot.maxPatients,
                  slot.maxPatients, confirmed, slot.isFirstVisit, slot.duration)
  }

  /** GET /api/reservations: the matching slots of the day, ascending by
      start, each annotated with its CONFIRMED count and spare capacity. */
  function QueryAvailable(caller: Caller, slots: map<nat, TimeSlot>, reservations: map<nat, Reservation>,
                          date: Option<Date>, isFirstVisit: bool): (r: Result<seq<AvailableSlot>, ReservationError>)
    requires date.Some? ==> ValidDate(date.value)
    ensures caller.NoSession? <==> r == Err(Unauthorized)
    ensures caller.Unregistered? <==> r == Err(NotRegistered)
    ensures r == Err(MissingDate) <==> caller.Registered? && date.None?
    ensures r.Ok? <==> caller.Registered? && date.Some?
    ensures r.Ok? ==>
      var out := r.value;
      && (forall i :: 0 <= i < |out| ==>
            out[i].id in MatchingSlots(slots, date.value, isFirstVisit)
            && out[i] == Annotate(slots, reservations, out[i].id))
      && (forall id :: id in MatchingSlots(slots, date.value, isFirstVisit) ==>
            exists i :: 0 <= i < |out| && out[i].id == id)
      && (forall i, j :: 0 <= i < j < |out| ==> out[i].id != out[j].id && out[i].startTime <= out[j].startTime)
  {
    if caller.NoSession? then Err(Unauthorized)
    else if caller.Unregistered? then Err(NotRegistered)
    else if date.None? then Err(MissingDate)
    else
      var ids := Ordering.SortByKey(MatchingSlots(slots, date.value, isFirstVisit), StartKeys(slots));
      var out := AnnotateAll(slots, reservations, ids);
      AnnotatedListing(slots, reservations, MatchingSlots(slots, date.value, isFirstVisit), ids, out);
      Ok(out)
  }

  /** `.map` of the annotation over a list of slot ids. */
  function AnnotateAll(slots: map<nat, TimeSlot>, reservations: map<nat, Reservation>, ids: seq<nat>)
    : (out: seq<AvailableSlot>)
    requires forall i :: 0 <= i < |ids| ==> ids[i] in slots
    ensures |out| == |ids|
    ensures forall i :: 0 <= i < |ids| ==> out[i] == Annotate(slots, reservations, ids[i])
  {
    seq(|ids|, i requires 0 <= i < |ids| => Annotate(slots, reservations, ids[i]))
  }

  lemma AnnotatedListing(slots: map<nat, TimeSlot>, reservations: map<nat, Reservation>,
                         wanted: set<nat>, ids: seq<nat>, out: seq<AvailableSlot>)
    requires wanted <= slots.Keys
    requires ids == Ordering.SortByKey(wanted, StartKeys(slots))
    requires out == AnnotateAll(slots, reservations, ids)
    ensures forall i :: 0 <= i < |out| ==> out[i].id in wanted && out[i] == Annotate(slots, reservations, out[i].id)
    ensures forall id :: id in wanted ==> exists i :: 0 <= i < |out| && out[i].id == id
    ensures forall i, j :: 0 <= i < j < |out| ==> out[i].id != out[j].id && out[i].startTime <= out[j].startTime
  {
    var key := StartKeys(slots);
    assert forall i, j :: 0 <= i < j < |ids| ==> key[ids[i]] <= key[ids[j]];
    forall id | id in wanted
      ensures exists i :: 0 <= i < |out| && out[i].id == id
    {
      var i :| 0 <= i < |ids| && ids[i] == id;
      assert out[i].id == id;
    }
  }

  /** The reservations GET /api/reservations/patient lists: the caller's own
      CONFIRMED reservations whose slot starts no earlier than 24 hours
      before now. */
  function UpcomingIds(slots: map<nat, TimeSlot>, reservations: map<nat, Reservation>,
                       patientKey: nat, now: int): (ids: set<nat>)
    ensures forall r :: r in ids <==> (r in reservations
      && reservations[r].patientKey == patientKey && reservations[r].status == Confirmed
      && reservations[r].timeSlotId in slots
      && slots[reservations[r].timeSlotId].startTime >= now - MS_PER_DAY)
  {
    set r | r in reservations.Keys && reservations[r].patientKey == patientKey
      && reservations[r].status == Confirmed && reservations[r].timeSlotId in slots
      && slots[reservations[r].timeSlotId].startTime >= now - MS_PER_DAY
  }

  /** Start of the slot of each reservation that has one, as a sort key. */
  function SlotStartKeys(slots: map<nat, TimeSlot>, reservations: map<nat, Reservation>): (key: map<nat, int>)
    ensures forall r :: r in key <==> r in reservations && reservations[r].timeSlotId in slots
    ensures forall r :: r in key ==> key[r] == slots[reservations[r].timeSlotId].startTime
  {
    map r | r in reservations.Keys && reservations[r].timeSlotId in slots
      :: slots[reservations[r].timeSlotId].startTime
  }

  /** GET /api/reservations/patient: the caller's upcoming reservations,
      ascending by slot start. */
  function Upcoming(caller: Caller, slots: map<nat, TimeSlot>, reservations: map<nat, Reservation>,
                    now: int): (r: Result<seq<nat>, ReservationError>)
    ensures caller.NoSession? <==> r == Err(Unauthorized)
    ensures caller.Unregistered? <==> r == Err(PatientNotFound)
    ensures r.Ok? <==> caller.Registered?
    ensures r.Ok? ==>
      var out := r.value;
      && Ordering.Distinct(out)
      && (forall i :: 0 <= i < |out| ==> out[i] in UpcomingIds(slots, reservations, caller.key, now))
      && (forall id :: id in UpcomingIds(slots, reservations, caller.key, now) ==> id in out)
      && (forall i, j :: 0 <= i < j < |out| ==>
            slots[reservations[out[i]].timeSlotId].startTime <= slots[reservations[out[j]].timeSlotId].startTime)
  {
    if caller.NoSession? then Err(Unauthorized)
    else if caller.Unregistered? then Err(PatientNotFound)
    else
      var key := SlotStartKeys(slots, reservations);
      var out := Ordering.SortByKey(UpcomingIds(slots, reservations, caller.key, now), key);
      assert forall i, j :: 0 <= i < j < |out| ==> key[out[i]] <= key[out[j]];
      Ok(out)
  }

  class ReservationBook {
    /** The Reservation table, by row id. */
    var reservations: map<nat, Reservation>
    /** The id the next inserted row receives. */
    var nextId: nat

    ghost predicate Valid()
      reads this
    {
      forall id :: id in reservations ==> id < nextId
    }

    constructor ()
      ensures Valid() && reservations == map[] && nextId == 0
    {
      reservations := map[];
      nextId := 0;
    }

    /** POST /api/reservations.  The LINE notification sent after a booking
        is not modelled: its failure is caught and never changes the answer. */
    method Create(caller: Caller, slots: map<nat, TimeSlot>, timeSlotId: Option<nat>, isFirstVisit: bool)
      returns (r: Result<nat, ReservationError>)
      requires Valid()
      modifies this
      ensures Valid()
      ensures r.Err? ==> reservations == old(reservations) && nextId == old(nextId)
      ensures caller.NoSession? <==> r == Err(Unauthorized)
      ensures caller.Unregistered? <==> r == Err(NotRegistered)
      ensures caller.Registered? ==>
        var rejection := CreateRejection(slots, old(reservations), caller.key, timeSlotId, isFirstVisit);
        && (r.Err? <==> rejection.Some?)
        && (r.Err? ==> r.error == rejection.value)
      ensures r.Ok? ==>
        && caller.Registered? && timeSlotId.Some?
        && r.value == old(nextId) && nextId == old(nextId) + 1
        && reservations == old(reservations)[r.value := Reservation(timeSlotId.value, caller.key, isFirstVisit,
                                                                     Confirmed, INITIAL_VISIT_STATUS)]
        && ConfirmedCount(reservations, timeSlotId.value) <= slots[timeSlotId.value].maxPatients
    {
      if caller.NoSession? {
        return Err(Unauthorized);
      }
      if caller.Unregistered? {
        return Err(NotRegistered);
      }
      if timeSlotId.None? {
        return Err(MissingTimeSlotId);
      }
      var slotId := timeSlotId.value;
      if slotId !in slots {
        return Err(SlotNotFound);
      }
      var timeSlot := slots[slotId];
      if !timeSlot.isAvailable {
        return Err(SlotClosed);
      }
      var confirmed := ConfirmedOn(reservations, slotId);
      if |confirmed| >= timeSlot.maxPatients {
        return Err(SlotFull);
      }
      if isFirstVisit && timeSlot.duration != 30 {
        return Err(FirstVisitNeedsThirty);
      }
      if !isFirstVisit && timeSlot.duration != 15 {
        return Err(FollowUpNeedsFifteen);
      }
      if HoldsConfirmed(reservations, caller.key, slotId) {
        return Err(AlreadyBooked);
      }
      var row := Reservation(slotId, caller.key, isFirstVisit, Confirmed, INITIAL_VISIT_STATUS);
      ConfirmedAfterInsert(reservations, nextId, row, slotId);
      reservations := reservations[nextId := row];
      r := Ok(nextId);
      nextId := nextId + 1;
    }

    /** DELETE /api/reservations?id=...: the owner cancels at least 24 hours
        ahead.  The current status is not looked at, and only the status
        column changes. */
    method Cancel(caller: Caller, slots: map<nat, TimeSlot>, id: Option<nat>, now: int)
      returns (r: Result<(), ReservationError>)
      requires Valid()
      modifies this
      ensures Valid() && nextId == old(nextId)
      ensures r.Err? ==> reservations == old(reservations)
      ensures caller.NoSession? <==> r == Err(Unauthorized)
      ensures caller.Unregistered? <==> r == Err(PatientNotFound)
      ensures r == Err(MissingReservationId) <==> caller.Registered? && id.None?
      ensures r == Err(ReservationNotFound) <==> caller.Registered? && id.Some? && id.value !in old(reservations)
      ensures r == Err(NotOwner) <==> (caller.Registered? && id.Some? && id.value in old(reservations)
        && old(reservations)[id.value].patientKey != caller.key)
      ensures r == Err(SlotMissing) <==> (caller.Registered? && id.Some? && id.value in old(reservations)
        && old(reservations)[id.value].patientKey == caller.key
        && old(reservations)[id.value].timeSlotId !in slots)
      ensures r == Err(TooLateToCancel) <==> (caller.Registered? && id.Some? && id.value in old(reservations)
        && old(reservations)[id.value].patientKey == caller.key
        && old(reservations)[id.value].timeSlotId in slots
        && slots[old(reservations)[id.value].timeSlotId].startTime - now < MS_PER_DAY)
      ensures r.Ok? <==> (caller.Registered? && id.Some? && id.value in old(reservations)
        && old(reservations)[id.value].patientKey == caller.key
        && old(reservations)[id.value].timeSlotId in slots
        && slots[old(reservations)[id.value].timeSlotId].startTime - now >= MS_PER_DAY)
      ensures r.Ok? ==> (id.Some? && id.value in old(reservations)
        && reservations == old(reservations)[id.value := old(reservations)[id.value].(status := Cancelled)])
    {
      if caller.NoSession? {
        return Err(Unauthorized);
      }
      if caller.Unregistered? {
        return Err(PatientNotFound);
      }
      if id.None? {
        return Err(MissingReservationId);
      }
      if id.value !in reservations {
        return Err(ReservationNotFound);
      }
      var reservation := reservations[id.value];
      if reservation.patientKey != caller.key {
        return Err(NotOwner);
      }
      if reservation.timeSlotId !in slots {
        return Err(SlotMissing);
      }
      var difference := slots[reservation.timeSlotId].startTime - now;
      if difference < MS_PER_DAY {
        return Err(TooLateToCancel);
      }
      reservations := reservations[id.value := reservation.(status := Cancelled)];
      r := Ok(());
    }
  }
}
