/** The administrator's day view: the capacity badge of each slot, the
    visit-type capacity rule, which controls are offered, and the local list
    of slots that the toggles and the close-all action rewrite once the
    server has accepted the change. */
module DayView {
  import opened Common
  import Records

  datatype ViewReservation = ViewReservation(id: nat, status: Records.ReservationStatus)

  /** A slot as the view holds it, with all its reservations. */
  datatype ViewSlot = ViewSlot(
    id: nat,
    isAvailable: bool,
    maxPatients: int,
    isFirstVisit: bool,
    duration: int,
    reservations: seq<ViewReservation>)

  /** Number of CONFIRMED reservations in a list. */
  function ConfirmedCount(rs: seq<ViewReservation>): (n: nat)
    ensures n <= |rs|
    ensures n == 0 <==> forall i :: 0 <= i < |rs| ==> rs[i].status != Records.Confirmed
  {
    if rs == [] then 0
    else (if rs[0].status == Records.Confirmed then 1 else 0) + ConfirmedCount(rs[1..])
  }

  /** Ids of the CONFIRMED reservations in a list. */
  function ConfirmedIds(rs: seq<ViewReservation>): set<nat>
  {
    set i | 0 <= i < |rs| && rs[i].status == Records.Confirmed :: rs[i].id
  }

  /** On a list without repeated ids, the count is the number of CONFIRMED ids. */
  lemma {:induction false} ConfirmedCountIsConfirmedIds(rs: seq<ViewReservation>)
    requires forall i, j :: 0 <= i < j < |rs| ==> rs[i].id != rs[j].id
    ensures ConfirmedCount(rs) == |ConfirmedIds(rs)|
  {
    if rs != [] {
      var tail := rs[1..];
      ConfirmedCountIsConfirmedIds(tail);
      var head := if rs[0].status == Records.Confirmed then {rs[0].id} else {};
      assert ConfirmedIds(rs) == head + ConfirmedIds(tail) by {
        forall x ensures x in ConfirmedIds(rs) <==> x in head + ConfirmedIds(tail) {
          if x in ConfirmedIds(rs) {
            var i :| 0 <= i < |rs| && rs[i].status == Records.Confirmed && rs[i].id == x;
            if i > 0 {
              assert tail[i - 1] == rs[i];
            }
          }
          if x in ConfirmedIds(tail) {
            var i :| 0 <= i < |tail| && tail[i].status == Records.Confirmed && tail[i].id == x;
            assert rs[i + 1] == tail[i];
          }
        }
      }
      assert rs[0].id !in ConfirmedIds(tail) by {
        forall i | 0 <= i < |tail| ensures tail[i].id != rs[0].id {
          assert tail[i] == rs[i + 1];
        }
      }
    }
  }

  /** The slot's reservations reach the view as a list holding each of them
      once, with its status; the badge's CONFIRMED count is then the count the
      booking route compares with maxPatients. */
  lemma ConfirmedCountAgrees(rs: seq<ViewReservation>, reservations: map<nat, Records.Reservation>, slotId: nat)
    requires forall i, j :: 0 <= i < j < |rs| ==> rs[i].id != rs[j].id
    requires forall i :: 0 <= i < |rs| ==>
      rs[i].id in reservations && rs[i].status == reservations[rs[i].id].status
    requires forall id :: id in Records.ReservationsOn(reservations, slotId) <==>
      exists i :: 0 <= i < |rs| && rs[i].id == id
    ensures ConfirmedCount(rs) == Records.ConfirmedCount(reservations, slotId)
  {
    ConfirmedCountIsConfirmedIds(rs);
    assert ConfirmedIds(rs) == Records.ConfirmedOn(reservations, slotId) by {
      forall x ensures x in ConfirmedIds(rs) <==> x in Records.ConfirmedOn(reservations, slotId) {
        if x in ConfirmedIds(rs) {
          var i :| 0 <= i < |rs| && rs[i].status == Records.Confirmed && rs[i].id == x;
          assert x in Records.ReservationsOn(reservations, slotId);
        }
        if x in Records.ConfirmedOn(reservations, slotId) {
          assert x in Records.ReservationsOn(reservations, slotId);
          var i :| 0 <= i < |rs| && rs[i].id == x;
        }
      }
    }
  }

  const ONE_LEFT: string := "△ あとひとり"
  const TWO_LEFT: string := "○ あとふたり"

  /** Places still free on a slot. */
  function Remaining(slot: ViewSlot): int
  {
    slot.maxPatients - ConfirmedCount(slot.reservations)
  }

  /** getSlotStatus: nothing for a closed or full slot, "one left" for one
      free place and "two left" for two or more. */
  function SlotStatus(slot: ViewSlot): (badge: string)
    ensures badge == "" <==> !slot.isAvailable || Remaining(slot) <= 0
    ensures badge == ONE_LEFT <==> slot.isAvailable && Remaining(slot) == 1
    ensures badge == TWO_LEFT <==> slot.isAvailable && Remaining(slot) >= 2
  {
    if !slot.isAvailable then ""
    else
      var remainingSpots := Remaining(slot);
      if remainingSpots <= 0 then ""
      else if remainingSpots == 1 then ONE_LEFT
      else TWO_LEFT
  }

  /** The text classes: text-green-600, text-yellow-600 and none. */
  datatype Color = Green | Yellow | NoColor

  /** getStatusColor: decided by the first character alone. */
  function StatusColor(badge: string): (c: Color)
    ensures c == Green <==> |badge| > 0 && badge[0] == '○'
    ensures c == Yellow <==> |badge| > 0 && badge[0] == '△'
  {
    if |badge| == 0 then NoColor
    else if badge[0] == '○' then Green
    else if badge[0] == '△' then Yellow
    else NoColor
  }

  /** The badge of a slot is green when two or more places are free, yellow
      when one is, and uncoloured (and not shown) otherwise. */
  lemma BadgeColor(slot: ViewSlot)
    ensures StatusColor(SlotStatus(slot)) == Green <==> slot.isAvailable && Remaining(slot) >= 2
    ensures StatusColor(SlotStatus(slot)) == Yellow <==> slot.isAvailable && Remaining(slot) == 1
    ensures StatusColor(SlotStatus(slot)) == NoColor <==> SlotStatus(slot) == ""
  {
    assert ONE_LEFT[0] == '△' && TWO_LEFT[0] == '○';
  }

  /** The maxPatients sent (and kept locally) when the visit type is
      toggled: 1 for a slot becoming first-visit; for a slot becoming
      follow-up, 2 if it lasts 15 minutes and 1 otherwise. */
  function ToggledMaxPatients(slot: ViewSlot): (m: int)
    ensures m == 1 || m == 2
    ensures !slot.isFirstVisit ==> m == 1
    ensures slot.isFirstVisit ==> (m == 2 <==> slot.duration == 15)
  {
    if !slot.isFirstVisit then 1 else if slot.duration == 15 then 2 else 1
  }

  /** The slot after a visit-type toggle. */
  function WithVisitTypeToggled(slot: ViewSlot): (s: ViewSlot)
    ensures s.isFirstVisit == !slot.isFirstVisit
    ensures s.maxPatients == ToggledMaxPatients(slot)
    ensures s.(isFirstVisit := slot.isFirstVisit, maxPatients := slot.maxPatients) == slot
  {
    slot.(isFirstVisit := !slot.isFirstVisit, maxPatients := ToggledMaxPatients(slot))
  }

  /** Toggling a generated slot (15 minutes, follow-up, two places) to
      first-visit and back restores it; a 30-minute follow-up slot comes
      back with one place. */
  lemma {:induction false} ToggleTwice(slot: ViewSlot)
    requires !slot.isFirstVisit
    ensures WithVisitTypeToggled(WithVisitTypeToggled(slot)).isFirstVisit == slot.isFirstVisit
    ensures slot.duration == 15 && slot.maxPatients == 2 ==>
      WithVisitTypeToggled(WithVisitTypeToggled(slot)) == slot
    ensures slot.duration != 15 ==> WithVisitTypeToggled(WithVisitTypeToggled(slot)).maxPatients == 1
  {
    var once := WithVisitTypeToggled(slot);
    assert once.isFirstVisit && once.duration == slot.duration;
  }

  /** "Combine into 30 minutes" is offered for an unreserved 15-minute slot. */
  predicate OffersCombine(slot: ViewSlot)
  {
    slot.duration == 15 && |slot.reservations| == 0
  }

  /** "Split into 15 minutes" is offered for an unreserved 30-minute slot. */
  predicate OffersSplit(slot: ViewSlot)
  {
    slot.duration == 30 && |slot.reservations| == 0
  }

  /** The visit-type button is disabled while a request runs or when the slot
      has any reservation, of any status. */
  predicate VisitTypeToggleDisabled(processing: bool, slot: ViewSlot)
  {
    processing || |slot.reservations| > 0
  }

  /** A slot offers at most one of combine and split, and neither when it
      has reservations, in which case its visit type cannot be changed
      either. */
  lemma ControlsAreExclusive(processing: bool, slot: ViewSlot)
    ensures !(OffersCombine(slot) && OffersSplit(slot))
    ensures |slot.reservations| > 0 ==>
      !OffersCombine(slot) && !OffersSplit(slot) && VisitTypeToggleDisabled(processing, slot)
    ensures OffersCombine(slot) || OffersSplit(slot) ==>
      (VisitTypeToggleDisabled(processing, slot) <==> processing)
  {
  }

  /** The PATCH bodies the toggles and close-all send. */
  datatype SlotPatch =
    | AvailabilityPatch(slotId: nat, isAvailable: bool)
    | VisitTypePatch(slotId: nat, isFirstVisit: bool, maxPatients: int)

  /** The list with every slot of the given id rewritten by `f`. */
  function MapSlot(slots: seq<ViewSlot>, id: nat, f: ViewSlot -> ViewSlot): (r: seq<ViewSlot>)
    ensures |r| == |slots|
    ensures forall i :: 0 <= i < |slots| ==> r[i] == if slots[i].id == id then f(slots[i]) else slots[i]
  {
    seq(|slots|, i requires 0 <= i < |slots| => if slots[i].id == id then f(slots[i]) else slots[i])
  }

  function FlipAvailability(s: ViewSlot): ViewSlot
  {
    s.(isAvailable := !s.isAvailable)
  }

  /** Flipping the availability of one slot twice gives back the list. */
  lemma {:induction false} ToggleAvailabilityTwice(slots: seq<ViewSlot>, id: nat)
    ensures MapSlot(MapSlot(slots, id, FlipAvailability), id, FlipAvailability) == slots
  {
    var once := MapSlot(slots, id, FlipAvailability);
    var twice := MapSlot(once, id, FlipAvailability);
    forall i | 0 <= i < |slots|
      ensures twice[i] == slots[i]
    {
      assert once[i].id == slots[i].id;
    }
  }

  /** Every slot closed, nothing else changed. */
  function AllClosed(slots: seq<ViewSlot>): (r: seq<ViewSlot>)
    ensures |r| == |slots|
    ensures forall i :: 0 <= i < |slots| ==> r[i] == slots[i].(isAvailable := false)
  {
    seq(|slots|, i requires 0 <= i < |slots| => slots[i].(isAvailable := false))
  }

  function Ids(slots: seq<ViewSlot>): (ids: seq<nat>)
    ensures |ids| == |slots|
    ensures forall i :: 0 <= i < |slots| ==> ids[i] == slots[i].id
  {
    seq(|slots|, i requires 0 <= i < |slots| => slots[i].id)
  }

  /** The slots of one day as the view holds them. */
  class DayView {
    var timeSlots: seq<ViewSlot>

    constructor(slots: seq<ViewSlot>)
      ensures timeSlots == slots
    {
      timeSlots := slots;
    }

    /** handleToggleAvailability: asks the server for the opposite flag and,
        when it accepts (`ok`), flips the flag of that slot only. */
    method ToggleAvailability(slot: ViewSlot, ok: bool) returns (patch: SlotPatch)
      modifies this
      ensures patch == AvailabilityPatch(slot.id, !slot.isAvailable)
      ensures ok ==> timeSlots == MapSlot(old(timeSlots), slot.id, FlipAvailability)
      ensures !ok ==> timeSlots == old(timeSlots)
    {
      patch := AvailabilityPatch(slot.id, !slot.isAvailable);
      if ok {
        timeSlots := MapSlot(timeSlots, slot.id, FlipAvailability);
      }
    }

    /** handleToggleVisitType: asks for the opposite visit type with the
        capacity rule, and on success applies the same rule to that slot
        only. */
    method ToggleVisitType(slot: ViewSlot, ok: bool) returns (patch: SlotPatch)
      modifies this
      ensures patch == VisitTypePatch(slot.id, !slot.isFirstVisit, ToggledMaxPatients(slot))
      ensures ok ==> timeSlots == MapSlot(old(timeSlots), slot.id, WithVisitTypeToggled)
      ensures !ok ==> timeSlots == old(timeSlots)
    {
      patch := VisitTypePatch(slot.id, !slot.isFirstVisit, ToggledMaxPatients(slot));
      if ok {
        timeSlots := MapSlot(timeSlots, slot.id, WithVisitTypeToggled);
      }
    }

    /** handleSetAllClosed: closes the slots one by one in list order, the
        i-th request answered by okResponses[i], and stops at the first
        refusal.  The local flags are cleared only when every request
        succeeded. */
    method SetAllClosed(okResponses: seq<bool>) returns (sent: seq<nat>, succeeded: bool)
      requires |okResponses| == |timeSlots|
      modifies this
      ensures succeeded <==> forall i :: 0 <= i < |okResponses| ==> okResponses[i]
      ensures succeeded ==> sent == Ids(old(timeSlots)) && timeSlots == AllClosed(old(timeSlots))
      ensures !succeeded ==> timeSlots == old(timeSlots)
      ensures !succeeded ==>
        && 0 < |sent| <= |okResponses|
        && sent == Ids(old(timeSlots))[..|sent|]
        && !okResponses[|sent| - 1]
        && forall i :: 0 <= i < |sent| - 1 ==> okResponses[i]
    {
      sent := [];
      succeeded := true;
      for i := 0 to |timeSlots|
        invariant sent == Ids(timeSlots)[..i]
        invariant forall k :: 0 <= k < i ==> okResponses[k]
      {
        sent := sent + [timeSlots[i].id];
        if !okResponses[i] {
          succeeded := false;
          return;
        }
      }
      timeSlots := AllClosed(timeSlots);
    }
  }
}
