/** The doctor's day schedule: the visit-status cycle a reservation goes
    through on the day, the update the advance button sends, and which slots
    and reservations the schedule lists. */
module ScheduleView {
  import opened Common
  import Records

  /** WAITING, CHECKED_IN and COMPLETED. */
  datatype VisitStatus = Waiting | CheckedIn | Completed

  /** getNextStatus: WAITING, then CHECKED_IN, then COMPLETED, then WAITING
      again. */
  function NextStatus(s: VisitStatus): (r: VisitStatus)
    ensures r != s
  {
    match s
    case Waiting => CheckedIn
    case CheckedIn => Completed
    case Completed => Waiting
  }

  /** The cycle has length exactly three: two steps never return, three do. */
  lemma NextStatusCycle(s: VisitStatus)
    ensures NextStatus(NextStatus(s)) != s
    ensures NextStatus(NextStatus(NextStatus(s))) == s
  {
  }

  /** Every status has exactly one predecessor, so the cycle visits all three. */
  lemma NextStatusIsBijective(a: VisitStatus, b: VisitStatus)
    ensures NextStatus(a) == NextStatus(b) ==> a == b
    ensures exists p :: NextStatus(p) == b
  {
    var p := NextStatus(NextStatus(b));
    NextStatusCycle(b);
    assert NextStatus(p) == b;
  }

  /** The stored text of a status. */
  function StatusName(s: VisitStatus): string
  {
    match s
    case Waiting => "WAITING"
    case CheckedIn => "CHECKED_IN"
    case Completed => "COMPLETED"
  }

  /** The validity test of the listing: a stored text is one of the three
      statuses or is skipped. */
  function ParseVisitStatus(text: string): (r: Option<VisitStatus>)
    ensures r.Some? ==> StatusName(r.value) == text
    ensures r.None? ==> forall s :: StatusName(s) != text
  {
    if text == "WAITING" then Some(Waiting)
    else if text == "CHECKED_IN" then Some(CheckedIn)
    else if text == "COMPLETED" then Some(Completed)
    else None
  }

  lemma ParseStatusName(s: VisitStatus)
    ensures ParseVisitStatus(StatusName(s)) == Some(s)
  {
  }

  /** The PATCH the advance button sends for a reservation. */
  datatype VisitStatusPatch = VisitStatusPatch(reservationId: nat, visitStatus: string)

  /** handleUpdateVisitStatus: the body carries the next status of the one
      shown. */
  function AdvanceRequest(reservationId: nat, current: VisitStatus): (p: VisitStatusPatch)
    ensures p.reservationId == reservationId
    ensures ParseVisitStatus(p.visitStatus) == Some(NextStatus(current))
    ensures ParseVisitStatus(p.visitStatus) != Some(current)
  {
    ParseStatusName(NextStatus(current));
    VisitStatusPatch(reservationId, StatusName(NextStatus(current)))
  }

  /** A reservation as the schedule receives it with its slot. */
  datatype ScheduledReservation = ScheduledReservation(id: nat, status: Records.ReservationStatus, visitStatus: string)

  datatype ScheduledSlot = ScheduledSlot(id: nat, reservations: seq<ScheduledReservation>)

  /** A listed reservation: its 1-based position among the slot's CONFIRMED
      reservations, its id and its status. */
  datatype Entry = Entry(number: nat, reservationId: nat, status: VisitStatus)

  datatype Card = Card(slotId: nat, entries: seq<Entry>)

  /** The CONFIRMED reservations of a slot, in their order. */
  function ConfirmedOf(rs: seq<ScheduledReservation>): (c: seq<ScheduledReservation>)
    ensures |c| <= |rs|
    ensures forall x :: x in c <==> x in rs && x.status == Records.Confirmed
  {
    if rs == [] then []
    else (if rs[0].status == Records.Confirmed then [rs[0]] else []) + ConfirmedOf(rs[1..])
  }

  /** The entries rendered for positions i.. of the CONFIRMED list: one per
      reservation whose status text is valid, numbered by its position in
      the CONFIRMED list (skipped reservations keep their number). */
  function EntriesFrom(c: seq<ScheduledReservation>, i: nat): (es: seq<Entry>)
    requires i <= |c|
    ensures |es| <= |c| - i
    decreases |c| - i
  {
    if i == |c| then []
    else
      var rest := EntriesFrom(c, i + 1);
      match ParseVisitStatus(c[i].visitStatus)
      case None => rest
      case Some(s) => [Entry(i + 1, c[i].id, s)] + rest
  }

  /** Each entry shows the reservation at its number, with that reservation's
      status; every CONFIRMED reservation with a valid status is shown; the
      numbers ascend. */
  lemma {:induction false} EntriesFromMeaning(c: seq<ScheduledReservation>, i: nat)
    requires i <= |c|
    ensures var es := EntriesFrom(c, i);
      && (forall k :: 0 <= k < |es| ==>
            && i < es[k].number <= |c|
            && es[k].reservationId == c[es[k].number - 1].id
            && ParseVisitStatus(c[es[k].number - 1].visitStatus) == Some(es[k].status))
      && (forall j :: i <= j < |c| && ParseVisitStatus(c[j].visitStatus).Some? ==>
            Entry(j + 1, c[j].id, ParseVisitStatus(c[j].visitStatus).value) in es)
      && (forall a, b :: 0 <= a < b < |es| ==> es[a].number < es[b].number)
  {
    EntriesSound(c, i);
    var es := EntriesFrom(c, i);
    forall k | 0 <= k < |es|
      ensures i < es[k].number && ShowsReservation(c, es[k])
    {
      assert es[k] in es;
    }
    EntriesComplete(c, i);
    EntriesOrdered(c, i);
  }

  /** Entry `e` shows, at its number, the CONFIRMED reservation of that
      position with that reservation's status. */
  predicate ShowsReservation(c: seq<ScheduledReservation>, e: Entry)
  {
    && 0 < e.number <= |c|
    && e.reservationId == c[e.number - 1].id
    && ParseVisitStatus(c[e.number - 1].visitStatus) == Some(e.status)
  }

  lemma {:induction false} EntriesSound(c: seq<ScheduledReservation>, i: nat)
    requires i <= |c|
    ensures forall e :: e in EntriesFrom(c, i) ==> i < e.number && ShowsReservation(c, e)
    decreases |c| - i
  {
    if i < |c| {
      EntriesSound(c, i + 1);
    }
  }

  lemma {:induction false} EntriesComplete(c: seq<ScheduledReservation>, i: nat)
    requires i <= |c|
    ensures forall j :: i <= j < |c| && ParseVisitStatus(c[j].visitStatus).Some? ==>
      Entry(j + 1, c[j].id, ParseVisitStatus(c[j].visitStatus).value) in EntriesFrom(c, i)
    decreases |c| - i
  {
    if i < |c| {
      EntriesComplete(c, i + 1);
      var rest := EntriesFrom(c, i + 1);
      var es := EntriesFrom(c, i);
      match ParseVisitStatus(c[i].visitStatus)
      case None =>
        assert es == rest;
      case Some(st) =>
        assert es == [Entry(i + 1, c[i].id, st)] + rest;
    }
  }

  /** Entry numbers strictly ascend. */
  predicate Ascending(es: seq<Entry>)
  {
    forall a, b :: 0 <= a < b < |es| ==> es[a].number < es[b].number
  }

  lemma {:induction false} EntriesOrdered(c: seq<ScheduledReservation>, i: nat)
    requires i <= |c|
    ensures Ascending(EntriesFrom(c, i))
    decreases |c| - i
  {
    if i < |c| {
      EntriesOrdered(c, i + 1);
      EntriesSound(c, i + 1);
      var rest := EntriesFrom(c, i + 1);
      var es := EntriesFrom(c, i);
      match ParseVisitStatus(c[i].visitStatus)
      case None =>
        assert es == rest;
      case Some(st) =>
        assert es == [Entry(i + 1, c[i].id, st)] + rest;
        forall a, b | 0 <= a < b < |es|
          ensures es[a].number < es[b].number
        {
          assert es[b] == rest[b - 1];
          assert rest[b - 1] in rest;
          if a > 0 {
            assert es[a] == rest[a - 1];
          }
        }
    }
  }

  /** The card of a slot. */
  function CardOf(s: ScheduledSlot): Card
  {
    Card(s.id, EntriesFrom(ConfirmedOf(s.reservations), 0))
  }

  /** The schedule: the cards of the slots with at least one CONFIRMED
      reservation; slots without one are not listed. */
  function Listing(slots: seq<ScheduledSlot>): (cards: seq<Card>)
    ensures |cards| <= |slots|
    ensures forall card :: card in cards <==>
      exists s :: s in slots && ConfirmedOf(s.reservations) != [] && card == CardOf(s)
  {
    if slots == [] then []
    else
      var head := if ConfirmedOf(slots[0].reservations) == [] then [] else [CardOf(slots[0])];
      var rest := Listing(slots[1..]);
      assert forall s :: s in slots[1..] ==> s in slots;
      head + rest
  }
}
