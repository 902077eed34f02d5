/** The submit gate of `BookingForm`: validate the form, build the equipment
    list, find the bookings that contend for the same date and period, refuse a
    classroom clash, then an equipment clash, and only then create the booking. */
module BookingForm {
  import opened Types
  import opened Text
  import opened Seqs
  import opened Sanitize
  import opened BookingsProvider

  /** The `period` state, `number | ''`. */
  datatype PeriodField = Unselected | Selected(n: int)

  /** The form's state variables. */
  datatype Form = Form(
    kind: Kind,
    teacherName: string,
    program: string,
    classroom: string,
    period: PeriodField,
    bookingDate: string,
    lessonPlanName: string,
    selectedEquipment: seq<string>,
    otherEquipment: string)

  /** `!period`: true for '' and for 0. */
  predicate PeriodMissing(p: PeriodField) {
    p.Unselected? || p.n == 0
  }

  /** `Number(period)`. */
  function PeriodNumber(p: PeriodField): int {
    if p.Selected? then p.n else 0
  }

  /** The validation test at the top of `handleSubmit`. */
  predicate IsComplete(f: Form) {
    && f.teacherName != "" && f.program != "" && f.classroom != ""
    && !PeriodMissing(f.period) && f.bookingDate != "" && f.lessonPlanName != ""
    && !(|f.selectedEquipment| == 0 && Trim(f.otherEquipment) == "")
  }

  /** `finalEquipmentList`: the checked items, trimmed, then the trimmed "other"
      text when it is not blank. */
  function EffectiveEquipment(f: Form): (r: seq<string>)
    ensures |r| == |f.selectedEquipment| + (if Trim(f.otherEquipment) == "" then 0 else 1)
    ensures forall i :: 0 <= i < |f.selectedEquipment| ==> r[i] == Trim(f.selectedEquipment[i])
    ensures Trim(f.otherEquipment) != "" ==> r[|r| - 1] == Trim(f.otherEquipment)
    ensures forall e :: e in r ==> IsTrimmed(e)
  {
    var other := Trim(f.otherEquipment);
    AllTrimmed(f.selectedEquipment);
    Map(f.selectedEquipment, Trim) + (if other != "" then [other] else [])
  }

  /** Every trimmed item is trimmed. */
  lemma AllTrimmed(items: seq<string>)
    ensures forall e :: e in Map(items, Trim) ==> IsTrimmed(e)
  {
    var trimmed := Map(items, Trim);
    forall e | e in trimmed ensures IsTrimmed(e) {
      var i :| 0 <= i < |trimmed| && trimmed[i] == e;
    }
  }

  /** `s.substring(0, 10)`. */
  function DatePrefix(s: string): (r: string)
    ensures |s| <= 10 ==> r == s
    ensures |s| > 10 ==> |r| == 10 && r <= s
  {
    if |s| <= 10 then s else s[..10]
  }

  /** A booking that holds the chosen date and period. */
  predicate Contends(b: Booking, date: string, period: int) {
    DatePrefix(b.bookingDate) == date && b.period == period && IsActive(b.status)
  }

  function ContendsWith(date: string, period: int): Booking -> bool {
    (b: Booking) => Contends(b, date, period)
  }

  /** `bookingsAtSameTime`. */
  function ContendingSet(bookings: seq<Booking>, date: string, period: int): (r: seq<Booking>)
    ensures forall b :: b in r <==> b in bookings && Contends(b, date, period)
    ensures forall b :: b in r ==> b.status != Returned && b.status != Cancelled
  {
    Filter(bookings, ContendsWith(date, period))
  }

  /** `allBookedEquipmentAtTime`: every equipment string of the contending
      bookings, trimmed, in order. */
  function BookedEquipment(contending: seq<Booking>): (r: seq<string>)
    ensures forall e :: e in r ==> IsTrimmed(e)
  {
    if contending == [] then []
    else Map(contending[0].equipment, Trim) + BookedEquipment(contending[1..])
  }

  /** Every item of every contending booking is in the booked list, trimmed. */
  lemma {:induction false} BookedEquipmentHas(contending: seq<Booking>, b: Booking, x: string)
    requires b in contending && x in b.equipment
    ensures Trim(x) in BookedEquipment(contending)
  {
    if b == contending[0] {
      var i :| 0 <= i < |b.equipment| && b.equipment[i] == x;
      assert Map(b.equipment, Trim)[i] == Trim(x);
    } else {
      assert b in contending[1..];
      BookedEquipmentHas(contending[1..], b, x);
    }
  }

  /** Every entry of the booked list is a trimmed item of a contending booking. */
  lemma {:induction false} BookedEquipmentSource(contending: seq<Booking>, e: string)
    returns (b: Booking, x: string)
    requires e in BookedEquipment(contending)
    ensures b in contending && x in b.equipment && e == Trim(x)
  {
    var head := Map(contending[0].equipment, Trim);
    if e in head {
      var i :| 0 <= i < |head| && head[i] == e;
      b, x := contending[0], contending[0].equipment[i];
    } else {
      b, x := BookedEquipmentSource(contending[1..], e);
    }
  }

  /** `isClassroomConflict`. */
  predicate ClassroomClash(contending: seq<Booking>, classroom: string) {
    exists b :: b in contending && b.classroom == classroom
  }

  /** `isEquipmentConflict`. */
  predicate EquipmentClash(requested: seq<string>, contending: seq<Booking>) {
    exists e :: e in requested && Trim(e) in BookedEquipment(contending)
  }

  /** What the gate decides about a submitted form. */
  datatype Verdict = Incomplete | ClassroomConflict | EquipmentConflict | Admit(request: NewBooking)

  /** The decisions of `handleSubmit`, in the order it takes them. */
  function Evaluate(f: Form, bookings: seq<Booking>): (v: Verdict)
    ensures v == Incomplete <==> !IsComplete(f)
    ensures v == ClassroomConflict <==>
      IsComplete(f) && ClassroomClash(ContendingSet(bookings, f.bookingDate, PeriodNumber(f.period)), f.classroom)
    ensures v == EquipmentConflict <==>
      var contending := ContendingSet(bookings, f.bookingDate, PeriodNumber(f.period));
      IsComplete(f) && !ClassroomClash(contending, f.classroom) && EquipmentClash(EffectiveEquipment(f), contending)
  {
    if !IsComplete(f) then Incomplete
    else
      var period := PeriodNumber(f.period);
      var contending := ContendingSet(bookings, f.bookingDate, period);
      var equipment := EffectiveEquipment(f);
      if ClassroomClash(contending, f.classroom) then ClassroomConflict
      else if EquipmentClash(equipment, contending) then EquipmentConflict
      else Admit(NewBooking(f.kind, f.teacherName, f.program, f.classroom, period,
                            f.bookingDate, f.lessonPlanName, equipment))
  }

  /** An incomplete form stops before any conflict check. */
  lemma IncompleteStopsFirst(f: Form, bookings: seq<Booking>)
    requires !IsComplete(f)
    ensures Evaluate(f, bookings) == Incomplete
  {
  }

  /** A classroom clash is reported whatever the equipment: the classroom check
      comes first. */
  lemma ClassroomClashWins(f: Form, bookings: seq<Booking>, other: Booking)
    requires IsComplete(f)
    requires other in bookings && Contends(other, f.bookingDate, PeriodNumber(f.period))
    requires other.classroom == f.classroom
    ensures Evaluate(f, bookings) == ClassroomConflict
  {
    assert other in ContendingSet(bookings, f.bookingDate, PeriodNumber(f.period));
  }

  /** Without a classroom clash, an equipment conflict is reported exactly when a
      requested item equals, after trimming and with case kept, an item of a
      contending booking. */
  lemma EquipmentConflictExactly(f: Form, bookings: seq<Booking>)
    requires IsComplete(f)
    requires !ClassroomClash(ContendingSet(bookings, f.bookingDate, PeriodNumber(f.period)), f.classroom)
    ensures Evaluate(f, bookings) == EquipmentConflict <==>
      exists e, b, x :: e in EffectiveEquipment(f) && b in bookings
        && Contends(b, f.bookingDate, PeriodNumber(f.period)) && x in b.equipment && Trim(e) == Trim(x)
  {
    var period := PeriodNumber(f.period);
    var contending := ContendingSet(bookings, f.bookingDate, period);
    var equipment := EffectiveEquipment(f);
    assert Evaluate(f, bookings) == EquipmentConflict <==> EquipmentClash(equipment, contending);
    if EquipmentClash(equipment, contending) {
      var e :| e in equipment && Trim(e) in BookedEquipment(contending);
      var b, x := BookedEquipmentSource(contending, Trim(e));
      assert e in EffectiveEquipment(f) && b in bookings && Contends(b, f.bookingDate, period);
    }
    if exists e, b, x :: e in equipment && b in bookings
        && Contends(b, f.bookingDate, period) && x in b.equipment && Trim(e) == Trim(x) {
      var e, b, x :| e in equipment && b in bookings
        && Contends(b, f.bookingDate, period) && x in b.equipment && Trim(e) == Trim(x);
      assert b in contending;
      BookedEquipmentHas(contending, b, x);
    }
  }

  /** Admission happens exactly when the form is complete and neither check
      fires, and the request carries the period as a number and the effective
      equipment list. */
  lemma AdmitExactly(f: Form, bookings: seq<Booking>)
    ensures Evaluate(f, bookings).Admit? <==>
      var contending := ContendingSet(bookings, f.bookingDate, PeriodNumber(f.period));
      IsComplete(f) && !ClassroomClash(contending, f.classroom)
        && !EquipmentClash(EffectiveEquipment(f), contending)
    ensures Evaluate(f, bookings).Admit? ==>
      var request := Evaluate(f, bookings).request;
      request.period == f.period.n && request.period != 0 && request.equipment == EffectiveEquipment(f)
        && request.classroom == f.classroom && request.bookingDate == f.bookingDate
        && request.kind == f.kind && request.teacherName == f.teacherName && request.program == f.program
        && request.lessonPlanName == f.lessonPlanName
  {
  }

  /** No two active bookings of one date prefix and period share a classroom or
      a trimmed equipment string. */
  ghost predicate SlotsExclusive(list: seq<Booking>) {
    forall i, j :: 0 <= i < j < |list| && SameSlot(list[i], list[j]) ==>
      list[i].classroom != list[j].classroom && !ShareEquipment(list[i], list[j])
  }

  predicate SameSlot(a: Booking, b: Booking) {
    IsActive(a.status) && IsActive(b.status) && a.period == b.period
      && DatePrefix(a.bookingDate) == DatePrefix(b.bookingDate)
  }

  ghost predicate ShareEquipment(a: Booking, b: Booking) {
    exists x, y :: x in a.equipment && y in b.equipment && Trim(x) == Trim(y)
  }

  /** The gate keeps slots exclusive: adding an admitted booking, with an active
      status, to a list whose slots are exclusive gives a list whose slots are
      still exclusive. This needs the form's date to be at most ten characters
      long, as the date input gives it; `substring(0, 10)` of a longer date
      would never equal it. */
  lemma AdmitKeepsSlotsExclusive(f: Form, bookings: seq<Booking>, id: int, status: Status, createdAt: string)
    requires SlotsExclusive(bookings)
    requires Evaluate(f, bookings).Admit?
    requires |f.bookingDate| <= 10
    ensures SlotsExclusive([WithIdentity(Evaluate(f, bookings).request, id, status, createdAt)] + bookings)
  {
    AdmitExactly(f, bookings);
    var nb := WithIdentity(Evaluate(f, bookings).request, id, status, createdAt);
    assert nb.equipment == EffectiveEquipment(f);
    PrependKeepsSlotsExclusive(bookings, nb);
  }

  /** `nb` clashes with no booking of `bookings` that holds the same slot. */
  ghost predicate ClearOfAll(nb: Booking, bookings: seq<Booking>) {
    forall b :: b in bookings && SameSlot(nb, b) ==> nb.classroom != b.classroom && !ShareEquipment(nb, b)
  }

  /** Prepending a booking that passes both checks against its own slot keeps
      the slots exclusive. */
  lemma PrependKeepsSlotsExclusive(bookings: seq<Booking>, nb: Booking)
    requires SlotsExclusive(bookings)
    requires |nb.bookingDate| <= 10
    requires !ClassroomClash(ContendingSet(bookings, nb.bookingDate, nb.period), nb.classroom)
    requires !EquipmentClash(nb.equipment, ContendingSet(bookings, nb.bookingDate, nb.period))
    ensures SlotsExclusive([nb] + bookings)
  {
    forall b | b in bookings && SameSlot(nb, b)
      ensures nb.classroom != b.classroom && !ShareEquipment(nb, b)
    {
      NewcomerClear(bookings, nb, b);
    }
    PrependClear(bookings, nb);
  }

  lemma PrependClear(bookings: seq<Booking>, nb: Booking)
    requires SlotsExclusive(bookings) && ClearOfAll(nb, bookings)
    ensures SlotsExclusive([nb] + bookings)
  {
    var list := [nb] + bookings;
    forall i, j | 0 <= i < j < |list| && SameSlot(list[i], list[j])
      ensures list[i].classroom != list[j].classroom && !ShareEquipment(list[i], list[j])
    {
      assert list[j] == bookings[j - 1];
      if i > 0 {
        assert list[i] == bookings[i - 1];
      }
    }
  }

  /** The prepended booking against one booking of its own slot. */
  lemma NewcomerClear(bookings: seq<Booking>, nb: Booking, b: Booking)
    requires b in bookings && SameSlot(nb, b)
    requires |nb.bookingDate| <= 10
    requires !ClassroomClash(ContendingSet(bookings, nb.bookingDate, nb.period), nb.classroom)
    requires !EquipmentClash(nb.equipment, ContendingSet(bookings, nb.bookingDate, nb.period))
    ensures nb.classroom != b.classroom && !ShareEquipment(nb, b)
  {
    var contending := ContendingSet(bookings, nb.bookingDate, nb.period);
    assert Contends(b, nb.bookingDate, nb.period);
    ClearOf(contending, nb, b);
  }

  /** A booking that passed both checks against `contending` clashes with none
      of its members. */
  lemma ClearOf(contending: seq<Booking>, candidate: Booking, b: Booking)
    requires b in contending
    requires !ClassroomClash(contending, candidate.classroom)
    requires !EquipmentClash(candidate.equipment, contending)
    ensures b.classroom != candidate.classroom && !ShareEquipment(candidate, b)
  {
    if ShareEquipment(candidate, b) {
      var x, y :| x in candidate.equipment && y in b.equipment && Trim(x) == Trim(y);
      BookedEquipmentHas(contending, b, y);
      assert EquipmentClash(candidate.equipment, contending);
    }
  }

  /** Marking a booking returned or cancelled frees its slot at once: the
      booking no longer contends for any date and period. */
  lemma ReleasedLeavesContention(list: seq<Booking>, id: int, status: Status, date: string, period: int)
    requires !IsActive(status)
    ensures forall b :: b in ContendingSet(WithStatus(list, id, status), date, period) ==> b.id != id
  {
    var updated := WithStatus(list, id, status);
    forall b | b in ContendingSet(updated, date, period) ensures b.id != id {
      var i :| 0 <= i < |updated| && updated[i] == b;
      assert updated[i].(status := list[i].status) == list[i];
    }
  }

  /** `handleEquipmentChange`: checking appends the value, unchecking drops
      every copy of it. */
  function ToggleEquipment(previous: seq<string>, value: string, checked: bool): (r: seq<string>)
    ensures checked ==> r == previous + [value]
    ensures !checked ==> value !in r && IsSubsequence(r, previous)
    ensures !checked ==> forall x :: x != value ==> multiset(r)[x] == multiset(previous)[x]
  {
    if checked then previous + [value]
    else
      FilterIsSubsequence(previous, (item: string) => item != value);
      Filter(previous, (item: string) => item != value)
  }

  /** What `handleSubmit` ended in. */
  datatype Outcome = ValidationWarning | ClassroomConflictShown | EquipmentConflictShown | Saved | SaveFailed

  /** `handleSubmit`, with the booking list and `createBooking` of `store`;
      `tempId`, `now` and `response` stand for what `createBooking` meets. The
      list changes only through the one create call, made only on admission
      and with the gate's request; `pending` is the list while that call is in
      flight. */
  method HandleSubmit(f: Form, store: Store, tempId: int, now: string, response: Creation)
    returns (outcome: Outcome, ghost pending: seq<Booking>)
    modifies store
    ensures var verdict := Evaluate(f, old(store.bookings));
      && (verdict == Incomplete <==> outcome == ValidationWarning)
      && (verdict == ClassroomConflict <==> outcome == ClassroomConflictShown)
      && (verdict == EquipmentConflict <==> outcome == EquipmentConflictShown)
      && (verdict.Admit? <==> outcome == Saved || outcome == SaveFailed)
      && (!verdict.Admit? ==> store.bookings == old(store.bookings))
      && (verdict.Admit? && IsFresh(old(store.bookings), tempId) ==>
            store.bookings == if response.Created? then [SanitizeBooking(response.booking)] + old(store.bookings)
                              else old(store.bookings))
    ensures var verdict := Evaluate(f, old(store.bookings));
      verdict.Admit? ==>
        && pending == [Optimistic(verdict.request, tempId, now)] + old(store.bookings)
        && store.bookings == if response.Created? then ReplaceId(pending, tempId, SanitizeBooking(response.booking))
                             else WithoutId(pending, tempId)
    ensures !Evaluate(f, old(store.bookings)).Admit? ==> pending == old(store.bookings)
    ensures outcome == Saved <==> Evaluate(f, old(store.bookings)).Admit? && response.Created?
    ensures store.loading == old(store.loading)
  {
    pending := store.bookings;
    if !IsComplete(f) {
      return ValidationWarning, pending;
    }
    var finalEquipmentList := EffectiveEquipment(f);
    var period := PeriodNumber(f.period);
    var bookingsAtSameTime := ContendingSet(store.bookings, f.bookingDate, period);
    if ClassroomClash(bookingsAtSameTime, f.classroom) {
      return ClassroomConflictShown, pending;
    }
    if EquipmentClash(finalEquipmentList, bookingsAtSameTime) {
      return EquipmentConflictShown, pending;
    }
    var request := NewBooking(f.kind, f.teacherName, f.program, f.classroom, period,
                              f.bookingDate, f.lessonPlanName, finalEquipmentList);
    var ok;
    ok, pending := store.CreateBooking(request, tempId, now, response);
    outcome := if ok then Saved else SaveFailed;
  }
}
