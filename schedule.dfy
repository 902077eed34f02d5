/** The schedule grid of `BookingSchedulePage`: which booking, if any, fills
    each classroom/period cell of the chosen day, which classrooms the chosen
    programme shows, and the cancel action of a filled cell. */
module Schedule {
  import opened Types
  import opened Seqs
  import opened BookingsProvider

  /** A cell of the grid. The page keys its map by the string
      `${classroom}-${period}`; the pair stands for that string. */
  datatype Slot = Slot(classroom: string, period: int)

  function SlotOf(b: Booking): Slot {
    Slot(b.classroom, b.period)
  }

  /** A booking shown on `selectedDate`: its date, read as a civil date in
      Asia/Bangkok by `bangkokDate`, is that day, and its status is active. */
  predicate OnDay(b: Booking, selectedDate: string, bangkokDate: string -> string) {
    bangkokDate(b.bookingDate) == selectedDate && IsActive(b.status)
  }

  function OnDayTest(selectedDate: string, bangkokDate: string -> string): Booking -> bool {
    (b: Booking) => OnDay(b, selectedDate, bangkokDate)
  }

  /** The map left by `forEach(b => map.set(key(b), b))` over `s`, starting from
      an empty map: a later write to a key replaces an earlier one. */
  function LastWrites(s: seq<Booking>): (m: map<Slot, Booking>)
    ensures forall k :: k in m ==> SlotOf(m[k]) == k && m[k] in s
  {
    if s == [] then map[]
    else
      var m := LastWrites(s[..|s| - 1])[SlotOf(s[|s| - 1]) := s[|s| - 1]];
      assert forall b :: b in s[..|s| - 1] ==> b in s;
      m
  }

  /** One more write: the map of a longer prefix. */
  lemma LastWritesStep(s: seq<Booking>, i: int)
    requires 0 <= i < |s|
    ensures LastWrites(s[..i + 1]) == LastWrites(s[..i])[SlotOf(s[i]) := s[i]]
  {
    assert s[..i + 1][..i] == s[..i];
  }

  /** A key is in the map exactly when some booking of `s` has that slot. */
  lemma {:induction false} LastWritesDomain(s: seq<Booking>, k: Slot)
    ensures k in LastWrites(s) <==> exists b :: b in s && SlotOf(b) == k
  {
    if s != [] {
      var init := s[..|s| - 1];
      LastWritesDomain(init, k);
      assert s == init + [s[|s| - 1]];
      if exists b :: b in s && SlotOf(b) == k {
        var b :| b in s && SlotOf(b) == k;
        if b != s[|s| - 1] {
          assert b in init;
        }
      }
    }
  }

  /** The entry of a key is the last booking of `s` with that slot. */
  lemma {:induction false} LastWritesLastWins(s: seq<Booking>, i: int)
    requires 0 <= i < |s|
    requires forall j :: i < j < |s| ==> SlotOf(s[j]) != SlotOf(s[i])
    ensures SlotOf(s[i]) in LastWrites(s) && LastWrites(s)[SlotOf(s[i])] == s[i]
  {
    if i < |s| - 1 {
      var init := s[..|s| - 1];
      assert forall j :: i < j < |init| ==> init[j] == s[j];
      LastWritesLastWins(init, i);
    }
  }

  /** `bookingsForDateMap`, as a value. */
  function SlotMap(bookings: seq<Booking>, selectedDate: string, bangkokDate: string -> string): (m: map<Slot, Booking>)
    ensures forall k :: k in m ==> SlotOf(m[k]) == k && m[k] in bookings && OnDay(m[k], selectedDate, bangkokDate)
  {
    LastWrites(Filter(bookings, OnDayTest(selectedDate, bangkokDate)))
  }

  /** `bookingsForDateMap`: a fresh map filled by one pass over the bookings of
      the day, in list order. */
  method BookingsForDateMap(bookings: seq<Booking>, selectedDate: string, bangkokDate: string -> string)
    returns (m: map<Slot, Booking>)
    ensures m == SlotMap(bookings, selectedDate, bangkokDate)
  {
    var shown := Filter(bookings, OnDayTest(selectedDate, bangkokDate));
    m := map[];
    var i := 0;
    while i < |shown|
      invariant 0 <= i <= |shown|
      invariant m == LastWrites(shown[..i])
    {
      LastWritesStep(shown, i);
      m := m[SlotOf(shown[i]) := shown[i]];
      i := i + 1;
    }
    assert shown[..|shown|] == shown;
  }

  /** A cell is filled exactly when some booking of the day has its classroom
      and period. */
  lemma SlotMapDomain(bookings: seq<Booking>, selectedDate: string, bangkokDate: string -> string, k: Slot)
    ensures k in SlotMap(bookings, selectedDate, bangkokDate) <==>
      exists b :: b in bookings && OnDay(b, selectedDate, bangkokDate) && SlotOf(b) == k
  {
    var shown := Filter(bookings, OnDayTest(selectedDate, bangkokDate));
    LastWritesDomain(shown, k);
    if exists b :: b in bookings && OnDay(b, selectedDate, bangkokDate) && SlotOf(b) == k {
      var b :| b in bookings && OnDay(b, selectedDate, bangkokDate) && SlotOf(b) == k;
      assert b in shown;
    }
  }

  /** A booking appended to the list: when it is shown on the day it takes its
      cell, whatever was there, and every other cell stays as it was; when it
      is not shown the map is unchanged. */
  lemma SlotMapAppend(bookings: seq<Booking>, b: Booking, selectedDate: string, bangkokDate: string -> string)
    ensures SlotMap(bookings + [b], selectedDate, bangkokDate) ==
      if OnDay(b, selectedDate, bangkokDate) then SlotMap(bookings, selectedDate, bangkokDate)[SlotOf(b) := b]
      else SlotMap(bookings, selectedDate, bangkokDate)
  {
    var p := OnDayTest(selectedDate, bangkokDate);
    FilterAppend(bookings, [b], p);
    var shown := Filter(bookings, p);
    if OnDay(b, selectedDate, bangkokDate) {
      assert Filter([b], p) == [b];
      assert (shown + [b])[..|shown + [b]| - 1] == shown;
    } else {
      assert Filter([b], p) == [];
      assert shown + [] == shown;
    }
  }

  /** `bookingDetails` is absent: the cell offers an "available" button. */
  predicate Available(m: map<Slot, Booking>, classroom: string, period: int) {
    Slot(classroom, period) !in m
  }

  /** A cell is offered as available exactly when no active booking of the day
      has that classroom and period. */
  lemma AvailableExactly(bookings: seq<Booking>, selectedDate: string, bangkokDate: string -> string,
                         classroom: string, period: int)
    ensures Available(SlotMap(bookings, selectedDate, bangkokDate), classroom, period) <==>
      forall b :: b in bookings && OnDay(b, selectedDate, bangkokDate) ==> b.classroom != classroom || b.period != period
  {
    SlotMapDomain(bookings, selectedDate, bangkokDate, Slot(classroom, period));
  }

  /** The three classroom tables of the grid. */
  datatype ClassTable = ThaiClasses | EnglishClasses | KindergartenClasses

  /** The `classrooms` selection: the two named programmes get their own
      tables, every other value the kindergarten table. */
  function ClassroomsFor(program: string): (t: ClassTable)
    ensures t == ThaiClasses <==> program == "Thai Programme"
    ensures t == EnglishClasses <==> program == "English Programme"
    ensures t == KindergartenClasses <==> program != "Thai Programme" && program != "English Programme"
  {
    if program == "Thai Programme" then ThaiClasses
    else if program == "English Programme" then EnglishClasses
    else KindergartenClasses
  }

  /** What the cancel handler ended in. */
  datatype CancelOutcome = NotConfirmed | CancelDone | CancelError

  /** `handleCancelBooking(bookingId)`: only a confirmed dialog requests a
      change, and the change requested is to `Cancelled`. */
  method HandleCancelBooking(store: Store, bookingId: int, confirmed: bool, accepted: bool, refresh: Listing)
    returns (outcome: CancelOutcome, ghost pending: seq<Booking>)
    modifies store
    ensures !confirmed ==> outcome == NotConfirmed && store.bookings == old(store.bookings)
    ensures confirmed ==> (outcome == CancelDone <==> accepted) && outcome != NotConfirmed
    ensures confirmed && !accepted ==> store.bookings == old(store.bookings)
    ensures confirmed && accepted && refresh.ListFailed? ==>
      store.bookings == WithStatus(old(store.bookings), bookingId, Cancelled)
    ensures confirmed && accepted && refresh.Listed? ==> store.bookings == Fetched(refresh.data, store.instant)
    ensures pending == if confirmed then WithStatus(old(store.bookings), bookingId, Cancelled) else old(store.bookings)
    ensures store.loading == old(store.loading)
  {
    pending := store.bookings;
    if !confirmed {
      return NotConfirmed, pending;
    }
    var ok;
    ok, pending := store.UpdateBookingStatus(bookingId, Cancelled, accepted, refresh);
    outcome := if ok then CancelDone else CancelError;
  }
}
