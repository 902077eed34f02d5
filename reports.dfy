/** `ReportsPage`: the bookings shown, and exported, for a status and an
    inclusive range of days. */
module Reports {
  import opened Types
  import opened Seqs

  /** `selectedStatus`: `None` stands for '' (all statuses). */
  predicate StatusKeeps(b: Booking, selected: Option<Status>) {
    selected.None? || b.status == selected.value
  }

  function StatusTest(selected: Option<Status>): Booking -> bool {
    (b: Booking) => StatusKeeps(b, selected)
  }

  /** The date filter. `day` reads a date string as the UTC midnight it is
      truncated to by `setUTCHours(0, 0, 0, 0)`; '' means the bound is unset. */
  function InRange(b: Booking, startDate: string, endDate: string, day: string -> int): (kept: bool)
    ensures startDate == "" && endDate == "" ==> kept
    ensures startDate != "" && day(b.bookingDate) < day(startDate) ==> !kept
    ensures endDate != "" && day(b.bookingDate) > day(endDate) ==> !kept
    ensures kept <==>
      && (startDate == "" || day(startDate) <= day(b.bookingDate))
      && (endDate == "" || day(b.bookingDate) <= day(endDate))
  {
    if startDate == "" && endDate == "" then true
    else
      var isAfterStart := startDate == "" || day(b.bookingDate) >= day(startDate);
      var isBeforeEnd := endDate == "" || day(b.bookingDate) <= day(endDate);
      isAfterStart && isBeforeEnd
  }

  function RangeTest(startDate: string, endDate: string, day: string -> int): Booking -> bool {
    (b: Booking) => InRange(b, startDate, endDate, day)
  }

  /** `displayedBookings`: the status filter, then the date filter. */
  function Displayed(bookings: seq<Booking>, selected: Option<Status>, startDate: string, endDate: string,
                     day: string -> int): (r: seq<Booking>)
    ensures forall b :: b in r <==>
      b in bookings && StatusKeeps(b, selected) && InRange(b, startDate, endDate, day)
    ensures forall b :: multiset(r)[b] == (if StatusKeeps(b, selected) && InRange(b, startDate, endDate, day)
                                           then multiset(bookings)[b] else 0)
    ensures IsSubsequence(r, bookings)
  {
    FilterFilterIsSubsequence(bookings, StatusTest(selected), RangeTest(startDate, endDate, day));
    Filter(Filter(bookings, StatusTest(selected)), RangeTest(startDate, endDate, day))
  }

  /** No status and no dates: everything is shown, in list order. */
  lemma NoFiltersKeepAll(bookings: seq<Booking>, day: string -> int)
    ensures Displayed(bookings, None, "", "", day) == bookings
  {
    FilterKeepsAll(bookings, StatusTest(None));
    FilterKeepsAll(bookings, RangeTest("", "", day));
  }

  /** A selected status shows exactly the bookings with that status. */
  lemma SelectedStatusExactly(bookings: seq<Booking>, status: Status, day: string -> int)
    ensures forall b :: b in Displayed(bookings, Some(status), "", "", day) <==> b in bookings && b.status == status
  {
  }

  /** The two filters can be applied in either order. */
  lemma FiltersCommute(bookings: seq<Booking>, selected: Option<Status>, startDate: string, endDate: string,
                       day: string -> int)
    ensures Displayed(bookings, selected, startDate, endDate, day) ==
      Filter(Filter(bookings, RangeTest(startDate, endDate, day)), StatusTest(selected))
  {
    FilterCommutes(bookings, StatusTest(selected), RangeTest(startDate, endDate, day));
  }

  /** A start day after the end day shows nothing. */
  lemma EmptyRange(bookings: seq<Booking>, selected: Option<Status>, startDate: string, endDate: string,
                   day: string -> int)
    requires startDate != "" && endDate != "" && day(startDate) > day(endDate)
    ensures Displayed(bookings, selected, startDate, endDate, day) == []
  {
  }

  /** The export button is disabled exactly when no booking passes both filters. */
  function ExportDisabled(bookings: seq<Booking>, selected: Option<Status>, startDate: string, endDate: string,
                          day: string -> int): (disabled: bool)
    ensures disabled <==>
      forall b :: b in bookings ==> !(StatusKeeps(b, selected) && InRange(b, startDate, endDate, day))
  {
    var r := Displayed(bookings, selected, startDate, endDate, day);
    assert r != [] ==> r[0] in r;
    |r| == 0
  }
}
