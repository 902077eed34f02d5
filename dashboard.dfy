/** `DashboardPage`: the list of bookings still in progress, narrowed by a
    search box and ordered by when they take place, with the admin's return
    and delete actions. */
module Dashboard {
  import opened Types
  import opened Seqs
  import opened Text
  import opened Sorting
  import opened BookingsProvider

  function ActiveTest(): Booking -> bool {
    (b: Booking) => IsActive(b.status)
  }

  /** The search filter: an empty query keeps everything; otherwise the
      lower-cased query must occur in the lower-cased teacher name, in some
      lower-cased equipment item, or in the lower-cased classroom. `lower`
      stands for `toLowerCase`. */
  function MatchesQuery(b: Booking, query: string, lower: string -> string): (m: bool)
    ensures query == "" ==> m
    ensures query != "" ==> (m <==>
      || Contains(lower(b.teacherName), lower(query))
      || (exists eq :: eq in b.equipment && Contains(lower(eq), lower(query)))
      || Contains(lower(b.classroom), lower(query)))
  {
    var q := lower(query);
    IncludesAt(lower(b.teacherName), q);
    IncludesAt(lower(b.classroom), q);
    forall eq | eq in b.equipment ensures Includes(lower(eq), q) <==> Contains(lower(eq), q) {
      IncludesAt(lower(eq), q);
    }
    query == "" ||
      Includes(lower(b.teacherName), q)
        || (exists eq :: eq in b.equipment && Includes(lower(eq), q))
        || Includes(lower(b.classroom), q)
  }

  /** Both filters of the list pass `b`. */
  predicate Shown(b: Booking, query: string, lower: string -> string) {
    IsActive(b.status) && MatchesQuery(b, query, lower)
  }

  function QueryTest(query: string, lower: string -> string): Booking -> bool {
    (b: Booking) => MatchesQuery(b, query, lower)
  }

  /** The comparator: later event first (`time` stands for
      `new Date(bookingDate).getTime()`), then the higher period first. */
  function ByEventTime(time: string -> int): Booking -> Rank {
    (b: Booking) => Rank(time(b.bookingDate), b.period)
  }

  /** `activeBookings`: a sorted copy of the active bookings that match the query. */
  function ActiveBookings(bookings: seq<Booking>, query: string, lower: string -> string, time: string -> int)
    : (r: seq<Booking>)
    ensures forall b :: b in r ==> IsActive(b.status)
    ensures forall b :: b in r <==> b in bookings && Shown(b, query, lower)
    ensures forall b :: multiset(r)[b] == if Shown(b, query, lower) then multiset(bookings)[b] else 0
    ensures Descending(r, ByEventTime(time))
  {
    var active := Filter(bookings, ActiveTest());
    var matching := Filter(active, QueryTest(query, lower));
    var r := SortDescending(matching, ByEventTime(time));
    SameMembers(r, matching);
    r
  }

  /** Sequences with the same multiset have the same members. */
  lemma SameMembers(a: seq<Booking>, b: seq<Booking>)
    requires multiset(a) == multiset(b)
    ensures forall x :: x in a <==> x in b
  {
    forall x ensures x in a <==> x in b {
      assert x in a <==> x in multiset(a);
      assert x in b <==> x in multiset(b);
    }
  }

  /** The list is a sub-multiset of the bookings, ordered by event time,
      latest first, and by period, highest first, among bookings at the same
      time. */
  lemma DashboardOrder(bookings: seq<Booking>, query: string, lower: string -> string, time: string -> int)
    ensures var r := ActiveBookings(bookings, query, lower, time);
      && multiset(r) <= multiset(bookings)
      && forall i, j :: 0 <= i < j < |r| ==>
        time(r[i].bookingDate) > time(r[j].bookingDate)
          || (time(r[i].bookingDate) == time(r[j].bookingDate) && r[i].period >= r[j].period)
  {
    var r := ActiveBookings(bookings, query, lower, time);
    forall i, j | 0 <= i < j < |r|
      ensures time(r[i].bookingDate) > time(r[j].bookingDate)
          || (time(r[i].bookingDate) == time(r[j].bookingDate) && r[i].period >= r[j].period)
    {
      assert AtMost(ByEventTime(time)(r[j]), ByEventTime(time)(r[i]));
    }
  }

  /** An empty search keeps every active booking, as many times as it occurs. */
  lemma EmptyQueryKeepsActive(bookings: seq<Booking>, lower: string -> string, time: string -> int)
    ensures multiset(ActiveBookings(bookings, "", lower, time)) == multiset(Filter(bookings, ActiveTest()))
  {
    var active := Filter(bookings, ActiveTest());
    FilterKeepsAll(active, QueryTest("", lower));
  }

  /** A booking marked returned or cancelled, by either dashboard action or by
      the grid's cancel, leaves the list. */
  lemma FinishedLeavesDashboard(bookings: seq<Booking>, id: int, status: Status, query: string,
                                lower: string -> string, time: string -> int)
    requires !IsActive(status)
    ensures forall b :: b in ActiveBookings(WithStatus(bookings, id, status), query, lower, time) ==> b.id != id
  {
    var updated := WithStatus(bookings, id, status);
    forall b | b in ActiveBookings(updated, query, lower, time) ensures b.id != id {
      var i :| 0 <= i < |updated| && updated[i] == b;
      assert updated[i].(status := bookings[i].status) == bookings[i];
    }
  }

  /** `user?.role === 'admin'`: the return and delete buttons are shown only
      to a signed-in admin, never to a teacher or to nobody. */
  function AdminActionsShown(user: Option<User>): (shown: bool)
    ensures shown ==> user.Some? && user.value.role == Admin
    ensures user.None? ==> !shown
    ensures user.Some? && user.value.role == Teacher ==> !shown
    ensures user.Some? && user.value.role == Admin ==> shown
  {
    user.Some? && user.value.role == Admin
  }

  /** What a dashboard action ended in. */
  datatype ActionOutcome = NotConfirmed | ActionDone | ActionError

  /** `handleReturn(bookingId)`: a confirmed return requests `Returned`. */
  method HandleReturn(store: Store, bookingId: int, confirmed: bool, accepted: bool, refresh: Listing)
    returns (outcome: ActionOutcome, ghost pending: seq<Booking>)
    modifies store
    ensures !confirmed ==> outcome == NotConfirmed && store.bookings == old(store.bookings)
    ensures confirmed ==> (outcome == ActionDone <==> accepted) && outcome != NotConfirmed
    ensures confirmed && !accepted ==> store.bookings == old(store.bookings)
    ensures confirmed && accepted && refresh.ListFailed? ==>
      store.bookings == WithStatus(old(store.bookings), bookingId, Returned)
    ensures confirmed && accepted && refresh.Listed? ==> store.bookings == Fetched(refresh.data, store.instant)
    ensures pending == if confirmed then WithStatus(old(store.bookings), bookingId, Returned) else old(store.bookings)
    ensures store.loading == old(store.loading)
  {
    pending := store.bookings;
    if !confirmed {
      return NotConfirmed, pending;
    }
    var ok;
    ok, pending := store.UpdateBookingStatus(bookingId, Returned, accepted, refresh);
    outcome := if ok then ActionDone else ActionError;
  }

  /** `handleDelete(bookingId)`: a confirmed delete requests `Cancelled`; the
      booking stays in the list with its new status. */
  method HandleDelete(store: Store, bookingId: int, confirmed: bool, accepted: bool, refresh: Listing)
    returns (outcome: ActionOutcome, ghost pending: seq<Booking>)
    modifies store
    ensures !confirmed ==> outcome == NotConfirmed && store.bookings == old(store.bookings)
    ensures confirmed ==> (outcome == ActionDone <==> accepted) && outcome != NotConfirmed
    ensures confirmed && !accepted ==> store.bookings == old(store.bookings)
    ensures confirmed && accepted && refresh.ListFailed? ==>
      store.bookings == WithStatus(old(store.bookings), bookingId, Cancelled)
    ensures confirmed && accepted && refresh.ListFailed? ==> |store.bookings| == |old(store.bookings)|
    ensures confirmed && accepted && refresh.Listed? ==> store.bookings == Fetched(refresh.data, store.instant)
    ensures pending == if confirmed then WithStatus(old(store.bookings), bookingId, Cancelled) else old(store.bookings)
    ensures store.loading == old(store.loading)
  {
    pending := store.bookings;
    if !confirmed {
      return NotConfirmed, pending;
    }
    var ok;
    ok, pending := store.UpdateBookingStatus(bookingId, Cancelled, accepted, refresh);
    outcome := if ok then ActionDone else ActionError;
  }
}
