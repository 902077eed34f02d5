/** `BookingsProvider`: the in-memory booking list shared by every page, and the
    four operations that change it. Each mutation applies its change to the list
    at once, calls the server, then keeps the change or undoes it. */
module BookingsProvider {
  import opened Types
  import opened Seqs
  import opened Sorting
  import opened Sanitize

  /** What `api.getBookings()` did: resolved with the stored bookings, or rejected. */
  datatype Listing = Listed(data: seq<RawBooking>) | ListFailed

  /** What `api.createBooking(...)` did: resolved with the stored booking, or rejected. */
  datatype Creation = Created(booking: RawBooking) | CreateFailed

  /** A new booking's first status: an immediate borrow is in use at once, a
      reservation starts out booked. */
  function InitialStatus(kind: Kind): (s: Status)
    ensures s == InUse <==> kind == Borrow
    ensures s == Booked <==> kind != Borrow
    ensures IsActive(s)
  {
    if kind == Borrow then InUse else Booked
  }

  /** The comparator of `fetchBookings`: later `createdAt` first, where `instant`
      reads a timestamp string as milliseconds (`new Date(s).getTime()`). */
  function ByCreatedAt(instant: string -> int): Booking -> Rank {
    (b: Booking) => Rank(instant(b.createdAt), 0)
  }

  /** The list `fetchBookings` stores on success: every received booking
      sanitised, newest first. */
  function Fetched(data: seq<RawBooking>, instant: string -> int): (r: seq<Booking>)
    ensures multiset(r) == multiset(Map(data, SanitizeBooking))
    ensures Descending(r, ByCreatedAt(instant))
  {
    SortDescending(Map(data, SanitizeBooking), ByCreatedAt(instant))
  }

  /** The optimistic record placed in the list while the server call is pending. */
  function Optimistic(request: NewBooking, tempId: int, now: string): (b: Booking)
    ensures b.id == tempId && b.createdAt == now && b.status == InitialStatus(request.kind)
    ensures Request(b) == request
  {
    WithIdentity(request, tempId, InitialStatus(request.kind), now)
  }

  /** The test `b => b.id !== id`. */
  function OtherId(id: int): Booking -> bool {
    (b: Booking) => b.id != id
  }

  /** `list.filter(b => b.id !== id)`. */
  function WithoutId(list: seq<Booking>, id: int): (r: seq<Booking>)
    ensures forall b :: b in r <==> b in list && b.id != id
    ensures forall b: Booking :: b.id != id ==> multiset(r)[b] == multiset(list)[b]
    ensures IsSubsequence(r, list)
  {
    FilterIsSubsequence(list, OtherId(id));
    Filter(list, OtherId(id))
  }

  /** `list.map(b => b.id === id ? replacement : b)`. */
  function ReplaceId(list: seq<Booking>, id: int, replacement: Booking): (r: seq<Booking>)
    ensures |r| == |list|
    ensures forall i :: 0 <= i < |list| && list[i].id != id ==> r[i] == list[i]
    ensures forall i :: 0 <= i < |list| && list[i].id == id ==> r[i] == replacement
  {
    Map(list, (b: Booking) => if b.id == id then replacement else b)
  }

  /** `list.map(b => b.id === id ? { ...b, status } : b)`. */
  function WithStatus(list: seq<Booking>, id: int, status: Status): (r: seq<Booking>)
    ensures |r| == |list|
    ensures forall i :: 0 <= i < |list| ==> r[i].(status := list[i].status) == list[i]
    ensures forall i :: 0 <= i < |list| ==> r[i].status == if list[i].id == id then status else list[i].status
  {
    Map(list, (b: Booking) => if b.id == id then b.(status := status) else b)
  }

  /** No booking of `list` carries `id`. */
  predicate IsFresh(list: seq<Booking>, id: int) {
    forall b :: b in list ==> b.id != id
  }

  /** With a fresh temporary id, removing it after a failed create gives back
      exactly the list from before the call. */
  lemma RevertCreateRestores(list: seq<Booking>, pending: Booking)
    requires IsFresh(list, pending.id)
    ensures WithoutId([pending] + list, pending.id) == list
  {
    var id := pending.id;
    FilterAppend([pending], list, OtherId(id));
    FilterKeepsAll(list, OtherId(id));
  }

  /** With a fresh temporary id, a successful create leaves the server's record
      at the head and the earlier list behind it, untouched. */
  lemma {:induction false} CommitCreateReplacesHead(list: seq<Booking>, pending: Booking, stored: Booking)
    requires IsFresh(list, pending.id)
    ensures ReplaceId([pending] + list, pending.id, stored) == [stored] + list
  {
    var r := ReplaceId([pending] + list, pending.id, stored);
    forall i | 0 <= i < |r| ensures r[i] == ([stored] + list)[i] {
      if i > 0 {
        assert ([pending] + list)[i] == list[i - 1];
        assert list[i - 1] in list;
      }
    }
  }

  /** Setting a status twice keeps only the second one. */
  lemma WithStatusTwice(list: seq<Booking>, id: int, first: Status, second: Status)
    ensures WithStatus(WithStatus(list, id, first), id, second) == WithStatus(list, id, second)
  {
    var a := WithStatus(WithStatus(list, id, first), id, second);
    var b := WithStatus(list, id, second);
    forall i | 0 <= i < |list| ensures a[i] == b[i] {
      assert a[i].(status := list[i].status) == list[i];
      assert b[i].(status := list[i].status) == list[i];
    }
  }

  /** The list the pages read, the `loading` flag, and the timestamp reading
      used to order the list. */
  class Store {
    const instant: string -> int
    var bookings: seq<Booking>
    var loading: bool

    /** `useState<Booking[]>([])` and `useState(true)`. */
    constructor (instant: string -> int)
      ensures this.instant == instant && bookings == [] && loading
    {
      this.instant := instant;
      bookings := [];
      loading := true;
    }

    /** `fetchBookings(isSilent)`: the answer replaces the list; a failure keeps
        it; only a non-silent fetch touches `loading`, which ends up false. */
    method FetchBookings(silent: bool, response: Listing)
      modifies this
      ensures response.Listed? ==> bookings == Fetched(response.data, instant)
      ensures response.ListFailed? ==> bookings == old(bookings)
      ensures loading == if silent then old(loading) else false
    {
      if !silent {
        loading := true;
      }
      match response {
        case Listed(data) =>
          bookings := Fetched(data, instant);
        case ListFailed =>
      }
      if !silent {
        loading := false;
      }
    }

    /** `createBooking(request)` with `Date.now()` as `tempId` and the current
        ISO time as `now`. `pending` is the list while the call is in flight;
        `ok` is false when the error is re-thrown. */
    method CreateBooking(request: NewBooking, tempId: int, now: string, response: Creation)
      returns (ok: bool, ghost pending: seq<Booking>)
      modifies this
      ensures pending == [Optimistic(request, tempId, now)] + old(bookings)
      ensures ok == response.Created?
      ensures ok ==> bookings == ReplaceId(pending, tempId, SanitizeBooking(response.booking))
      ensures !ok ==> bookings == WithoutId(pending, tempId)
      ensures IsFresh(old(bookings), tempId) ==>
        bookings == if ok then [SanitizeBooking(response.booking)] + old(bookings) else old(bookings)
      ensures loading == old(loading)
    {
      ghost var before := bookings;
      var optimistic := Optimistic(request, tempId, now);
      bookings := [optimistic] + bookings;
      pending := bookings;
      match response {
        case Created(stored) =>
          bookings := ReplaceId(bookings, tempId, SanitizeBooking(stored));
          ok := true;
          if IsFresh(before, tempId) {
            CommitCreateReplacesHead(before, optimistic, SanitizeBooking(stored));
          }
        case CreateFailed =>
          bookings := WithoutId(bookings, tempId);
          ok := false;
          if IsFresh(before, tempId) {
            RevertCreateRestores(before, optimistic);
          }
      }
    }

    /** `updateBookingStatus(id, status)`: any status from any status. After the
        server accepts, a silent fetch replaces the list if it succeeds; after
        the server refuses, the snapshot comes back. */
    method UpdateBookingStatus(id: int, status: Status, accepted: bool, refresh: Listing)
      returns (ok: bool, ghost pending: seq<Booking>)
      modifies this
      ensures pending == WithStatus(old(bookings), id, status)
      ensures ok == accepted
      ensures !ok ==> bookings == old(bookings)
      ensures ok && refresh.Listed? ==> bookings == Fetched(refresh.data, instant)
      ensures ok && refresh.ListFailed? ==> bookings == pending
      ensures loading == old(loading)
    {
      var originalBookings := bookings;
      bookings := WithStatus(bookings, id, status);
      pending := bookings;
      if accepted {
        FetchBookings(true, refresh);
        ok := true;
      } else {
        bookings := originalBookings;
        ok := false;
      }
    }

    /** `deleteBooking(id)`: the same pattern, removing the entries with `id`. */
    method DeleteBooking(id: int, accepted: bool, refresh: Listing)
      returns (ok: bool, ghost pending: seq<Booking>)
      modifies this
      ensures pending == WithoutId(old(bookings), id)
      ensures ok == accepted
      ensures !ok ==> bookings == old(bookings)
      ensures ok && refresh.Listed? ==> bookings == Fetched(refresh.data, instant)
      ensures ok && refresh.ListFailed? ==> bookings == pending
      ensures loading == old(loading)
    {
      var originalBookings := bookings;
      bookings := WithoutId(bookings, id);
      pending := bookings;
      if accepted {
        FetchBookings(true, refresh);
        ok := true;
      } else {
        bookings := originalBookings;
        ok := false;
      }
    }
  }
}
