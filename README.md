# Booking core of the school equipment and classroom reservation app

This project models, in Dafny, the booking logic of a school web application
in which teachers reserve classrooms and borrow equipment for a date and a
teaching period. The logic lives in a handful of React components and one
context provider. Without the markup, it has five parts:

- **The submit gate of the booking form.** It validates the form and builds
  the equipment list. It then collects the active bookings of the same date
  and period, refuses a classroom clash first and an equipment clash second,
  and only then creates the booking.
- **The shared booking list.** This is the `BookingsProvider` context,
  modelled as the class `BookingsProvider.Store`. Each mutation applies its
  change to the list at once, calls the server, then keeps or undoes the
  change. A fetch sanitises the bookings and orders them newest first.
- **The equipment normaliser** `sanitizeBooking`.
- **The read-side projections.**
  - The per-day slot map of the schedule grid.
  - The active, searchable and sorted list on the dashboard.
  - The status and date filter of the reports page.
- **The two authorisation decisions.**
  - Who may cancel a booking shown in the grid.
  - What a protected route shows.

The modules are listed below.

- `Seqs` models JavaScript's `filter` and `map` and the order-preserving
  sub-list relation.
- `Text` models the string built-ins the core uses: `trim`, `split` and
  `includes`.
- `Sorting` models the two `sort` calls, whose comparators put larger keys
  first.
- `Types` holds the records.
- `Sanitize`, `BookingsProvider`, `BookingForm`, `Schedule`, `SlotInfo`,
  `Dashboard`, `Reports` and `ProtectedRoute` each model one source file.

The inputs the code takes from its environment are parameters of the model:

- **Server answers.** `Listing`, `Creation`, and the `accepted` flag of a
  status change or delete.
- **Temporary id and timestamp of a new booking.** These are `tempId` and
  `now`.
- **Answers of the confirmation dialogs.** The `confirmed` flag.
- **Three readings of a date string.**
  - `bangkokDate` is the civil date in Asia/Bangkok.
  - `day` is the UTC midnight of the reports page.
  - `time` and `Store.instant` stand for `Date.getTime`.
- **`toLowerCase`.** The `lower` parameter.

The three date readings are deliberately independent. The booking form
compares the first ten characters of the stored date, the grid its Bangkok
date, and the reports its UTC day. The model does not claim that they agree:
a stored timestamp near midnight can fall on different days under them.

Three things the code does not do, and the model does not do either:

- `sanitizeBooking` does not trim or de-duplicate an equipment array.
  It does not de-duplicate a comma-separated string either; see
  `Sanitize.KeepsDuplicates`.
- `updateBookingStatus` has no transition guard: it accepts any status
  from any status. The pages offer their actions only on active bookings.
  The dashboard's return and delete buttons appear only on rows of
  `activeBookings` (`Dashboard.ActiveBookings`). The grid shows a booking,
  and its cancel button, only for entries of `bookingsForDateMap`
  (`Schedule.SlotMap`). Both keep only active statuses. The status test of
  `SlotInfo.CanCancel` therefore repeats the grid's own filter.
- No code path sets the status `Awaiting Return`. It exists only as a
  value that counts as active.

## Model

| member | source | states |
|---|---|---|
| BookingForm.Evaluate | components/booking/BookingForm.tsx:87-151 | the gate's verdict, with its checks in the source's order: `Incomplete` exactly when the form is incomplete; `ClassroomConflict` exactly when it is complete and a contending booking has its classroom; `EquipmentConflict` exactly when it is complete, there is no classroom clash and a requested item matches a contending one; otherwise `Admit` with the request |
| BookingForm.IncompleteStopsFirst | components/booking/BookingForm.tsx:89-92 | a form with an empty teacher, programme, classroom, date or lesson plan, an unset or zero period, or no checked equipment and a blank "other" text is refused before any conflict check or create call |
| BookingForm.EffectiveEquipment | components/booking/BookingForm.tsx:94-97 | the list is the checked items trimmed, in order, then the trimmed "other" text only when it is not blank; its length is the number of checked items plus 0 or 1; every entry is trimmed |
| BookingForm.DatePrefix | components/booking/BookingForm.tsx:115 | `substring(0, 10)`: a string of at most ten characters unchanged, a longer one cut to its first ten |
| BookingForm.ContendingSet | components/booking/BookingForm.tsx:113-119 | a booking contends exactly when its date prefix equals the chosen date, its period the chosen period, and its status is active; returned and cancelled bookings never contend |
| BookingForm.BookedEquipment | components/booking/BookingForm.tsx:134 | every entry of the flattened list is trimmed |
| BookingForm.BookedEquipmentHas | components/booking/BookingForm.tsx:134 | every item of every contending booking appears, trimmed, in the flattened list |
| BookingForm.BookedEquipmentSource | components/booking/BookingForm.tsx:134 | every entry of the flattened list is the trimmed form of an item of some contending booking |
| BookingForm.ClassroomClashWins | components/booking/BookingForm.tsx:122-131 | a contending booking in the same classroom yields a classroom conflict whatever equipment is requested |
| BookingForm.EquipmentConflictExactly | components/booking/BookingForm.tsx:134-145 | without a classroom clash, an equipment conflict is reported exactly when a requested item equals, after trimming and case-sensitively, an item of a contending booking |
| BookingForm.AdmitExactly | components/booking/BookingForm.tsx:87-151 | a booking is admitted exactly when the form is complete and neither check fires; the request then carries the period as a non-zero number, the effective equipment list, and the form's kind (which fixes the initial status), teacher, programme, classroom, date and lesson plan |
| BookingForm.AdmitKeepsSlotsExclusive | components/booking/BookingForm.tsx:113-145 | if no two active bookings with the same date prefix and period share a classroom or a trimmed equipment string, the same holds after an admitted booking is added at the head, for a chosen date of at most ten characters |
| BookingForm.PrependKeepsSlotsExclusive | components/booking/BookingForm.tsx:113-145 | a booking that passes both checks against its own slot can be prepended without breaking slot exclusivity |
| BookingForm.PrependClear | components/booking/BookingForm.tsx:113-145 | prepending a booking that clashes with no booking of its slot keeps slot exclusivity |
| BookingForm.NewcomerClear | components/booking/BookingForm.tsx:113-145 | a booking that passed both checks differs in classroom and shares no trimmed equipment with any booking of its slot |
| BookingForm.ClearOf | components/booking/BookingForm.tsx:122-145 | a booking that passed both checks against a contending set clashes with none of its members |
| BookingForm.ReleasedLeavesContention | components/booking/BookingForm.tsx:113-119 | after a status change to returned or cancelled, the booking no longer contends for any date and period |
| BookingForm.ToggleEquipment | components/booking/BookingForm.tsx:80-85 | checking appends the value; unchecking removes every copy of it, keeps the other items in their order and keeps how often each of them occurs |
| BookingForm.HandleSubmit | components/booking/BookingForm.tsx:87-151 | the outcome matches the gate's verdict; the list changes only on admission, through one create call with the gate's request: the pending list is the optimistic record of that request ahead of the old list, and for any temporary id the final list is that pending list with the temporary id replaced by the server's record on success or removed on failure; with a fresh temporary id it gains the server's record on success and is unchanged on failure |
| BookingsProvider.InitialStatus | context/BookingsProvider.tsx:57 | a borrow starts `In Use`, anything else `Booked`, and both are active statuses |
| BookingsProvider.Fetched | context/BookingsProvider.tsx:37-39 | the stored list is a permutation of the sanitised data, ordered by creation time, latest first |
| BookingsProvider.Optimistic | context/BookingsProvider.tsx:56-64 | the optimistic record has the temporary id, the current time, the initial status of its kind and the request's fields |
| BookingsProvider.WithoutId | context/BookingsProvider.tsx:81 | removing an id keeps exactly the entries with other ids, as often as they occurred and in their order |
| BookingsProvider.ReplaceId | context/BookingsProvider.tsx:75-77 | entries with the id are replaced by the server's record; every other position is unchanged |
| BookingsProvider.WithStatus | context/BookingsProvider.tsx:90 | only the status field of the entries with the id changes, to the new status; every other entry and field is untouched |
| BookingsProvider.RevertCreateRestores | context/BookingsProvider.tsx:78-84 | with a fresh temporary id, removing it after a failed create gives back exactly the earlier list |
| BookingsProvider.CommitCreateReplacesHead | context/BookingsProvider.tsx:67-77 | with a fresh temporary id, a successful create leaves the server's record at the head and the earlier list behind it |
| BookingsProvider.WithStatusTwice | context/BookingsProvider.tsx:90 | a second status change of the same id overrides the first |
| BookingsProvider.Store.constructor | context/BookingsProvider.tsx:28-29 | the list starts empty and `loading` starts true |
| BookingsProvider.Store.FetchBookings | context/BookingsProvider.tsx:32-49 | a successful fetch stores the sorted sanitised data; a failed one keeps the list; only a fetch that is not silent touches `loading`, leaving it false |
| BookingsProvider.Store.CreateBooking | context/BookingsProvider.tsx:55-85 | the optimistic record goes to the head of the list; on success the temporary entry is replaced by the sanitised server record, on failure removed and the error reported; with a fresh temporary id the list ends as the earlier list with or without the server's record at the head |
| BookingsProvider.Store.UpdateBookingStatus | context/BookingsProvider.tsx:87-99 | the list first gets the new status; after acceptance a silent fetch replaces it or, if that fails, leaves it; after refusal the snapshot taken before the change comes back |
| BookingsProvider.Store.DeleteBooking | context/BookingsProvider.tsx:101-111 | the entries with the id are removed first; after acceptance a silent fetch replaces the list or, if that fails, leaves it; after refusal the snapshot comes back |
| Sanitize.Pieces | utils/booking.ts:16 | every piece of a comma-separated string is non-empty, comma-free and trimmed; each non-empty trimmed part occurs among the pieces exactly as often as among the trimmed parts, in the same order; there is at most one more piece than there are commas |
| Sanitize.PartsKept | utils/booking.ts:16 | every part between commas whose trim is not blank appears, trimmed, among the pieces |
| Sanitize.EquipmentArray | utils/booking.ts:11-17 | an array is kept as it is, a string becomes its pieces, any other value the empty list |
| Sanitize.SanitizeBooking | utils/booking.ts:10-19 | the equipment becomes the normalised list and every other field is kept |
| Sanitize.SanitizeKeepsArrays | utils/booking.ts:12-13 | a booking whose equipment is already a list passes through unchanged, without trimming or de-duplication |
| Sanitize.SanitizeIdempotent | utils/booking.ts:12-18 | sanitising a sanitised booking changes nothing |
| Sanitize.PiecesComeFromParts | utils/booking.ts:16 | every piece is a trimmed part between commas, and the parts joined with commas give back the string |
| Sanitize.TrimmedPartsClean | utils/booking.ts:16 | trimming comma-free parts gives trimmed comma-free strings |
| Sanitize.KeepsDuplicates | utils/booking.ts:16 | a string such as "Projector, Speaker,Projector" gives all three pieces, the repeated one twice |
| Text.Trim | utils/booking.ts:16 | `trim` leaves a string with no whitespace at either end, no longer than the input and made of its characters |
| Text.TrimRemovesOnlyEndWhitespace | utils/booking.ts:16 | the input is the trimmed string with only whitespace before and after it |
| Text.TrimFixedPoints | components/booking/BookingForm.tsx:95 | `trim` leaves exactly the already-trimmed strings unchanged |
| Text.TrimIdempotent | components/booking/BookingForm.tsx:95 | trimming twice is trimming once |
| Text.TrimKeepsAbsent | utils/booking.ts:16 | trimming never introduces a character, in particular no comma |
| Text.Split | utils/booking.ts:16 | `split` on one character gives one more part than there are separators, none containing the separator |
| Text.JoinSplit | utils/booking.ts:16 | joining the parts with the separator gives back the string |
| Text.SplitJoin | utils/booking.ts:16 | splitting a join of separator-free parts gives back the parts |
| Text.IncludesAt | pages/DashboardPage.tsx:86-88 | `includes` holds exactly when the needle occurs at some index of the string |
| Sorting.SortDescending | context/BookingsProvider.tsx:39 | the sorted list is a permutation of the input in which every key is at least every later key |
| Schedule.LastWrites | pages/BookingSchedulePage.tsx:69-71 | every entry is stored under its own classroom and period and comes from the list |
| Schedule.LastWritesDomain | pages/BookingSchedulePage.tsx:69-71 | a key is in the map exactly when some booking of the list has that classroom and period |
| Schedule.LastWritesLastWins | pages/BookingSchedulePage.tsx:69-71 | the entry of a key is the last booking of the list with that key, since `Map.set` overwrites |
| Schedule.LastWritesStep | pages/BookingSchedulePage.tsx:69-71 | one more write over a longer prefix of the list adds or replaces exactly that booking's key |
| Schedule.SlotMap | pages/BookingSchedulePage.tsx:61-73 | every entry is a booking of the list, shown on the selected Bangkok date with an active status, stored under its own classroom and period |
| Schedule.BookingsForDateMap | pages/BookingSchedulePage.tsx:61-73 | the loop builds exactly the slot map, from the bookings and the selected date only |
| Schedule.SlotMapDomain | pages/BookingSchedulePage.tsx:63-71 | a cell is filled exactly when an active booking of the selected day has its classroom and period |
| Schedule.SlotMapAppend | pages/BookingSchedulePage.tsx:69-71 | an extra booking at the end of the list takes its cell when shown that day, replacing any earlier one, and leaves the map unchanged otherwise |
| Schedule.AvailableExactly | pages/BookingSchedulePage.tsx:143-161 | a cell offers the "available" button exactly when no active booking of the day has its classroom and period |
| Schedule.ClassroomsFor | pages/BookingSchedulePage.tsx:75-78 | the Thai and English programmes get their own classroom tables, every other value the kindergarten table |
| Schedule.HandleCancelBooking | pages/BookingSchedulePage.tsx:32-59 | an unconfirmed dialog requests nothing; a confirmed one requests status `Cancelled` for the given id whatever the server answers later (the pending list is the old list with that status set); the final list is given in every case |
| SlotInfo.CanCancel | components/booking/BookedSlotInfo.tsx:13-16 | cancel is allowed exactly for a signed-in admin or the booking's own teacher on a booking that is still active; never without a user, never for a returned or cancelled booking, never for another teacher |
| Dashboard.MatchesQuery | pages/DashboardPage.tsx:82-90 | an empty query keeps everything; otherwise the lower-cased query must occur in the lower-cased teacher name, some lower-cased equipment item or the lower-cased classroom |
| Dashboard.ActiveBookings | pages/DashboardPage.tsx:78-100 | the list holds exactly the active bookings that match the query, each as often as in the input, ordered by event time and period, latest first |
| Dashboard.DashboardOrder | pages/DashboardPage.tsx:92-99 | the list is a sub-multiset of the bookings; a booking comes before another only if its time is later, or equal with a period at least as high |
| Dashboard.EmptyQueryKeepsActive | pages/DashboardPage.tsx:83 | an empty query keeps every active booking |
| Dashboard.FinishedLeavesDashboard | pages/DashboardPage.tsx:34 | a booking marked returned or cancelled disappears from the list |
| Dashboard.AdminActionsShown | pages/DashboardPage.tsx:145-162 | the return and delete buttons are shown exactly to a signed-in admin: always to an admin, never to a teacher or to nobody |
| Dashboard.HandleReturn | pages/DashboardPage.tsx:21-47 | an unconfirmed dialog requests nothing; a confirmed return requests status `Returned` for the id, whatever the server answers later (the pending list is the old list with that status set); the final list is given for refusal, accepted-and-refreshed and accepted-with-failed-refresh |
| Dashboard.HandleDelete | pages/DashboardPage.tsx:49-76 | an unconfirmed dialog requests nothing; a confirmed delete requests status `Cancelled` for the id, whatever the server answers later, a status change that keeps the row in the list, not a removal; the final list is given in every case |
| Reports.InRange | pages/ReportsPage.tsx:34-54 | with no bounds every booking is kept; otherwise a booking is kept exactly when its day is on or after the start, if set, and on or before the end, if set |
| Reports.Displayed | pages/ReportsPage.tsx:28-55 | the shown bookings are exactly those passing both filters, each as many times as it occurs in the list, in their original order |
| Reports.NoFiltersKeepAll | pages/ReportsPage.tsx:30-35 | no status and no dates show the whole list unchanged |
| Reports.SelectedStatusExactly | pages/ReportsPage.tsx:30-33 | a selected status shows exactly the bookings with that status |
| Reports.FiltersCommute | pages/ReportsPage.tsx:28-55 | the status and date filters can be applied in either order |
| Reports.EmptyRange | pages/ReportsPage.tsx:39-53 | a start day after the end day shows nothing |
| Reports.ExportDisabled | pages/ReportsPage.tsx:128 | export is disabled exactly when no booking passes both filters |
| ProtectedRoute.Guard | components/ui/ProtectedRoute.tsx:6-23 | loading shows the spinner whatever else holds; then a missing user goes to `/login`; then a non-admin on an admin-only route goes to `/`; otherwise the children render, so any signed-in user sees a route that is not admin-only |

## Left out

- Server calls (`services/api.ts` is not part of this model). A server answer is a parameter: `Listing`, `Creation`, or the `accepted` flag. The record the server returns on create is an input that is not constrained by the request.
- Error reporting and all dialogs (SweetAlert), rendering, routing and the loading indicators. A re-thrown error appears as `ok == false`, and a confirmation dialog as the `confirmed` flag.
- React's asynchronous state: stale closures, overlapping mutations and batched updates. Each mutation is one sequential method on `Store`; `updateBookingStatus` and `deleteBooking` take their snapshot from the current list.
- Date parsing and time zones. `bangkokDate`, `day`, `time` and `Store.instant` are uninterpreted parameters, and invalid dates (NaN comparisons) are not modelled.
- `toLowerCase` is the uninterpreted parameter `lower`.
- `Date.now()` and `new Date().toISOString()` are the `tempId` and `now` parameters of `CreateBooking`.
- Schedule.Slot: the grid keys its map by the string `${classroom}-${period}`. The pair model treats two cells as the same key only when classroom and period both agree. The string can also collide, as with classroom `X-` and period 2 against classroom `X` and period -2, and the model does not capture that.
- Sorting.SortDescending: orders by key and keeps the permutation. Stability of `Array.prototype.sort` for equal keys is not stated.
- The cancel button passes `booking.id` to `onCancel` (components/booking/BookedSlotInfo.tsx:28-30). This is not a separate member: `Schedule.HandleCancelBooking` takes the booking id as its argument.
- The classroom tables themselves (`THAI_CLASSES` and the others) and the period list are in `constants.ts`, which is not part of this model. `Schedule.ClassroomsFor` returns which table is chosen.
- Excel export formatting, localisation, style tables, user management, login and session storage.
