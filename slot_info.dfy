/** `BookedSlotInfo`: who may cancel the booking shown in a filled cell. */
module SlotInfo {
  import opened Types

  /** `canCancel`: a signed-in user who is an admin or the booking's teacher,
      and a booking that is neither returned nor cancelled. The statuses the
      button is hidden for are exactly those that no longer hold a slot. */
  function CanCancel(currentUser: Option<User>, b: Booking): (r: bool)
    ensures currentUser.None? ==> !r
    ensures b.status == Returned || b.status == Cancelled ==> !r
    ensures currentUser.Some? && currentUser.value.role != Admin && currentUser.value.name != b.teacherName ==> !r
    ensures r <==> currentUser.Some? && IsActive(b.status)
                   && (currentUser.value.role == Admin || currentUser.value.name == b.teacherName)
  {
    && currentUser.Some?
    && (currentUser.value.role == Admin || currentUser.value.name == b.teacherName)
    && b.status != Returned && b.status != Cancelled
  }
}
