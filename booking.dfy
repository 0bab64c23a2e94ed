/**
 * The booking form's check. The two dates are what `new Date(...)` makes of the form fields:
 * a time value, or `None` for an Invalid Date, whose time value is NaN. Every comparison
 * with NaN is false, so `drop <= pickup` only rejects two valid dates.
 */
module Booking {
  import opened Optional

  /** The result line: the date error, or a confirmation whose id is "BK" followed by the
      clock reading `Date.now()`, which the caller supplies as `now`. */
  datatype BookingOutcome = DropNotAfterPickup | Confirmed(timestamp: int)

  function SubmitBooking(pickup: Option<int>, drop: Option<int>, now: int): (r: BookingOutcome)
    ensures r.DropNotAfterPickup? <==> pickup.Some? && drop.Some? && drop.value <= pickup.value
    ensures r.Confirmed? ==> r.timestamp == now
  {
    if pickup.Some? && drop.Some? && drop.value <= pickup.value then DropNotAfterPickup
    else Confirmed(now)
  }

  /** With two valid dates a booking goes through exactly when the drop-off is strictly later. */
  lemma ValidDatesOrdered(pickup: int, drop: int, now: int)
    ensures SubmitBooking(Some(pickup), Some(drop), now).Confirmed? <==> pickup < drop
  {
  }

  /** An unreadable date is never rejected: the comparison with NaN is false. */
  lemma InvalidDateNotRejected(pickup: Option<int>, drop: Option<int>, now: int)
    requires pickup.None? || drop.None?
    ensures SubmitBooking(pickup, drop, now) == Confirmed(now)
  {
  }
}
