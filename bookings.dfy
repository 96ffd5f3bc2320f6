/** The consultation-booking record as the availability engine and the
    payment repair read it.  Its persistence is not modelled: a query
    result is a sequence of these records, in the query's order. */
module Bookings {
  import opened Base
  import opened Text
  import opened Calendar

  datatype BookingStatus = Pending | Confirmed | Completed | Cancelled

  datatype ConsultationBooking = ConsultationBooking(
    id: nat,
    date: Date,             // appointment_date
    time: int,              // appointment_time, in minutes after midnight
    duration: string,       // the package label, such as "30-min"
    status: BookingStatus,
    price: int,
    paymentId: Option<string>)

  /** `int(duration.replace('-min', ''))`: the booking's length in minutes,
      or `None` where `int` raises ValueError. */
  function DurationMinutes(duration: string): Option<int> {
    ParseInt(RemoveAll(duration, "-min"))
  }

  /** The label a booking of `n` minutes is stored with. */
  function DurationLabel(n: nat): string {
    NatToString(n) + "-min"
  }

  /** Reading a stored label back gives the minutes it was made from. */
  lemma DurationOfLabel(n: nat)
    ensures DurationMinutes(DurationLabel(n)) == Some(n)
  {
    var digits := NatToString(n);
    assert forall i :: 0 <= i < |digits| ==> digits[i] != '-';
    RemoveAllTrailing(digits, "-min");
    ParseIntOfNatToString(n);
  }
}
