/** The appointment-availability engine: the overlap test between a
    candidate slot and an existing booking, the single-point guard, the
    day view (every free start on a 15-minute grid from 09:00 to 17:00) and
    the month view (one has-availability flag per calendar day).

    Times of day are minutes after midnight.  A candidate of `d` minutes at
    `t` occupies [t, t + d); a booking at `s` of `dur` minutes occupies
    [s, s + dur + 15): the 15-minute buffer follows its end, never its start. */
module Availability {
  import opened Base
  import opened Calendar
  import opened Bookings

  const DayStart := 540          // 09:00, start of working hours
  const DayEnd := 1020           // 17:00, end of working hours
  const Step := 15               // grid spacing, in minutes
  const Buffer := 15             // idle time after every booking
  const MinutesPerDay := 1440
  const MicrosPerMinute := 60_000_000
  const MonthGridSize := 32      // 09:00, 09:15, ..., 16:45

  // ---------------------------------------------------------------------------
  // The overlap primitive
  // ---------------------------------------------------------------------------

  /** Candidate [t, t + d) meets booking [s, s + dur + Buffer). */
  predicate Conflicts(t: int, d: int, s: int, dur: int) {
    t < s + dur + Buffer && t + d > s
  }

  /** Minute `m` lies in the half-open interval [lo, hi). */
  predicate Within(m: int, lo: int, hi: int) {
    lo <= m < hi
  }

  /** Some minute lies in both [lo1, hi1) and [lo2, hi2). */
  ghost predicate Intersect(lo1: int, hi1: int, lo2: int, hi2: int) {
    exists m :: Within(m, lo1, hi1) && Within(m, lo2, hi2)
  }

  /** Independent reading of an overlap: some minute lies in both intervals. */
  ghost predicate SharesMinute(t: int, d: int, s: int, dur: int) {
    Intersect(t, t + d, s, s + dur + Buffer)
  }

  lemma ConflictsIffSharesMinute(t: int, d: int, s: int, dur: int)
    requires d > 0 && dur + Buffer > 0
    ensures Conflicts(t, d, s, dur) <==> SharesMinute(t, d, s, dur)
  {
    if Conflicts(t, d, s, dur) {
      var m := if t < s then s else t;
      assert Within(m, t, t + d) && Within(m, s, s + dur + Buffer);
    }
  }

  /** The buffer lies after the booking only: starting when the booking ends
      is refused, starting when its buffer ends is accepted, and ending right
      when the booking starts is accepted. */
  lemma BufferFollowsEndOnly(s: int, dur: int, d: int)
    requires d > 0 && dur >= 0
    ensures Conflicts(s + dur, d, s, dur)
    ensures Conflicts(s + dur + Buffer - 1, d, s, dur)
    ensures !Conflicts(s + dur + Buffer, d, s, dur)
    ensures !Conflicts(s - d, d, s, dur)
  {
  }

  // ---------------------------------------------------------------------------
  // Scanning the bookings of one date
  // ---------------------------------------------------------------------------

  /** A booking takes part in the scans of `date` iff it is on that date and
      not cancelled (`filter(appointment_date=date).exclude(status='cancelled')`). */
  predicate Blocks(b: ConsultationBooking, date: Date) {
    b.date == date && b.status != Cancelled
  }

  /** Every booking that takes part in the scans of `date` has a readable duration. */
  predicate WellFormedOn(bs: seq<ConsultationBooking>, date: Date) {
    forall i :: 0 <= i < |bs| && Blocks(bs[i], date) ==> DurationMinutes(bs[i].duration).Some?
  }

  /** No booking that takes part in the scans of `date` conflicts with [t, t + d),
      and each of them has a readable duration. */
  predicate Free(bs: seq<ConsultationBooking>, date: Date, t: int, d: int) {
    forall i :: 0 <= i < |bs| && Blocks(bs[i], date) ==>
      && DurationMinutes(bs[i].duration).Some?
      && !Conflicts(t, d, bs[i].time, DurationMinutes(bs[i].duration).value)
  }

  /** What the scan of the bookings, in query order, reports for [t, t + d):
      `Ok(false)` at the first conflicting booking, `Err` at the first
      duration that does not parse, `Ok(true)` if it reaches the end. */
  function Verdict(bs: seq<ConsultationBooking>, date: Date, t: int, d: int): Result<bool> {
    if bs == [] then Ok(true)
    else if !Blocks(bs[0], date) then Verdict(bs[1..], date, t, d)
    else match DurationMinutes(bs[0].duration)
      case None => Err(InvalidDuration)
      case Some(dur) => if Conflicts(t, d, bs[0].time, dur) then Ok(false) else Verdict(bs[1..], date, t, d)
  }

  /** The scan reports the slot available exactly when it is free. */
  lemma {:induction false} VerdictFree(bs: seq<ConsultationBooking>, date: Date, t: int, d: int)
    ensures Verdict(bs, date, t, d) == Ok(true) <==> Free(bs, date, t, d)
  {
    if bs != [] {
      VerdictFree(bs[1..], date, t, d);
      if Free(bs, date, t, d) {
        assert Free(bs[1..], date, t, d) by {
          forall i | 0 <= i < |bs| - 1 && Blocks(bs[1..][i], date)
            ensures DurationMinutes(bs[1..][i].duration).Some?
            ensures !Conflicts(t, d, bs[1..][i].time, DurationMinutes(bs[1..][i].duration).value)
          {
            assert bs[1..][i] == bs[i + 1];
          }
        }
      }
      if Verdict(bs, date, t, d) == Ok(true) {
        forall i | 0 <= i < |bs| && Blocks(bs[i], date)
          ensures DurationMinutes(bs[i].duration).Some?
          ensures !Conflicts(t, d, bs[i].time, DurationMinutes(bs[i].duration).value)
        {
          if i > 0 {
            assert bs[i] == bs[1..][i - 1];
          }
        }
      }
    }
  }

  /** When every relevant duration parses, the scan cannot fail. */
  lemma {:induction false} VerdictWellFormed(bs: seq<ConsultationBooking>, date: Date, t: int, d: int)
    requires WellFormedOn(bs, date)
    ensures Verdict(bs, date, t, d).Ok?
  {
    if bs != [] {
      assert WellFormedOn(bs[1..], date) by {
        forall i | 0 <= i < |bs| - 1 && Blocks(bs[1..][i], date)
          ensures DurationMinutes(bs[1..][i].duration).Some?
        {
          assert bs[1..][i] == bs[i + 1];
        }
      }
      VerdictWellFormed(bs[1..], date, t, d);
    }
  }

  /** A failure names a live booking whose duration does not parse, and a
      refusal a live booking that conflicts. */
  lemma {:induction false} VerdictCause(bs: seq<ConsultationBooking>, date: Date, t: int, d: int)
    ensures Verdict(bs, date, t, d).Err? ==>
      && Verdict(bs, date, t, d).error == InvalidDuration
      && exists b :: b in bs && Blocks(b, date) && DurationMinutes(b.duration).None?
    ensures Verdict(bs, date, t, d) == Ok(false) ==>
      exists b :: b in bs && Blocks(b, date) && DurationMinutes(b.duration).Some? &&
                  Conflicts(t, d, b.time, DurationMinutes(b.duration).value)
  {
    if bs != [] {
      VerdictCause(bs[1..], date, t, d);
      assert forall b :: b in bs[1..] ==> b in bs;
    }
  }

  /** The order of the bookings decides whether the scan raises at all: a
      conflicting booking in front of an unreadable one ends the scan with
      `Ok(false)`, the other way round it raises. */
  lemma VerdictDependsOnOrder(a: ConsultationBooking, b: ConsultationBooking, date: Date, t: int, d: int)
    requires Blocks(a, date) && Blocks(b, date)
    requires DurationMinutes(a.duration).Some? && Conflicts(t, d, a.time, DurationMinutes(a.duration).value)
    requires DurationMinutes(b.duration).None?
    ensures Verdict([a, b], date, t, d) == Ok(false)
    ensures Verdict([b, a], date, t, d) == Err(InvalidDuration)
  {
  }

  /** A booking that does not take part in the scan of `date` (a cancelled
      one, or one on another date), inserted anywhere, changes no verdict:
      cancelled bookings never cause a candidate to be excluded. */
  lemma {:induction false} IgnoredBookingChangesNothing(bs: seq<ConsultationBooking>, k: nat,
                                                        c: ConsultationBooking, date: Date, t: int, d: int)
    requires k <= |bs| && !Blocks(c, date)
    ensures Verdict(bs[..k] + [c] + bs[k..], date, t, d) == Verdict(bs, date, t, d)
  {
    var bs' := bs[..k] + [c] + bs[k..];
    if k == 0 {
      assert bs'[1..] == bs;
    } else {
      IgnoredBookingChangesNothing(bs[1..], k - 1, c, date, t, d);
      assert bs'[0] == bs[0];
      assert bs'[1..] == bs[1..][..k - 1] + [c] + bs[1..][k - 1..];
    }
  }

  /** `is_time_available`: the scan of the date's bookings for [t, t + d),
      stopping at the first conflict. */
  method IsTimeAvailable(date: Date, t: int, d: int, bookings: seq<ConsultationBooking>)
    returns (r: Result<bool>)
    ensures r == Verdict(bookings, date, t, d)
    ensures r.Ok? ==> (r.value <==> Free(bookings, date, t, d))
    ensures WellFormedOn(bookings, date) ==> r.Ok?
  {
    VerdictFree(bookings, date, t, d);
    if WellFormedOn(bookings, date) {
      VerdictWellFormed(bookings, date, t, d);
    }
    r := ScanBookings(date, t, d, bookings);
  }

  /** The loop of `is_time_available`. */
  method ScanBookings(date: Date, t: int, d: int, bookings: seq<ConsultationBooking>)
    returns (r: Result<bool>)
    ensures r == Verdict(bookings, date, t, d)
  {
    var i := 0;
    while i < |bookings|
      invariant 0 <= i <= |bookings|
      invariant Verdict(bookings, date, t, d) == Verdict(bookings[i..], date, t, d)
    {
      var b := bookings[i];
      assert bookings[i..][1..] == bookings[i + 1..];
      if Blocks(b, date) {
        var dur := DurationMinutes(b.duration);
        if dur.None? {
          return Err(InvalidDuration);
        }
        if Conflicts(t, d, b.time, dur.value) {
          return Ok(false);
        }
      }
      i := i + 1;
    }
    return Ok(true);
  }

  /** Worked example: a confirmed 30-minute booking at 10:00 and a 30-minute
      request.  09:30 and 10:45 are free; 09:45, 10:00, 10:15 and 10:30 are not. */
  lemma WorkedExample(b: ConsultationBooking)
    requires b.time == 600 && b.duration == "30-min" && b.status == Confirmed
    ensures Free([b], b.date, 570, 30) && Free([b], b.date, 645, 30)
    ensures !Free([b], b.date, 585, 30) && !Free([b], b.date, 600, 30)
    ensures !Free([b], b.date, 615, 30) && !Free([b], b.date, 630, 30)
  {
    DurationOfLabel(30);
    assert DurationLabel(30) == "30-min";
    assert [b][0] == b;
  }

  // ---------------------------------------------------------------------------
  // Fitting into working hours
  // ---------------------------------------------------------------------------

  /** The fit test as written: `(start + d).time() <= 17:00` compares a time of
      day, which wraps past midnight. */
  predicate FitsAsWritten(t: int, d: int) {
    (t + d) % MinutesPerDay <= DayEnd
  }

  /** The fit test as intended: the slot ends by 17:00 on the same day. */
  predicate Fits(t: int, d: int) {
    t + d <= DayEnd
  }

  /** The two agree whenever the slot ends within the day it starts on. */
  lemma FitsAgreeWithinDay(t: int, d: int)
    requires 0 <= t + d < MinutesPerDay
    ensures FitsAsWritten(t, d) <==> Fits(t, d)
  {
  }

  /** A 900-minute slot at 09:00 "ends" at 00:00 and passes the test as written. */
  lemma MidnightWrapAdmitsOverlongSlot()
    ensures FitsAsWritten(DayStart, 900) && !Fits(DayStart, 900)
  {
  }

  // ---------------------------------------------------------------------------
  // The day view: get_available_slots
  // ---------------------------------------------------------------------------

  datatype Slot = Slot(start: int, end: int)

  /** 09:00, 09:15, ..., 17:00. */
  predicate OnDayGrid(t: int) {
    DayStart <= t <= DayEnd && (t - DayStart) % Step == 0
  }

  /** A grid start whose bookings the day view scans: on today's date not
      earlier than the current time of day (`nowMicros`, in microseconds),
      and passing the fit test as written, on the time of day of its end. */
  predicate Examined(date: Date, today: Date, nowMicros: int, t: int, d: int) {
    && OnDayGrid(t)
    && !(date == today && t * MicrosPerMinute < nowMicros)
    && FitsAsWritten(t, d)
  }

  /** A slot the day view may offer: `d` minutes long, at an examined grid
      start, and free. */
  predicate Offered(bs: seq<ConsultationBooking>, date: Date, today: Date, nowMicros: int, d: int, slot: Slot) {
    && slot.end == slot.start + d
    && Examined(date, today, nowMicros, slot.start, d)
    && Free(bs, date, slot.start, d)
  }

  /** `get_available_slots` for a validated date and duration `d`.  On a date
      before today the slot list is empty.  Otherwise the result lists, in
      ascending order, exactly the examined starts that are free, each as a
      slot ending `d` minutes later.  A booking duration that does not
      parse, met by the scan of some examined start, fails the call. */
  method AvailableSlots(date: Date, d: int, bookings: seq<ConsultationBooking>, today: Date, nowMicros: int)
    returns (r: Result<seq<Slot>>)
    ensures Before(date, today) ==> r == Ok([])
    ensures !Before(date, today) ==>
      (r.Err? <==> exists t :: Examined(date, today, nowMicros, t, d) && Verdict(bookings, date, t, d).Err?)
    ensures r.Ok? ==> forall i :: 0 <= i < |r.value| ==> Offered(bookings, date, today, nowMicros, d, r.value[i])
    ensures r.Ok? ==> forall i, j :: 0 <= i < j < |r.value| ==> r.value[i].start < r.value[j].start
    ensures r.Ok? && !Before(date, today) ==> forall t ::
      Examined(date, today, nowMicros, t, d) && Free(bookings, date, t, d) ==> Slot(t, t + d) in r.value
  {
    if Before(date, today) {
      return Ok([]);
    }
    var slots: seq<Slot> := [];
    var t := DayStart;
    while t <= DayEnd
      invariant DayStart <= t <= DayEnd + Step && (t - DayStart) % Step == 0
      invariant forall i :: 0 <= i < |slots| ==>
        slots[i].start < t && Offered(bookings, date, today, nowMicros, d, slots[i])
      invariant forall i, j :: 0 <= i < j < |slots| ==> slots[i].start < slots[j].start
      invariant forall u :: u < t && Examined(date, today, nowMicros, u, d) ==> Verdict(bookings, date, u, d).Ok?
      invariant forall u :: u < t && Examined(date, today, nowMicros, u, d) && Free(bookings, date, u, d) ==>
        Slot(u, u + d) in slots
    {
      var v := ExamineStart(date, today, nowMicros, t, d, bookings);
      if v.Err? {
        return Err(v.error);
      }
      if v.value {
        slots := slots + [Slot(t, t + d)];
      }
      forall u | t < u < t + Step
        ensures !Examined(date, today, nowMicros, u, d)
      {
        OffGrid(t, u);
      }
      t := t + Step;
    }
    return Ok(slots);
  }

  /** No grid start lies strictly between two neighbouring ones. */
  lemma OffGrid(t: int, u: int)
    requires (t - DayStart) % Step == 0 && t < u < t + Step
    ensures !OnDayGrid(u)
  {
  }

  /** One grid start of the day view: skipped when it is already past on
      today's date or fails the fit test (`Ok(false)`), otherwise the
      verdict of the scan of the bookings. */
  method ExamineStart(date: Date, today: Date, nowMicros: int, t: int, d: int, bookings: seq<ConsultationBooking>)
    returns (v: Result<bool>)
    requires OnDayGrid(t)
    ensures v == if Examined(date, today, nowMicros, t, d) then Verdict(bookings, date, t, d) else Ok(false)
    ensures v.Ok? ==> (v.value <==> Examined(date, today, nowMicros, t, d) && Free(bookings, date, t, d))
  {
    if date == today && t * MicrosPerMinute < nowMicros {
      return Ok(false);
    }
    if !FitsAsWritten(t, d) {
      return Ok(false);
    }
    v := IsTimeAvailable(date, t, d, bookings);
  }

  /** For durations from 0 to 419 minutes no end of a day-view slot wraps
      past midnight, so the fit test as written is the intended one: a start
      is examined iff it is on the grid, not past, and ends by 17:00. */
  lemma IntendedDayView(date: Date, today: Date, nowMicros: int, t: int, d: int)
    requires 0 <= d < MinutesPerDay - DayEnd
    ensures Examined(date, today, nowMicros, t, d) <==>
      OnDayGrid(t) && !(date == today && t * MicrosPerMinute < nowMicros) && Fits(t, d)
  {
    if OnDayGrid(t) {
      FitsAgreeWithinDay(t, d);
    }
  }

  /** As written, a 420-minute request on a future day without bookings is
      offered at 17:00, although it ends at midnight. */
  lemma DayViewOffersWrappedSlot(date: Date, today: Date, nowMicros: int)
    requires date != today
    ensures Offered([], date, today, nowMicros, 420, Slot(DayEnd, DayEnd + 420))
    ensures !Fits(DayEnd, 420)
  {
    assert (DayEnd + 420) % MinutesPerDay == 0;
  }

  // ---------------------------------------------------------------------------
  // The month view: check_date_availability
  // ---------------------------------------------------------------------------

  datatype DayEntry = DayEntry(date: Date, day: int, hasAvailability: bool, isPast: bool)

  const DefaultDuration := 45

  /** The month view's duration: the query parameter when `int` reads a
      positive number from it, 45 otherwise (missing, unreadable or not positive). */
  function MonthDuration(param: Option<string>): (d: int)
    ensures d > 0
    ensures param.Some? && Text.ParseInt(param.value).Some? && Text.ParseInt(param.value).value > 0 ==>
      d == Text.ParseInt(param.value).value
    ensures !(param.Some? && Text.ParseInt(param.value).Some? && Text.ParseInt(param.value).value > 0) ==>
      d == DefaultDuration
  {
    match param
    case None => DefaultDuration
    case Some(text) =>
      match Text.ParseInt(text)
      case Some(n) => if n > 0 then n else DefaultDuration
      case None => DefaultDuration
  }

  /** `date(year, month, 1)` and the first day of the next month both exist. */
  predicate ValidMonth(year: int, month: int) {
    && MinYear <= year <= MaxYear
    && 1 <= month <= 12
    && !(month == 12 && year == MaxYear)
  }

  /** 09:00, 09:15, ..., 16:45: `for hour in range(9, 17)` and
      `for minute in [0, 15, 30, 45]`. */
  predicate OnMonthGrid(t: int) {
    DayStart <= t < DayEnd && (t - DayStart) % Step == 0
  }

  /** The month view's scan of one day from grid point `k` on, in grid
      order: `Ok(true)` at the first fitting start whose scan finds it free. */
  function ScanFrom(bs: seq<ConsultationBooking>, date: Date, d: int, k: nat): Result<bool>
    requires k <= MonthGridSize
    decreases MonthGridSize - k
  {
    if k == MonthGridSize then Ok(false)
    else
      var t := DayStart + Step * k;
      if !FitsAsWritten(t, d) then ScanFrom(bs, date, d, k + 1)
      else match Verdict(bs, date, t, d)
        case Err(e) => Err(e)
        case Ok(free) => if free then Ok(true) else ScanFrom(bs, date, d, k + 1)
  }

  function DayScan(bs: seq<ConsultationBooking>, date: Date, d: int): Result<bool> {
    ScanFrom(bs, date, d, 0)
  }

  lemma {:induction false} ScanFromMeaning(bs: seq<ConsultationBooking>, date: Date, d: int, k: nat)
    requires k <= MonthGridSize && WellFormedOn(bs, date)
    ensures ScanFrom(bs, date, d, k) ==
      Ok(exists t :: DayStart + Step * k <= t && OnMonthGrid(t) && FitsAsWritten(t, d) && Free(bs, date, t, d))
    decreases MonthGridSize - k
  {
    if k < MonthGridSize {
      var t := DayStart + Step * k;
      ScanFromMeaning(bs, date, d, k + 1);
      ScanFromStep(bs, date, d, k);
      assert OnMonthGrid(t);
      if !(FitsAsWritten(t, d) && Free(bs, date, t, d)) {
        if exists u :: DayStart + Step * k <= u && OnMonthGrid(u) && FitsAsWritten(u, d) && Free(bs, date, u, d) {
          var u :| DayStart + Step * k <= u && OnMonthGrid(u) && FitsAsWritten(u, d) && Free(bs, date, u, d);
          NextGridPoint(k, u);
        }
      }
    }
  }

  /** One grid point of the month scan, with readable durations: the scan
      stops there with success iff the start fits and is free. */
  lemma ScanFromStep(bs: seq<ConsultationBooking>, date: Date, d: int, k: nat)
    requires k < MonthGridSize && WellFormedOn(bs, date)
    ensures var t := DayStart + Step * k;
      ScanFrom(bs, date, d, k) == if FitsAsWritten(t, d) && Free(bs, date, t, d) then Ok(true) else ScanFrom(bs, date, d, k + 1)
  {
    var t := DayStart + Step * k;
    VerdictWellFormed(bs, date, t, d);
    VerdictFree(bs, date, t, d);
  }

  /** Past grid point `k` the next grid point is `k + 1`. */
  lemma NextGridPoint(k: nat, u: int)
    requires DayStart + Step * k < u && (u - DayStart) % Step == 0
    ensures DayStart + Step * (k + 1) <= u
  {
    var q := (u - DayStart) / Step;
    assert u - DayStart == Step * q;
  }

  /** With readable durations, a day has availability in the month view iff
      some quarter hour from 09:00 to 16:45 starts a free slot whose end, as
      a time of day, is not after 17:00. */
  lemma DayScanMeaning(bs: seq<ConsultationBooking>, date: Date, d: int)
    requires WellFormedOn(bs, date)
    ensures DayScan(bs, date, d) == Ok(exists t :: OnMonthGrid(t) && FitsAsWritten(t, d) && Free(bs, date, t, d))
  {
    ScanFromMeaning(bs, date, d, 0);
  }

  /** On a day other than today, the month view reports availability iff
      the day view lists at least one slot, whenever the day view's extra
      17:00 start fails the fit test (so for every duration from 1 to 419
      minutes).  The month view does not apply the today/now filter, and
      its grid stops at 16:45. */
  lemma MonthAgreesWithDayView(bs: seq<ConsultationBooking>, date: Date, d: int, today: Date, nowMicros: int)
    requires !FitsAsWritten(DayEnd, d) && date != today && WellFormedOn(bs, date)
    ensures DayScan(bs, date, d) == Ok(true) <==>
      exists t :: Examined(date, today, nowMicros, t, d) && Free(bs, date, t, d)
  {
    DayScanMeaning(bs, date, d);
    if exists t :: Examined(date, today, nowMicros, t, d) && Free(bs, date, t, d) {
      var t :| Examined(date, today, nowMicros, t, d) && Free(bs, date, t, d);
      assert OnMonthGrid(t);
    }
  }

  /** A day with no live booking has availability iff some start of the
      month grid passes the fit test; in particular for every duration
      from 0 to 480 minutes. */
  lemma EmptyDayAvailability(bs: seq<ConsultationBooking>, date: Date, d: int)
    requires forall i :: 0 <= i < |bs| ==> !Blocks(bs[i], date)
    ensures DayScan(bs, date, d) == Ok(exists t :: OnMonthGrid(t) && FitsAsWritten(t, d))
    ensures 0 <= d <= DayEnd - DayStart ==> DayScan(bs, date, d) == Ok(true)
  {
    DayScanMeaning(bs, date, d);
    forall t | OnMonthGrid(t)
      ensures Free(bs, date, t, d)
    {
    }
    if 0 <= d <= DayEnd - DayStart {
      assert OnMonthGrid(DayStart) && FitsAsWritten(DayStart, d);
    }
  }

  /** For durations from 0 to 419 minutes no end of a month-grid slot wraps
      past midnight, so with readable durations a day has availability iff
      some quarter hour from 09:00 to 16:45 starts a free slot ending by 17:00. */
  lemma IntendedMonthView(bs: seq<ConsultationBooking>, date: Date, d: int)
    requires 0 <= d < MinutesPerDay - DayEnd && WellFormedOn(bs, date)
    ensures DayScan(bs, date, d) == Ok(exists t :: OnMonthGrid(t) && Fits(t, d) && Free(bs, date, t, d))
  {
    DayScanMeaning(bs, date, d);
    forall t | OnMonthGrid(t)
      ensures FitsAsWritten(t, d) <==> Fits(t, d)
    {
      FitsAgreeWithinDay(t, d);
    }
  }

  /** As written, the month view finds availability for a 481-minute
      request on a day without bookings: 16:00 plus 481 minutes is 00:01,
      which passes the fit test, though no grid start ends by 17:00. */
  lemma MonthViewFindsOverlongSlot(date: Date)
    ensures DayScan([], date, 481) == Ok(true)
    ensures !exists t :: OnMonthGrid(t) && Fits(t, 481)
  {
    EmptyDayAvailability([], date, 481);
    assert OnMonthGrid(960) && FitsAsWritten(960, 481);
  }

  /** One grid point of the month scan: a start that does not fit is
      skipped, any other is checked against the bookings. */
  method ScanStart(date: Date, t: int, d: int, bookings: seq<ConsultationBooking>, ghost k: nat)
    returns (v: Result<bool>)
    requires k < MonthGridSize && t == DayStart + Step * k
    ensures v.Err? || v == Ok(true) ==> ScanFrom(bookings, date, d, k) == v
    ensures v == Ok(false) ==> ScanFrom(bookings, date, d, k) == ScanFrom(bookings, date, d, k + 1)
  {
    if !FitsAsWritten(t, d) {
      return Ok(false);
    }
    v := IsTimeAvailable(date, t, d, bookings);
  }

  /** The nested loops of `check_date_availability` for one date. */
  method DayHasAvailability(date: Date, d: int, bookings: seq<ConsultationBooking>)
    returns (r: Result<bool>)
    ensures r == DayScan(bookings, date, d)
    ensures WellFormedOn(bookings, date) ==>
      r == Ok(exists t :: OnMonthGrid(t) && FitsAsWritten(t, d) && Free(bookings, date, t, d))
  {
    if WellFormedOn(bookings, date) {
      DayScanMeaning(bookings, date, d);
    }
    var minutes := [0, 15, 30, 45];
    var hasAvailability := false;
    for hour := 9 to 17
      invariant !hasAvailability
      invariant DayScan(bookings, date, d) == ScanFrom(bookings, date, d, 4 * (hour - 9))
    {
      for m := 0 to 4
        invariant !hasAvailability
        invariant DayScan(bookings, date, d) == ScanFrom(bookings, date, d, 4 * (hour - 9) + m)
      {
        var t := hour * 60 + minutes[m];
        assert t == DayStart + Step * (4 * (hour - 9) + m);
        var v := ScanStart(date, t, d, bookings, 4 * (hour - 9) + m);
        if v.Err? {
          return Err(v.error);
        }
        if v.value {
          hasAvailability := true;
          break;
        }
      }
      if hasAvailability {
        break;
      }
    }
    return Ok(hasAvailability);
  }

  /** The entry of `date` in the month view. */
  predicate EntryFor(e: DayEntry, date: Date, today: Date, bookings: seq<ConsultationBooking>, d: int) {
    && e.date == date
    && e.day == date.day
    && e.isPast == Before(date, today)
    && (e.hasAvailability <==> !e.isPast && DayScan(bookings, date, d) == Ok(true))
  }

  /** A past day is never scanned; any other day's scan must succeed. */
  predicate Readable(bookings: seq<ConsultationBooking>, date: Date, today: Date, d: int) {
    Before(date, today) || DayScan(bookings, date, d).Ok?
  }

  /** One iteration of the month loop: a past day is unavailable without a
      scan; any other day is scanned, and a failed scan raises. */
  method MonthDay(current: Date, today: Date, d: int, bookings: seq<ConsultationBooking>)
    returns (r: Result<DayEntry>)
    ensures r.Err? <==> !Readable(bookings, current, today, d)
    ensures r.Ok? ==> EntryFor(r.value, current, today, bookings, d)
  {
    if Before(current, today) {
      return Ok(DayEntry(current, current.day, false, true));
    }
    var has := DayHasAvailability(current, d, bookings);
    if has.Err? {
      return Err(has.error);
    }
    return Ok(DayEntry(current, current.day, has.value, false));
  }

  /** `check_date_availability`: one entry per calendar day of the month, in
      order.  Days before today are past and unavailable; any other day is
      available iff its scan finds a free slot.  An invalid year or month
      raises; so does a booking duration the scans cannot read. */
  method MonthAvailability(year: int, month: int, durationParam: Option<string>,
                           bookings: seq<ConsultationBooking>, today: Date)
    returns (r: Result<seq<DayEntry>>)
    ensures !ValidMonth(year, month) ==> r == Err(InvalidDate)
    ensures ValidMonth(year, month) ==>
      (r.Err? <==> exists k :: 1 <= k <= DaysInMonth(year, month) && !Before(Date(year, month, k), today) &&
                                DayScan(bookings, Date(year, month, k), MonthDuration(durationParam)).Err?)
    ensures r.Ok? ==> ValidMonth(year, month) && |r.value| == DaysInMonth(year, month)
    ensures r.Ok? ==> forall k :: 0 <= k < |r.value| ==>
      && r.value[k].date == Date(year, month, k + 1)
      && r.value[k].day == k + 1
      && r.value[k].isPast == Before(Date(year, month, k + 1), today)
      && (r.value[k].hasAvailability <==>
            !r.value[k].isPast && DayScan(bookings, Date(year, month, k + 1), MonthDuration(durationParam)) == Ok(true))
  {
    var d := MonthDuration(durationParam);
    if !ValidMonth(year, month) {
      return Err(InvalidDate);
    }
    var startDate := Date(year, month, 1);
    var endDate := FirstOfNextMonth(year, month);
    var last := DaysInMonth(year, month);
    var dates: seq<DayEntry> := [];
    var current := startDate;
    ghost var k := 1;
    while Before(current, endDate)
      invariant 1 <= k <= last + 1 && |dates| == k - 1
      invariant current == if k <= last then Date(year, month, k) else endDate
      invariant forall j :: 0 <= j < |dates| ==> EntryFor(dates[j], Date(year, month, j + 1), today, bookings, d)
      invariant forall j :: 1 <= j < k ==> Readable(bookings, Date(year, month, j), today, d)
      decreases last + 1 - k
    {
      var entry := MonthDay(current, today, d, bookings);
      if entry.Err? {
        return Err(entry.error);
      }
      dates := dates + [entry.value];
      current := NextDay(current);
      k := k + 1;
    }
    return Ok(dates);
  }
}
