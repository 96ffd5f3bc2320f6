/** The consultation slot templates of the `setup_slots` management command
    (pankaj/management/commands/setup_slots.py): a fixed weekly enumeration
    of (day, start, duration, capacity) records, written to the slot table
    with `get_or_create` keyed on (day, start, duration).

    Times of day are minutes after midnight. */
module SlotTemplates {

  datatype Day = Monday | Tuesday | Wednesday | Thursday | Friday | Saturday | Sunday

  const MinutesPerDay := 1440

  datatype SlotSpec = SlotSpec(day: Day, start: int, duration: nat, maxBookings: nat)

  /** The constants of one day's three loops.  The half-hour loop runs over
      `range(halfFirst, halfEnd)` at :00 and :30 and skips `skipHour`:30; the
      45-minute slots start at `fortyFive`; the hourly loop runs over
      `range(halfFirst, hourlyEnd)`. */
  datatype Schedule = Schedule(
    halfFirst: int, halfEnd: int, skipHour: int, halfCap: nat,
    fortyFive: seq<int>, fortyFiveCap: nat,
    hourlyEnd: int, hourlyCap: nat)

  /** Monday to Friday: 30-minute slots for three, 45-minute slots for two
      at 09:00, 11:00, 14:00 and 16:00, hourly slots for one. */
  const WeekdaySchedule := Schedule(9, 18, 17, 3, [9 * 60, 11 * 60, 14 * 60, 16 * 60], 2, 17, 1)

  /** Saturday: 30-minute slots for two, 45-minute slots for two at 10:00,
      12:30 and 14:00, hourly slots for one. */
  const SaturdaySchedule := Schedule(10, 16, 15, 2, [10 * 60, 12 * 60 + 30, 14 * 60], 2, 15, 1)

  const Weekdays := [Monday, Tuesday, Wednesday, Thursday, Friday]
  const HalfHourMinutes := [0, 30]

  /** A schedule whose loops make sense: the skipped half hour is the last
      hour's, and the 45-minute starts ascend. */
  predicate WellShaped(sch: Schedule) {
    && 0 <= sch.halfFirst < sch.halfEnd && sch.skipHour == sch.halfEnd - 1
    && sch.halfFirst <= sch.hourlyEnd
    && forall i, j :: 0 <= i < j < |sch.fortyFive| ==> sch.fortyFive[i] < sch.fortyFive[j]
  }

  // ---------------------------------------------------------------------------
  // The enumeration, as functions
  // ---------------------------------------------------------------------------

  /** The 30-minute slots the minute loop adds for `hour` after its first `n`
      steps. */
  function HourSlots(day: Day, sch: Schedule, hour: int, n: nat): seq<SlotSpec>
    requires n <= 2
  {
    if n == 0 then []
    else
      var skipped := hour == sch.skipHour && HalfHourMinutes[n - 1] == 30;
      HourSlots(day, sch, hour, n - 1) + if skipped then [] else [SlotSpec(day, hour * 60 + HalfHourMinutes[n - 1], 30, sch.halfCap)]
  }

  /** The 30-minute slots for the hours `halfFirst` up to `hourEnd` (exclusive). */
  function HalfHourSlots(day: Day, sch: Schedule, hourEnd: int): seq<SlotSpec>
    requires sch.halfFirst <= hourEnd
    decreases hourEnd - sch.halfFirst
  {
    if hourEnd == sch.halfFirst then []
    else HalfHourSlots(day, sch, hourEnd - 1) + HourSlots(day, sch, hourEnd - 1, 2)
  }

  /** The first `n` 45-minute slots. */
  function FortyFiveSlots(day: Day, sch: Schedule, n: nat): seq<SlotSpec>
    requires n <= |sch.fortyFive|
  {
    if n == 0 then []
    else FortyFiveSlots(day, sch, n - 1) + [SlotSpec(day, sch.fortyFive[n - 1], 45, sch.fortyFiveCap)]
  }

  /** The hourly slots for the hours `halfFirst` up to `hourEnd` (exclusive). */
  function HourlySlots(day: Day, sch: Schedule, hourEnd: int): seq<SlotSpec>
    requires sch.halfFirst <= hourEnd
    decreases hourEnd - sch.halfFirst
  {
    if hourEnd == sch.halfFirst then []
    else HourlySlots(day, sch, hourEnd - 1) + [SlotSpec(day, (hourEnd - 1) * 60, 60, sch.hourlyCap)]
  }

  function DaySlots(day: Day, sch: Schedule): seq<SlotSpec>
    requires sch.halfFirst <= sch.halfEnd && sch.halfFirst <= sch.hourlyEnd
  {
    HalfHourSlots(day, sch, sch.halfEnd) + FortyFiveSlots(day, sch, |sch.fortyFive|) + HourlySlots(day, sch, sch.hourlyEnd)
  }

  /** The slots of the first `n` of `days`, all with schedule `sch`. */
  function DaysSlots(days: seq<Day>, sch: Schedule, n: nat): seq<SlotSpec>
    requires n <= |days| && sch.halfFirst <= sch.halfEnd && sch.halfFirst <= sch.hourlyEnd
  {
    if n == 0 then [] else DaysSlots(days, sch, n - 1) + DaySlots(days[n - 1], sch)
  }

  /** The full list the command builds: Monday to Friday, then Saturday. */
  function Template(): seq<SlotSpec> {
    DaysSlots(Weekdays, WeekdaySchedule, |Weekdays|) + DaySlots(Saturday, SaturdaySchedule)
  }

  // ---------------------------------------------------------------------------
  // The enumeration, as the command's loops
  // ---------------------------------------------------------------------------

  /** The 30-minute loop of one day. */
  method AppendHalfHours(slots: seq<SlotSpec>, day: Day, sch: Schedule) returns (slots': seq<SlotSpec>)
    requires sch.halfFirst <= sch.halfEnd
    ensures slots' == slots + HalfHourSlots(day, sch, sch.halfEnd)
  {
    slots' := slots;
    for hour := sch.halfFirst to sch.halfEnd
      invariant slots' == slots + HalfHourSlots(day, sch, hour)
    {
      slots' := AppendHour(slots', day, sch, hour);
      assert slots' == slots + (HalfHourSlots(day, sch, hour) + HourSlots(day, sch, hour, 2));
    }
  }

  /** The minute loop of one hour: `:00` and `:30`, but no `:30` in the
      skipped hour. */
  method AppendHour(slots: seq<SlotSpec>, day: Day, sch: Schedule, hour: int) returns (slots': seq<SlotSpec>)
    ensures slots' == slots + HourSlots(day, sch, hour, 2)
  {
    slots' := slots;
    for m := 0 to 2
      invariant slots' == slots + HourSlots(day, sch, hour, m)
    {
      var minute := HalfHourMinutes[m];
      if !(hour == sch.skipHour && minute == 30) {
        slots' := slots' + [SlotSpec(day, hour * 60 + minute, 30, sch.halfCap)];
      }
    }
  }

  /** The 45-minute loop of one day. */
  method AppendFortyFive(slots: seq<SlotSpec>, day: Day, sch: Schedule) returns (slots': seq<SlotSpec>)
    ensures slots' == slots + FortyFiveSlots(day, sch, |sch.fortyFive|)
  {
    slots' := slots;
    for t := 0 to |sch.fortyFive|
      invariant slots' == slots + FortyFiveSlots(day, sch, t)
    {
      slots' := slots' + [SlotSpec(day, sch.fortyFive[t], 45, sch.fortyFiveCap)];
    }
  }

  /** The 60-minute loop of one day. */
  method AppendHourly(slots: seq<SlotSpec>, day: Day, sch: Schedule) returns (slots': seq<SlotSpec>)
    requires sch.halfFirst <= sch.hourlyEnd
    ensures slots' == slots + HourlySlots(day, sch, sch.hourlyEnd)
  {
    slots' := slots;
    for hour := sch.halfFirst to sch.hourlyEnd
      invariant slots' == slots + HourlySlots(day, sch, hour)
    {
      slots' := slots' + [SlotSpec(day, hour * 60, 60, sch.hourlyCap)];
    }
  }

  /** One day's three loops, appending to `slots`. */
  method AppendDay(slots: seq<SlotSpec>, day: Day, sch: Schedule) returns (slots': seq<SlotSpec>)
    requires sch.halfFirst <= sch.halfEnd && sch.halfFirst <= sch.hourlyEnd
    ensures slots' == slots + DaySlots(day, sch)
  {
    slots' := AppendHalfHours(slots, day, sch);
    slots' := AppendFortyFive(slots', day, sch);
    slots' := AppendHourly(slots', day, sch);
  }

  /** The enumeration of `handle`: every weekday with the weekday schedule,
      then Saturday with its own. */
  method BuildTemplate() returns (slots: seq<SlotSpec>)
    ensures slots == Template()
  {
    slots := AllDays(Weekdays, WeekdaySchedule);
    slots := AppendDay(slots, Saturday, SaturdaySchedule);
  }

  /** The loop over a list of days sharing one schedule. */
  method AllDays(days: seq<Day>, sch: Schedule) returns (slots: seq<SlotSpec>)
    requires sch.halfFirst <= sch.halfEnd && sch.halfFirst <= sch.hourlyEnd
    ensures slots == DaysSlots(days, sch, |days|)
  {
    slots := [];
    for d := 0 to |days|
      invariant slots == DaysSlots(days, sch, d)
    {
      slots := AppendDay(slots, days[d], sch);
    }
  }

  // ---------------------------------------------------------------------------
  // What the enumeration contains
  // ---------------------------------------------------------------------------

  lemma {:induction false} HalfHourSlotsSize(day: Day, sch: Schedule, hourEnd: int)
    requires sch.halfFirst <= sch.skipHour && sch.halfFirst <= hourEnd <= sch.skipHour + 1
    ensures |HalfHourSlots(day, sch, hourEnd)| == 2 * (hourEnd - sch.halfFirst) - (if hourEnd == sch.skipHour + 1 then 1 else 0)
    decreases hourEnd - sch.halfFirst
  {
    if hourEnd > sch.halfFirst {
      HalfHourSlotsSize(day, sch, hourEnd - 1);
      HourSlotsShape(day, sch, hourEnd - 1);
    }
  }

  lemma {:induction false} FortyFiveSlotsSize(day: Day, sch: Schedule, n: nat)
    requires n <= |sch.fortyFive|
    ensures |FortyFiveSlots(day, sch, n)| == n
  {
    if n > 0 {
      FortyFiveSlotsSize(day, sch, n - 1);
    }
  }

  lemma {:induction false} HourlySlotsSize(day: Day, sch: Schedule, hourEnd: int)
    requires sch.halfFirst <= hourEnd
    ensures |HourlySlots(day, sch, hourEnd)| == hourEnd - sch.halfFirst
    decreases hourEnd - sch.halfFirst
  {
    if hourEnd > sch.halfFirst {
      HourlySlotsSize(day, sch, hourEnd - 1);
    }
  }

  /** Two half-hour slots per hour less the skipped one, the 45-minute
      starts, and one hourly slot per hour. */
  function PerDay(sch: Schedule): int {
    2 * (sch.halfEnd - sch.halfFirst) - 1 + |sch.fortyFive| + (sch.hourlyEnd - sch.halfFirst)
  }

  /** The number of records one day gets. */
  lemma DaySize(day: Day, sch: Schedule)
    requires WellShaped(sch)
    ensures |DaySlots(day, sch)| == PerDay(sch)
  {
    HalfHourSlotsSize(day, sch, sch.halfEnd);
    FortyFiveSlotsSize(day, sch, |sch.fortyFive|);
    HourlySlotsSize(day, sch, sch.hourlyEnd);
  }

  /** 29 slots per weekday, 19 on Saturday, 164 in all. */
  lemma TemplateSize()
    ensures forall d :: d in Weekdays ==> |DaySlots(d, WeekdaySchedule)| == 29
    ensures |DaySlots(Saturday, SaturdaySchedule)| == 19
    ensures |Template()| == 164
  {
    WeekScheduleFacts();
    forall d | d in Weekdays
      ensures |DaySlots(d, WeekdaySchedule)| == 29
    {
      DaySize(d, WeekdaySchedule);
    }
    DaySize(Saturday, SaturdaySchedule);
    DaysSlotsSize(Weekdays, WeekdaySchedule, |Weekdays|);
  }

  lemma {:induction false} DaysSlotsSize(days: seq<Day>, sch: Schedule, n: nat)
    requires n <= |days| && WellShaped(sch)
    ensures |DaysSlots(days, sch, n)| == n * PerDay(sch)
  {
    if n > 0 {
      DaysSlotsSize(days, sch, n - 1);
      DaySize(days[n - 1], sch);
    }
  }

  // ---------------------------------------------------------------------------
  // Distinct keys
  // ---------------------------------------------------------------------------

  datatype SlotKey = SlotKey(day: Day, start: int, duration: nat)

  function KeyOf(s: SlotSpec): SlotKey {
    SlotKey(s.day, s.start, s.duration)
  }

  predicate DistinctKeys(xs: seq<SlotSpec>) {
    forall i, j :: 0 <= i < j < |xs| ==> KeyOf(xs[i]) != KeyOf(xs[j])
  }

  /** Every record of `xs` is on `day`, lasts `dur` and starts in `[lo, hi)`;
      starts strictly ascend. */
  predicate Block(xs: seq<SlotSpec>, day: Day, dur: nat, lo: int, hi: int) {
    && (forall i :: 0 <= i < |xs| ==> xs[i].day == day && xs[i].duration == dur && lo <= xs[i].start < hi)
    && (forall i, j :: 0 <= i < j < |xs| ==> xs[i].start < xs[j].start)
  }

  lemma BlockAppend(a: seq<SlotSpec>, b: seq<SlotSpec>, day: Day, dur: nat, lo: int, mid: int, hi: int)
    requires Block(a, day, dur, lo, mid) && Block(b, day, dur, mid, hi) && lo <= mid <= hi
    ensures Block(a + b, day, dur, lo, hi)
  {
    forall i | 0 <= i < |a + b|
      ensures (a + b)[i].day == day && (a + b)[i].duration == dur && lo <= (a + b)[i].start < hi
    {
      if i >= |a| {
        assert (a + b)[i] == b[i - |a|];
      } else {
        assert (a + b)[i] == a[i];
      }
    }
    forall i, j | 0 <= i < j < |a + b|
      ensures (a + b)[i].start < (a + b)[j].start
    {
      if j < |a| {
      } else if i >= |a| {
        assert (a + b)[i] == b[i - |a|] && (a + b)[j] == b[j - |a|];
      } else {
        assert (a + b)[j] == b[j - |a|];
      }
    }
  }

  /** The minute loop adds :00 always and :30 unless the hour is the skipped one. */
  lemma HourSlotsShape(day: Day, sch: Schedule, h: int)
    ensures HourSlots(day, sch, h, 2) ==
      [SlotSpec(day, h * 60, 30, sch.halfCap)] + (if h == sch.skipHour then [] else [SlotSpec(day, h * 60 + 30, 30, sch.halfCap)])
  {
    assert HourSlots(day, sch, h, 1) == [SlotSpec(day, h * 60, 30, sch.halfCap)];
  }

  lemma HourBlock(day: Day, sch: Schedule, h: int)
    ensures Block(HourSlots(day, sch, h, 2), day, 30, h * 60, h * 60 + 60)
  {
    HourSlotsShape(day, sch, h);
  }

  lemma {:induction false} HalfHourBlock(day: Day, sch: Schedule, hourEnd: int)
    requires sch.halfFirst <= hourEnd
    ensures Block(HalfHourSlots(day, sch, hourEnd), day, 30, sch.halfFirst * 60, hourEnd * 60)
    decreases hourEnd - sch.halfFirst
  {
    if hourEnd > sch.halfFirst {
      HalfHourBlock(day, sch, hourEnd - 1);
      var h := hourEnd - 1;
      HourBlock(day, sch, h);
      assert h * 60 + 60 == hourEnd * 60;
      BlockAppend(HalfHourSlots(day, sch, h), HourSlots(day, sch, h, 2), day, 30, sch.halfFirst * 60, h * 60, hourEnd * 60);
    }
  }

  lemma {:induction false} FortyFiveBlock(day: Day, sch: Schedule, n: nat)
    requires WellShaped(sch) && n <= |sch.fortyFive|
    ensures n > 0 ==> Block(FortyFiveSlots(day, sch, n), day, 45, sch.fortyFive[0], sch.fortyFive[n - 1] + 1)
    ensures n == 0 ==> FortyFiveSlots(day, sch, n) == []
  {
    if n > 1 {
      FortyFiveBlock(day, sch, n - 1);
      BlockAppend(FortyFiveSlots(day, sch, n - 1), [SlotSpec(day, sch.fortyFive[n - 1], 45, sch.fortyFiveCap)],
                  day, 45, sch.fortyFive[0], sch.fortyFive[n - 2] + 1, sch.fortyFive[n - 1] + 1);
    }
  }

  lemma {:induction false} HourlyBlock(day: Day, sch: Schedule, hourEnd: int)
    requires sch.halfFirst <= hourEnd
    ensures Block(HourlySlots(day, sch, hourEnd), day, 60, sch.halfFirst * 60, hourEnd * 60)
    decreases hourEnd - sch.halfFirst
  {
    if hourEnd > sch.halfFirst {
      HourlyBlock(day, sch, hourEnd - 1);
      BlockAppend(HourlySlots(day, sch, hourEnd - 1), [SlotSpec(day, (hourEnd - 1) * 60, 60, sch.hourlyCap)],
                  day, 60, sch.halfFirst * 60, (hourEnd - 1) * 60, hourEnd * 60);
    }
  }

  /** Records of one block have different keys. */
  lemma BlockDistinct(xs: seq<SlotSpec>, day: Day, dur: nat, lo: int, hi: int)
    requires Block(xs, day, dur, lo, hi)
    ensures DistinctKeys(xs)
  {
  }

  /** Joining two lists keeps keys distinct when no key is in both. */
  lemma DistinctAppend(a: seq<SlotSpec>, b: seq<SlotSpec>)
    requires DistinctKeys(a) && DistinctKeys(b)
    requires forall i, j :: 0 <= i < |a| && 0 <= j < |b| ==> KeyOf(a[i]) != KeyOf(b[j])
    ensures DistinctKeys(a + b)
  {
    forall i, j | 0 <= i < j < |a + b|
      ensures KeyOf((a + b)[i]) != KeyOf((a + b)[j])
    {
      if j < |a| {
      } else if i >= |a| {
        assert (a + b)[i] == b[i - |a|] && (a + b)[j] == b[j - |a|];
      } else {
        assert (a + b)[j] == b[j - |a|];
      }
    }
  }

  /** One day's records have distinct keys, all on that day: the three
      blocks differ in duration, and within a block starts ascend. */
  lemma DayDistinct(day: Day, sch: Schedule)
    requires WellShaped(sch)
    ensures DistinctKeys(DaySlots(day, sch))
    ensures forall i :: 0 <= i < |DaySlots(day, sch)| ==> DaySlots(day, sch)[i].day == day
  {
    var a := HalfHourSlots(day, sch, sch.halfEnd);
    var b := FortyFiveSlots(day, sch, |sch.fortyFive|);
    var c := HourlySlots(day, sch, sch.hourlyEnd);
    HalfHourBlock(day, sch, sch.halfEnd);
    FortyFiveBlock(day, sch, |sch.fortyFive|);
    HourlyBlock(day, sch, sch.hourlyEnd);
    assert forall i :: 0 <= i < |b| ==> b[i].day == day && b[i].duration == 45;
    DistinctAppend(a, b);
    DistinctAppend(a + b, c);
  }

  /** The days of `days` distinct and each with distinct keys: all keys distinct. */
  lemma {:induction false} DaysDistinct(days: seq<Day>, sch: Schedule, n: nat)
    requires n <= |days| && WellShaped(sch)
    requires forall i, j :: 0 <= i < j < |days| ==> days[i] != days[j]
    ensures DistinctKeys(DaysSlots(days, sch, n))
    ensures forall i :: 0 <= i < |DaysSlots(days, sch, n)| ==> DaysSlots(days, sch, n)[i].day in days[..n]
  {
    if n > 0 {
      DaysDistinct(days, sch, n - 1);
      var a := DaysSlots(days, sch, n - 1);
      var b := DaySlots(days[n - 1], sch);
      DayDistinct(days[n - 1], sch);
      forall i | 0 <= i < |a|
        ensures a[i].day != days[n - 1]
      {
        var j :| 0 <= j < n - 1 && days[j] == a[i].day;
      }
      DistinctAppend(a, b);
      forall i | 0 <= i < |a + b|
        ensures (a + b)[i].day in days[..n]
      {
        if i >= |a| {
          assert (a + b)[i] == b[i - |a|];
          assert days[n - 1] == days[..n][n - 1];
        } else {
          assert (a + b)[i] == a[i];
          assert days[..n - 1] <= days[..n];
        }
      }
    }
  }

  /** The 164 records have 164 different (day, start, duration) keys, and
      none is on a Sunday. */
  lemma TemplateDistinct()
    ensures DistinctKeys(Template())
    ensures forall i :: 0 <= i < |Template()| ==> Template()[i].day != Sunday
  {
    WeekScheduleFacts();
    WeekDistinct(Weekdays, WeekdaySchedule, Saturday, SaturdaySchedule);
  }

  /** Distinct days, each well shaped, then one more day: no key twice, and
      only the listed days occur. */
  lemma WeekDistinct(days: seq<Day>, sch: Schedule, last: Day, lastSch: Schedule)
    requires WellShaped(sch) && WellShaped(lastSch)
    requires forall i, j :: 0 <= i < j < |days| ==> days[i] != days[j]
    requires last !in days && Sunday !in days && last != Sunday
    ensures DistinctKeys(DaysSlots(days, sch, |days|) + DaySlots(last, lastSch))
    ensures forall i :: 0 <= i < |DaysSlots(days, sch, |days|) + DaySlots(last, lastSch)| ==>
      (DaysSlots(days, sch, |days|) + DaySlots(last, lastSch))[i].day != Sunday
  {
    var a := DaysSlots(days, sch, |days|);
    var b := DaySlots(last, lastSch);
    DaysDistinct(days, sch, |days|);
    DayDistinct(last, lastSch);
    assert days[..|days|] == days;
    DistinctAppend(a, b);
    forall i | 0 <= i < |a + b|
      ensures (a + b)[i].day != Sunday
    {
      if i >= |a| {
        assert (a + b)[i] == b[i - |a|];
      } else {
        assert (a + b)[i] == a[i];
      }
    }
  }

  /** The two schedules are well shaped and the five weekdays distinct. */
  lemma WeekScheduleFacts()
    ensures WellShaped(WeekdaySchedule) && WellShaped(SaturdaySchedule)
    ensures forall i, j :: 0 <= i < j < |Weekdays| ==> Weekdays[i] != Weekdays[j]
    ensures Saturday !in Weekdays && Sunday !in Weekdays
    ensures PerDay(WeekdaySchedule) == 29 && PerDay(SaturdaySchedule) == 19
  {
  }

  // ---------------------------------------------------------------------------
  // Opening hours
  // ---------------------------------------------------------------------------

  /** Every record of `xs` starts at or after `open` and ends by `close`. */
  predicate Within(xs: seq<SlotSpec>, open: int, close: int) {
    forall i :: 0 <= i < |xs| ==> open <= xs[i].start && xs[i].start + xs[i].duration <= close
  }

  /** The half-hour block ends by the last hour's :30, because that hour's
      :30 slot is skipped. */
  lemma {:induction false} HalfHourEnds(day: Day, sch: Schedule, hourEnd: int)
    requires 0 <= sch.halfFirst <= hourEnd <= sch.skipHour + 1
    ensures Within(HalfHourSlots(day, sch, hourEnd), sch.halfFirst * 60,
                   if hourEnd == sch.skipHour + 1 then sch.skipHour * 60 + 30 else hourEnd * 60)
    decreases hourEnd - sch.halfFirst
  {
    if hourEnd > sch.halfFirst {
      HalfHourEnds(day, sch, hourEnd - 1);
      HourSlotsShape(day, sch, hourEnd - 1);
      var a: seq<SlotSpec> := HalfHourSlots(day, sch, hourEnd - 1);
      var b: seq<SlotSpec> := HourSlots(day, sch, hourEnd - 1, 2);
      var close: int := if hourEnd == sch.skipHour + 1 then sch.skipHour * 60 + 30 else hourEnd * 60;
      forall i | 0 <= i < |a + b|
        ensures sch.halfFirst * 60 <= (a + b)[i].start && (a + b)[i].start + (a + b)[i].duration <= close
      {
        if i >= |a| {
          assert (a + b)[i] == b[i - |a|];
        } else {
          assert (a + b)[i] == a[i];
        }
      }
    }
  }

  lemma {:induction false} HourlyEnds(day: Day, sch: Schedule, hourEnd: int)
    requires sch.halfFirst <= hourEnd
    ensures Within(HourlySlots(day, sch, hourEnd), sch.halfFirst * 60, hourEnd * 60)
    decreases hourEnd - sch.halfFirst
  {
    if hourEnd > sch.halfFirst {
      HourlyEnds(day, sch, hourEnd - 1);
    }
  }

  /** A weekday's records lie within 09:00 to 17:30; Saturday's within 10:00
      to 15:30. */
  lemma DayWithinHours()
    ensures forall d :: d in Weekdays ==> Within(DaySlots(d, WeekdaySchedule), 9 * 60, 17 * 60 + 30)
    ensures Within(DaySlots(Saturday, SaturdaySchedule), 10 * 60, 15 * 60 + 30)
  {
    WeekScheduleFacts();
    forall d | d in Weekdays
      ensures Within(DaySlots(d, WeekdaySchedule), 9 * 60, 17 * 60 + 30)
    {
      ScheduleWithin(d, WeekdaySchedule, 9 * 60, 17 * 60 + 30);
    }
    WeekScheduleFacts();
    ScheduleWithin(Saturday, SaturdaySchedule, 10 * 60, 15 * 60 + 30);
  }

  lemma ScheduleWithin(day: Day, sch: Schedule, open: int, close: int)
    requires WellShaped(sch) && |sch.fortyFive| > 0
    requires open == sch.halfFirst * 60 && sch.skipHour * 60 + 30 <= close
    requires open <= sch.fortyFive[0] && sch.fortyFive[|sch.fortyFive| - 1] + 45 <= close
    requires sch.hourlyEnd * 60 <= close
    ensures Within(DaySlots(day, sch), open, close)
  {
    var a := HalfHourSlots(day, sch, sch.halfEnd);
    var b := FortyFiveSlots(day, sch, |sch.fortyFive|);
    var c := HourlySlots(day, sch, sch.hourlyEnd);
    HalfHourEnds(day, sch, sch.halfEnd);
    FortyFiveBlock(day, sch, |sch.fortyFive|);
    HourlyEnds(day, sch, sch.hourlyEnd);
    forall i | 0 <= i < |a + b + c|
      ensures open <= (a + b + c)[i].start && (a + b + c)[i].start + (a + b + c)[i].duration <= close
    {
      if i < |a| {
        assert (a + b + c)[i] == a[i];
      } else if i < |a| + |b| {
        assert (a + b + c)[i] == b[i - |a|];
      } else {
        assert (a + b + c)[i] == c[i - |a| - |b|];
      }
    }
  }

  /** `(datetime.combine(today, start) + timedelta(minutes=d)).time()`: the
      end as a time of day, wrapping at midnight. */
  function EndTime(start: int, duration: nat): (r: int)
    ensures 0 <= r < MinutesPerDay
    ensures 0 <= start && start + duration < MinutesPerDay ==> r == start + duration
  {
    (start + duration) % MinutesPerDay
  }

  // ---------------------------------------------------------------------------
  // Writing the records
  // ---------------------------------------------------------------------------

  /** The non-key columns of a slot row. */
  datatype SlotRow = SlotRow(end: int, maxBookings: nat, isActive: bool)

  type SlotTable = map<SlotKey, SlotRow>

  /** `get_or_create`: an existing row is left alone; a missing one is added
      with the computed end time, the capacity and `is_active=True`. */
  function GetOrCreate(table: SlotTable, s: SlotSpec): (r: SlotTable)
    ensures forall k :: k in r <==> k in table || k == KeyOf(s)
    ensures forall k :: k in table ==> r[k] == table[k]
    ensures KeyOf(s) !in table ==> r[KeyOf(s)] == SlotRow(EndTime(s.start, s.duration), s.maxBookings, true)
  {
    if KeyOf(s) in table then table
    else table[KeyOf(s) := SlotRow(EndTime(s.start, s.duration), s.maxBookings, true)]
  }

  /** The table after the first `n` records were written. */
  function Install(table: SlotTable, slots: seq<SlotSpec>, n: nat): SlotTable
    requires n <= |slots|
  {
    if n == 0 then table else GetOrCreate(Install(table, slots, n - 1), slots[n - 1])
  }

  /** How many of the first `n` writes created a row. */
  function CountNew(table: SlotTable, slots: seq<SlotSpec>, n: nat): nat
    requires n <= |slots|
  {
    if n == 0 then 0
    else CountNew(table, slots, n - 1) + (if KeyOf(slots[n - 1]) in Install(table, slots, n - 1) then 0 else 1)
  }

  /** The create loop of `handle`. */
  method WriteSlots(slots: seq<SlotSpec>, table: SlotTable) returns (table': SlotTable, createdCount: nat)
    ensures table' == Install(table, slots, |slots|)
    ensures createdCount == CountNew(table, slots, |slots|)
    ensures |table'.Keys| == |table.Keys| + createdCount
  {
    table' := table;
    createdCount := 0;
    for i := 0 to |slots|
      invariant table' == Install(table, slots, i)
      invariant createdCount == CountNew(table, slots, i)
    {
      var s := slots[i];
      var key := SlotKey(s.day, s.start, s.duration);
      if key !in table' {
        table' := table'[key := SlotRow(EndTime(s.start, s.duration), s.maxBookings, true)];
        createdCount := createdCount + 1;
      }
    }
    InstallGrowth(table, slots, |slots|);
  }

  /** The count of created rows is exactly the growth of the table. */
  lemma {:induction false} InstallGrowth(table: SlotTable, slots: seq<SlotSpec>, n: nat)
    requires n <= |slots|
    ensures |Install(table, slots, n).Keys| == |table.Keys| + CountNew(table, slots, n)
  {
    if n > 0 {
      InstallGrowth(table, slots, n - 1);
      GetOrCreateGrowth(Install(table, slots, n - 1), slots[n - 1]);
    }
  }

  /** One write adds a key exactly when the key was missing. */
  lemma GetOrCreateGrowth(t: SlotTable, s: SlotSpec)
    ensures |GetOrCreate(t, s).Keys| == |t.Keys| + if KeyOf(s) in t then 0 else 1
  {
    var k := KeyOf(s);
    if k !in t {
      assert GetOrCreate(t, s).Keys == t.Keys + {k};
    }
  }

  /** After writing, every record's key is in the table, existing rows are
      unchanged, and no other key appeared. */
  lemma {:induction false} InstallContents(table: SlotTable, slots: seq<SlotSpec>, n: nat)
    requires n <= |slots|
    ensures forall i :: 0 <= i < n ==> KeyOf(slots[i]) in Install(table, slots, n)
    ensures forall k :: k in table ==> k in Install(table, slots, n) && Install(table, slots, n)[k] == table[k]
    ensures forall k :: k in Install(table, slots, n) ==> k in table || exists i :: 0 <= i < n && KeyOf(slots[i]) == k
  {
    if n > 0 {
      InstallContents(table, slots, n - 1);
      forall k | k in Install(table, slots, n)
        ensures k in table || exists i :: 0 <= i < n && KeyOf(slots[i]) == k
      {
        if k !in Install(table, slots, n - 1) {
          assert KeyOf(slots[n - 1]) == k;
        }
      }
    }
  }

  /** A row created for a key not in the table beforehand carries the end
      time, capacity and active flag of the first record with that key. */
  lemma {:induction false} InstallNewRow(table: SlotTable, slots: seq<SlotSpec>, n: nat, i: nat)
    requires i < n <= |slots| && KeyOf(slots[i]) !in table
    requires forall j :: 0 <= j < i ==> KeyOf(slots[j]) != KeyOf(slots[i])
    ensures KeyOf(slots[i]) in Install(table, slots, n)
    ensures Install(table, slots, n)[KeyOf(slots[i])] ==
      SlotRow(EndTime(slots[i].start, slots[i].duration), slots[i].maxBookings, true)
  {
    InstallContents(table, slots, n - 1);
    if i < n - 1 {
      InstallNewRow(table, slots, n - 1, i);
    } else {
      assert KeyOf(slots[i]) !in Install(table, slots, n - 1);
    }
  }

  /** Writing records whose keys are all present changes nothing and creates
      nothing. */
  lemma {:induction false} InstallPresent(table: SlotTable, slots: seq<SlotSpec>, n: nat)
    requires n <= |slots|
    requires forall i :: 0 <= i < n ==> KeyOf(slots[i]) in table
    ensures Install(table, slots, n) == table && CountNew(table, slots, n) == 0
  {
    if n > 0 {
      InstallPresent(table, slots, n - 1);
    }
  }

  /** Running the command again creates nothing and leaves the table as it was. */
  lemma Rerun(table: SlotTable, slots: seq<SlotSpec>)
    ensures Install(Install(table, slots, |slots|), slots, |slots|) == Install(table, slots, |slots|)
    ensures CountNew(Install(table, slots, |slots|), slots, |slots|) == 0
  {
    InstallContents(table, slots, |slots|);
    InstallPresent(Install(table, slots, |slots|), slots, |slots|);
  }

  /** On a table holding none of the keys, records with distinct keys are all
      created. */
  lemma {:induction false} InstallFresh(table: SlotTable, slots: seq<SlotSpec>, n: nat)
    requires n <= |slots| && DistinctKeys(slots)
    requires forall i :: 0 <= i < |slots| ==> KeyOf(slots[i]) !in table
    ensures CountNew(table, slots, n) == n
  {
    if n > 0 {
      InstallFresh(table, slots, n - 1);
      InstallContents(table, slots, n - 1);
    }
  }

  /** `handle`: build the list, then write it. */
  method Handle(table: SlotTable) returns (table': SlotTable, createdCount: nat)
    ensures table' == Install(table, Template(), |Template()|)
    ensures createdCount == CountNew(table, Template(), |Template()|)
    ensures table == map[] ==> createdCount == 164
    ensures forall i :: 0 <= i < |Template()| ==> KeyOf(Template()[i]) in table'
  {
    var slots := BuildTemplate();
    table', createdCount := WriteSlots(slots, table);
    InstallContents(table, slots, |slots|);
    if table == map[] {
      TemplateSize();
      TemplateDistinct();
      InstallFresh(table, slots, |slots|);
    }
  }
}
