/**
 * Trigger arithmetic of the scheduler (event.c): when an event of each kind
 * triggers next, and what that means for whole runs of firings.
 *
 * Calendar conversions use one fixed time zone: a local time is an Epoch time
 * plus an offset, and a calendar date is the day number of a local time.
 */
module LocalTime {
  import opened Events

  /** What the conversions depend on; applyDst is cfg.event.apply_dst. */
  datatype Zone = Zone(standard: int, dstShift: int, dstInEffect: bool, applyDst: int) {

    /** The offset localtime_r() uses. */
    function ClockOffset(): int {
      standard + if dstInEffect then dstShift else 0
    }

    /** The offset behind today's calendar date, one hour taken off again when DST is not to be applied. */
    function TodayOffset(): int {
      ClockOffset() - if dstInEffect && applyDst == 0 then SECONDS_PER_HOUR else 0
    }

    /** The offset mktime() uses, given tm_isdst == applyDst. */
    function MktimeOffset(): int {
      if applyDst == 0 then standard
      else if applyDst > 0 then standard + dstShift
      else ClockOffset()
    }

    /** Today's date and mktime() agree on what local time means. */
    predicate Aligned() {
      TodayOffset() == MktimeOffset()
    }
  }

  function DayNumber(localTime: int): int {
    localTime / SECONDS_PER_DAY
  }

  function TimeOfDay(localTime: int): int {
    localTime % SECONDS_PER_DAY
  }

  /** Hours, minutes and seconds of an offset, as a time of day; a negative offset counts as zero. */
  function EventTimeOfDay(offset: int): int {
    var o := if offset < 0 then 0 else offset;
    var hours := (o % SECONDS_PER_DAY) / SECONDS_PER_HOUR;
    var minutes := (o % SECONDS_PER_HOUR) / SECONDS_PER_MINUTE;
    var seconds := o % SECONDS_PER_MINUTE;
    hours * SECONDS_PER_HOUR + minutes * SECONDS_PER_MINUTE + seconds
  }

  /** Quotient and remainder by a positive divisor are unique. */
  lemma Remainder(n: int, divisor: int, q: int, r: int)
    requires divisor > 0 && 0 <= r < divisor && n == q * divisor + r
    ensures n % divisor == r
  {
    var d := n / divisor - q;
    assert d * divisor == r - n % divisor;
    assert d > 0 ==> d * divisor >= divisor;
    assert d < 0 ==> d * divisor <= -divisor;
  }

  lemma EventTimeOfDayIsOffset(offset: int)
    ensures EventTimeOfDay(offset) == if offset < 0 then 0 else TimeOfDay(offset)
    ensures 0 <= EventTimeOfDay(offset) < SECONDS_PER_DAY
  {
    if offset >= 0 {
      var d, r := offset / SECONDS_PER_DAY, offset % SECONDS_PER_DAY;
      var h, s := r / SECONDS_PER_HOUR, r % SECONDS_PER_HOUR;
      Remainder(offset, SECONDS_PER_HOUR, 24 * d + h, s);
      var m, q := s / SECONDS_PER_MINUTE, s % SECONDS_PER_MINUTE;
      Remainder(offset, SECONDS_PER_MINUTE, 60 * (24 * d + h) + m, q);
    }
  }

  /** mktime() of a time of day on a day number. */
  function Mktime(day: int, timeOfDay: int, z: Zone): int {
    day * SECONDS_PER_DAY + timeOfDay - z.MktimeOffset()
  }

  /** Next trigger of a DAILY event: today at its time of day, or tomorrow when that has passed. */
  function NextDaily(now: int, offset: int, z: Zone): int {
    var today := DayNumber(now + z.TodayOffset());
    var eventTime := Mktime(today, EventTimeOfDay(offset), z);
    if eventTime <= now then Mktime(today + 1, EventTimeOfDay(offset), z) else eventTime
  }

  /** Next trigger of an event when the clock reads now. */
  function NextTrigger(kind: Kind, trigger: int, offset: int, now: int, z: Zone): int {
    if kind.Daily? then NextDaily(now, offset, z)
    else if trigger != 0 then trigger + offset
    else now + offset
  }

  /** An event that is not DAILY first triggers its offset from now, and from then on its offset from the last time. */
  lemma NotDailyTrigger(kind: Kind, trigger: int, offset: int, now: int, z: Zone)
    requires !kind.Daily?
    ensures NextTrigger(kind, trigger, offset, now, z) == (if trigger == 0 then now else trigger) + offset
  {
  }

  // ---------- What a DAILY event promises ----------

  /** t is an instant at which local clocks show the event's time of day. */
  ghost predicate Occurrence(t: int, offset: int, z: Zone) {
    TimeOfDay(t + z.MktimeOffset()) == EventTimeOfDay(offset)
  }

  /** t is the least occurrence strictly after now. */
  ghost predicate IsNextOccurrence(t: int, now: int, offset: int, z: Zone) {
    && now < t
    && Occurrence(t, offset, z)
    && forall u :: now < u < t ==> !Occurrence(u, offset, z)
  }

  /** Two occurrences are a whole number of days apart. */
  lemma OccurrencesAreDaysApart(t: int, u: int, offset: int, z: Zone)
    requires Occurrence(t, offset, z) && Occurrence(u, offset, z)
    ensures u - t == SECONDS_PER_DAY * (DayNumber(u + z.MktimeOffset()) - DayNumber(t + z.MktimeOffset()))
  {
  }

  lemma DaysLater(t: int, days: int, offset: int, z: Zone)
    requires Occurrence(t, offset, z)
    ensures Occurrence(t + days * SECONDS_PER_DAY, offset, z)
  {
    var local := t + z.MktimeOffset();
    Remainder(local + days * SECONDS_PER_DAY, SECONDS_PER_DAY, DayNumber(local) + days, TimeOfDay(local));
  }

  lemma MktimeOccurs(day: int, offset: int, z: Zone)
    ensures Occurrence(Mktime(day, EventTimeOfDay(offset), z), offset, z)
  {
    EventTimeOfDayIsOffset(offset);
  }

  /** An occurrence is the next one exactly when it is at most one day ahead. */
  lemma NextIsWithinOneDay(t: int, now: int, offset: int, z: Zone)
    requires Occurrence(t, offset, z)
    ensures IsNextOccurrence(t, now, offset, z) <==> 0 < t - now <= SECONDS_PER_DAY
  {
    var day := DayNumber(t + z.MktimeOffset());
    assert t == Mktime(day, EventTimeOfDay(offset), z);
    if t - now > SECONDS_PER_DAY {
      MktimeOccurs(day - 1, offset, z);
      assert Mktime(day - 1, EventTimeOfDay(offset), z) == t - SECONDS_PER_DAY;
    } else if 0 < t - now {
      forall u | now < u < t
        ensures !Occurrence(u, offset, z)
      {
        if Occurrence(u, offset, z) {
          OccurrencesAreDaysApart(t, u, offset, z);
          assert false;
        }
      }
    }
  }

  /** When today's date and mktime() agree, a DAILY event is scheduled for its next occurrence. */
  lemma DailyIsNextOccurrence(now: int, offset: int, z: Zone)
    requires z.Aligned()
    ensures IsNextOccurrence(NextDaily(now, offset, z), now, offset, z)
    ensures 0 < NextDaily(now, offset, z) - now <= SECONDS_PER_DAY
  {
    EventTimeOfDayIsOffset(offset);
    var today := DayNumber(now + z.TodayOffset());
    MktimeOccurs(today, offset, z);
    MktimeOccurs(today + 1, offset, z);
    NextIsWithinOneDay(NextDaily(now, offset, z), now, offset, z);
  }

  /**
   * By the clock on the wall: a DAILY event triggers within one day when local
   * time, in or out of the DST season, shows its offset.
   */
  lemma DailyOnTheWall(now: int, offset: int, standard: int, summer: bool, applyDst: int)
    requires 0 <= offset < 86400 && (summer ==> applyDst != 0)
    requires applyDst > 0 ==> summer
    ensures var t := NextDaily(now, offset, Zone(standard, 3600, summer, applyDst));
            now < t <= now + 86400 && (t + standard + (if summer then 3600 else 0)) % 86400 == offset
  {
    DailyIsNextOccurrence(now, offset, Zone(standard, 3600, summer, applyDst));
    EventTimeOfDayIsOffset(offset);
  }

  /** Without DST applied, local standard time shows it, in the DST season too. */
  lemma DailyOnTheStandardWall(now: int, offset: int, standard: int, summer: bool)
    requires 0 <= offset < 86400
    ensures var t := NextDaily(now, offset, Zone(standard, 3600, summer, 0));
            now < t <= now + 86400 && (t + standard) % 86400 == offset
  {
    DailyIsNextOccurrence(now, offset, Zone(standard, 3600, summer, 0));
    EventTimeOfDayIsOffset(offset);
  }

  /** The configurations in which they agree. */
  lemma AlignedConfigurations(z: Zone)
    ensures z.Aligned() <==>
            if z.applyDst == 0 then !z.dstInEffect || z.dstShift == SECONDS_PER_HOUR
            else if z.applyDst > 0 then z.dstInEffect || z.dstShift == 0
            else true
  {
  }

  /** How many days today's date is ahead of the date by which mktime() counts. */
  function DateLead(now: int, z: Zone): int {
    DayNumber(now + z.TodayOffset()) - DayNumber(now + z.MktimeOffset())
  }

  /** Has the event's time of day already passed, by the clock mktime() uses? */
  predicate PassedToday(now: int, offset: int, z: Zone) {
    EventTimeOfDay(offset) <= TimeOfDay(now + z.MktimeOffset())
  }

  /**
   * In every configuration: the scheduled trigger is the next occurrence
   * unless the date runs a day ahead of an event that is still to come today,
   * or a day behind an event that has passed today. In that last case, and
   * only then, the trigger is not even in the future.
   */
  lemma DailyIsNextExactly(now: int, offset: int, z: Zone)
    requires -SECONDS_PER_DAY < z.TodayOffset() - z.MktimeOffset() < SECONDS_PER_DAY
    ensures IsNextOccurrence(NextDaily(now, offset, z), now, offset, z) <==>
            ( && (DateLead(now, z) > 0 ==> PassedToday(now, offset, z))
              && (DateLead(now, z) < 0 ==> !PassedToday(now, offset, z)) )
    ensures NextDaily(now, offset, z) <= now <==> DateLead(now, z) < 0 && PassedToday(now, offset, z)
  {
    EventTimeOfDayIsOffset(offset);
    var today := DayNumber(now + z.TodayOffset());
    var day := DayNumber(now + z.MktimeOffset());
    var local := now + z.MktimeOffset();
    assert local == day * SECONDS_PER_DAY + TimeOfDay(local);
    assert -1 <= today - day <= 1;
    MktimeOccurs(today, offset, z);
    MktimeOccurs(today + 1, offset, z);
    NextIsWithinOneDay(NextDaily(now, offset, z), now, offset, z);
  }

  /** The scheduled trigger is now, or past, under conditions on the offset, the clock and the zone alone. */
  lemma DailyNotAheadExactly(now: int, offset: int, z: Zone)
    requires -SECONDS_PER_DAY < z.TodayOffset() - z.MktimeOffset() < SECONDS_PER_DAY
    ensures NextDaily(now, offset, z) == now <==>
            DateLead(now, z) < 0 && EventTimeOfDay(offset) == TimeOfDay(now + z.MktimeOffset())
    ensures NextDaily(now, offset, z) < now <==>
            DateLead(now, z) < 0 && EventTimeOfDay(offset) < TimeOfDay(now + z.MktimeOffset())
  {
    EventTimeOfDayIsOffset(offset);
    var local := now + z.MktimeOffset();
    assert local == DayNumber(local) * SECONDS_PER_DAY + TimeOfDay(local);
    assert -1 <= DateLead(now, z) <= 1;
  }

  /**
   * Outside the DST season with DST applied, a DAILY event set for less than
   * the shift after midnight that fires before midnight by standard time is
   * put back on the trigger it had.
   */
  lemma DailyRepeatsInWinter(trigger: int, offset: int, now: int, z: Zone)
    requires z.applyDst > 0 && !z.dstInEffect && 0 <= offset < z.dstShift < SECONDS_PER_DAY
    requires Occurrence(trigger, offset, z) && trigger <= now < trigger + (z.dstShift - offset)
    ensures NextDaily(now, offset, z) == trigger
  {
    EventTimeOfDayIsOffset(offset);
    var day := DayNumber(trigger + z.MktimeOffset());
    assert trigger == day * SECONDS_PER_DAY + offset - z.MktimeOffset();
    var late := now - trigger + offset - z.dstShift + SECONDS_PER_DAY;
    assert now + z.TodayOffset() == (day - 1) * SECONDS_PER_DAY + late;
    Remainder(now + z.TodayOffset(), SECONDS_PER_DAY, day - 1, late);
  }

  /**
   * Half an hour before standard-time midnight, outside the DST season, with
   * DST applied: an event set for 00:30 is scheduled for the current second,
   * and one set for 00:00 for half an hour ago.
   */
  lemma WinterWithDstApplied()
    ensures var z := Zone(0, SECONDS_PER_HOUR, false, 1);
            var now := SECONDS_PER_DAY - 1800;
            && NextDaily(now, 1800, z) == now
            && NextDaily(now, 0, z) == now - 1800
  {
    var z := Zone(0, SECONDS_PER_HOUR, false, 1);
    var now := SECONDS_PER_DAY - 1800;
    assert DayNumber(now + z.TodayOffset()) == 0;
    assert EventTimeOfDay(1800) == 1800 && EventTimeOfDay(0) == 0;
  }

  // ---------- Whole runs ----------

  /** The two clock readings of one rescheduling: when the trigger is computed, and when it is checked. */
  datatype Reading = Reading(computed: int, checked: int)

  /** The triggers of an event over a run of reschedulings. */
  ghost function Triggers(kind: Kind, first: int, offset: int, run: seq<Reading>, z: Zone): (t: seq<int>)
    ensures |t| == |run| + 1 && t[0] == first
    decreases |run|
  {
    if run == [] then [first]
    else [first] + Triggers(kind, NextTrigger(kind, first, offset, run[0].computed, z), offset, run[1..], z)
  }

  /** No rescheduling of the run found its new trigger in the past, which ends the daemon. */
  ghost predicate Survives(kind: Kind, first: int, offset: int, run: seq<Reading>, z: Zone) {
    forall k :: 0 <= k < |run| ==> run[k].checked <= Triggers(kind, first, offset, run, z)[k + 1]
  }

  /** No event is rescheduled before it has triggered. */
  ghost predicate FiredWhenDue(kind: Kind, first: int, offset: int, run: seq<Reading>, z: Zone) {
    forall k :: 0 <= k < |run| ==> Triggers(kind, first, offset, run, z)[k] <= run[k].computed
  }

  /** An INTERVAL event never drifts, however late its firings are. */
  lemma {:induction false} IntervalTriggers(first: int, interval: int, run: seq<Reading>, z: Zone, k: int)
    requires first > 0 && interval >= 0 && 0 <= k <= |run|
    ensures Triggers(Interval, first, interval, run, z)[k] == first + k * interval
    decreases k
  {
    if k > 0 {
      IntervalTriggers(first + interval, interval, run[1..], z, k - 1);
      assert Triggers(Interval, first, interval, run, z)[k]
          == Triggers(Interval, first + interval, interval, run[1..], z)[k - 1];
      assert (first + interval) + (k - 1) * interval == first + k * interval;
    }
  }

  /** A run of an INTERVAL event survives exactly when no firing is checked after its next trigger. */
  lemma IntervalSurvives(first: int, interval: int, run: seq<Reading>, z: Zone)
    requires first > 0 && interval >= 0
    ensures Survives(Interval, first, interval, run, z) <==>
            forall k :: 0 <= k < |run| ==> run[k].checked <= first + (k + 1) * interval
  {
    forall j | 0 <= j <= |run|
      ensures Triggers(Interval, first, interval, run, z)[j] == first + j * interval
    {
      IntervalTriggers(first, interval, run, z, j);
    }
  }

  /**
   * Is the event late by just so much that rescheduling moves it by one day?
   * By less than a day, unless the date is a day behind and the event's time
   * has passed (by one to two days), or a day ahead and it has not (never).
   */
  predicate MovesOneDay(trigger: int, offset: int, now: int, z: Zone) {
    if DateLead(now, z) < 0 && PassedToday(now, offset, z) then
      trigger + SECONDS_PER_DAY <= now < trigger + 2 * SECONDS_PER_DAY
    else
      now < trigger + SECONDS_PER_DAY && (DateLead(now, z) > 0 ==> PassedToday(now, offset, z))
  }

  /** In every configuration: when one rescheduling of a due DAILY event advances it by one day. */
  lemma DailyStepExactly(trigger: int, offset: int, now: int, z: Zone)
    requires -SECONDS_PER_DAY < z.TodayOffset() - z.MktimeOffset() < SECONDS_PER_DAY
    requires Occurrence(trigger, offset, z) && trigger <= now
    ensures NextDaily(now, offset, z) == trigger + SECONDS_PER_DAY <==> MovesOneDay(trigger, offset, now, z)
    ensures Occurrence(NextDaily(now, offset, z), offset, z)
  {
    EventTimeOfDayIsOffset(offset);
    var local, past := now + z.MktimeOffset(), DayNumber(trigger + z.MktimeOffset());
    var today := DayNumber(now + z.TodayOffset());
    assert local == DayNumber(local) * SECONDS_PER_DAY + TimeOfDay(local);
    assert trigger == Mktime(past, EventTimeOfDay(offset), z);
    assert -1 <= DateLead(now, z) <= 1;
    MktimeOccurs(today, offset, z);
    MktimeOccurs(today + 1, offset, z);
  }

  /** One rescheduling of a due DAILY event advances it by one day exactly when it is less than a day late. */
  lemma DailyStep(trigger: int, offset: int, now: int, z: Zone)
    requires z.Aligned() && Occurrence(trigger, offset, z) && trigger <= now
    ensures NextDaily(now, offset, z) == trigger + SECONDS_PER_DAY <==> now < trigger + SECONDS_PER_DAY
    ensures Occurrence(NextDaily(now, offset, z), offset, z)
    ensures NextDaily(now, offset, z) >= trigger + SECONDS_PER_DAY
  {
    var t := NextDaily(now, offset, z);
    DailyIsNextOccurrence(now, offset, z);
    OccurrencesAreDaysApart(trigger, t, offset, z);
  }

  /** Each trigger of a run follows from the one before. */
  lemma {:induction false} TriggersStep(kind: Kind, first: int, offset: int, run: seq<Reading>, z: Zone, k: int)
    requires 0 <= k < |run|
    ensures Triggers(kind, first, offset, run, z)[k + 1]
         == NextTrigger(kind, Triggers(kind, first, offset, run, z)[k], offset, run[k].computed, z)
    decreases k
  {
    hide NextTrigger;
    var second := NextTrigger(kind, first, offset, run[0].computed, z);
    if k > 0 {
      TriggersStep(kind, second, offset, run[1..], z, k - 1);
    }
    assert Triggers(kind, first, offset, run, z)[1..] == Triggers(kind, second, offset, run[1..], z);
  }

  /** The triggers of a DAILY run are one day apart. */
  ghost predicate NoDrift(first: int, offset: int, run: seq<Reading>, z: Zone) {
    forall k :: 0 <= k <= |run| ==> Triggers(Daily, first, offset, run, z)[k] == first + k * SECONDS_PER_DAY
  }

  /** Every firing of a DAILY run is late by just so much that it moves by one day. */
  ghost predicate KeepsToDay(first: int, offset: int, run: seq<Reading>, z: Zone) {
    forall k :: 0 <= k < |run| ==> MovesOneDay(first + k * SECONDS_PER_DAY, offset, run[k].computed, z)
  }

  lemma {:induction false} KeptDay(first: int, offset: int, run: seq<Reading>, z: Zone, k: int)
    requires -SECONDS_PER_DAY < z.TodayOffset() - z.MktimeOffset() < SECONDS_PER_DAY && Occurrence(first, offset, z)
    requires FiredWhenDue(Daily, first, offset, run, z) && KeepsToDay(first, offset, run, z) && 0 <= k <= |run|
    ensures Triggers(Daily, first, offset, run, z)[k] == first + k * SECONDS_PER_DAY
    ensures Occurrence(first + k * SECONDS_PER_DAY, offset, z)
    decreases k
  {
    if k > 0 {
      hide MovesOneDay, NextDaily, Occurrence;
      KeptDay(first, offset, run, z, k - 1);
      var t := Triggers(Daily, first, offset, run, z)[k - 1];
      assert t <= run[k - 1].computed;
      TriggersStep(Daily, first, offset, run, z, k - 1);
      DailyStepExactly(t, offset, run[k - 1].computed, z);
    }
  }

  /** In every configuration: a DAILY event keeps to its day exactly when each firing moves it by one. */
  lemma DailyNoDriftExactly(first: int, offset: int, run: seq<Reading>, z: Zone)
    requires -SECONDS_PER_DAY < z.TodayOffset() - z.MktimeOffset() < SECONDS_PER_DAY && Occurrence(first, offset, z)
    requires FiredWhenDue(Daily, first, offset, run, z)
    ensures NoDrift(first, offset, run, z) <==> KeepsToDay(first, offset, run, z)
  {
    hide MovesOneDay, NextDaily;
    var t := Triggers(Daily, first, offset, run, z);
    if NoDrift(first, offset, run, z) {
      forall k | 0 <= k < |run|
        ensures MovesOneDay(first + k * SECONDS_PER_DAY, offset, run[k].computed, z)
      {
        assert t[k] == first + k * SECONDS_PER_DAY && t[k + 1] == first + (k + 1) * SECONDS_PER_DAY;
        assert t[k] <= run[k].computed;
        TriggersStep(Daily, first, offset, run, z, k);
        DaysLater(first, k, offset, z);
        DailyStepExactly(t[k], offset, run[k].computed, z);
      }
    }
    if KeepsToDay(first, offset, run, z) {
      forall k | 0 <= k <= |run|
        ensures t[k] == first + k * SECONDS_PER_DAY
      {
        KeptDay(first, offset, run, z, k);
      }
    }
  }

  /** Every firing of a DAILY run is less than one day late. */
  ghost predicate LessThanADayLate(first: int, run: seq<Reading>) {
    forall k :: 0 <= k < |run| ==> run[k].computed < first + (k + 1) * SECONDS_PER_DAY
  }

  /** A DAILY event keeps to its day exactly when no firing is a day or more late. */
  lemma DailyNoDrift(first: int, offset: int, run: seq<Reading>, z: Zone)
    requires z.Aligned() && Occurrence(first, offset, z)
    requires FiredWhenDue(Daily, first, offset, run, z)
    ensures NoDrift(first, offset, run, z) <==> LessThanADayLate(first, run)
  {
    DailyNoDriftExactly(first, offset, run, z);
    forall k | 0 <= k < |run|
      ensures MovesOneDay(first + k * SECONDS_PER_DAY, offset, run[k].computed, z)
         <==> run[k].computed < first + (k + 1) * SECONDS_PER_DAY
    {
    }
  }
}
