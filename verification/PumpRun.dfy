/**
 * Many wake-ups of the schedule timer in a row (daemon.c): what the triggers
 * of the events come to over a whole run.
 */
module PumpRun {
  import opened Events
  import opened LocalTime
  import opened Pump
  import opened Schedule

  // ---------- One event over one pump ----------

  /** The clock readings by which e was rescheduled, and by which that was checked. */
  ghost function Readings(j: Journal, e: Event, s: Scheduler): (run: seq<Reading>)
    ensures |run| == Count(j, e)
  {
    if j.Empty? then []
    else Readings(j.earlier, e, s)
         + if j.event == e then [Reading(s.clock.ticks(j.reading), s.clock.ticks(j.reading + 1))] else []
  }

  lemma {:induction false} TriggersGrow(kind: Kind, first: int, offset: int, run: seq<Reading>, r: Reading, z: Zone)
    ensures Triggers(kind, first, offset, run + [r], z)
         == Triggers(kind, first, offset, run, z)
            + [NextTrigger(kind, Triggers(kind, first, offset, run, z)[|run|], offset, r.computed, z)]
    decreases |run|
  {
    hide NextTrigger;
    if run == [] {
      assert run + [r] == [r] && [r][1..] == [];
    } else {
      var second := NextTrigger(kind, first, offset, run[0].computed, z);
      TriggersGrow(kind, second, offset, run[1..], r, z);
      assert (run + [r])[1..] == run[1..] + [r];
    }
  }

  /** The trigger an event is left with is the last of its triggers over those readings. */
  lemma {:induction false} TriggerIsLast(start: Snapshot, j: Journal, e: Event, s: Scheduler)
    requires start.Covers(start.trigger.Keys) && Timed(start, j, s) && e in start.trigger && !e.kind.Once?
    ensures TriggerAfter(start, j, e, s)
         == Triggers(e.kind, start.trigger[e], start.offset[e], Readings(j, e, s), s.zone)[Count(j, e)]
  {
    if j.Firing? {
      var run := Readings(j.earlier, e, s);
      TriggerIsLast(start, j.earlier, e, s);
      if j.event == e {
        TriggersGrow(e.kind, start.trigger[e], start.offset[e], run,
                     Reading(s.clock.ticks(j.reading), s.clock.ticks(j.reading + 1)), s.zone);
      } else {
        assert Readings(j, e, s) == run;
      }
    }
  }

  /** No rescheduling of e failed. */
  ghost predicate NeverFails(start: Snapshot, j: Journal, e: Event, s: Scheduler)
    requires start.Covers(start.trigger.Keys)
  {
    j.Empty? || (NeverFails(start, j.earlier, e, s) && (j.event == e ==> !RescheduleFails(start, j, s)))
  }

  lemma {:induction false} PassesNeverFails(start: Snapshot, j: Journal, e: Event, s: Scheduler)
    requires start.Covers(start.trigger.Keys) && Passes(start, j, s)
    ensures NeverFails(start, j, e, s)
  {
    if j.Firing? {
      PassesNeverFails(start, j.earlier, e, s);
    }
  }

  lemma SurvivesLonger(kind: Kind, first: int, offset: int, run: seq<Reading>, r: Reading, z: Zone)
    ensures Survives(kind, first, offset, run + [r], z) <==>
            && Survives(kind, first, offset, run, z)
            && r.checked <= Triggers(kind, first, offset, run + [r], z)[|run| + 1]
  {
    hide NextTrigger;
    TriggersGrow(kind, first, offset, run, r, z);
    assert forall k :: 0 <= k < |run| ==> (run + [r])[k] == run[k];
    assert (run + [r])[|run|] == r;
  }

  /** An event survives the pump, as a run of its own, exactly when no rescheduling of it failed. */
  lemma {:induction false} SurvivesExactly(start: Snapshot, j: Journal, e: Event, s: Scheduler)
    requires start.Covers(start.trigger.Keys) && Timed(start, j, s) && e in start.trigger && !e.kind.Once?
    ensures Survives(e.kind, start.trigger[e], start.offset[e], Readings(j, e, s), s.zone)
       <==> NeverFails(start, j, e, s)
  {
    hide NextTrigger;
    if j.Firing? {
      SurvivesExactly(start, j.earlier, e, s);
      var run, n := Readings(j.earlier, e, s), Count(j.earlier, e);
      if j.event == e {
        var r := Reading(s.clock.ticks(j.reading), s.clock.ticks(j.reading + 1));
        TriggerIsLast(start, j, e, s);
        TriggersGrow(e.kind, start.trigger[e], start.offset[e], run, r, s.zone);
        SurvivesLonger(e.kind, start.trigger[e], start.offset[e], run, r, s.zone);
      } else {
        assert Readings(j, e, s) == run;
      }
    }
  }

  lemma InOrderLater(j: Journal, now: int, later: int)
    requires InOrderUpTo(j, now) && now <= later
    ensures InOrderUpTo(j, later)
  {
  }

  /** No event is rescheduled before it has triggered. */
  lemma {:induction false} FiresWhenDue(start: Snapshot, j: Journal, e: Event, s: Scheduler)
    requires start.Covers(start.trigger.Keys) && Timed(start, j, s) && e in start.trigger && !e.kind.Once?
    requires s.clock.Valid() && InOrderUpTo(j, s.clock.ticks(start.reading))
    ensures FiredWhenDue(e.kind, start.trigger[e], start.offset[e], Readings(j, e, s), s.zone)
  {
    hide NextTrigger;
    if j.Firing? {
      InOrderLater(j.earlier, j.at, s.clock.ticks(start.reading));
      FiresWhenDue(start, j.earlier, e, s);
      var run := Readings(j.earlier, e, s);
      if j.event == e {
        ReadingsFollow(start, j, s);
        TriggerIsLast(start, j.earlier, e, s);
        TriggersGrow(e.kind, start.trigger[e], start.offset[e], run,
                     Reading(s.clock.ticks(j.reading), s.clock.ticks(j.reading + 1)), s.zone);
      } else {
        assert Readings(j, e, s) == run;
      }
    }
  }

  /** Every firing of e was rescheduled less than a day after its trigger. */
  ghost predicate WithinADay(j: Journal, e: Event, s: Scheduler) {
    j.Empty? ||
    ( && WithinADay(j.earlier, e, s)
      && (j.event == e ==> s.clock.ticks(j.reading) < j.at + SECONDS_PER_DAY) )
  }

  /** A DAILY event moves on by at least a day with each firing, and by exactly a day if none is a day late. */
  lemma {:induction false} DailyAfter(start: Snapshot, j: Journal, e: Event, s: Scheduler, now: int)
    requires start.Covers(start.trigger.Keys) && Timed(start, j, s) && e in start.trigger && InOrderUpTo(j, now)
    requires e.kind.Daily? && s.zone.Aligned() && s.clock.Valid() && now <= s.clock.ticks(start.reading)
    requires Occurrence(start.trigger[e], start.offset[e], s.zone)
    ensures Occurrence(TriggerAfter(start, j, e, s), start.offset[e], s.zone)
    ensures TriggerAfter(start, j, e, s) >= start.trigger[e] + Count(j, e) * SECONDS_PER_DAY
    ensures TriggerAfter(start, j, e, s) == start.trigger[e] + Count(j, e) * SECONDS_PER_DAY
       <==> WithinADay(j, e, s)
  {
    if j.Firing? {
      ReadingsFollow(start, j, s);
      DailyAfter(start, j.earlier, e, s, j.at);
      if j.event == e {
        DailyStep(j.at, start.offset[e], s.clock.ticks(j.reading), s.zone);
      }
    }
  }

  /** The trigger a DAILY event is left with is its next time of day after the reading it was rescheduled by. */
  lemma {:induction false} DailyIsNext(start: Snapshot, j: Journal, e: Event, s: Scheduler) returns (c: nat)
    requires start.Covers(start.trigger.Keys) && Timed(start, j, s) && e in start.trigger
    requires e.kind.Daily? && s.zone.Aligned() && Count(j, e) > 0
    ensures start.reading < c < NextReading(start, j)
    ensures IsNextOccurrence(TriggerAfter(start, j, e, s), s.clock.ticks(c), start.offset[e], s.zone)
  {
    ReadingsFollow(start, j, s);
    if j.event == e {
      c := j.reading;
      DailyIsNextOccurrence(s.clock.ticks(c), start.offset[e], s.zone);
    } else {
      c := DailyIsNext(start, j.earlier, e, s);
    }
  }

  // ---------- A run of pumps ----------

  /**
   * The pumps so far, latest last, with what each was left with. In between
   * the parsed events may have been replaced; added are the ones parsed then.
   */
  datatype History =
    | Begin(first: Snapshot)
    | Then(earlier: History, journal: Journal, last: Snapshot)
    | Reloaded(earlier: History, added: seq<Event>, last: Snapshot)

  ghost function First(h: History): Snapshot {
    if h.Begin? then h.first else First(h.earlier)
  }

  ghost function Last(h: History): Snapshot {
    if h.Begin? then h.first else h.last
  }

  /** One pump led from one snapshot to the next. */
  ghost predicate Leads(start: Snapshot, j: Journal, after: Snapshot, s: Scheduler)
    requires start.Covers(start.trigger.Keys)
  {
    && after.Covers(after.trigger.Keys) && after.reading == NextReading(start, j)
    && after.suspended == AfterActions(j, start.suspended)
    && Timed(start, j, s) && LeastFirst(start, j, s) && Passes(start, j, s)
    && InOrderUpTo(j, s.clock.ticks(start.reading))
    && after.trigger.Keys == Remaining(start, s.clock.ticks(start.reading)) + Timeouts(j)
    && FiredAsOften(start, j, s.clock.ticks(start.reading), s.zone)
    && (forall e :: e in start.trigger && e in after.trigger ==>
          && after.trigger[e] == TriggerAfter(start, j, e, s)
          && (after.offset[e] == start.offset[e] || (e.kind.Daily? && after.offset[e] == 0 > start.offset[e])))
    && (forall e :: e in after.trigger ==> after.trigger[e] > s.clock.ticks(start.reading))
  }

  /** The schedule was left as it is, or exactly its INTERNAL events were, and others were added. */
  ghost predicate Replaces(start: Snapshot, after: Snapshot) {
    && start.Covers(start.trigger.Keys) && after.Covers(after.trigger.Keys)
    && start.reading <= after.reading && after.suspended == start.suspended
    && (forall e :: e in start.trigger && e in after.trigger ==>
          after.trigger[e] == start.trigger[e] && after.offset[e] == start.offset[e])
    && (|| after.trigger.Keys == start.trigger.Keys
        || (forall e :: e in start.trigger ==> (e in after.trigger <==> e.source == SOURCE_INTERNAL)))
  }

  ghost predicate Linked(h: History, s: Scheduler) {
    if h.Begin? then h.first.Covers(h.first.trigger.Keys)
    else
      && Linked(h.earlier, s) && Last(h.earlier).Covers(Last(h.earlier).trigger.Keys)
      && if h.Then? then Leads(Last(h.earlier), h.journal, h.last, s) else Replaces(Last(h.earlier), h.last)
  }

  /** e was in the schedule all along. */
  ghost predicate Lives(h: History, e: Event) {
    if h.Begin? then e in h.first.trigger else Lives(h.earlier, e) && e in h.last.trigger
  }

  lemma LivesIsThere(h: History, e: Event)
    requires Lives(h, e)
    ensures e in First(h).trigger && e in Last(h).trigger
  {
  }

  /** How often the parsed events were replaced. */
  ghost function Reloads(h: History): nat {
    if h.Begin? then 0 else Reloads(h.earlier) + if h.Reloaded? then 1 else 0
  }

  /** Only replacing the parsed events removes events that do not trigger only once, and none that is INTERNAL. */
  lemma {:induction false} InternalLives(h: History, s: Scheduler, e: Event)
    requires Linked(h, s) && e in First(h).trigger && !e.kind.Once?
    requires e.source == SOURCE_INTERNAL || Reloads(h) == 0
    ensures Lives(h, e)
  {
    hide Timed, TriggerAfter, Count, Passes, LeastFirst;
    if !h.Begin? {
      InternalLives(h.earlier, s, e);
      LivesIsThere(h.earlier, e);
    }
  }

  /** How many pumps there were. */
  ghost function Pumps(h: History): nat {
    if h.Begin? then 0 else Pumps(h.earlier) + if h.Then? then 1 else 0
  }

  /** How often e fired in the whole run. */
  ghost function Total(h: History, e: Event): nat {
    if h.Begin? then 0 else Total(h.earlier, e) + if h.Then? then Count(h.journal, e) else 0
  }

  /** The readings of all its firings. */
  ghost function RunReadings(h: History, e: Event, s: Scheduler): (run: seq<Reading>)
    ensures |run| == Total(h, e)
  {
    if h.Begin? then []
    else RunReadings(h.earlier, e, s) + if h.Then? then Readings(h.journal, e, s) else []
  }

  lemma {:induction false} TriggersConcat(kind: Kind, first: int, offset: int, run: seq<Reading>, more: seq<Reading>,
                                          z: Zone)
    ensures var t := Triggers(kind, first, offset, run, z);
            Triggers(kind, first, offset, run + more, z) == t[..|run|] + Triggers(kind, t[|run|], offset, more, z)
    decreases |run|
  {
    hide NextTrigger;
    if run == [] {
      assert run + more == more;
    } else {
      var second := NextTrigger(kind, first, offset, run[0].computed, z);
      TriggersConcat(kind, second, offset, run[1..], more, z);
      assert (run + more)[1..] == run[1..] + more;
    }
  }

  lemma {:induction false} TriggersSanitized(kind: Kind, first: int, offset: int, run: seq<Reading>, z: Zone)
    ensures Triggers(kind, first, SanitizedOffset(kind, offset), run, z) == Triggers(kind, first, offset, run, z)
    decreases |run|
  {
    if run != [] {
      SanitizedSame(kind, first, offset, run[0].computed, z);
      TriggersSanitized(kind, NextTrigger(kind, first, offset, run[0].computed, z), offset, run[1..], z);
    }
  }

  /** A run followed by another is a run: its triggers, and what holds of both. */
  lemma RunsJoin(kind: Kind, first: int, offset: int, run: seq<Reading>, more: seq<Reading>, z: Zone)
    ensures var next := Triggers(kind, first, offset, run, z)[|run|];
            && Triggers(kind, first, offset, run + more, z)[|run| + |more|]
               == Triggers(kind, next, offset, more, z)[|more|]
            && (Survives(kind, first, offset, run, z) && Survives(kind, next, offset, more, z) ==>
                  Survives(kind, first, offset, run + more, z))
            && (FiredWhenDue(kind, first, offset, run, z) && FiredWhenDue(kind, next, offset, more, z) ==>
                  FiredWhenDue(kind, first, offset, run + more, z))
  {
    hide NextTrigger, Triggers;
    TriggersConcat(kind, first, offset, run, more, z);
    assert forall k :: 0 <= k < |run| + |more| ==>
        (run + more)[k] == if k < |run| then run[k] else more[k - |run|];
  }

  /** One pump as seen by one event that does not trigger only once. */
  lemma LeadsFor(start: Snapshot, j: Journal, after: Snapshot, s: Scheduler, e: Event)
    requires start.Covers(start.trigger.Keys) && Leads(start, j, after, s) && e in start.trigger && !e.kind.Once?
    requires s.clock.Valid()
    ensures e in after.trigger && after.Covers(after.trigger.Keys)
    ensures after.trigger[e]
         == Triggers(e.kind, start.trigger[e], start.offset[e], Readings(j, e, s), s.zone)[Count(j, e)]
    ensures SanitizedOffset(e.kind, after.offset[e]) == SanitizedOffset(e.kind, start.offset[e])
    ensures e.kind.Interval? ==> after.offset[e] == start.offset[e]
    ensures Survives(e.kind, start.trigger[e], start.offset[e], Readings(j, e, s), s.zone)
    ensures FiredWhenDue(e.kind, start.trigger[e], start.offset[e], Readings(j, e, s), s.zone)
  {
    hide NextTrigger, Passes;
    TriggerIsLast(start, j, e, s);
    PassesNeverFails(start, j, e, s);
    SurvivesExactly(start, j, e, s);
    FiresWhenDue(start, j, e, s);
  }

  lemma NoReadings(kind: Kind, first: int, offset: int, z: Zone)
    ensures Triggers(kind, first, offset, [], z)[0] == first
    ensures Survives(kind, first, offset, [], z) && FiredWhenDue(kind, first, offset, [], z)
  {
  }

  /** Offsets that scheduling replaces by the same one give the same run. */
  lemma SameOffset(kind: Kind, first: int, offset: int, other: int, run: seq<Reading>, z: Zone)
    requires SanitizedOffset(kind, offset) == SanitizedOffset(kind, other)
    ensures Triggers(kind, first, offset, run, z) == Triggers(kind, first, other, run, z)
    ensures Survives(kind, first, offset, run, z) <==> Survives(kind, first, other, run, z)
    ensures FiredWhenDue(kind, first, offset, run, z) <==> FiredWhenDue(kind, first, other, run, z)
  {
    hide SanitizedOffset, Triggers;
    TriggersSanitized(kind, first, offset, run, z);
    TriggersSanitized(kind, first, other, run, z);
  }

  /** One more pump carries the run on. */
  lemma RunThen(h: History, s: Scheduler, e: Event)
    requires h.Then? && Linked(h, s) && !e.kind.Once? && s.clock.Valid() && e in Last(h.earlier).trigger
    requires First(h).Covers(First(h).trigger.Keys) && e in First(h).trigger
    requires var start := Last(h.earlier);
             && SanitizedOffset(e.kind, start.offset[e]) == SanitizedOffset(e.kind, First(h).offset[e])
             && (e.kind.Interval? ==> start.offset[e] == First(h).offset[e])
    requires var first, offset, run := First(h).trigger[e], First(h).offset[e], RunReadings(h.earlier, e, s);
             && Last(h.earlier).trigger[e] == Triggers(e.kind, first, offset, run, s.zone)[Total(h.earlier, e)]
             && Survives(e.kind, first, offset, run, s.zone) && FiredWhenDue(e.kind, first, offset, run, s.zone)
    ensures e in h.last.trigger && h.last.Covers(h.last.trigger.Keys)
    ensures SanitizedOffset(e.kind, h.last.offset[e]) == SanitizedOffset(e.kind, First(h).offset[e])
    ensures e.kind.Interval? ==> h.last.offset[e] == First(h).offset[e]
    ensures var first, offset, run := First(h).trigger[e], First(h).offset[e], RunReadings(h, e, s);
            && h.last.trigger[e] == Triggers(e.kind, first, offset, run, s.zone)[Total(h, e)]
            && Survives(e.kind, first, offset, run, s.zone) && FiredWhenDue(e.kind, first, offset, run, s.zone)
  {
    hide Leads, NextTrigger, Triggers, Survives, FiredWhenDue, SanitizedOffset, Timed, Readings;
    var start, z, more := Last(h.earlier), s.zone, Readings(h.journal, e, s);
    var first, offset, run := First(h).trigger[e], First(h).offset[e], RunReadings(h.earlier, e, s);
    LeadsFor(start, h.journal, h.last, s, e);
    SameOffset(e.kind, start.trigger[e], start.offset[e], offset, more, z);
    RunsJoin(e.kind, first, offset, run, more, z);
  }

  /**
   * A whole run as seen by one event that stays in the schedule: what holds of
   * the triggers over its readings holds of the event.
   */
  lemma {:induction false} RunTriggers(h: History, s: Scheduler, e: Event)
    requires Linked(h, s) && Lives(h, e) && !e.kind.Once? && s.clock.Valid()
    requires First(h).Covers(First(h).trigger.Keys)
    ensures e in First(h).trigger && e in Last(h).trigger && Last(h).Covers(Last(h).trigger.Keys)
    ensures SanitizedOffset(e.kind, Last(h).offset[e]) == SanitizedOffset(e.kind, First(h).offset[e])
    ensures e.kind.Interval? ==> Last(h).offset[e] == First(h).offset[e]
    ensures var first, offset, run := First(h).trigger[e], First(h).offset[e], RunReadings(h, e, s);
            && Last(h).trigger[e] == Triggers(e.kind, first, offset, run, s.zone)[Total(h, e)]
            && Survives(e.kind, first, offset, run, s.zone) && FiredWhenDue(e.kind, first, offset, run, s.zone)
  {
    hide Leads, NextTrigger, Triggers, Survives, FiredWhenDue, SanitizedOffset;
    if h.Begin? {
      NoReadings(e.kind, First(h).trigger[e], First(h).offset[e], s.zone);
    } else {
      RunTriggers(h.earlier, s, e);
      if h.Then? {
        RunThen(h, s, e);
      } else {
        assert RunReadings(h, e, s) == RunReadings(h.earlier, e, s);
      }
    }
  }

  // ---------- What a run promises ----------

  /**
   * No drift of an INTERVAL event over a whole run: its trigger is the first
   * one plus its interval per firing. And the run goes on only while every
   * firing is rescheduled by the time it would trigger again.
   */
  lemma IntervalOverRun(h: History, s: Scheduler, e: Event)
    requires Linked(h, s) && Lives(h, e) && e.kind.Interval? && s.clock.Valid()
    requires First(h).Covers(First(h).trigger.Keys) && e in First(h).trigger
    requires First(h).trigger[e] > 0 && First(h).offset[e] >= 0
    ensures Last(h).Covers(Last(h).trigger.Keys) && e in Last(h).trigger
    ensures Last(h).offset[e] == First(h).offset[e]
    ensures Last(h).trigger[e] == First(h).trigger[e] + Total(h, e) * First(h).offset[e]
    ensures forall k :: 0 <= k < Total(h, e) ==>
              First(h).trigger[e] + k * First(h).offset[e] <= RunReadings(h, e, s)[k].computed
    ensures forall k :: 0 <= k < Total(h, e) ==>
              RunReadings(h, e, s)[k].checked <= First(h).trigger[e] + (k + 1) * First(h).offset[e]
  {
    var first, offset, run := First(h).trigger[e], First(h).offset[e], RunReadings(h, e, s);
    RunTriggers(h, s, e);
    hide Linked, Lives, NextTrigger, Triggers;
    IntervalTriggers(first, offset, run, s.zone, Total(h, e));
    IntervalSurvives(first, offset, run, s.zone);
    forall k | 0 <= k < |run|
      ensures first + k * offset <= run[k].computed
    {
      IntervalTriggers(first, offset, run, s.zone, k);
    }
  }

  ghost function Steps(h: History): nat {
    if h.Begin? then 0 else Steps(h.earlier) + 1
  }

  /** The last n steps of a run. */
  ghost function Tail(h: History, n: nat): History
    requires n <= Steps(h)
    decreases n
  {
    if n == 0 then Begin(Last(h))
    else if h.Then? then Then(Tail(h.earlier, n - 1), h.journal, h.last)
    else Reloaded(Tail(h.earlier, n - 1), h.added, h.last)
  }

  lemma LastCovers(h: History, s: Scheduler)
    requires Linked(h, s)
    ensures Last(h).Covers(Last(h).trigger.Keys)
  {
  }

  /** A run seen from any point on is a run, with the same end. */
  lemma {:induction false} TailLinked(h: History, n: nat, s: Scheduler)
    requires n <= Steps(h) && Linked(h, s)
    ensures Linked(Tail(h, n), s) && Last(Tail(h, n)) == Last(h)
    ensures First(Tail(h, n)).Covers(First(Tail(h, n)).trigger.Keys)
    decreases n
  {
    hide Leads, Replaces;
    if n > 0 {
      TailLinked(h.earlier, n - 1, s);
    } else {
      LastCovers(h, s);
    }
  }

  lemma OneMoreInterval(k: int, offset: int)
    ensures (k + 1) * offset == offset + k * offset
  {
  }

  /**
   * From the reading by which it was first scheduled: an INTERVAL event that
   * has fired n times since triggers n + 1 intervals after that reading.
   */
  lemma IntervalSinceEntry(h: History, n: nat, s: Scheduler, e: Event, offset: int, c: nat)
    requires n <= Steps(h) && Linked(h, s) && s.clock.Valid() && e.kind.Interval?
    requires First(Tail(h, n)).Covers(First(Tail(h, n)).trigger.Keys) && Lives(Tail(h, n), e)
    requires e in First(Tail(h, n)).trigger && First(Tail(h, n)).offset[e] == offset >= 0
    requires First(Tail(h, n)).trigger[e] == NextTrigger(Interval, 0, offset, s.clock.ticks(c), s.zone) > 0
    ensures e in Last(h).trigger
    ensures Last(h).trigger[e] == s.clock.ticks(c) + (Total(Tail(h, n), e) + 1) * offset
  {
    hide Linked, Lives, Total;
    TailLinked(h, n, s);
    NotDailyTrigger(Interval, 0, offset, s.clock.ticks(c), s.zone);
    IntervalOverRun(Tail(h, n), s, e);
    OneMoreInterval(Total(Tail(h, n), e), offset);
  }

  ghost predicate AlwaysWithinADay(h: History, e: Event, s: Scheduler) {
    h.Begin? || (AlwaysWithinADay(h.earlier, e, s) && (h.Then? ==> WithinADay(h.journal, e, s)))
  }

  /** One pump as seen by one DAILY event in an aligned zone. */
  lemma LeadsDaily(start: Snapshot, j: Journal, after: Snapshot, s: Scheduler, e: Event)
    requires start.Covers(start.trigger.Keys) && Leads(start, j, after, s) && e in start.trigger && e.kind.Daily?
    requires s.zone.Aligned() && s.clock.Valid() && Occurrence(start.trigger[e], start.offset[e], s.zone)
    ensures e in after.trigger && after.Covers(after.trigger.Keys)
    ensures Occurrence(after.trigger[e], after.offset[e], s.zone)
    ensures after.trigger[e] >= start.trigger[e] + Count(j, e) * SECONDS_PER_DAY
    ensures after.trigger[e] == start.trigger[e] + Count(j, e) * SECONDS_PER_DAY <==> WithinADay(j, e, s)
  {
    hide Passes, NextTrigger;
    DailyAfter(start, j, e, s, s.clock.ticks(start.reading));
  }

  /** No drift of a DAILY event over a whole run, if and only if it is never a day late. */
  lemma {:induction false} DailyOverRun(h: History, s: Scheduler, e: Event)
    requires Linked(h, s) && Lives(h, e) && First(h).Covers(First(h).trigger.Keys) && e.kind.Daily?
    requires s.zone.Aligned() && s.clock.Valid()
    requires e in First(h).trigger && Occurrence(First(h).trigger[e], First(h).offset[e], s.zone)
    ensures Last(h).Covers(Last(h).trigger.Keys) && e in Last(h).trigger
    ensures Occurrence(Last(h).trigger[e], Last(h).offset[e], s.zone)
    ensures Last(h).trigger[e] >= First(h).trigger[e] + Total(h, e) * SECONDS_PER_DAY
    ensures Last(h).trigger[e] == First(h).trigger[e] + Total(h, e) * SECONDS_PER_DAY <==> AlwaysWithinADay(h, e, s)
  {
    hide Leads, Count, Occurrence;
    if !h.Begin? {
      DailyOverRun(h.earlier, s, e);
      if h.Then? {
        LeadsDaily(Last(h.earlier), h.journal, h.last, s, e);
      }
    }
  }

  /** In every configuration: a DAILY event keeps to its day over a run exactly when each firing moves it by one. */
  lemma DailyOverRunExactly(h: History, s: Scheduler, e: Event)
    requires Linked(h, s) && Lives(h, e) && First(h).Covers(First(h).trigger.Keys) && e.kind.Daily?
    requires -SECONDS_PER_DAY < s.zone.TodayOffset() - s.zone.MktimeOffset() < SECONDS_PER_DAY && s.clock.Valid()
    requires e in First(h).trigger && Occurrence(First(h).trigger[e], First(h).offset[e], s.zone)
    ensures NoDrift(First(h).trigger[e], First(h).offset[e], RunReadings(h, e, s), s.zone)
       <==> KeepsToDay(First(h).trigger[e], First(h).offset[e], RunReadings(h, e, s), s.zone)
    ensures e in Last(h).trigger
    ensures KeepsToDay(First(h).trigger[e], First(h).offset[e], RunReadings(h, e, s), s.zone) ==>
              Last(h).trigger[e] == First(h).trigger[e] + Total(h, e) * SECONDS_PER_DAY
  {
    RunTriggers(h, s, e);
    hide Linked, Lives, NextTrigger, Triggers, KeepsToDay;
    DailyNoDriftExactly(First(h).trigger[e], First(h).offset[e], RunReadings(h, e, s), s.zone);
  }
}
