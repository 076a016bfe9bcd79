/**
 * The schedule pump of the daemon's main loop (daemon.c): on each wake-up of
 * the schedule timer, every due event is executed and rescheduled until none
 * is due, and the timer is armed for the first event that remains.
 */
module Pump {
  import opened Events
  import opened LocalTime
  import opened Options
  import opened Schedule

  const IMPORTTMPFS_TIMEOUT := 60

  // ---------- One event over one pump ----------

  /** How often an event fires in one pump that read the clock as now, if it is not stuck. */
  function Firings(kind: Kind, trigger: int, offset: int, now: int): nat {
    if trigger > now then 0
    else if kind.Interval? && trigger != 0 && trigger + offset == now then 2
    else 1
  }

  /** Rescheduled with the clock at now, the event gets a trigger in the past, which ends the daemon. */
  predicate TooLate(kind: Kind, trigger: int, offset: int, now: int, z: Zone) {
    !kind.Once? && trigger <= now && NextTrigger(kind, trigger, offset, now, z) < now
  }

  /** Rescheduled with the clock at now, the event is due at now, and so it is when that is repeated. */
  predicate Stuck(kind: Kind, trigger: int, offset: int, now: int, z: Zone) {
    && !kind.Once? && trigger <= now
    && NextTrigger(kind, trigger, offset, now, z) == now && NextTrigger(kind, now, offset, now, z) == now
  }

  /** A due event is stuck or too late under conditions on its offset, the clock and the zone alone. */
  lemma StuckExactly(kind: Kind, trigger: int, offset: int, now: int, z: Zone)
    requires -SECONDS_PER_DAY < z.TodayOffset() - z.MktimeOffset() < SECONDS_PER_DAY
    ensures Stuck(kind, trigger, offset, now, z) <==>
            && trigger <= now
            && match kind
               case Once => false
               case Interval => offset == 0 && (trigger == 0 || trigger == now)
               case Daily => DateLead(now, z) < 0 && EventTimeOfDay(offset) == TimeOfDay(now + z.MktimeOffset())
    ensures TooLate(kind, trigger, offset, now, z) <==>
            && trigger <= now
            && match kind
               case Once => false
               case Interval => (if trigger == 0 then now else trigger) + offset < now
               case Daily => DateLead(now, z) < 0 && EventTimeOfDay(offset) < TimeOfDay(now + z.MktimeOffset())
  {
    DailyNotAheadExactly(now, offset, z);
  }

  /** In an aligned zone, only an empty interval is stuck, and no DAILY event is too late. */
  lemma AlignedNeverStuck(kind: Kind, trigger: int, offset: int, now: int, z: Zone)
    requires z.Aligned() && (kind.Interval? ==> offset != 0)
    ensures !Stuck(kind, trigger, offset, now, z) && !(kind.Daily? && TooLate(kind, trigger, offset, now, z))
  {
    DailyIsNextOccurrence(now, offset, z);
  }

  /**
   * Outside the DST season with DST applied, a DAILY event set for less than
   * the shift after midnight is stuck when it fires in the very second of its
   * trigger, and ends the daemon when it fires later, but before midnight by
   * standard time.
   */
  lemma StuckInWinter(trigger: int, offset: int, now: int, z: Zone)
    requires z.applyDst > 0 && !z.dstInEffect && 0 <= offset < z.dstShift < SECONDS_PER_DAY
    requires Occurrence(trigger, offset, z) && trigger <= now < trigger + (z.dstShift - offset)
    ensures if now == trigger then Stuck(Daily, trigger, offset, now, z) else TooLate(Daily, trigger, offset, now, z)
  {
    DailyRepeatsInWinter(trigger, offset, now, z);
  }

  /** A negative DAILY offset is replaced by one with the same triggers. */
  lemma SanitizedSame(kind: Kind, trigger: int, offset: int, now: int, z: Zone)
    ensures NextTrigger(kind, trigger, SanitizedOffset(kind, offset), now, z)
         == NextTrigger(kind, trigger, offset, now, z)
  {
  }

  /** An event whose trigger and offset were (t0, o0) has them at (t, o) after n firings. */
  ghost predicate Account(kind: Kind, t0: int, o0: int, t: int, o: int, n: nat, now: int, z: Zone) {
    if n == 0 then t == t0 && o == o0
    else
      && t0 <= now
      && (!kind.Once? ==> o == SanitizedOffset(kind, o0) && now <= t)
      && (kind.Interval? ==> o0 >= 0 && (t0 != 0 ==> t0 + o0 >= now))
      && (!Stuck(kind, t0, o0, now, z) ==>
            && n <= 2
            && (kind.Daily? ==> t > now)
            && (kind.Interval? && t0 == 0 ==> t > now)
            && (kind.Interval? && t0 != 0 && n == 1 ==> t == t0 + o0)
            && (n == 2 ==> kind.Interval? && t0 != 0 && t0 + o0 == now && t > now && (now != 0 ==> t == now + o0)))
  }

  /** An event still has its offset, or the one that replaces it, and a ONCE event is only fetched. */
  lemma AccountDue(kind: Kind, t0: int, o0: int, t: int, o: int, n: nat, now: int, z: Zone)
    requires Account(kind, t0, o0, t, o, n, now, z)
    ensures !kind.Once? ==> SanitizedOffset(kind, o) == SanitizedOffset(kind, o0)
    ensures kind.Once? && n == 0 && t <= now ==> Account(kind, t0, o0, t, o, 1, now, z)
  {
  }

  /** Firing a due event and rescheduling it at clock reading c, which is checked no earlier, keeps the account. */
  lemma AccountStep(kind: Kind, t0: int, o0: int, t: int, o: int, n: nat, now: int, c: int, z: Zone)
    requires !kind.Once? && Account(kind, t0, o0, t, o, n, now, z) && t <= now <= c
    requires c <= NextTrigger(kind, t, o, c, z)
    ensures !Stuck(kind, t0, o0, now, z) ==> n < 2
    ensures Account(kind, t0, o0, NextTrigger(kind, t, o, c, z), SanitizedOffset(kind, o), n + 1, now, z)
  {
    hide NextDaily;
  }

  /** With the clock standing still, rescheduling fails exactly for events that were too late at the start. */
  lemma AccountExit(kind: Kind, t0: int, o0: int, t: int, o: int, n: nat, now: int, z: Zone)
    requires !kind.Once? && Account(kind, t0, o0, t, o, n, now, z) && t <= now
    ensures NextTrigger(kind, t, o, now, z) < now <==> TooLate(kind, t0, o0, now, z)
  {
    SanitizedSame(kind, t0, o0, now, z);
  }

  /** Once an event is no longer due, its number of firings is determined. */
  lemma AccountClosed(kind: Kind, t0: int, o0: int, t: int, o: int, n: nat, now: int, z: Zone)
    requires Account(kind, t0, o0, t, o, n, now, z) && (n == 0 || !kind.Once? ==> t > now) && (kind.Once? ==> n <= 1)
    ensures if Stuck(kind, t0, o0, now, z) then n > 0 else n == Firings(kind, t0, o0, now)
    ensures kind.Interval? ==> !TooLate(kind, t0, o0, now, z)
  {
  }

  // ---------- The books kept over one pump ----------

  /**
   * The firings so far, latest last: the event, its trigger time when it was
   * fetched, the number of the first clock reading after its action, by which
   * it is rescheduled, and the timeout event it created, if any.
   */
  datatype Journal = Empty | Firing(earlier: Journal, event: Event, at: int, reading: nat, timeout: Event?)

  /** How often e has fired. */
  ghost function Count(j: Journal, e: Event): nat {
    if j.Empty? then 0 else Count(j.earlier, e) + if j.event == e then 1 else 0
  }

  ghost function Length(j: Journal): nat {
    if j.Empty? then 0 else Length(j.earlier) + 1
  }

  /** The events fired, in order. */
  ghost function Fired(j: Journal): (events: seq<Event>) {
    if j.Empty? then [] else Fired(j.earlier) + [j.event]
  }

  /** They are as many as were counted, together and for each event. */
  lemma {:induction false} FiredCounts(j: Journal, e: Event)
    ensures |Fired(j)| == Length(j) && multiset(Fired(j))[e] == Count(j, e)
  {
    if j.Firing? {
      FiredCounts(j.earlier, e);
    }
  }

  /** The timeout events created. */
  ghost function Timeouts(j: Journal): set<Event> {
    if j.Empty? then {}
    else Timeouts(j.earlier) + if j.timeout == null then {} else {j.timeout}
  }

  function AfterAction(action: Action, suspended: bool): bool {
    if action.Suspend? then true else if action.Resume? then false else suspended
  }

  /** The schedule's suspension flag after executing the events in order. */
  ghost function AfterActions(j: Journal, suspended: bool): bool {
    if j.Empty? then suspended else AfterAction(j.event.action, AfterActions(j.earlier, suspended))
  }

  /** The events fired in the order of their trigger times, the last no later than now. */
  ghost predicate InOrderUpTo(j: Journal, now: int) {
    j.Empty? || (j.at <= now && InOrderUpTo(j.earlier, j.at))
  }

  /** Every import created exactly one timeout event, an object that is new each time; nothing else did. */
  ghost predicate OnePerImport(j: Journal, known: set<Event>) {
    j.Empty? ||
    ( && OnePerImport(j.earlier, known)
      && (j.timeout != null <==> j.event.action.ImportTmpfs?)
      && (j.timeout != null ==> j.timeout !in Timeouts(j.earlier) && j.timeout !in known) )
  }

  /** Only events of the given set have fired. */
  ghost predicate FiredFrom(j: Journal, events: set<Event>) {
    j.Empty? || (j.event in events && FiredFrom(j.earlier, events))
  }

  /**
   * What the pump starts from: trigger and offset of every event in the heap,
   * the suspension flag, and the number of clock readings taken.
   */
  datatype Snapshot = Snapshot(trigger: map<Event, int>, offset: map<Event, int>, suspended: bool, reading: nat) {
    ghost predicate Covers(events: set<Event>) {
      trigger.Keys == events && offset.Keys == events
    }

    /** No INTERVAL event has an empty interval. */
    ghost predicate Sound() {
      && Covers(trigger.Keys)
      && forall e :: e in trigger && e.kind.Interval? ==> offset[e] >= 1
    }
  }

  /** The trigger of e after the firings: the one it started with, moved on by each of its own firings. */
  ghost function TriggerAfter(start: Snapshot, j: Journal, e: Event, s: Scheduler): int
    requires e in start.trigger && e in start.offset
  {
    if j.Empty? then start.trigger[e]
    else if j.event != e || e.kind.Once? then TriggerAfter(start, j.earlier, e, s)
    else NextTrigger(e.kind, j.at, start.offset[e], s.clock.ticks(j.reading), s.zone)
  }

  /** Creating a timeout event takes two clock readings: one for its trigger, and one to check that. */
  function ImportReadings(e: Event): nat {
    if e.action.ImportTmpfs? then 2 else 0
  }

  /** The number of the next clock reading, rescheduling having taken two like that. */
  ghost function NextReading(start: Snapshot, j: Journal): nat {
    if j.Empty? then start.reading + 1
    else j.reading + if j.event.kind.Once? then 0 else 2
  }

  /** Every firing was recorded at the trigger its event had then, and with the next clock readings. */
  ghost predicate Timed(start: Snapshot, j: Journal, s: Scheduler)
    requires start.Covers(start.trigger.Keys)
  {
    j.Empty? ||
    ( && j.event in start.trigger && j.at == TriggerAfter(start, j.earlier, j.event, s)
      && j.reading == NextReading(start, j.earlier) + ImportReadings(j.event)
      && Timed(start, j.earlier, s) )
  }

  /** The event is still in the heap after the firings. */
  ghost predicate Stays(j: Journal, e: Event) {
    !(e.kind.Once? && Count(j, e) > 0)
  }

  /** No event in the heap triggers before the given time. */
  ghost predicate Least(start: Snapshot, j: Journal, at: int, s: Scheduler)
    requires start.Covers(start.trigger.Keys)
  {
    forall e :: e in start.trigger && Stays(j, e) ==> at <= TriggerAfter(start, j, e, s)
  }

  /** Every firing was that of an event with the least trigger. */
  ghost predicate LeastFirst(start: Snapshot, j: Journal, s: Scheduler)
    requires start.Covers(start.trigger.Keys)
  {
    j.Empty? || (Least(start, j.earlier, j.at, s) && LeastFirst(start, j.earlier, s))
  }

  // ---------- What ends the daemon ----------

  /** The timeout event that e creates is past when checked: the clock has moved by more than its delay. */
  ghost predicate ImportLate(e: Event, first: nat, s: Scheduler) {
    e.action.ImportTmpfs? && s.clock.ticks(first) + IMPORTTMPFS_TIMEOUT < s.clock.ticks(first + 1)
  }

  ghost predicate ImportFails(start: Snapshot, j: Journal, s: Scheduler)
    requires j.Firing?
  {
    ImportLate(j.event, NextReading(start, j.earlier), s)
  }

  /** The new trigger of the event fired last is past when checked. */
  ghost predicate RescheduleFails(start: Snapshot, j: Journal, s: Scheduler)
    requires start.Covers(start.trigger.Keys) && j.Firing?
  {
    && j.event in start.trigger && !j.event.kind.Once?
    && TriggerAfter(start, j, j.event, s) < s.clock.ticks(j.reading + 1)
  }

  /** The last firing ends the daemon. */
  ghost predicate Fails(start: Snapshot, j: Journal, s: Scheduler)
    requires start.Covers(start.trigger.Keys)
  {
    j.Firing? && (ImportFails(start, j, s) || RescheduleFails(start, j, s))
  }

  /** No firing ends the daemon. */
  ghost predicate Passes(start: Snapshot, j: Journal, s: Scheduler)
    requires start.Covers(start.trigger.Keys)
  {
    j.Empty? || (!Fails(start, j, s) && Passes(start, j.earlier, s))
  }

  /** How many clock readings have been taken after the firings, of which only the last may have failed. */
  ghost function ReadTo(start: Snapshot, j: Journal, s: Scheduler): nat {
    if j.Firing? && ImportFails(start, j, s) then j.reading else NextReading(start, j)
  }

  /** The clock readings of a pump come after its first one. */
  lemma {:induction false} ReadingsFollow(start: Snapshot, j: Journal, s: Scheduler)
    requires start.Covers(start.trigger.Keys) && Timed(start, j, s)
    ensures start.reading < NextReading(start, j) && (j.Firing? ==> start.reading < j.reading)
  {
    if j.Firing? {
      ReadingsFollow(start, j.earlier, s);
    }
  }

  /** No event of the set triggers before t. */
  ghost predicate NoneBefore(t: int, events: set<Event>)
    reads events
  {
    forall e :: e in events ==> t <= e.nextTrigger
  }

  // ---------- What the events are left with ----------

  /** The events have the triggers that their firings leave them. */
  ghost predicate Triggered(start: Snapshot, j: Journal, s: Scheduler)
    requires start.Covers(start.trigger.Keys)
    reads start.trigger.Keys
  {
    forall e :: e in start.trigger ==> e.nextTrigger == TriggerAfter(start, j, e, s)
  }

  /** The same for all events but e. */
  ghost predicate TriggeredBut(start: Snapshot, j: Journal, s: Scheduler, e: Event)
    requires start.Covers(start.trigger.Keys)
    reads start.trigger.Keys - {e}
  {
    forall f :: f in start.trigger && f != e ==> f.nextTrigger == TriggerAfter(start, j, f, s)
  }

  lemma TriggerIs(start: Snapshot, j: Journal, s: Scheduler, e: Event)
    requires start.Covers(start.trigger.Keys) && e in start.trigger && Triggered(start, j, s)
    ensures e.nextTrigger == TriggerAfter(start, j, e, s) && TriggeredBut(start, j, s, e)
  {
  }

  /** One more firing moves the trigger of its event and no other. */
  lemma TriggeredNext(start: Snapshot, j: Journal, s: Scheduler, e: Event, at: int, c: nat, timeout: Event?)
    requires start.Covers(start.trigger.Keys) && e in start.trigger && TriggeredBut(start, j, s, e)
    requires at == TriggerAfter(start, j, e, s)
    requires e.nextTrigger
          == if e.kind.Once? then at else NextTrigger(e.kind, at, start.offset[e], s.clock.ticks(c), s.zone)
    ensures Triggered(start, Firing(j, e, at, c, timeout), s)
  {
    hide NextTrigger;
  }

  /** What the heap holds: all but the ONCE events fired, and the timeouts. */
  ghost function Held(start: Snapshot, j: Journal): set<Event> {
    (set e | e in start.trigger && Stays(j, e)) + Timeouts(j)
  }

  /** The trigger of the event fetched is the least. */
  lemma LeastIs(start: Snapshot, j: Journal, s: Scheduler, at: int, e: Event)
    requires start.Covers(start.trigger.Keys) && Triggered(start, j, s)
    requires e.nextTrigger == at && NoneBefore(at, Held(start, j) - {e})
    ensures Least(start, j, at, s)
  {
    hide TriggerAfter;
    forall f | f in start.trigger && Stays(j, f)
      ensures at <= TriggerAfter(start, j, f, s)
    {
      assert f in Held(start, j);
      assert f.nextTrigger == TriggerAfter(start, j, f, s);
    }
  }

  /** A firing is recorded at the trigger its event had, the least one, and with the next clock readings. */
  lemma TimedNext(start: Snapshot, j: Journal, s: Scheduler, e: Event, at: int, c: nat, timeout: Event?)
    requires start.Covers(start.trigger.Keys) && e in start.trigger && Timed(start, j, s) && LeastFirst(start, j, s)
    requires at == TriggerAfter(start, j, e, s) && Least(start, j, at, s)
    requires c == NextReading(start, j) + ImportReadings(e)
    ensures Timed(start, Firing(j, e, at, c, timeout), s)
    ensures LeastFirst(start, Firing(j, e, at, c, timeout), s)
  {
    hide Least, TriggerAfter;
  }

  /** The account of one event is right. */
  ghost predicate Booked(start: Snapshot, j: Journal, now: int, e: Event, z: Zone)
    requires e in start.trigger && e in start.offset
    reads e
  {
    && Account(e.kind, start.trigger[e], start.offset[e], e.nextTrigger, e.localOffset, Count(j, e), now, z)
    && (e.kind.Once? ==> Count(j, e) <= 1)
  }

  ghost predicate Ledger(start: Snapshot, j: Journal, now: int, z: Zone)
    requires start.Covers(start.trigger.Keys)
    reads start.trigger.Keys
  {
    forall e :: e in start.trigger ==> Booked(start, j, now, e, z)
  }

  /** The accounts of all events but e are right. */
  ghost predicate LedgerBut(start: Snapshot, j: Journal, now: int, e: Event, z: Zone)
    requires start.Covers(start.trigger.Keys)
    reads start.trigger.Keys - {e}
  {
    forall f :: f in start.trigger && f != e ==> Booked(start, j, now, f, z)
  }

  lemma BookedIs(start: Snapshot, j: Journal, now: int, e: Event, z: Zone)
    requires start.Covers(start.trigger.Keys) && e in start.trigger && Ledger(start, j, now, z)
    ensures Account(e.kind, start.trigger[e], start.offset[e], e.nextTrigger, e.localOffset, Count(j, e), now, z)
    ensures LedgerBut(start, j, now, e, z)
  {
  }

  /** One more firing changes the account of its event and no other. */
  lemma LedgerNext(start: Snapshot, j: Journal, now: int, e: Event, at: int, c: nat, timeout: Event?, z: Zone)
    requires start.Covers(start.trigger.Keys) && e in start.trigger && LedgerBut(start, j, now, e, z)
    requires e.kind.Once? ==> Count(j, e) == 0
    requires Account(e.kind, start.trigger[e], start.offset[e], e.nextTrigger, e.localOffset, Count(j, e) + 1, now, z)
    ensures Ledger(start, Firing(j, e, at, c, timeout), now, z)
  {
    hide Account;
    forall f | f in start.trigger ensures Booked(start, Firing(j, e, at, c, timeout), now, f, z) {
      assert f != e ==> Booked(start, j, now, f, z);
    }
  }

  /** t is a timeout event as an import during this pump creates it. */
  ghost predicate IsTimeout(t: Event, now: int)
    reads t
  {
    && t.kind == Once && t.action == ImportTmpfsTimeout && t.source == SOURCE_INTERNAL
    && t.localOffset == IMPORTTMPFS_TIMEOUT && t.nextTrigger >= now + IMPORTTMPFS_TIMEOUT
  }

  ghost predicate TimeoutsBooked(start: Snapshot, j: Journal, now: int)
    reads Timeouts(j)
  {
    && OnePerImport(j, start.trigger.Keys)
    && forall t :: t in Timeouts(j) ==> IsTimeout(t, now) && t !in start.trigger
  }

  /** The events the pump leaves in the heap: all but the ONCE events that were due. */
  ghost function Remaining(start: Snapshot, now: int): set<Event> {
    set e | e in start.trigger && !(e.kind.Once? && start.trigger[e] <= now)
  }

  ghost predicate StartsTooLate(start: Snapshot, e: Event, now: int, z: Zone)
    requires e in start.trigger && e in start.offset
  {
    TooLate(e.kind, start.trigger[e], start.offset[e], now, z)
  }

  ghost predicate StartsStuck(start: Snapshot, e: Event, now: int, z: Zone)
    requires e in start.trigger && e in start.offset
  {
    Stuck(e.kind, start.trigger[e], start.offset[e], now, z)
  }

  /** Some event was too late at the start. */
  ghost predicate SomeTooLate(start: Snapshot, now: int, z: Zone)
    requires start.Covers(start.trigger.Keys)
  {
    exists e :: e in start.trigger && StartsTooLate(start, e, now, z)
  }

  /** No event that was too late has fired. */
  ghost predicate NoLateFired(start: Snapshot, j: Journal, now: int, z: Zone)
    requires start.Covers(start.trigger.Keys)
  {
    forall e :: e in start.trigger && StartsTooLate(start, e, now, z) ==> Count(j, e) == 0
  }

  /** Every event has fired as often as its trigger and offset say; one that was stuck has fired at least once. */
  ghost predicate FiredAsOften(start: Snapshot, j: Journal, now: int, z: Zone)
    requires start.Covers(start.trigger.Keys)
  {
    forall e :: e in start.trigger ==>
      if StartsStuck(start, e, now, z) then Count(j, e) > 0
      else Count(j, e) == Firings(e.kind, start.trigger[e], start.offset[e], now)
  }

  /** The events that have fired less often than n times. */
  ghost function FiredLess(start: Snapshot, j: Journal, n: nat): set<Event> {
    set e | e in start.trigger && Count(j, e) < n
  }

  /** Each firing uses up one of an event's two. */
  lemma FiringsShrink(start: Snapshot, j: Journal)
    requires j.Firing? && j.event in start.trigger && Count(j.earlier, j.event) < 2
    ensures Count(j.earlier, j.event) == 0 ==> FiredLess(start, j, 1) < FiredLess(start, j.earlier, 1)
    ensures Count(j.earlier, j.event) == 1 ==>
      && FiredLess(start, j, 1) == FiredLess(start, j.earlier, 1)
      && FiredLess(start, j, 2) < FiredLess(start, j.earlier, 2)
  {
    var n := Count(j, j.event);
    assert j.event in FiredLess(start, j.earlier, n) && j.event !in FiredLess(start, j, n);
  }

  lemma StillNoLateFired(start: Snapshot, j: Journal, now: int, z: Zone)
    requires start.Covers(start.trigger.Keys) && j.Firing? && NoLateFired(start, j.earlier, now, z)
    requires j.event in start.trigger && !StartsTooLate(start, j.event, now, z)
    ensures NoLateFired(start, j, now, z)
  {
  }

  /** The events due at time t, after the firings. */
  ghost function DueAt(start: Snapshot, j: Journal, s: Scheduler, t: int): set<Event>
    requires start.Covers(start.trigger.Keys)
  {
    set e | e in start.trigger && TriggerAfter(start, j, e, s) <= t
  }

  /** Rescheduling moves an event from the due ones, if it moves it beyond t. */
  lemma DueShrinks(start: Snapshot, j: Journal, s: Scheduler, t: int)
    requires start.Covers(start.trigger.Keys) && j.Firing? && j.event in start.trigger && !j.event.kind.Once?
    requires j.at == TriggerAfter(start, j.earlier, j.event, s) && t < TriggerAfter(start, j, j.event, s)
    ensures DueAt(start, j, s, t) <= DueAt(start, j.earlier, s, t)
    ensures j.at <= t ==> DueAt(start, j, s, t) < DueAt(start, j.earlier, s, t)
  {
    assert j.at <= t ==> j.event in DueAt(start, j.earlier, s, t);
  }

  lemma DueStays(start: Snapshot, j: Journal, s: Scheduler, t: int)
    requires start.Covers(start.trigger.Keys) && j.Firing? && j.event in start.trigger
    requires j.at == TriggerAfter(start, j.earlier, j.event, s) <= t && TriggerAfter(start, j, j.event, s) <= t
    ensures DueAt(start, j, s, t) == DueAt(start, j.earlier, s, t)
  {
  }

  /**
   * Each firing brings the end of the pump closer, unless it is the firing of
   * a stuck event at now, with the clock standing still.
   */
  lemma FiringsEnd(start: Snapshot, j: Journal, s: Scheduler, now: int)
    requires start.Covers(start.trigger.Keys) && j.Firing? && j.event in start.trigger
    requires j.at == TriggerAfter(start, j.earlier, j.event, s) <= now
    requires Count(j.earlier, j.event) < 2
      || (!j.event.kind.Once? && TriggerAfter(start, j, j.event, s) > if j.at < now then now - 1 else now)
    ensures
      || FiredLess(start, j, 1) < FiredLess(start, j.earlier, 1)
      || ( && FiredLess(start, j, 1) == FiredLess(start, j.earlier, 1)
           && ( || FiredLess(start, j, 2) < FiredLess(start, j.earlier, 2)
                || ( && FiredLess(start, j, 2) == FiredLess(start, j.earlier, 2)
                     && ( || DueAt(start, j, s, now) < DueAt(start, j.earlier, s, now)
                          || ( && DueAt(start, j, s, now) == DueAt(start, j.earlier, s, now)
                               && DueAt(start, j, s, now - 1) < DueAt(start, j.earlier, s, now - 1) ) ) ) ) )
  {
    hide TriggerAfter;
    if Count(j.earlier, j.event) < 2 {
      FiringsShrink(start, j);
    } else {
      assert FiredLess(start, j, 1) == FiredLess(start, j.earlier, 1);
      assert FiredLess(start, j, 2) == FiredLess(start, j.earlier, 2);
      if TriggerAfter(start, j, j.event, s) > now {
        DueShrinks(start, j, s, now);
      } else {
        DueStays(start, j, s, now);
        DueShrinks(start, j, s, now - 1);
      }
    }
  }

  /** An event that is due was there at the start, and has not fired yet if it triggers only once. */
  lemma DueFromStart(start: Snapshot, j: Journal, now: int, e: Event)
    requires TimeoutsBooked(start, j, now) && e in Held(start, j) && e.nextTrigger <= now
    ensures e in start.trigger && e !in Timeouts(j)
    ensures e.kind.Once? ==> Count(j, e) == 0
  {
  }

  class Daemon {
    const scheduler: Scheduler
    var suspendedBySchedule: bool
    var scheduledEvents: int
    /** When the schedule timer fires next. */
    var armed: Option<int>

    constructor (scheduler: Scheduler)
      ensures this.scheduler == scheduler && !suspendedBySchedule && scheduledEvents == 0 && armed == None
    {
      this.scheduler := scheduler;
      suspendedBySchedule, scheduledEvents, armed := false, 0, None;
    }

    /** Dispatches the action of an event; importing schedules a timeout for itself. */
    method Execute(e: Event) returns (exited: bool, timeout: Event?)
      requires scheduler.Running()
      modifies `suspendedBySchedule
      modifies scheduler`todayNow, scheduler`todayDate, scheduler.clock, scheduler.heap, scheduler.heap.slots
      ensures scheduler.Running()
      ensures scheduler.heap.slots == old(scheduler.heap.slots) || fresh(scheduler.heap.slots)
      ensures scheduler.clock.count == old(scheduler.clock.count) + ImportReadings(e)
      ensures suspendedBySchedule == AfterAction(e.action, old(suspendedBySchedule))
      ensures exited <==> ImportLate(e, old(scheduler.clock.count), scheduler)
      ensures !e.action.ImportTmpfs? ==> !exited && timeout == null
      ensures e.action.ImportTmpfs? && !exited ==> timeout != null
      ensures timeout == null || exited ==> scheduler.heap.events == old(scheduler.heap.events)
      ensures !exited && timeout != null ==>
        && fresh(timeout) && timeout.kind == Once && timeout.action == ImportTmpfsTimeout
        && timeout.source == SOURCE_INTERNAL && timeout.localOffset == 60
        && timeout.nextTrigger == scheduler.clock.ticks(old(scheduler.clock.count)) + 60
        && scheduler.heap.events == old(scheduler.heap.events) + {timeout}
    {
      exited, timeout := false, null;
      match e.action {
        case Suspend =>
          suspendedBySchedule := true;
        case Resume =>
          suspendedBySchedule := false;
        case ImportTmpfs =>
          var outcome;
          outcome, timeout := scheduler.Create(CodeOfAction(ImportTmpfsTimeout), IMPORTTMPFS_TIMEOUT);
          exited := !outcome.Scheduled?;
        case _ =>
      }
    }

    /** Executes one fetched event and puts it back unless it triggers only once. */
    method Fire(e: Event) returns (exited: bool, timeout: Event?, ghost c: nat)
      requires scheduler.Running() && e !in scheduler.heap.events
      modifies `suspendedBySchedule, e
      modifies scheduler`todayNow, scheduler`todayDate, scheduler.clock, scheduler.heap, scheduler.heap.slots
      ensures scheduler.Running()
      ensures scheduler.heap.slots == old(scheduler.heap.slots) || fresh(scheduler.heap.slots)
      ensures c == old(scheduler.clock.count) + ImportReadings(e)
      ensures scheduler.clock.count
           == c + if e.kind.Once? || ImportLate(e, old(scheduler.clock.count), scheduler) then 0 else 2
      ensures suspendedBySchedule == AfterAction(e.action, old(suspendedBySchedule))
      ensures e.kind.Once? ==> e.nextTrigger == old(e.nextTrigger) && e.localOffset == old(e.localOffset)
      ensures !exited ==>
        && (timeout != null <==> e.action.ImportTmpfs?)
        && scheduler.heap.events
           == old(scheduler.heap.events) + (if e.kind.Once? then {} else {e})
              + (if timeout == null then {} else {timeout})
      ensures !exited && timeout != null ==>
        && fresh(timeout) && timeout.kind == Once && timeout.action == ImportTmpfsTimeout
        && timeout.source == SOURCE_INTERNAL && timeout.localOffset == IMPORTTMPFS_TIMEOUT
        && timeout.nextTrigger == scheduler.clock.ticks(old(scheduler.clock.count)) + IMPORTTMPFS_TIMEOUT
      ensures !exited && !e.kind.Once? ==>
        && e.localOffset == SanitizedOffset(e.kind, old(e.localOffset))
        && e.nextTrigger
           == NextTrigger(e.kind, old(e.nextTrigger), old(e.localOffset), scheduler.clock.ticks(c), scheduler.zone)
      ensures exited <==>
        || ImportLate(e, old(scheduler.clock.count), scheduler)
        || ( && !e.kind.Once?
             && NextTrigger(e.kind, old(e.nextTrigger), old(e.localOffset), scheduler.clock.ticks(c), scheduler.zone)
                < scheduler.clock.ticks(c + 1) )
    {
      exited, timeout := Execute(e);
      c := scheduler.clock.count;
      if exited || e.kind.Once? {
        return;
      }
      var outcome := scheduler.Reschedule(e);
      exited := outcome.Exited?;
    }

    /** The clock shows now from its reading number first on. */
    ghost predicate FrozenAt(first: nat, now: int) {
      forall i: nat :: first <= i ==> scheduler.clock.ticks(i) == now
    }

    /** The clock shows now in its readings from number first to before upTo. */
    ghost predicate FrozenTo(first: nat, upTo: nat, now: int) {
      forall i: nat :: first <= i < upTo ==> scheduler.clock.ticks(i) == now
    }

    /** The clock readings from the start of the pump on are no earlier than now. */
    ghost predicate ClockFrom(start: Snapshot, now: int)
      reads scheduler.clock
    {
      start.reading < scheduler.clock.count && now <= scheduler.clock.ticks(start.reading)
    }

    /** The firings are in order, and suspension flag and clock are where they leave them. */
    ghost predicate Recorded(start: Snapshot, j: Journal, now: int)
      requires start.Covers(start.trigger.Keys)
      reads `suspendedBySchedule, scheduler.clock
    {
      && InOrderUpTo(j, now) && FiredFrom(j, start.trigger.Keys)
      && Timed(start, j, scheduler) && LeastFirst(start, j, scheduler)
      && scheduler.clock.count == ReadTo(start, j, scheduler)
      && suspendedBySchedule == AfterActions(j, start.suspended)
    }

    /** The daemon goes on, and the books agree with the heap. */
    ghost predicate Balanced(start: Snapshot, j: Journal, now: int)
      requires start.Covers(start.trigger.Keys)
      reads `suspendedBySchedule, scheduler.clock
      reads scheduler.heap, scheduler.heap.events, start.trigger.Keys, Timeouts(j)
    {
      && Recorded(start, j, now) && Passes(start, j, scheduler)
      && Ledger(start, j, now, scheduler.zone) && TimeoutsBooked(start, j, now) && Triggered(start, j, scheduler)
      && scheduler.heap.events == Held(start, j)
      && (j.Firing? ==> NoneBefore(j.at, scheduler.heap.events))
    }

    /** What is recorded of one more firing, at a trigger no earlier than the last. */
    lemma RecordedNext(start: Snapshot, j: Journal, now: int, e: Event, at: int, c: nat, timeout: Event?)
      requires e in start.trigger && FiredFrom(j, start.trigger.Keys) && InOrderUpTo(j, now)
      requires at <= now && (j.Firing? ==> j.at <= at)
      requires start.Covers(start.trigger.Keys)
      requires Timed(start, Firing(j, e, at, c, timeout), scheduler)
      requires LeastFirst(start, Firing(j, e, at, c, timeout), scheduler)
      requires scheduler.clock.count == ReadTo(start, Firing(j, e, at, c, timeout), scheduler)
      requires suspendedBySchedule == AfterAction(e.action, AfterActions(j, start.suspended))
      ensures Recorded(start, Firing(j, e, at, c, timeout), now)
    {
    }

    /** Fires one due event that was just fetched, keeping the accounts. */
    method FireAccounted(e: Event, ghost start: Snapshot, ghost j: Journal, ghost now: int)
      returns (exited: bool, timeout: Event?, ghost c: nat)
      requires scheduler.Running() && e !in scheduler.heap.events
      requires start.Covers(start.trigger.Keys) && ClockFrom(start, now) && Ledger(start, j, now, scheduler.zone)
      requires e in start.trigger && (e.kind.Once? ==> Count(j, e) == 0)
      requires e.nextTrigger <= now && NoneBefore(e.nextTrigger, scheduler.heap.events)
      modifies `suspendedBySchedule, e
      modifies scheduler`todayNow, scheduler`todayDate, scheduler.clock, scheduler.heap, scheduler.heap.slots
      ensures scheduler.Running() && ClockFrom(start, now)
      ensures scheduler.heap.slots == old(scheduler.heap.slots) || fresh(scheduler.heap.slots)
      ensures suspendedBySchedule == AfterAction(e.action, old(suspendedBySchedule))
      ensures c == old(scheduler.clock.count) + ImportReadings(e)
      ensures scheduler.clock.count
           == c + if e.kind.Once? || ImportLate(e, old(scheduler.clock.count), scheduler) then 0 else 2
      ensures exited <==>
        || ImportLate(e, old(scheduler.clock.count), scheduler)
        || ( && !e.kind.Once?
             && NextTrigger(e.kind, old(e.nextTrigger), start.offset[e], scheduler.clock.ticks(c), scheduler.zone)
                < scheduler.clock.ticks(c + 1) )
      ensures !exited && (e.kind.Once? || !StartsStuck(start, e, now, scheduler.zone)) ==> Count(j, e) < 2
      ensures !exited && !e.kind.Once? ==> scheduler.clock.ticks(c) <= e.nextTrigger
      ensures !exited ==>
        e.nextTrigger
        == if e.kind.Once? then old(e.nextTrigger)
           else NextTrigger(e.kind, old(e.nextTrigger), start.offset[e], scheduler.clock.ticks(c), scheduler.zone)
      ensures !exited ==>
        && Ledger(start, Firing(j, e, old(e.nextTrigger), c, timeout), now, scheduler.zone)
        && NoneBefore(old(e.nextTrigger), scheduler.heap.events)
        && (timeout != null <==> e.action.ImportTmpfs?)
        && (timeout != null ==> fresh(timeout) && timeout !in old(scheduler.heap.events) && timeout !in start.trigger)
        && (timeout != null ==> IsTimeout(timeout, now))
        && scheduler.heap.events
           == old(scheduler.heap.events) + (if e.kind.Once? then {} else {e})
              + (if timeout == null then {} else {timeout})
      ensures FrozenTo(start.reading, scheduler.clock.count, now) ==>
        (exited <==> StartsTooLate(start, e, now, scheduler.zone))
    {
      hide Firings, NextTrigger, Account, Ledger, LedgerBut, Booked;
      ghost var t, o, k, z := e.nextTrigger, e.localOffset, Count(j, e), scheduler.zone;
      BookedIs(start, j, now, e, z);
      AccountDue(e.kind, start.trigger[e], start.offset[e], t, o, k, now, z);
      exited, timeout, c := Fire(e);
      if !e.kind.Once? {
        SanitizedSame(e.kind, t, o, scheduler.clock.ticks(c), z);
        SanitizedSame(e.kind, t, start.offset[e], scheduler.clock.ticks(c), z);
        AccountExit(e.kind, start.trigger[e], start.offset[e], t, o, k, now, z);
      }
      if exited {
        return;
      }
      if !e.kind.Once? {
        AccountStep(e.kind, start.trigger[e], start.offset[e], t, o, k, now, scheduler.clock.ticks(c), z);
      }
      LedgerNext(start, j, now, e, t, c, timeout, z);
    }

    /** Entering a firing that did not end the daemon balances the books again. */
    lemma BalancedAfterFiring(start: Snapshot, j: Journal, now: int, e: Event, at: int, c: nat, timeout: Event?)
      requires start.Covers(start.trigger.Keys) && e in start.trigger && e !in Timeouts(j)
      requires e.kind.Once? ==> Count(j, e) == 0
      requires TimeoutsBooked(start, j, now) && Recorded(start, Firing(j, e, at, c, timeout), now)
      requires Passes(start, j, scheduler) && !Fails(start, Firing(j, e, at, c, timeout), scheduler)
      requires Ledger(start, Firing(j, e, at, c, timeout), now, scheduler.zone)
      requires Triggered(start, Firing(j, e, at, c, timeout), scheduler)
      requires timeout != null <==> e.action.ImportTmpfs?
      requires timeout != null ==>
        IsTimeout(timeout, now) && timeout !in start.trigger && timeout !in Held(start, j) - {e}
      requires scheduler.heap.events
            == (Held(start, j) - {e}) + (if e.kind.Once? then {} else {e}) + (if timeout == null then {} else {timeout})
      requires NoneBefore(at, scheduler.heap.events)
      ensures Balanced(start, Firing(j, e, at, c, timeout), now)
    {
      hide Ledger, Triggered, Recorded, Fails;
      assert scheduler.heap.events == Held(start, Firing(j, e, at, c, timeout));
    }

    /** Fires one due event that was just fetched, keeping the books. */
    method FireBooked(e: Event, ghost start: Snapshot, ghost j: Journal, ghost now: int)
      returns (exited: bool, ghost after: Journal)
      requires scheduler.Running() && start.Covers(start.trigger.Keys) && ClockFrom(start, now)
      requires Recorded(start, j, now) && Ledger(start, j, now, scheduler.zone) && TimeoutsBooked(start, j, now)
      requires Triggered(start, j, scheduler)
      requires e in Held(start, j) && scheduler.heap.events == Held(start, j) - {e}
      requires e.nextTrigger <= now && NoneBefore(e.nextTrigger, scheduler.heap.events)
      requires Passes(start, j, scheduler) && (j.Firing? ==> j.at <= e.nextTrigger)
      modifies `suspendedBySchedule, e
      modifies scheduler`todayNow, scheduler`todayDate, scheduler.clock, scheduler.heap, scheduler.heap.slots
      ensures scheduler.Running() && ClockFrom(start, now) && scheduler.clock.count >= old(scheduler.clock.count)
      ensures scheduler.heap.slots == old(scheduler.heap.slots) || fresh(scheduler.heap.slots)
      ensures after.Firing? && after.event == e && after.earlier == j && e in start.trigger
      ensures after.at == TriggerAfter(start, j, e, scheduler) <= now
      ensures Recorded(start, after, now)
      ensures !exited && after.timeout != null ==> fresh(after.timeout)
      ensures !exited ==> Balanced(start, after, now)
      ensures !exited && (e.kind.Once? || !StartsStuck(start, e, now, scheduler.zone)) ==> Count(j, e) < 2
      ensures exited <==> Fails(start, after, scheduler)
      ensures !exited && !e.kind.Once? ==>
        && old(scheduler.clock.count) <= after.reading < scheduler.clock.count
        && scheduler.clock.ticks(after.reading) <= TriggerAfter(start, after, e, scheduler)
      ensures FrozenTo(start.reading, scheduler.clock.count, now) ==>
        (exited <==> StartsTooLate(start, e, now, scheduler.zone))
    {
      hide Timed, Triggered, TriggeredBut, NextTrigger, Ledger, Booked, StartsStuck, StartsTooLate, FrozenTo,
           ImportLate, Least, LeastFirst;
      DueFromStart(start, j, now, e);
      TriggerIs(start, j, scheduler, e);
      ghost var at := e.nextTrigger;
      assert Timeouts(j) <= scheduler.heap.events;
      LeastIs(start, j, scheduler, at, e);
      var timeout;
      ghost var c;
      exited, timeout, c := FireAccounted(e, start, j, now);
      assert forall t :: t in Timeouts(j) ==> IsTimeout(t, now);
      after := Firing(j, e, at, c, timeout);
      TimedNext(start, j, scheduler, e, at, c, timeout);
      RecordedNext(start, j, now, e, at, c, timeout);
      if !exited {
        TriggeredNext(start, j, scheduler, e, at, c, timeout);
        BalancedAfterFiring(start, j, now, e, at, c, timeout);
      }
    }

    /** Fetches one event and fires it, if one is due. */
    method PumpOne(pumped: int, ghost start: Snapshot, ghost j: Journal)
      returns (e: Event?, exited: bool, ghost after: Journal)
      requires scheduler.Running() && start.Covers(start.trigger.Keys) && ClockFrom(start, pumped)
      requires Balanced(start, j, pumped)
      modifies `suspendedBySchedule
      modifies scheduler`todayNow, scheduler`todayDate, scheduler.clock
      modifies scheduler.heap, scheduler.heap.slots, start.trigger.Keys
      ensures scheduler.Running() && ClockFrom(start, pumped) && scheduler.clock.count >= old(scheduler.clock.count)
      ensures scheduler.heap.slots == old(scheduler.heap.slots) || fresh(scheduler.heap.slots)
      ensures e == null ==>
        && !exited && after == j
        && (forall f :: f in scheduler.heap.events ==> f.nextTrigger > pumped)
      ensures e != null ==>
        && after.Firing? && after.event == e && after.earlier == j && e in start.trigger
        && after.at == TriggerAfter(start, j, e, scheduler) <= pumped && Passes(start, j, scheduler)
        && (exited <==> Fails(start, after, scheduler))
        && (FrozenTo(start.reading, scheduler.clock.count, pumped) ==>
              (exited <==> StartsTooLate(start, e, pumped, scheduler.zone)))
      ensures Recorded(start, after, pumped)
      ensures !exited && e != null && after.timeout != null ==> fresh(after.timeout)
      ensures !exited ==> Balanced(start, after, pumped)
      ensures !exited && e != null && (e.kind.Once? || !StartsStuck(start, e, pumped, scheduler.zone)) ==>
        Count(j, e) < 2
      ensures !exited && e != null && !e.kind.Once? ==>
        && old(scheduler.clock.count) <= after.reading < scheduler.clock.count
        && scheduler.clock.ticks(after.reading) <= TriggerAfter(start, after, e, scheduler)
    {
      hide Ledger, Triggered, Timed, InOrderUpTo, FrozenTo, StartsTooLate, StartsStuck, TimeoutsBooked, TriggerAfter,
           Fails;
      e := scheduler.heap.FetchTriggered(pumped);
      exited, after := false, j;
      if e != null {
        DueFromStart(start, j, pumped, e);
        exited, after := FireBooked(e, start, j, pumped);
      }
    }

    lemma BalancedIsRecorded(start: Snapshot, j: Journal, now: int)
      requires start.Covers(start.trigger.Keys) && Balanced(start, j, now)
      ensures Recorded(start, j, now)
    {
    }

    /** With the clock standing still, a stuck event is due after any firings. */
    lemma {:induction false} StuckStaysDue(start: Snapshot, j: Journal, now: int, e: Event)
      requires start.Covers(start.trigger.Keys) && e in start.trigger && Timed(start, j, scheduler)
      requires FrozenAt(start.reading, now) && StartsStuck(start, e, now, scheduler.zone)
      ensures TriggerAfter(start, j, e, scheduler) <= now
    {
      if j.Firing? {
        StuckStaysDue(start, j.earlier, now, e);
        ReadingsFollow(start, j, scheduler);
      }
    }

    /** So the loop never runs out of due events: with the clock standing still, only exit() can end it. */
    lemma NeverDone(start: Snapshot, j: Journal, now: int, e: Event)
      requires start.Covers(start.trigger.Keys) && e in start.trigger && Balanced(start, j, now)
      requires FrozenAt(start.reading, now) && StartsStuck(start, e, now, scheduler.zone)
      ensures e in scheduler.heap.events && e.nextTrigger <= now
    {
      StuckStaysDue(start, j, now, e);
      assert e in Held(start, j);
    }

    /** It is winter and DST is applied; until midnight by standard time, e is put back on the trigger it had. */
    ghost predicate RepeatsUntil(start: Snapshot, e: Event, until: int)
      requires e in start.trigger && e in start.offset
    {
      var z := scheduler.zone;
      && e.kind.Daily? && z.applyDst > 0 && !z.dstInEffect && 0 <= start.offset[e] < z.dstShift < SECONDS_PER_DAY
      && Occurrence(start.trigger[e], start.offset[e], z) && until == start.trigger[e] + (z.dstShift - start.offset[e])
    }

    lemma {:induction false} WinterTrigger(start: Snapshot, j: Journal, e: Event, until: int)
      requires start.Covers(start.trigger.Keys) && e in start.trigger && Timed(start, j, scheduler)
      requires RepeatsUntil(start, e, until)
      requires forall i: nat :: start.reading < i <= NextReading(start, j) ==>
                 start.trigger[e] <= scheduler.clock.ticks(i) < until
      ensures TriggerAfter(start, j, e, scheduler) == start.trigger[e]
    {
      if j.Firing? {
        ReadingsFollow(start, j, scheduler);
        WinterTrigger(start, j.earlier, e, until);
        if j.event == e {
          DailyRepeatsInWinter(start.trigger[e], start.offset[e], scheduler.clock.ticks(j.reading), scheduler.zone);
        }
      }
    }

    /** In winter, a pump with such an event due is not done before that time, however the clock moves. */
    lemma NeverDoneInWinter(start: Snapshot, j: Journal, now: int, e: Event, until: int)
      requires start.Covers(start.trigger.Keys) && e in start.trigger && Balanced(start, j, now)
      requires scheduler.clock.Valid() && ClockFrom(start, now) && start.trigger[e] <= now
      requires RepeatsUntil(start, e, until) && scheduler.clock.ticks(scheduler.clock.count) < until
      ensures e in scheduler.heap.events && e.nextTrigger == start.trigger[e]
    {
      hide Occurrence, NextTrigger;
      WinterTrigger(start, j, e, until);
      assert e in Held(start, j);
    }

    /** With the clock standing still, either no due event is stuck, or one too late is due before all that are. */
    ghost predicate Ends(start: Snapshot, now: int)
      requires start.Covers(start.trigger.Keys)
    {
      FrozenAt(start.reading, now) ==>
        || (forall e :: e in start.trigger ==> !StartsStuck(start, e, now, scheduler.zone))
        || (exists e :: e in start.trigger && start.trigger[e] < now && StartsTooLate(start, e, now, scheduler.zone))
    }

    /** A clock that does not stand still at now is past it from some reading on. */
    lemma ClockMoves(first: nat, now: int) returns (moved: nat)
      requires scheduler.clock.Valid() && now <= scheduler.clock.ticks(first)
      ensures FrozenAt(first, now) || forall i: nat :: moved <= i ==> scheduler.clock.ticks(i) > now
    {
      moved := 0;
      if !FrozenAt(first, now) {
        moved :| first <= moved && scheduler.clock.ticks(moved) != now;
      }
    }

    /** What stands still stood still before, and whatever stands still for ever does. */
    lemma Thaws(first: nat, before: nat, upTo: nat, now: int)
      requires before <= upTo
      ensures FrozenTo(first, upTo, now) ==> FrozenTo(first, before, now)
      ensures FrozenAt(first, now) ==> FrozenTo(first, upTo, now)
    {
    }

    /** While an event that is too late has not fired, no event fires at now. */
    lemma LateIsFirst(start: Snapshot, j: Journal, now: int, e: Event)
      requires start.Covers(start.trigger.Keys) && e in start.trigger && start.trigger[e] < now
      requires Balanced(start, j, now) && j.Firing? && Count(j, e) == 0
      ensures j.at < now
    {
      assert Booked(start, j, now, e, scheduler.zone);
      assert e in Held(start, j);
    }

    /** An event that was too late is due until it fires. */
    lemma LateIsDue(start: Snapshot, j: Journal, now: int)
      requires start.Covers(start.trigger.Keys) && Balanced(start, j, now)
      requires NoLateFired(start, j, now, scheduler.zone)
      requires forall f :: f in scheduler.heap.events ==> f.nextTrigger > now
      ensures !SomeTooLate(start, now, scheduler.zone)
    {
      forall e | e in start.trigger
        ensures !StartsTooLate(start, e, now, scheduler.zone)
      {
        assert Booked(start, j, now, e, scheduler.zone);
        assert Count(j, e) == 0 ==> e in Held(start, j);
      }
    }

    /** Fires events until none is due. */
    method PumpDue(pumped: int, ghost start: Snapshot) returns (exited: bool, n: nat, ghost journal: Journal)
      requires scheduler.Running() && start.Covers(start.trigger.Keys) && ClockFrom(start, pumped)
      requires Balanced(start, Empty, pumped) && Ends(start, pumped)
      modifies `suspendedBySchedule
      modifies scheduler`todayNow, scheduler`todayDate, scheduler.clock
      modifies scheduler.heap, scheduler.heap.slots, start.trigger.Keys
      ensures scheduler.Running() && ClockFrom(start, pumped)
      ensures scheduler.heap.slots == old(scheduler.heap.slots) || fresh(scheduler.heap.slots)
      ensures n == Length(journal) && Recorded(start, journal, pumped)
      ensures !exited ==> forall t :: t in Timeouts(journal) ==> fresh(t)
      ensures !exited ==>
        && Balanced(start, journal, pumped)
        && (forall e :: e in scheduler.heap.events ==> e.nextTrigger > pumped)
      ensures exited <==> Fails(start, journal, scheduler)
      ensures Passes(start, if exited then journal.earlier else journal, scheduler)
      ensures FrozenTo(start.reading, scheduler.clock.count, pumped) ==>
        (exited <==> SomeTooLate(start, pumped, scheduler.zone))
    {
      hide Balanced, Recorded, FrozenAt, FrozenTo, StartsTooLate, StartsStuck, TriggerAfter, ImportFails,
           RescheduleFails;
      BalancedIsRecorded(start, Empty, pumped);
      ghost var moved := ClockMoves(start.reading, pumped);
      journal, exited, n := Empty, false, 0;
      var more := true;
      while more
        invariant scheduler.Running() && ClockFrom(start, pumped)
        invariant scheduler.heap.slots == old(scheduler.heap.slots) || fresh(scheduler.heap.slots)
        invariant n == Length(journal) && Recorded(start, journal, pumped)
        invariant !exited ==> Balanced(start, journal, pumped) && forall t :: t in Timeouts(journal) ==> fresh(t)
        invariant !exited && !more ==> forall e :: e in scheduler.heap.events ==> e.nextTrigger > pumped
        invariant exited ==> !more
        invariant exited <==> Fails(start, journal, scheduler)
        invariant Passes(start, if exited then journal.earlier else journal, scheduler)
        invariant FrozenTo(start.reading, scheduler.clock.count, pumped) ==>
          if exited then SomeTooLate(start, pumped, scheduler.zone)
          else NoLateFired(start, journal, pumped, scheduler.zone)
        decreases more, if scheduler.clock.count < moved then moved - scheduler.clock.count else 0,
          FiredLess(start, journal, 1), FiredLess(start, journal, 2),
          DueAt(start, journal, scheduler, pumped), DueAt(start, journal, scheduler, pumped - 1)
      {
        ghost var taken := scheduler.clock.count;
        var e;
        e, exited, journal := PumpOne(pumped, start, journal);
        Thaws(start.reading, taken, scheduler.clock.count, pumped);
        if e != null {
          n := n + 1;
          if !exited && (Count(journal.earlier, e) < 2 || moved <= taken) {
            if Count(journal.earlier, e) >= 2 && FrozenAt(start.reading, pumped) {
              ghost var late :| late in start.trigger && start.trigger[late] < pumped
                && StartsTooLate(start, late, pumped, scheduler.zone);
              LateIsFirst(start, journal, pumped, late);
            }
            FiringsEnd(start, journal, scheduler, pumped);
          }
          if !exited && FrozenTo(start.reading, scheduler.clock.count, pumped) {
            StillNoLateFired(start, journal, pumped, scheduler.zone);
          }
        }
        more := e != null && !exited;
      }
      if !exited && FrozenTo(start.reading, scheduler.clock.count, pumped) {
        LateIsDue(start, journal, pumped);
      }
    }

    /** What a pump would start from now. */
    ghost function Taken(): (start: Snapshot)
      reads `suspendedBySchedule, scheduler.heap, scheduler.heap.events, scheduler.clock
      ensures start.trigger.Keys == start.offset.Keys == scheduler.heap.events
    {
      Snapshot(
        map e | e in scheduler.heap.events :: e.nextTrigger,
        map e | e in scheduler.heap.events :: e.localOffset,
        suspendedBySchedule, scheduler.clock.count)
    }

    /** The outcome of a pump that started from the snapshot and did not end the daemon. */
    ghost predicate Pumped(start: Snapshot, journal: Journal, now: int)
      requires start.Covers(start.trigger.Keys)
      reads scheduler.heap, scheduler.heap.events, start.trigger.Keys, Timeouts(journal)
    {
      // How often each event fires.
      && FiredAsOften(start, journal, now, scheduler.zone)
      && (forall e :: e in start.trigger && e.kind.Interval? ==> !StartsTooLate(start, e, now, scheduler.zone))
      // What the heap holds afterwards, and with which triggers.
      && scheduler.heap.events == Remaining(start, now) + Timeouts(journal)
      && TimeoutsBooked(start, journal, now)
      && Ledger(start, journal, now, scheduler.zone) && Triggered(start, journal, scheduler)
      && (forall e :: e in scheduler.heap.events ==> e.nextTrigger > now)
    }

    /** The timer is armed for the least trigger of the events, if any. */
    ghost predicate ArmedFor(events: set<Event>)
      reads `armed, events
    {
      && (armed.None? <==> events == {})
      && (armed.Some? ==>
            && (exists e :: e in events && e.nextTrigger == armed.value)
            && (forall e :: e in events ==> armed.value <= e.nextTrigger))
    }

    ghost predicate ArmedForNext()
      reads `armed, scheduler.heap, scheduler.heap.events
    {
      ArmedFor(scheduler.heap.events)
    }

    /** What daemon_initialize() does to the schedule: it sets the timer first, and then replaces the parsed events. */
    method Initialize()
      requires scheduler.Valid() && scheduler.Separate()
      modifies `armed, scheduler.heap, scheduler.heap.slots, scheduler`parsed, scheduler.parsed
      ensures scheduler.Valid() && scheduler.TestSchedule() == []
      ensures scheduler.heap.slots == old(scheduler.heap.slots) || fresh(scheduler.heap.slots)
      ensures fresh(scheduler.parsed) || scheduler.parsed == old(scheduler.parsed)
      ensures scheduler.heap.events
           == KeptFrom(old(scheduler.heap.events), SOURCE_PARSED) + set e | e in old(scheduler.TestSchedule())
      ensures ArmedFor(old(scheduler.heap.events))
      ensures old(scheduler.heap.events) == {} ==> armed == None
      ensures old(scheduler.heap.events) != {} ==>
        && armed.Some? && (forall e :: e in old(scheduler.heap.events) ==> armed.value <= e.nextTrigger)
        && (exists e :: e in old(scheduler.heap.events) && e.nextTrigger == armed.value)
    {
      var next := scheduler.heap.Peek();
      armed := if next == null then None else Some(next.nextTrigger);
      var freed := scheduler.ReplaceParsed();
    }

    /** Counts the events processed and sets the timer to wake up for the next one. */
    method Arm(n: nat)
      requires scheduler.heap.Valid()
      modifies `scheduledEvents, `armed
      ensures scheduledEvents == old(scheduledEvents) + n && ArmedForNext()
      ensures scheduler.heap.events == {} ==> armed == None
      ensures scheduler.heap.events != {} ==>
        && armed.Some? && (forall e :: e in scheduler.heap.events ==> armed.value <= e.nextTrigger)
        && (exists e :: e in scheduler.heap.events && e.nextTrigger == armed.value)
    {
      scheduledEvents := scheduledEvents + n;
      var next := scheduler.heap.Peek();
      armed := if next == null then None else Some(next.nextTrigger);
    }

    /** The clock reading by which the pump decides what is due. */
    ghost function FirstReading(start: Snapshot): int {
      scheduler.clock.ticks(start.reading)
    }

    /** Before anything has fired, the books are balanced. */
    lemma BalancedAtStart(start: Snapshot, now: int)
      requires start.Covers(scheduler.heap.events) && start.reading + 1 == scheduler.clock.count
      requires start.suspended == suspendedBySchedule
      requires forall e :: e in start.trigger ==>
                 e.nextTrigger == start.trigger[e] && e.localOffset == start.offset[e]
      ensures Balanced(start, Empty, now)
    {
      assert Held(start, Empty) == scheduler.heap.events;
    }

    /** When no event in the heap is due any more, every account is closed. */
    lemma AllClosed(start: Snapshot, journal: Journal, now: int)
      requires start.Covers(start.trigger.Keys) && Balanced(start, journal, now)
      requires forall e :: e in scheduler.heap.events ==> e.nextTrigger > now
      ensures Pumped(start, journal, now)
    {
      var z := scheduler.zone;
      forall e | e in start.trigger
        ensures if StartsStuck(start, e, now, z) then Count(journal, e) > 0
                else Count(journal, e) == Firings(e.kind, start.trigger[e], start.offset[e], now)
        ensures e.kind.Interval? ==> !StartsTooLate(start, e, now, z)
      {
        assert Booked(start, journal, now, e, z);
        var t, o := start.trigger[e], start.offset[e];
        AccountClosed(e.kind, t, o, e.nextTrigger, e.localOffset, Count(journal, e), now, z);
      }
    }

    /** Reads the clock once and fires everything due by that reading. */
    method PumpNow(ghost start: Snapshot) returns (exited: bool, n: nat, ghost journal: Journal)
      requires scheduler.Running() && start == Taken() && Ends(start, FirstReading(start))
      modifies `suspendedBySchedule
      modifies scheduler`todayNow, scheduler`todayDate, scheduler.clock
      modifies scheduler.heap, scheduler.heap.slots, scheduler.heap.events
      ensures scheduler.Running()
      ensures scheduler.heap.slots == old(scheduler.heap.slots) || fresh(scheduler.heap.slots)
      ensures start.reading < scheduler.clock.count
      ensures Recorded(start, journal, FirstReading(start)) && n == Length(journal)
      ensures !exited ==> forall t :: t in Timeouts(journal) ==> fresh(t)
      ensures !exited ==> Pumped(start, journal, FirstReading(start))
      ensures exited <==> Fails(start, journal, scheduler)
      ensures Passes(start, if exited then journal.earlier else journal, scheduler)
      ensures FrozenTo(start.reading, scheduler.clock.count, FirstReading(start)) ==>
        (exited <==> SomeTooLate(start, FirstReading(start), scheduler.zone))
    {
      var pumped := scheduler.clock.Time();
      BalancedAtStart(start, pumped);
      exited, n, journal := PumpDue(pumped, start);
      if !exited {
        AllClosed(start, journal, pumped);
      }
    }

    /** One wake-up of the schedule timer: fires what is due, then arms the timer for the first event left. */
    method PumpSchedule(ghost start: Snapshot) returns (exited: bool, ghost now: int, ghost journal: Journal)
      requires scheduler.Running() && start == Taken() && Ends(start, FirstReading(start))
      modifies this
      modifies scheduler`todayNow, scheduler`todayDate, scheduler.clock
      modifies scheduler.heap, scheduler.heap.slots, scheduler.heap.events
      ensures scheduler.Running()
      ensures scheduler.heap.slots == old(scheduler.heap.slots) || fresh(scheduler.heap.slots)
      ensures start.reading < scheduler.clock.count
      ensures now == FirstReading(start) == scheduler.clock.ticks(old(scheduler.clock.count))
      ensures Recorded(start, journal, now)
      ensures !exited ==> forall t :: t in Timeouts(journal) ==> fresh(t)
      ensures !exited ==> Pumped(start, journal, now) && ArmedForNext()
      ensures !exited ==> scheduledEvents == old(scheduledEvents) + Length(journal)
      ensures exited <==> Fails(start, journal, scheduler)
      ensures Passes(start, if exited then journal.earlier else journal, scheduler)
      ensures FrozenTo(start.reading, scheduler.clock.count, now) ==>
        (exited <==> SomeTooLate(start, now, scheduler.zone))
    {
      hide Pumped, Recorded, SomeTooLate, Balanced, Ledger, Booked, TimeoutsBooked, Held;
      now := FirstReading(start);
      var n;
      exited, n, journal := PumpNow(start);
      if !exited {
        Arm(n);
      }
    }

    /** A pump leaves no empty interval behind, if it started from none. */
    lemma SoundAfterPump(start: Snapshot, journal: Journal, now: int)
      requires start.Sound() && Pumped(start, journal, now)
      ensures Taken().Sound()
    {
      forall e | e in scheduler.heap.events && e.kind.Interval?
        ensures e.localOffset >= 1
      {
        assert e in Timeouts(journal) ==> IsTimeout(e, now);
        assert Booked(start, journal, now, e, scheduler.zone);
      }
    }
  }
}
