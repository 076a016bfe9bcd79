/**
 * Runs of the daemon's schedule (daemon.c): wake-ups of the schedule timer,
 * and SIGHUP, which checks the configured list of events and replaces the
 * parsed part of the schedule by it.
 */
module Reload {
  import opened CText
  import opened EventHeap
  import opened EventText
  import opened Events
  import opened LocalTime
  import opened Options
  import opened Pump
  import opened PumpRun
  import opened Schedule
  import opened TestSchedule

  // ---------- Replacing the schedule ----------

  /**
   * Checks the configured list of events and, unless a text was discarded,
   * initializes the schedule: the parsed part is replaced by these events. A
   * list without texts leaves the test schedule to be committed as it is. The
   * timer is set for the schedule as it was.
   */
  method Configure(d: Daemon, list: Option<CString>, power: bool, delay: int)
    returns (r: int, ghost parsed: seq<Event>, ghost woven: seq<Event>, ghost added: set<Event>)
    requires d.scheduler.Valid() && d.scheduler.Separate()
    modifies d`armed, d.scheduler.heap, d.scheduler.heap.slots, d.scheduler.parsed
    modifies d.scheduler`parsed, d.scheduler`todayNow, d.scheduler`todayDate, d.scheduler.clock
    ensures d.scheduler.Valid() && d.scheduler.Separate() && d.scheduler.clock.count >= old(d.scheduler.clock.count)
    ensures d.scheduler.heap.slots == old(d.scheduler.heap.slots) || fresh(d.scheduler.heap.slots)
    ensures d.scheduler.parsed == old(d.scheduler.parsed) || fresh(d.scheduler.parsed)
    ensures r >= -1 && (r == -1 <==> list.None? || ListTexts(list.value) == [])
    ensures r != -1 ==> r == DiscardedTo(ListTexts(list.value), |ListTexts(list.value)|)
    ensures r > 0 ==> d.scheduler.heap.events == old(d.scheduler.heap.events) && d.armed == old(d.armed)
    ensures r > 0 ==> forall e :: e in d.scheduler.TestSchedule() ==> fresh(e)
    ensures r <= 0 ==>
      && d.scheduler.heap.events == KeptFrom(old(d.scheduler.heap.events), SOURCE_PARSED) + added
      && added !! old(d.scheduler.heap.events)
    ensures r == -1 ==> added == set e | e in old(d.scheduler.TestSchedule())
    ensures r == 0 ==>
      && Parsed(parsed, AcceptedTo(ListTexts(list.value), |ListTexts(list.value)|), d.scheduler,
                old(d.scheduler.clock.count) + 1)
      && Prepared(woven, parsed, power, delay, d.scheduler, old(d.scheduler.clock.count) + 1 + |parsed|)
      && added == set e | e in woven
    ensures r == 0 ==> forall e :: e in added ==> fresh(e)
    ensures forall e :: e in d.scheduler.heap.events || e in d.scheduler.TestSchedule() ==>
              e in old(d.scheduler.heap.events) || e in old(d.scheduler.TestSchedule()) || fresh(e)
    ensures r == 0 ==> DailyInDay(parsed)
    ensures r == 0 && power && 1 <= delay <= 300 ==> AllPowered((set e | e in woven), parsed, delay)
    ensures r <= 0 ==> d.scheduler.TestSchedule() == [] && d.ArmedFor(old(d.scheduler.heap.events))
  {
    hide ListTexts, AcceptedTo, DiscardedTo, Prepared, Parsed, DailyInDay, AllPowered, Entries;
    r, parsed, woven := Check(d.scheduler, list, power, delay);
    added := set e | e in woven;
    assert forall e :: e in woven ==> e in added;
    if r == -1 {
      added := set e | e in d.scheduler.TestSchedule();
    }
    if r <= 0 {
      d.Initialize();
    }
  }

  // ---------- Whole runs ----------

  /** What makes the loop touch the schedule. */
  datatype Step = Wake | Hangup(list: Option<CString>, power: bool, delay: int)

  /** The texts of the list that are not empty. */
  function Texts(list: Option<CString>): seq<string> {
    if list.None? then [] else ListTexts(list.value)
  }

  predicate Refused(list: Option<CString>) {
    DiscardedTo(Texts(list), |Texts(list)|) > 0
  }

  lemma NothingRefused(list: Option<CString>)
    requires Texts(list) == []
    ensures !Refused(list)
  {
  }

  /** The event is in the schedule as the text asked for it, scheduled by reading number c. */
  ghost predicate Entered(e: Event, spec: EventSpec, after: Snapshot, c: nat, s: Scheduler)
    requires after.Covers(after.trigger.Keys)
  {
    && e in after.trigger && e.kind == spec.kind && e.action == spec.action && e.source == SOURCE_PARSED
    && after.offset[e] == spec.offset
    && after.trigger[e] == NextTrigger(spec.kind, 0, spec.offset, s.clock.ticks(c), s.zone)
  }

  /**
   * An INTERVAL event that its text has put into the schedule by reading c: by
   * the end of a run from there it triggers as many intervals after that
   * reading as it has fired, and one more.
   */
  lemma EnteredInterval(h: History, n: nat, s: Scheduler, e: Event, spec: EventSpec, c: nat)
    requires n <= Steps(h) && Linked(h, s) && s.clock.Valid() && Lives(Tail(h, n), e)
    requires First(Tail(h, n)).Covers(First(Tail(h, n)).trigger.Keys)
    requires Entered(e, spec, First(Tail(h, n)), c, s) && spec.kind.Interval?
    requires spec.offset >= 0 && s.clock.ticks(c) > 0
    ensures e in Last(h).trigger
    ensures Last(h).trigger[e] == s.clock.ticks(c) + (Total(Tail(h, n), e) + 1) * spec.offset
  {
    hide Linked, Lives, Total, Tail;
    NotDailyTrigger(Interval, 0, spec.offset, s.clock.ticks(c), s.zone);
    IntervalSinceEntry(h, n, s, e, spec.offset, c);
  }

  /** Some event switches the modem on the delay ahead of r. */
  ghost predicate Powered(r: Event, after: Snapshot, delay: int)
    requires after.Covers(after.trigger.Keys) && r in after.trigger
  {
    exists p :: p in after.trigger && p.kind.Daily? && p.action.PowerOn?
      && 0 <= after.offset[p] < SECONDS_PER_DAY && (after.offset[p] + delay) % SECONDS_PER_DAY == after.offset[r]
  }

  /** The schedule holds the parsed events, each as its text asked for it, and besides only POWERON events for them. */
  ghost predicate Installed(start: Snapshot, added: seq<Event>, after: Snapshot, step: Step, s: Scheduler)
    requires after.Covers(after.trigger.Keys) && step.Hangup?
  {
    var specs := AcceptedTo(Texts(step.list), |Texts(step.list)|);
    && |added| == |specs| && Distinct(added)
    && (forall i :: 0 <= i < |added| ==> Entered(added[i], specs[i], after, start.reading + 1 + i, s))
    && (forall e :: e in after.trigger ==>
          e in start.trigger || e in added || (step.power && step.delay != 0 && e.action.PowerOn?))
    && (step.power && 1 <= step.delay <= 300 ==>
          forall e :: e in added && e.kind.Daily? && e.action.Resume? ==>
            e in after.trigger && Powered(e, after, step.delay))
  }

  /**
   * What a SIGHUP does: nothing if it discards a text of the list. Otherwise
   * just the INTERNAL events stay, and a list that is not empty is installed.
   */
  ghost predicate HungUp(start: Snapshot, added: seq<Event>, after: Snapshot, step: Step, s: Scheduler)
    requires step.Hangup?
  {
    && start.Covers(start.trigger.Keys) && after.Covers(after.trigger.Keys)
    && if Refused(step.list) then after.trigger.Keys == start.trigger.Keys
       else
         && (forall e :: e in start.trigger ==> (e in after.trigger <==> e.source == SOURCE_INTERNAL))
         && (Texts(step.list) != [] ==> Installed(start, added, after, step, s))
  }

  /** The history is that of the steps. */
  ghost predicate Follows(h: History, steps: seq<Step>, s: Scheduler) {
    if h.Begin? then steps == []
    else
      && steps != [] && Follows(h.earlier, steps[..|steps| - 1], s)
      && var step := steps[|steps| - 1];
         if step.Wake? then h.Then? else h.Reloaded? && HungUp(Last(h.earlier), h.added, h.last, step, s)
  }

  lemma {:induction false} FollowsCounts(h: History, steps: seq<Step>, s: Scheduler)
    requires Follows(h, steps, s)
    ensures Pumps(h) + Reloads(h) == |steps|
  {
    if !h.Begin? {
      FollowsCounts(h.earlier, steps[..|steps| - 1], s);
    }
  }

  lemma FollowsNext(h: History, next: History, steps: seq<Step>, i: nat, s: Scheduler)
    requires i < |steps| && Follows(h, steps[..i], s) && !next.Begin? && next.earlier == h
    requires if steps[i].Wake? then next.Then?
             else next.Reloaded? && HungUp(Last(h), next.added, next.last, steps[i], s)
    ensures Follows(next, steps[..i + 1], s)
  {
    hide HungUp;
    assert steps[..i + 1][..i] == steps[..i];
  }

  /** A pump from the snapshot ends the daemon with the last of these firings. */
  ghost predicate EndsDaemon(start: Snapshot, j: Journal, s: Scheduler) {
    && start.Covers(start.trigger.Keys) && Timed(start, j, s) && LeastFirst(start, j, s)
    && InOrderUpTo(j, s.clock.ticks(start.reading))
    && Fails(start, j, s) && Passes(start, j.earlier, s)
  }

  /**
   * Every pump ends: the clock moves on, or no event can be stuck because date
   * and mktime() agree and no interval is empty.
   */
  ghost predicate AlwaysEnds(start: Snapshot, s: Scheduler) {
    s.clock.MovesOn() || (s.zone.Aligned() && start.Sound())
  }

  lemma MovingAlwaysEnds(start: Snapshot, s: Scheduler)
    ensures s.clock.MovesOn() ==> AlwaysEnds(start, s)
  {
  }

  lemma MovingEnds(d: Daemon, start: Snapshot)
    requires start.Covers(start.trigger.Keys) && d.scheduler.clock.Valid() && d.scheduler.clock.MovesOn()
    ensures d.Ends(start, d.FirstReading(start))
  {
    hide StartsStuck, StartsTooLate;
    assert d.scheduler.clock.Exceeds(d.FirstReading(start));
    var k: nat :| d.scheduler.clock.ticks(start.reading) < d.scheduler.clock.ticks(k);
    assert start.reading <= k;
  }

  lemma AlignedEnds(d: Daemon, start: Snapshot)
    requires d.scheduler.zone.Aligned() && start.Sound()
    ensures d.Ends(start, d.FirstReading(start))
  {
    hide Stuck, TooLate;
    var now, z := d.FirstReading(start), d.scheduler.zone;
    forall e | e in start.trigger
      ensures !StartsStuck(start, e, now, z)
    {
      AlignedNeverStuck(e.kind, start.trigger[e], start.offset[e], now, z);
    }
  }

  lemma EndsNow(d: Daemon, start: Snapshot)
    requires start.Covers(start.trigger.Keys) && d.scheduler.clock.Valid() && AlwaysEnds(start, d.scheduler)
    ensures d.Ends(start, d.FirstReading(start))
  {
    hide Daemon.Ends;
    if d.scheduler.clock.MovesOn() {
      MovingEnds(d, start);
    } else {
      AlignedEnds(d, start);
    }
  }

  /** A completed pump leads from the snapshot before it to the one after. */
  lemma PumpLeads(d: Daemon, start: Snapshot, j: Journal)
    requires start.Covers(start.trigger.Keys) && Passes(start, j, d.scheduler)
    requires d.Pumped(start, j, d.FirstReading(start)) && d.Recorded(start, j, d.FirstReading(start))
    ensures Leads(start, j, d.Taken(), d.scheduler)
  {
    forall e | e in start.trigger && e in d.Taken().trigger
      ensures d.Taken().trigger[e] == TriggerAfter(start, j, e, d.scheduler)
    {
    }
  }

  lemma EndsNext(d: Daemon, start: Snapshot, j: Journal)
    requires start.Covers(start.trigger.Keys) && d.Pumped(start, j, d.FirstReading(start))
    requires AlwaysEnds(start, d.scheduler)
    ensures AlwaysEnds(d.Taken(), d.scheduler)
  {
    if !d.scheduler.clock.MovesOn() {
      d.SoundAfterPump(start, j, d.FirstReading(start));
    }
  }

  lemma HeapAfterPump(d: Daemon, start: Snapshot, j: Journal, now: int)
    requires start.Covers(start.trigger.Keys) && d.Pumped(start, j, now)
    ensures forall e :: e in d.scheduler.heap.events ==> e in start.trigger || e in Timeouts(j)
  {
  }

  /** One wake-up of the schedule timer. */
  method Wakened(d: Daemon, ghost h: History) returns (exited: bool, ghost next: History, ghost last: Journal)
    requires d.scheduler.Valid() && d.scheduler.Separate()
    requires Linked(h, d.scheduler) && Last(h) == d.Taken() && AlwaysEnds(Last(h), d.scheduler)
    modifies d, d.scheduler`todayNow, d.scheduler`todayDate, d.scheduler.clock
    modifies d.scheduler.heap, d.scheduler.heap.slots, d.scheduler.heap.events
    ensures d.scheduler.Running()
    ensures d.scheduler.heap.slots == old(d.scheduler.heap.slots) || fresh(d.scheduler.heap.slots)
    ensures exited ==> EndsDaemon(Last(h), last, d.scheduler)
    ensures !exited ==> d.scheduler.Valid() && d.scheduler.Separate() && d.ArmedForNext()
    ensures !exited ==> next.Then? && next.earlier == h && Linked(next, d.scheduler) && Last(next) == d.Taken()
    ensures !exited ==> AlwaysEnds(Last(next), d.scheduler)
    ensures !exited ==> forall e :: e in d.scheduler.heap.events ==> e in old(d.scheduler.heap.events) || fresh(e)
  {
    hide Leads, Timed, TriggerAfter, Count, InOrderUpTo, AlwaysEnds, Passes, Fails, LeastFirst, Entries, Daemon.Pumped,
         Daemon.FrozenTo, SomeTooLate, Daemon.Ends;
    ghost var start, test := d.Taken(), d.scheduler.TestSchedule();
    EndsNow(d, start);
    ghost var now;
    exited, now, last := d.PumpSchedule(start);
    next := h;
    if !exited {
      HeapAfterPump(d, start, last, now);
      assert d.scheduler.parsed[..] == old(d.scheduler.parsed[..]);
      assert d.scheduler.TestSchedule() == test;
      PumpLeads(d, start, last);
      EndsNext(d, start, last);
      next := Then(h, last, d.Taken());
    }
  }

  /** SIGHUP takes the snapshot to one in which the parsed events are replaced, or nothing is. */
  lemma ReloadReplaces(d: Daemon, start: Snapshot, added: set<Event>, refused: bool)
    requires start.Covers(start.trigger.Keys) && start.suspended == d.suspendedBySchedule
    requires start.reading <= d.scheduler.clock.count
    requires forall e :: e in start.trigger ==> e.nextTrigger == start.trigger[e] && e.localOffset == start.offset[e]
    requires if refused then d.scheduler.heap.events == start.trigger.Keys
             else d.scheduler.heap.events == KeptFrom(start.trigger.Keys, SOURCE_PARSED) + added
    requires added !! start.trigger.Keys
    ensures Replaces(start, d.Taken())
    ensures !refused ==> forall e :: e in start.trigger ==> (e in d.Taken().trigger <==> e.source == SOURCE_INTERNAL)
  {
    ClearKeepsByMask(start.trigger.Keys, SOURCE_PARSED);
  }

  lemma LinkedReload(h: History, added: seq<Event>, after: Snapshot, s: Scheduler)
    requires Linked(h, s) && Replaces(Last(h), after)
    ensures Linked(Reloaded(h, added, after), s)
  {
  }

  lemma {:induction false} WovenHolds(parsed: seq<Event>, n: nat, woven: seq<Event>, delay: int, s: Scheduler,
                                      first: nat)
    requires n <= |parsed| && Woven(parsed, n, woven, delay, s, first)
    ensures forall i :: 0 <= i < n ==> parsed[i] in woven
    ensures forall e :: e in woven ==> e in parsed || e.action.PowerOn?
    decreases n
  {
    if n > 0 {
      var last := |woven| - 1;
      var front := woven[..if parsed[n - 1].action.Resume? then last - 1 else last];
      WovenHolds(parsed, n - 1, front, delay, s, first);
      assert forall e :: e in front ==> e in woven;
      assert forall e :: e in woven ==> e in front || e == woven[last] || (|front| < last && e == woven[last - 1]);
    }
  }

  /** The completed schedule holds the parsed events, and besides only POWERON events. */
  lemma PreparedHolds(parsed: seq<Event>, woven: seq<Event>, power: bool, delay: int, s: Scheduler, first: nat)
    requires Prepared(woven, parsed, power, delay, s, first)
    ensures forall e :: e in parsed ==> e in woven
    ensures forall e :: e in woven ==> e in parsed || (power && delay != 0 && e.action.PowerOn?)
  {
    hide Woven;
    if power && delay != 0 {
      WovenHolds(parsed, |parsed|, woven, delay, s, first);
    }
  }

  lemma PoweredFrom(parsed: seq<Event>, woven: seq<Event>, delay: int, r: Event)
    requires AllPowered((set e | e in woven), parsed, delay) && DailyInDay(parsed)
    requires r in parsed && r.kind.Daily? && r.action.Resume?
    ensures exists p :: p in woven && SwitchesOn(p, r, delay)
  {
    assert ResumesInDay(r);
  }

  /** A list without discarded texts is installed. */
  lemma InstalledFrom(d: Daemon, start: Snapshot, parsed: seq<Event>, woven: seq<Event>, step: Step)
    requires step.Hangup? && start.Covers(start.trigger.Keys)
    requires Parsed(parsed, AcceptedTo(Texts(step.list), |Texts(step.list)|), d.scheduler, start.reading + 1)
    requires Prepared(woven, parsed, step.power, step.delay, d.scheduler, start.reading + 1 + |parsed|)
    requires d.scheduler.heap.events == KeptFrom(start.trigger.Keys, SOURCE_PARSED) + set e | e in woven
    requires DailyInDay(parsed)
    requires step.power && 1 <= step.delay <= 300 ==> AllPowered((set e | e in woven), parsed, step.delay)
    ensures Installed(start, parsed, d.Taken(), step, d.scheduler)
  {
    hide Woven, AcceptedTo, ListTexts, NextTrigger, AllPowered, Prepared;
    var specs, after := AcceptedTo(Texts(step.list), |Texts(step.list)|), d.Taken();
    PreparedHolds(parsed, woven, step.power, step.delay, d.scheduler, start.reading + 1 + |parsed|);
    forall i | 0 <= i < |parsed|
      ensures Entered(parsed[i], specs[i], after, start.reading + 1 + i, d.scheduler)
    {
      assert parsed[i] in woven;
    }
    if step.power && 1 <= step.delay <= 300 {
      forall e | e in parsed && e.kind.Daily? && e.action.Resume?
        ensures e in after.trigger && Powered(e, after, step.delay)
      {
        PoweredFrom(parsed, woven, step.delay, e);
        assert e in woven;
      }
    }
  }

  /** One SIGHUP. */
  method HangUp(d: Daemon, step: Step, ghost h: History) returns (ghost next: History)
    requires step.Hangup?
    requires d.scheduler.Valid() && d.scheduler.Separate() && Linked(h, d.scheduler) && Last(h) == d.Taken()
    modifies d`armed, d.scheduler.heap, d.scheduler.heap.slots, d.scheduler.parsed
    modifies d.scheduler`parsed, d.scheduler`todayNow, d.scheduler`todayDate, d.scheduler.clock
    ensures d.scheduler.Valid() && d.scheduler.Separate()
    ensures d.scheduler.heap.slots == old(d.scheduler.heap.slots) || fresh(d.scheduler.heap.slots)
    ensures d.scheduler.parsed == old(d.scheduler.parsed) || fresh(d.scheduler.parsed)
    ensures next.Reloaded? && next.earlier == h && Linked(next, d.scheduler) && Last(next) == d.Taken()
    ensures HungUp(Last(h), next.added, next.last, step, d.scheduler)
    ensures forall e :: e in d.scheduler.heap.events || e in d.scheduler.TestSchedule() ==>
              e in old(d.scheduler.heap.events) || e in old(d.scheduler.TestSchedule()) || fresh(e)
  {
    hide Parsed, Prepared, DailyInDay, AllPowered, AcceptedTo, DiscardedTo, ListTexts, Entries, Replaces, Linked, Lists,
         HeapOrder, Daemon.ArmedFor, Installed, KeptFrom, Scheduler.Separate, Scheduler.TestSchedule, Heap.Valid,
         Heap.Shaped;
    ghost var start := d.Taken();
    var r;
    ghost var parsed, woven, added;
    r, parsed, woven, added := Configure(d, step.list, step.power, step.delay);
    if r == 0 {
      InstalledFrom(d, start, parsed, woven, step);
    } else if r == -1 {
      NothingRefused(step.list);
    }
    ReloadReplaces(d, start, if r > 0 then {} else added, r > 0);
    LinkedReload(h, parsed, d.Taken(), d.scheduler);
    next := Reloaded(h, parsed, d.Taken());
  }

  /**
   * The schedule over any sequence of wake-ups and SIGHUPs: a history of just
   * these steps, or of those before the pump that ends the daemon.
   */
  method RunMany(d: Daemon, steps: seq<Step>) returns (exited: bool, ghost h: History, ghost last: Journal)
    requires d.scheduler.Valid() && d.scheduler.Separate()
    requires d.scheduler.clock.MovesOn()
          || (AlwaysEnds(d.Taken(), d.scheduler) && forall i :: 0 <= i < |steps| ==> steps[i].Wake?)
    modifies d, d.scheduler`todayNow, d.scheduler`todayDate, d.scheduler`parsed, d.scheduler.parsed, d.scheduler.clock
    modifies d.scheduler.heap, d.scheduler.heap.slots, d.scheduler.heap.events
    modifies set e | e in d.scheduler.TestSchedule()
    ensures First(h) == old(d.Taken()) && Linked(h, d.scheduler) && Pumps(h) + Reloads(h) <= |steps|
    ensures Follows(h, steps[..Pumps(h) + Reloads(h)], d.scheduler)
    ensures !exited ==>
      && Pumps(h) + Reloads(h) == |steps| && d.scheduler.Valid() && d.scheduler.Separate() && Last(h) == d.Taken()
      && (steps != [] && steps[|steps| - 1].Wake? ==> d.ArmedForNext())
    ensures exited ==>
      && Pumps(h) + Reloads(h) < |steps| && steps[Pumps(h) + Reloads(h)].Wake?
      && EndsDaemon(Last(h), last, d.scheduler)
  {
    hide Leads, Replaces, AlwaysEnds, EndsDaemon, Entries, HungUp, Heap.Valid, Heap.Shaped;
    exited, h, last := false, Begin(d.Taken()), Empty;
    var i := 0;
    while i < |steps| && !exited
      invariant 0 <= i <= |steps| && First(h) == old(d.Taken()) && Linked(h, d.scheduler)
      invariant d.scheduler.heap.slots == old(d.scheduler.heap.slots) || fresh(d.scheduler.heap.slots)
      invariant d.scheduler.parsed == old(d.scheduler.parsed) || fresh(d.scheduler.parsed)
      invariant if exited then
                  && i > 0 && steps[i - 1].Wake? && Follows(h, steps[..i - 1], d.scheduler)
                  && EndsDaemon(Last(h), last, d.scheduler)
                else
                  && Follows(h, steps[..i], d.scheduler) && Last(h) == d.Taken()
                  && d.scheduler.Valid() && d.scheduler.Separate()
                  && (i > 0 && steps[i - 1].Wake? ==> d.ArmedForNext())
      invariant !exited && !d.scheduler.clock.MovesOn() ==> AlwaysEnds(Last(h), d.scheduler)
      invariant !exited ==> forall e :: e in d.scheduler.heap.events || e in d.scheduler.TestSchedule() ==>
                  e in old(d.scheduler.heap.events) || e in old(d.scheduler.TestSchedule()) || fresh(e)
    {
      ghost var next;
      if steps[i].Wake? {
        MovingAlwaysEnds(Last(h), d.scheduler);
        exited, next, last := Wakened(d, h);
      } else {
        next := HangUp(d, steps[i], h);
      }
      if !exited {
        FollowsNext(h, next, steps, i, d.scheduler);
        h := next;
      }
      i := i + 1;
    }
    FollowsCounts(h, steps[..if exited then i - 1 else i], d.scheduler);
  }
}
