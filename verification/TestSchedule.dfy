/**
 * Building the test schedule from event texts (event.c): parsing an array of
 * texts, adding a POWERON ahead of every RESUME, and sorting.
 */
module TestSchedule {
  import opened CText
  import opened EventHeap
  import opened EventText
  import opened Events
  import opened ListText
  import opened LocalTime
  import opened Options
  import opened PointerLists
  import opened Schedule

  /** The event that a text asked for. */
  predicate Matches(e: Event, spec: EventSpec)
    reads e
  {
    e.kind == spec.kind && e.action == spec.action && e.localOffset == spec.offset && e.source == SOURCE_PARSED
  }

  ghost predicate Distinct(events: seq<Event>) {
    forall i, j :: 0 <= i < j < |events| ==> events[i] != events[j]
  }

  lemma {:induction false} EntriesOf(list: seq<Event?>, events: seq<Event>)
    requires Terminated(list, events)
    ensures Entries(list) == events
  {
    if events != [] {
      EntriesOf(list[1..], events[1..]);
    }
  }

  // ---------- POWERON ahead of RESUME ----------

  /** Where in the day the modem is switched on, for a RESUME at the given offset. */
  function PowerOnOffset(resume: int, delay: int): int {
    if resume - delay < 0 then resume - delay + SECONDS_PER_DAY else resume - delay
  }

  /** A time of day from which the delay leads to the RESUME: for exactly the offsets within one day. */
  lemma PowerOnLeadsToResumeExactly(resume: int, delay: int)
    requires 1 <= delay <= 300
    ensures var p := PowerOnOffset(resume, delay);
            (0 <= p < SECONDS_PER_DAY && (p + delay) % SECONDS_PER_DAY == resume) <==> 0 <= resume < SECONDS_PER_DAY
  {
  }

  function Resumes(events: seq<Event>, n: nat): nat
    requires n <= |events|
  {
    if n == 0 then 0 else Resumes(events, n - 1) + if events[n - 1].action.Resume? then 1 else 0
  }

  // ---------- Parsing the texts ----------

  /** The event was scheduled when the clock read now. */
  predicate Scheduled(e: Event, spec: EventSpec, now: int, zone: Zone)
    reads e
  {
    Matches(e, spec) && e.nextTrigger == NextTrigger(spec.kind, 0, spec.offset, now, zone)
  }

  /** The events say what the accepted texts say, each scheduled at its own reading of the clock. */
  ghost predicate Parsed(events: seq<Event>, specs: seq<EventSpec>, sched: Scheduler, first: nat)
    reads events
  {
    && |events| == |specs| && Distinct(events)
    && forall i :: 0 <= i < |events| ==> Scheduled(events[i], specs[i], sched.clock.ticks(first + i), sched.zone)
  }

  /** A list of the given events and nothing behind them. */
  ghost predicate Filled(list: seq<Event?>, events: seq<Event>) {
    && |events| < |list|
    && (forall i :: 0 <= i < |events| ==> list[i] == events[i])
    && (forall i :: |events| <= i < |list| ==> list[i] == null)
  }

  /** An accepted event is scheduled and entered. */
  method Enter(sched: Scheduler, n: nat, spec: EventSpec, ghost events: seq<Event>, ghost specs: seq<EventSpec>,
               ghost first: nat)
    returns (e: Event)
    requires n == |events| && n + 1 < sched.parsed.Length && Filled(sched.parsed[..], events) && spec.offset >= 0
    requires Parsed(events, specs, sched, first) && sched.clock.count == first + n
    modifies sched.parsed, sched`todayNow, sched`todayDate, sched.clock
    ensures fresh(e) && Filled(sched.parsed[..], events + [e])
    ensures Parsed(events + [e], specs + [spec], sched, first) && sched.clock.count == first + n + 1
  {
    hide NextTrigger;
    assert forall i :: 0 <= i < n ==> events[i] == sched.parsed[i];
    e := new Event(spec.kind, spec.action, SOURCE_PARSED, spec.offset);
    sched.ScheduleNextTrigger(e);
    assert Scheduled(e, spec, sched.clock.ticks(first + n), sched.zone);
    sched.parsed[n] := e;
  }

  lemma AcceptedNext(texts: seq<string>, n: nat, reading: TextReading)
    requires n < |texts| && reading == ParseEvent(texts[n], ErrnoAfter(texts[..n]))
    ensures reading.errno == ErrnoAfter(texts[..n + 1])
    ensures reading.event.Some? ==> AcceptedTo(texts, n + 1) == AcceptedTo(texts, n) + [reading.event.value]
    ensures reading.event.None? ==> AcceptedTo(texts, n + 1) == AcceptedTo(texts, n)
    ensures DiscardedTo(texts, n + 1) == DiscardedTo(texts, n) + if reading.event.None? then 1 else 0
  {
    hide ParseEvent;
    assert texts[..n + 1][..n] == texts[..n];
  }

  lemma StartTexts(texts: seq<string>, list: seq<Event?>, sched: Scheduler, first: nat)
    requires |list| > 0 && forall i :: 0 <= i < |list| ==> list[i] == null
    ensures !ErrnoAfter(texts[..0]) && AcceptedTo(texts, 0) == [] && DiscardedTo(texts, 0) == 0 && Filled(list, [])
    ensures Parsed([], [], sched, first)
  {
  }

  /** The parsing loop of event_test_parse(). */
  method ParseEvents(sched: Scheduler, slots: array<int>, payload: array<char>, ghost texts: seq<string>)
    returns (n: nat, discarded: nat, ghost events: seq<Event>)
    requires IsList(slots[..], payload[..], texts)
    modifies sched`parsed, sched`todayNow, sched`todayDate, sched.clock
    ensures fresh(sched.parsed) && sched.parsed.Length == |texts| + 1
    ensures Filled(sched.parsed[..], events) && n == |events|
    ensures Parsed(events, AcceptedTo(texts, |texts|), sched, old(sched.clock.count))
    ensures forall e :: e in events ==> fresh(e)
    ensures discarded == DiscardedTo(texts, |texts|)
    ensures sched.clock.count == old(sched.clock.count) + n
  {
    hide Layout, IsList, Holds, ParseEvent, NextTrigger, AcceptedTo, DiscardedTo, ErrnoAfter, Filled, Parsed;
    var length := ArrLen(slots, payload, texts);
    sched.parsed := new Event?[length + 1](_ => null);
    n, discarded, events := 0, 0, [];
    var index, errno := 0, false;
    StartTexts(texts, sched.parsed[..], sched, old(sched.clock.count));
    while index < length
      invariant 0 <= index <= length == |texts| && n == |events| <= index
      invariant fresh(sched.parsed) && sched.parsed.Length == length + 1 && Filled(sched.parsed[..], events)
      invariant errno == ErrnoAfter(texts[..index])
      invariant Parsed(events, AcceptedTo(texts, index), sched, old(sched.clock.count))
      invariant forall e :: e in events ==> fresh(e)
      invariant discarded == DiscardedTo(texts, index)
      invariant sched.clock.count == old(sched.clock.count) + n
    {
      SlotIs(slots[..], payload[..], texts, index);
      var s := ReadString(payload, slots[index], texts[index]);
      var reading := ParseEvent(s, errno);
      AcceptedNext(texts, index, reading);
      if reading.event.None? {
        discarded := discarded + 1;
      } else {
        OffsetsAreNotNegative(s, errno);
        var e := Enter(sched, n, reading.event.value, events, AcceptedTo(texts, index), old(sched.clock.count));
        n := n + 1;
        events := events + [e];
      }
      errno := reading.errno;
      index := index + 1;
    }
  }

  // ---------- Adding the POWERON events ----------

  /** p switches the modem on ahead of r. */
  predicate Precedes(p: Event, r: Event, delay: int, now: int, zone: Zone)
    reads p, r
  {
    var offset := PowerOnOffset(r.localOffset, delay);
    && p.kind.Daily? && p.action.PowerOn? && p.source == SOURCE_PARSED
    && p.localOffset == SanitizedOffset(Daily, offset)
    && p.nextTrigger == NextTrigger(Daily, 0, offset, now, zone)
  }

  /** woven lists the first n events, each RESUME with its own POWERON directly ahead of it. */
  ghost predicate Woven(events: seq<Event>, n: nat, woven: seq<Event>, delay: int, sched: Scheduler, first: nat)
    requires n <= |events|
    reads events, woven
    decreases n
  {
    var last := |woven| - 1;
    if n == 0 then woven == []
    else if !events[n - 1].action.Resume? then
      last >= 0 && woven[last] == events[n - 1] && Woven(events, n - 1, woven[..last], delay, sched, first)
    else
      && last >= 1 && woven[last] == events[n - 1]
      && Precedes(woven[last - 1], events[n - 1], delay, sched.clock.ticks(first + Resumes(events, n - 1)), sched.zone)
      && Woven(events, n - 1, woven[..last - 1], delay, sched, first)
  }

  lemma ResumesNext(events: seq<Event>, n: nat)
    requires n < |events|
    ensures Resumes(events, n + 1) == Resumes(events, n) + if events[n].action.Resume? then 1 else 0
  {
  }

  /** One event more for each RESUME. */
  lemma {:induction false} WovenLength(events: seq<Event>, n: nat, woven: seq<Event>, delay: int, sched: Scheduler,
                                       first: nat)
    requires n <= |events| && Woven(events, n, woven, delay, sched, first)
    ensures |woven| == n + Resumes(events, n)
    decreases n
  {
    if n > 0 {
      var last := |woven| - 1;
      WovenLength(events, n - 1, woven[..if events[n - 1].action.Resume? then last - 1 else last], delay, sched, first);
    }
  }

  /** Every day p switches the modem on the delay ahead of r. */
  predicate SwitchesOn(p: Event, r: Event, delay: int)
    reads p, r
  {
    && p.kind.Daily? && p.action.PowerOn? && p.source == SOURCE_PARSED && 0 <= p.localOffset < SECONDS_PER_DAY
    && r.kind.Daily? && (p.localOffset + delay) % SECONDS_PER_DAY == r.localOffset
  }

  /** A RESUME every day at a time of day. */
  predicate ResumesInDay(r: Event)
    reads r
  {
    r.action.Resume? && r.kind.Daily? && 0 <= r.localOffset < SECONDS_PER_DAY
  }

  /** The POWERON of a RESUME switches on for it exactly if the RESUME is every day at a time of day. */
  lemma PrecedingSwitchesOnExactly(p: Event, r: Event, delay: int, now: int, zone: Zone)
    requires Precedes(p, r, delay, now, zone) && 1 <= delay <= 300 && r.action.Resume?
    ensures SwitchesOn(p, r, delay) <==> ResumesInDay(r)
  {
    PowerOnLeadsToResumeExactly(r.localOffset, delay);
  }

  /** Directly ahead of every daily RESUME at a time of day is the POWERON that switches on for it. */
  lemma {:induction false} WovenSwitchesOn(events: seq<Event>, n: nat, woven: seq<Event>, delay: int,
                                           sched: Scheduler, first: nat, i: nat)
    returns (k: nat)
    requires n <= |events| && Woven(events, n, woven, delay, sched, first) && 1 <= delay <= 300
    requires i < n && ResumesInDay(events[i])
    ensures k + 1 < |woven| && woven[k + 1] == events[i] && SwitchesOn(woven[k], events[i], delay)
    decreases n
  {
    hide Precedes, SwitchesOn;
    var last := |woven| - 1;
    if i == n - 1 {
      k := last - 1;
      var now := sched.clock.ticks(first + Resumes(events, n - 1));
      PrecedingSwitchesOnExactly(woven[k], events[i], delay, now, sched.zone);
    } else {
      var front := woven[..if events[n - 1].action.Resume? then last - 1 else last];
      k := WovenSwitchesOn(events, n - 1, front, delay, sched, first, i);
    }
  }

  /** Every event of the woven list is one of the given ones, or a POWERON for a RESUME among them. */
  lemma {:induction false} WovenOrigin(events: seq<Event>, n: nat, woven: seq<Event>, delay: int,
                                       sched: Scheduler, first: nat, k: nat)
    returns (i: nat)
    requires n <= |events| && Woven(events, n, woven, delay, sched, first) && 1 <= delay <= 300 && k < |woven|
    ensures i < n
    ensures woven[k] == events[i] ||
            (events[i].action.Resume? && (ResumesInDay(events[i]) ==> SwitchesOn(woven[k], events[i], delay)))
    decreases n
  {
    hide Precedes, SwitchesOn;
    var last := |woven| - 1;
    var front := if events[n - 1].action.Resume? then last - 1 else last;
    if k < front {
      i := WovenOrigin(events, n - 1, woven[..front], delay, sched, first, k);
    } else {
      i := n - 1;
      if k < last && ResumesInDay(events[i]) {
        var now := sched.clock.ticks(first + Resumes(events, n - 1));
        PrecedingSwitchesOnExactly(woven[k], events[i], delay, now, sched.zone);
      }
    }
  }

  /**
   * For every daily RESUME at a time of day there is an event that switches
   * on for it, and there are no other events than the parsed ones and those
   * made for a RESUME.
   */
  ghost predicate AllPowered(all: set<Event>, parsed: seq<Event>, delay: int)
    reads all, parsed
  {
    && (forall r :: r in parsed && ResumesInDay(r) ==> exists p :: p in all && SwitchesOn(p, r, delay))
    && (forall p :: p in all && p !in parsed ==>
         exists r :: r in parsed && r.action.Resume? && (ResumesInDay(r) ==> SwitchesOn(p, r, delay)))
  }

  lemma WovenIsPowered(parsed: seq<Event>, woven: seq<Event>, delay: int, sched: Scheduler, first: nat)
    requires Woven(parsed, |parsed|, woven, delay, sched, first) && 1 <= delay <= 300
    ensures AllPowered((set e | e in woven), parsed, delay)
  {
    hide Woven, Precedes, SwitchesOn, ResumesInDay;
    var all := set e | e in woven;
    forall r | r in parsed && ResumesInDay(r) ensures exists p :: p in all && SwitchesOn(p, r, delay) {
      var i :| 0 <= i < |parsed| && parsed[i] == r;
      var k := WovenSwitchesOn(parsed, |parsed|, woven, delay, sched, first, i);
      assert woven[k] in all;
    }
    forall p | p in all && p !in parsed
      ensures exists r :: r in parsed && r.action.Resume? && (ResumesInDay(r) ==> SwitchesOn(p, r, delay))
    {
      var k :| 0 <= k < |woven| && woven[k] == p;
      var i := WovenOrigin(parsed, |parsed|, woven, delay, sched, first, k);
      assert parsed[i] in parsed;
    }
  }

  lemma WovenKeep(events: seq<Event>, n: nat, woven: seq<Event>, delay: int, sched: Scheduler, first: nat)
    requires n < |events| && Woven(events, n, woven, delay, sched, first) && !events[n].action.Resume?
    ensures Woven(events, n + 1, woven + [events[n]], delay, sched, first)
  {
    assert (woven + [events[n]])[..|woven|] == woven;
  }

  lemma WovenAdd(events: seq<Event>, n: nat, woven: seq<Event>, p: Event, delay: int, sched: Scheduler, first: nat)
    requires n < |events| && Woven(events, n, woven, delay, sched, first) && events[n].action.Resume?
    requires Precedes(p, events[n], delay, sched.clock.ticks(first + Resumes(events, n)), sched.zone)
    ensures Woven(events, n + 1, woven + [p] + [events[n]], delay, sched, first)
  {
    assert (woven + [p] + [events[n]])[..|woven|] == woven;
  }

  /** Counts the RESUME events of a null-terminated list. */
  method CountResumes(list: array<Event?>, ghost events: seq<Event>) returns (n: nat)
    requires Filled(list[..], events)
    ensures n == Resumes(events, |events|)
  {
    n := 0;
    var i := 0;
    while list[i] != null
      invariant 0 <= i <= |events| < list.Length && n == Resumes(events, i)
      decreases |events| - i
    {
      assert list[..][i] == list[i];
      if list[i].action.Resume? {
        n := n + 1;
      }
      i := i + 1;
    }
    assert list[..][i] == list[i];
  }

  /** Makes the POWERON of a RESUME and enters it. */
  method EnterPowerOn(sched: Scheduler, list: array<Event?>, at: nat, resume: Event, delay: int,
                      ghost woven: seq<Event>)
    returns (p: Event)
    requires at == |woven| && at + 1 < list.Length && Filled(list[..], woven)
    modifies list, sched`todayNow, sched`todayDate, sched.clock
    ensures fresh(p) && sched.clock.count == old(sched.clock.count) + 1 && Filled(list[..], woven + [p])
    ensures Precedes(p, resume, delay, sched.clock.ticks(old(sched.clock.count)), sched.zone)
  {
    hide NextTrigger;
    var offset := resume.localOffset - delay;
    if offset < 0 {
      offset := offset + SECONDS_PER_DAY;
    }
    p := new Event(Daily, PowerOn, SOURCE_PARSED, offset);
    sched.ScheduleNextTrigger(p);
    list[at] := p;
  }

  lemma FilledNext(before: seq<Event?>, after: seq<Event?>, events: seq<Event>, e: Event)
    requires Filled(before, events) && |events| + 1 < |before| && after == before[|events| := e]
    ensures Filled(after, events + [e])
  {
  }

  ghost predicate Avoids(events: seq<Event>, others: set<Event>) {
    forall e :: e in events ==> e !in others
  }

  /** Distinct events, none of the others, and of the given events only among the first n. */
  ghost predicate Apart(woven: seq<Event>, events: seq<Event>, n: nat, others: set<Event>) {
    Distinct(woven) && Avoids(woven, others) && forall i :: n <= i < |events| ==> events[i] !in woven
  }

  lemma ApartNext(woven: seq<Event>, events: seq<Event>, n: nat, others: set<Event>)
    requires Apart(woven, events, n, others) && n < |events| && Distinct(events) && Avoids(events, others)
    ensures Apart(woven + [events[n]], events, n + 1, others)
  {
  }

  lemma ApartNew(woven: seq<Event>, p: Event, events: seq<Event>, n: nat, others: set<Event>)
    requires Apart(woven, events, n, others) && p !in woven && p !in events && p !in others
    ensures Apart(woven + [p], events, n, others)
  {
  }

  /** Enters an event and, ahead of a RESUME, its POWERON. */
  method WeaveNext(sched: Scheduler, list: array<Event?>, at: nat, e: Event, delay: int, ghost events: seq<Event>,
                   ghost n: nat, ghost woven: seq<Event>, ghost first: nat, ghost others: set<Event>)
    returns (next: nat, ghost now: seq<Event>, ghost p: Event?)
    requires n < |events| && e == events[n] && at == |woven| && Filled(list[..], woven)
    requires Woven(events, n, woven, delay, sched, first) && sched.clock.count == first + Resumes(events, n)
    requires at + (if e.action.Resume? then 2 else 1) < list.Length
    requires Apart(woven, events, n, others) && Distinct(events) && Avoids(events, others)
    modifies list, sched`todayNow, sched`todayDate, sched.clock
    ensures next == |now| && Filled(list[..], now) && Woven(events, n + 1, now, delay, sched, first)
    ensures Apart(now, events, n + 1, others) && sched.clock.count == first + Resumes(events, n + 1)
    ensures now == woven + (if p == null then [] else [p]) + [e] && (p != null ==> fresh(p))
  {
    hide Woven, Precedes, NextTrigger, Resumes, Filled, Distinct, Avoids, Apart;
    ResumesNext(events, n);
    next, now, p := at, woven, null;
    if e.action.Resume? {
      var made := EnterPowerOn(sched, list, next, e, delay, woven);
      p := made;
      next := next + 1;
      WovenAdd(events, n, woven, p, delay, sched, first);
      ApartNew(woven, p, events, n, others);
      now := woven + [p];
    } else {
      WovenKeep(events, n, woven, delay, sched, first);
    }
    ApartNext(now, events, n, others);
    ghost var before := list[..];
    list[next] := e;
    next := next + 1;
    FilledNext(before, list[..], now, e);
    now := now + [e];
  }

  lemma FilledRoom(list: seq<Event?>, events: seq<Event>)
    requires Filled(list, events)
    ensures |events| < |list| && list[|events|] == null
    ensures forall i :: 0 <= i < |events| ==> list[i] == events[i]
  {
  }

  lemma WeaveStart(events: seq<Event>, list: seq<Event?>, delay: int, sched: Scheduler, first: nat,
                   others: set<Event>)
    requires |list| > 0 && forall i :: 0 <= i < |list| ==> list[i] == null
    ensures Filled(list, []) && Apart([], events, 0, others)
    ensures Woven(events, 0, [], delay, sched, first) && Resumes(events, 0) == 0
  {
  }

  lemma {:induction false} ResumesGrow(events: seq<Event>, m: nat, n: nat)
    requires m <= n <= |events|
    ensures Resumes(events, m) <= Resumes(events, n)
    decreases n
  {
    if m < n {
      ResumesGrow(events, m, n - 1);
    }
  }

  /** The new list with a POWERON for every RESUME; it never overruns its slots. */
  method AddPowerOns(sched: Scheduler, nEvents: nat, nResume: nat, delay: int, ghost events: seq<Event>,
                     ghost others: set<Event>)
    returns (ghost woven: seq<Event>)
    requires Filled(sched.parsed[..], events) && nEvents == |events| && nResume == Resumes(events, |events|)
    requires Distinct(events) && Avoids(events, others)
    modifies sched`parsed, sched`todayNow, sched`todayDate, sched.clock
    ensures fresh(sched.parsed) && sched.parsed.Length == nEvents + nResume + 1 && Filled(sched.parsed[..], woven)
    ensures Woven(events, |events|, woven, delay, sched, old(sched.clock.count))
    ensures Apart(woven, events, |events|, others) && forall p :: p in woven ==> p in events || fresh(p)
    ensures sched.clock.count == old(sched.clock.count) + nResume
  {
    hide Woven, Resumes, Filled, Distinct, Avoids, Apart;
    ghost var first := sched.clock.count;
    var src := sched.parsed;
    var list := new Event?[nEvents + nResume + 1](_ => null);
    var srcIdx, tgtIdx := 0, 0;
    woven := [];
    FilledRoom(src[..], events);
    WeaveStart(events, list[..], delay, sched, first, others);
    while src[srcIdx] != null
      invariant 0 <= srcIdx <= |events| < src.Length && src[..] == old(src[..]) && src != list
      invariant fresh(list) && list.Length == nEvents + nResume + 1 && tgtIdx == |woven| && Filled(list[..], woven)
      invariant Woven(events, srcIdx, woven, delay, sched, first) && Apart(woven, events, srcIdx, others)
      invariant sched.clock.count == first + Resumes(events, srcIdx)
      invariant forall p :: p in woven ==> p in events || fresh(p)
      decreases |events| - srcIdx
    {
      var e := src[srcIdx];
      assert old(src[..])[srcIdx] == e;
      WovenLength(events, srcIdx, woven, delay, sched, first);
      ResumesNext(events, srcIdx);
      ResumesGrow(events, srcIdx + 1, |events|);
      ghost var p;
      tgtIdx, woven, p := WeaveNext(sched, list, tgtIdx, e, delay, events, srcIdx, woven, first, others);
      srcIdx := srcIdx + 1;
    }
    assert srcIdx == |events| by {
      assert old(src[..])[srcIdx] == src[srcIdx];
    }
    sched.parsed := list;
  }

  // ---------- Sorting ----------

  /** In the order of __cmpevent(). */
  ghost predicate SortedByOffset(events: seq<Event>)
    reads events
  {
    forall i, j :: 0 <= i < j < |events| ==> events[i].localOffset <= events[j].localOffset
  }

  /** The keys up to position i are in order but for the one at hole, which is before those behind it. */
  ghost predicate SortedBut(keys: seq<int>, i: nat, hole: nat) {
    && hole <= i < |keys|
    && (forall a, b :: 0 <= a < b <= i && b != hole ==> keys[a] <= keys[b])
  }

  lemma HoleMoves(keys: seq<int>, i: nat, hole: nat)
    requires SortedBut(keys, i, hole) && hole > 0 && keys[hole] < keys[hole - 1]
    ensures SortedBut(Exchanged(keys, hole - 1, hole), i, hole - 1)
  {
    var after := Exchanged(keys, hole - 1, hole);
    forall a, b | 0 <= a < b <= i && b != hole - 1 ensures after[a] <= after[b] {
      if b == hole && a < hole - 1 {
        assert keys[a] <= keys[hole - 1];
      }
    }
  }

  ghost function Keys(events: seq<Event>): (keys: seq<int>)
    reads events
    ensures |keys| == |events| && forall i :: 0 <= i < |events| ==> keys[i] == events[i].localOffset
  {
    seq(|events|, i requires 0 <= i < |events| reads events => events[i].localOffset)
  }

  lemma HoleCloses(keys: seq<int>, i: nat, hole: nat)
    requires SortedBut(keys, i, hole) && (hole > 0 ==> keys[hole - 1] <= keys[hole])
    ensures forall a, b :: 0 <= a < b <= i ==> keys[a] <= keys[b]
  {
  }

  method SinkEvent(list: array<Event?>, i: nat, ghost events: seq<Event>, ghost elements: set<Event>)
    returns (ghost sorted: seq<Event>)
    requires Filled(list[..], events) && i < |events| && Lists(events, elements)
    requires forall a, b :: 0 <= a < b < i ==> events[a].localOffset <= events[b].localOffset
    modifies list
    ensures |sorted| == |events| && Filled(list[..], sorted) && Lists(sorted, elements)
    ensures forall a, b :: 0 <= a < b <= i ==> sorted[a].localOffset <= sorted[b].localOffset
  {
    hide Lists;
    sorted := events;
    var j := i;
    while j > 0 && list[j].localOffset < list[j - 1].localOffset
      invariant 0 <= j <= i && |sorted| == |events| && Filled(list[..], sorted) && Lists(sorted, elements)
      invariant SortedBut(Keys(sorted), i, j)
    {
      HoleMoves(Keys(sorted), i, j);
      ExchangedLists(sorted, j - 1, j, elements);
      ghost var keys, before := Keys(sorted), list[..];
      list[j - 1], list[j] := list[j], list[j - 1];
      sorted := Exchanged(sorted, j - 1, j);
      assert Keys(sorted) == Exchanged(keys, j - 1, j);
      j := j - 1;
    }
    assert Keys(sorted)[j] == list[j].localOffset;
    HoleCloses(Keys(sorted), i, j);
  }

  /**
   * Stands for qsort(): sorts the first n events of the list. Callers rely on
   * no more than that the result is sorted and lists the same events.
   */
  method SortEvents(list: array<Event?>, n: nat, ghost events: seq<Event>, ghost elements: set<Event>)
    returns (ghost sorted: seq<Event>)
    requires Filled(list[..], events) && n == |events| && Lists(events, elements)
    modifies list
    ensures |sorted| == n && Filled(list[..], sorted) && Lists(sorted, elements) && SortedByOffset(sorted)
    ensures forall i, j :: 0 <= i < j < n ==> sorted[i].localOffset <= sorted[j].localOffset
  {
    sorted := events;
    var i := 1;
    while i < n
      invariant 1 <= i && |sorted| == n && Filled(list[..], sorted) && Lists(sorted, elements)
      invariant forall a, b :: 0 <= a < b < i && b < n ==> sorted[a].localOffset <= sorted[b].localOffset
    {
      sorted := SinkEvent(list, i, sorted, elements);
      i := i + 1;
    }
  }

  // ---------- event_test_parse() ----------

  lemma {:induction false} WovenNone(events: seq<Event>, n: nat, delay: int, sched: Scheduler, first: nat)
    requires n <= |events| && Resumes(events, n) == 0
    ensures Woven(events, n, events[..n], delay, sched, first)
    decreases n
  {
    if n > 0 {
      WovenNone(events, n - 1, delay, sched, first);
      assert events[..n][..n - 1] == events[..n - 1];
    }
  }

  /** What a test schedule without discarded texts is made of. */
  ghost predicate Prepared(woven: seq<Event>, parsed: seq<Event>, power: bool, delay: int, sched: Scheduler, first: nat)
    reads parsed, woven
  {
    if power && delay != 0 then Woven(parsed, |parsed|, woven, delay, sched, first) else woven == parsed
  }

  /** Adds the POWERON events, if power control and a delay are configured, and sorts. */
  method Prepare(sched: Scheduler, n: nat, power: bool, delay: int, ghost parsed: seq<Event>, ghost others: set<Event>)
    returns (ghost woven: seq<Event>, ghost sorted: seq<Event>)
    requires Filled(sched.parsed[..], parsed) && n == |parsed| && Distinct(parsed) && Avoids(parsed, others)
    modifies sched`parsed, sched.parsed, sched`todayNow, sched`todayDate, sched.clock
    ensures sched.parsed == old(sched.parsed) || fresh(sched.parsed)
    ensures Prepared(woven, parsed, power, delay, sched, old(sched.clock.count))
    ensures Filled(sched.parsed[..], sorted) && Lists(sorted, set e | e in woven) && SortedByOffset(sorted)
    ensures Avoids(sorted, others) && Distinct(sorted) && |sorted| == |woven|
    ensures forall e :: e in sorted ==> e in parsed || fresh(e)
    ensures sched.clock.count >= old(sched.clock.count)
  {
    hide Woven, Resumes, Filled;
    var nResume := 0;
    woven := parsed;
    if power && delay != 0 {
      nResume := CountResumes(sched.parsed, parsed);
      if nResume > 0 {
        woven := AddPowerOns(sched, n, nResume, delay, parsed, others);
        WovenLength(parsed, n, woven, delay, sched, old(sched.clock.count));
      } else {
        WovenNone(parsed, n, delay, sched, sched.clock.count);
        assert parsed[..n] == parsed;
      }
    }
    ghost var elements := set e | e in woven;
    assert Lists(woven, elements) && |woven| == n + nResume;
    sorted := SortEvents(sched.parsed, n + nResume, woven, elements);
    assert forall e :: e in sorted ==> e in woven;
  }

  /** The offsets of the parsed events: those of DAILY events are times of day. */
  ghost predicate DailyInDay(parsed: seq<Event>)
    reads parsed
  {
    forall e :: e in parsed ==> 0 <= e.localOffset && (e.kind.Daily? ==> e.localOffset < SECONDS_PER_DAY)
  }

  lemma ParsedInDay(parsed: seq<Event>, items: seq<string>, sched: Scheduler, first: nat)
    requires Parsed(parsed, AcceptedTo(items, |items|), sched, first)
    ensures DailyInDay(parsed)
  {
    hide AcceptedTo, NextTrigger;
    AcceptedInDay(items, |items|);
    forall e | e in parsed ensures 0 <= e.localOffset && (e.kind.Daily? ==> e.localOffset < SECONDS_PER_DAY) {
      var i :| 0 <= i < |parsed| && parsed[i] == e;
      assert InDay(AcceptedTo(items, |items|)[i]);
    }
  }

  lemma PreparedIsPowered(woven: seq<Event>, parsed: seq<Event>, delay: int, sched: Scheduler, first: nat)
    requires Prepared(woven, parsed, true, delay, sched, first)
    ensures 1 <= delay <= 300 ==> AllPowered((set e | e in woven), parsed, delay)
    ensures delay != 0 ==> |woven| == |parsed| + Resumes(parsed, |parsed|)
  {
    hide Woven, AllPowered;
    if delay != 0 {
      WovenLength(parsed, |parsed|, woven, delay, sched, first);
    }
    if 1 <= delay <= 300 {
      WovenIsPowered(parsed, woven, delay, sched, first);
    }
  }

  lemma ParsedDistinct(events: seq<Event>, specs: seq<EventSpec>, sched: Scheduler, first: nat)
    requires Parsed(events, specs, sched, first)
    ensures Distinct(events)
  {
  }

  /** From the texts, none of them empty, to the test schedule. */
  method ParseItems(sched: Scheduler, slots: array<int>, payload: array<char>, power: bool, delay: int,
                    ghost items: seq<string>)
    returns (discarded: nat, ghost parsed: seq<Event>, ghost woven: seq<Event>, ghost sorted: seq<Event>)
    requires IsList(slots[..], payload[..], items)
    modifies sched`parsed, sched`todayNow, sched`todayDate, sched.clock
    ensures fresh(sched.parsed) && Filled(sched.parsed[..], sorted)
    ensures Distinct(sorted) && Avoids(sorted, sched.heap.events) && forall e :: e in sorted ==> fresh(e)
    ensures sched.clock.count >= old(sched.clock.count)
    ensures discarded == DiscardedTo(items, |items|)
    ensures Parsed(parsed, AcceptedTo(items, |items|), sched, old(sched.clock.count))
    ensures discarded > 0 ==> sorted == parsed
    ensures discarded == 0 ==> Prepared(woven, parsed, power, delay, sched, old(sched.clock.count) + |parsed|)
    ensures discarded == 0 ==> Lists(sorted, set e | e in woven) && |sorted| == |woven| && SortedByOffset(sorted)
    ensures DailyInDay(parsed)
    ensures discarded == 0 && power ==>
      && (1 <= delay <= 300 ==> AllPowered((set e | e in woven), parsed, delay))
      && (delay != 0 ==> |woven| == |parsed| + Resumes(parsed, |parsed|))
  {
    hide Layout, IsList, Holds, AcceptedTo, DiscardedTo, Prepared, Parsed, Lists, SortedByOffset, Filled, Distinct,
         DailyInDay, AllPowered, Resumes;
    ghost var others, first := sched.heap.events, sched.clock.count;
    var n;
    n, discarded, parsed := ParseEvents(sched, slots, payload, items);
    ParsedDistinct(parsed, AcceptedTo(items, |items|), sched, first);
    assert Avoids(parsed, others);
    hide Avoids;
    woven, sorted := [], parsed;
    if discarded == 0 {
      ghost var specs := AcceptedTo(items, |items|);
      woven, sorted := Prepare(sched, n, power, delay, parsed, others);
      assert Parsed(parsed, specs, sched, first);
      if power {
        PreparedIsPowered(woven, parsed, delay, sched, first + |parsed|);
      }
    }
    ParsedInDay(parsed, items, sched, first);
  }

  lemma EntriesOfFilled(list: seq<Event?>, events: seq<Event>)
    requires Filled(list, events)
    ensures Entries(list) == events && |list| > 0 && list[|list| - 1] == null
  {
    EntriesOf(list, events);
  }

  /**
   * event_test_parse(). Returns -1 for nothing to parse, or the number of
   * discarded texts; only if there are none is the schedule completed.
   */
  method TestParse(sched: Scheduler, slots: array?<int>, payload: array<char>, power: bool, delay: int,
                   ghost texts: seq<string>)
    returns (r: int, freed: seq<Event>, ghost parsed: seq<Event>, ghost woven: seq<Event>)
    requires sched.Valid() && (slots != null ==> IsList(slots[..], payload[..], texts))
    modifies slots, sched`parsed, sched`todayNow, sched`todayDate, sched.clock
    ensures sched.Valid() && (r >= 0 ==> sched.Separate() && fresh(sched.parsed))
    ensures r >= 0 ==> forall e :: e in sched.TestSchedule() ==> fresh(e)
    ensures sched.clock.count >= old(sched.clock.count)
    ensures r == -1 <==> slots == null || NonEmpty(texts) == []
    ensures r == -1 ==> sched.parsed == old(sched.parsed)
    ensures r != -1 ==> freed == old(sched.TestSchedule()) && r == DiscardedTo(NonEmpty(texts), |NonEmpty(texts)|)
    ensures r != -1 ==>
      Parsed(parsed, AcceptedTo(NonEmpty(texts), |NonEmpty(texts)|), sched, old(sched.clock.count) + 1)
    ensures r > 0 ==> sched.TestSchedule() == parsed
    ensures r == 0 ==>
      && Prepared(woven, parsed, power, delay, sched, old(sched.clock.count) + 1 + |parsed|)
      && Lists(sched.TestSchedule(), set e | e in woven) && |sched.TestSchedule()| == |woven|
      && SortedByOffset(sched.TestSchedule())
    ensures r != -1 ==> DailyInDay(parsed)
    ensures r == 0 && power ==>
      && (1 <= delay <= 300 ==> AllPowered((set e | e in woven), parsed, delay))
      && (delay != 0 ==> |woven| == |parsed| + Resumes(parsed, |parsed|))
  {
    hide Layout, IsList, Holds, NonEmpty, AcceptedTo, DiscardedTo, Prepared, Parsed, Lists, SortedByOffset, Filled,
         Entries, DailyInDay, AllPowered, Resumes;
    r, freed, parsed, woven := -1, [], [], [];
    if slots == null {
      return;
    }
    ArrCollapse(slots, payload, texts);
    ghost var items := NonEmpty(texts);
    SlotIs(slots[..], payload[..], items, 0);
    if slots[0] == NULL {
      return;
    }
    freed := sched.TestClear();
    sched.UpdateToday();
    ghost var sorted;
    r, parsed, woven, sorted := ParseItems(sched, slots, payload, power, delay, items);
    EntriesOfFilled(sched.parsed[..], sorted);
  }

  // ---------- From the configured list to the schedule ----------

  /** The texts of a configured list that are not empty. */
  function ListTexts(list: string): seq<string> {
    NonEmpty(Trims(Items(list)))
  }

  /**
   * Checks the configured list of events, which makes them the test schedule.
   * A list without texts leaves the test schedule as it is.
   */
  method Check(sched: Scheduler, list: Option<CString>, power: bool, delay: int)
    returns (r: int, ghost parsed: seq<Event>, ghost woven: seq<Event>)
    requires sched.Valid() && sched.Separate()
    modifies sched`parsed, sched`todayNow, sched`todayDate, sched.clock
    ensures sched.Valid() && sched.Separate() && sched.clock.count >= old(sched.clock.count)
    ensures r >= -1 && (r == -1 <==> list.None? || ListTexts(list.value) == [])
    ensures r == -1 ==> sched.parsed == old(sched.parsed)
    ensures r != -1 ==> fresh(sched.parsed) && forall e :: e in sched.TestSchedule() ==> fresh(e)
    ensures r != -1 ==> r == DiscardedTo(ListTexts(list.value), |ListTexts(list.value)|)
    ensures r == 0 ==>
      && Parsed(parsed, AcceptedTo(ListTexts(list.value), |ListTexts(list.value)|), sched, old(sched.clock.count) + 1)
      && Prepared(woven, parsed, power, delay, sched, old(sched.clock.count) + 1 + |parsed|)
      && Lists(sched.TestSchedule(), set e | e in woven)
    ensures r == 0 ==> DailyInDay(parsed)
    ensures r == 0 && power && 1 <= delay <= 300 ==> AllPowered((set e | e in woven), parsed, delay)
  {
    hide Layout, IsList, Items, NonEmpty, AcceptedTo, DiscardedTo, Prepared, Parsed, SortedByOffset, DailyInDay,
         AllPowered, Resumes, Entries;
    parsed, woven := [], [];
    var slots, payload := Str2Arr(list);
    r := -1;
    if slots != null {
      var freed;
      r, freed, parsed, woven := TestParse(sched, slots, payload, power, delay, Trims(Items(list.value)));
    }
  }
}
