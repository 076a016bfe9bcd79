/**
 * The event scheduler (event.c): rescheduling against the clock, creating
 * events, and replacing the parsed part of the schedule.
 */
module Schedule {
  import opened Events
  import opened EventHeap
  import opened LocalTime

  /** time(): successive readings of one non-decreasing stream. */
  class Clock {
    const ticks: nat -> int
    /** How many readings have been taken. */
    var count: nat

    ghost predicate Valid() {
      forall i, j :: 0 <= i <= j ==> ticks(i) <= ticks(j)
    }

    ghost predicate Exceeds(t: int) {
      exists k: nat :: t < ticks(k)
    }

    /** The clock does not stop for ever. */
    ghost predicate MovesOn() {
      forall t :: Exceeds(t)
    }

    constructor (ticks: nat -> int)
      ensures this.ticks == ticks && count == 0
    {
      this.ticks := ticks;
      count := 0;
    }

    method Time() returns (now: int)
      modifies this
      ensures now == ticks(old(count)) && count == old(count) + 1
    {
      now := ticks(count);
      count := count + 1;
    }
  }

  /** What became of a request to (re)schedule an event. */
  datatype Outcome = Scheduled(trigger: int) | Invalid | Exited

  const ACTION_MAXVALUE := 7

  function ActionOfCode(code: int): Action
    requires 1 <= code <= ACTION_MAXVALUE
  {
    [Suspend, Resume, PowerOff, PowerOn, ImportTmpfs, ImportTmpfsTimeout, Watchdog][code - 1]
  }

  function CodeOfAction(action: Action): (code: int)
    ensures 1 <= code <= ACTION_MAXVALUE && ActionOfCode(code) == action
  {
    match action
    case Suspend => 1
    case Resume => 2
    case PowerOff => 3
    case PowerOn => 4
    case ImportTmpfs => 5
    case ImportTmpfsTimeout => 6
    case Watchdog => 7
  }

  function DefaultKind(action: Action): Kind {
    match action
    case Suspend | Resume | PowerOff | PowerOn => Daily
    case ImportTmpfs | Watchdog => Interval
    case ImportTmpfsTimeout => Once
  }

  /** A negative offset of a DAILY event is replaced by zero. */
  function SanitizedOffset(kind: Kind, offset: int): int {
    if kind.Daily? && offset < 0 then 0 else offset
  }

  // ---------- Filtering by source ----------

  /** source & mask, for a two-bit source. */
  predicate SharesBit(source: Source, mask: int) {
    (source % 2 == 1 && mask % 2 == 1) || (source / 2 == 1 && (mask / 2) % 2 == 1)
  }

  /** The events whose source shares no bit with the mask. */
  ghost function KeptFrom(all: set<Event>, mask: int): set<Event> {
    set e | e in all && !SharesBit(e.source, mask)
  }

  /** Removing everything is what the mask of both sources asks for. */
  lemma ClearKeepsByMask(all: set<Event>, mask: int)
    requires 0 <= mask <= 3
    ensures (if mask > 2 then {} else KeptFrom(all, mask)) == KeptFrom(all, mask)
    ensures KeptFrom(all, SOURCE_PARSED) == set e | e in all && e.source == SOURCE_INTERNAL
    ensures KeptFrom(all, SOURCE_INTERNAL) == set e | e in all && e.source == SOURCE_PARSED
    ensures KeptFrom(all, 1) == KeptFrom(all, SOURCE_INTERNAL) && KeptFrom(all, 2) == KeptFrom(all, SOURCE_PARSED)
  {
  }

  /** The entries of a null-terminated list. */
  ghost function Entries(list: seq<Event?>): (s: seq<Event>)
    ensures |s| <= |list|
    ensures forall i :: 0 <= i < |s| ==> s[i] == list[i]
    ensures |s| < |list| ==> list[|s|] == null
  {
    if list == [] || list[0] == null then [] else [list[0]] + Entries(list[1..])
  }

  /** The list holds the given events and then a null. */
  ghost predicate Terminated(list: seq<Event?>, s: seq<Event>) {
    && |s| < |list| && list[|s|] == null
    && forall i :: 0 <= i < |s| ==> list[i] == s[i]
  }

  lemma KeptFromGrows(all: set<Event>, mask: int, e: Event)
    ensures KeptFrom(all + {e}, mask) == KeptFrom(all, mask) + if SharesBit(e.source, mask) then {} else {e}
  {
  }

  class Scheduler {
    const heap: Heap
    const clock: Clock
    const zone: Zone
    /** g_today: the last reading and the calendar date derived from it. */
    var todayNow: int
    var todayDate: int
    /** g_parsed, a null-terminated list; length 0 stands for the null pointer. */
    var parsed: array<Event?>

    /** What scheduling events needs: a valid heap and a clock that never runs backwards. */
    ghost predicate Running()
      reads heap, heap.slots, heap.events
    {
      heap.Valid() && clock.Valid()
    }

    ghost predicate Valid()
      reads this, heap, heap.slots, heap.events, parsed
    {
      && Running()
      && heap.slots != parsed
      && (parsed.Length > 0 ==> parsed[parsed.Length - 1] == null)
    }

    /** The parsed test schedule. */
    ghost function TestSchedule(): seq<Event>
      reads this, parsed
    {
      Entries(parsed[..])
    }

    /** The parsed events are distinct objects, none of them in the heap. */
    ghost predicate Separate()
      reads this, parsed, heap
    {
      && (forall i, j :: 0 <= i < j < |TestSchedule()| ==> TestSchedule()[i] != TestSchedule()[j])
      && (forall e :: e in TestSchedule() ==> e !in heap.events)
    }

    constructor (clock: Clock, zone: Zone)
      requires clock.Valid()
      ensures Valid() && heap.events == {} && TestSchedule() == []
      ensures fresh(heap) && fresh(heap.slots) && fresh(parsed)
      ensures this.clock == clock && this.zone == zone
    {
      heap := new Heap();
      this.clock, this.zone := clock, zone;
      todayNow, todayDate := 0, 0;
      parsed := new Event?[0];
    }

    /** Reloads today from the clock. */
    method UpdateToday()
      modifies `todayNow, `todayDate, clock
      ensures clock.count == old(clock.count) + 1
      ensures todayNow == clock.ticks(old(clock.count))
      ensures todayDate == DayNumber(todayNow + zone.TodayOffset())
    {
      todayNow := clock.Time();
      var localNow := todayNow + zone.ClockOffset();
      todayDate := DayNumber(localNow);
      if zone.dstInEffect && zone.applyDst == 0 {
        todayDate := DayNumber(localNow - SECONDS_PER_HOUR);
      }
    }

    /** Computes the next trigger of an event that is not in the heap. */
    method ScheduleNextTrigger(e: Event)
      modifies `todayNow, `todayDate, clock, e
      ensures clock.count == old(clock.count) + 1
      ensures e.localOffset == SanitizedOffset(e.kind, old(e.localOffset))
      ensures e.nextTrigger
           == NextTrigger(e.kind, old(e.nextTrigger), old(e.localOffset), clock.ticks(old(clock.count)), zone)
      ensures !e.kind.Daily? ==>
        e.nextTrigger
        == (if old(e.nextTrigger) == 0 then clock.ticks(old(clock.count)) else old(e.nextTrigger)) + old(e.localOffset)
    {
      UpdateToday();
      if e.kind.Daily? {
        if e.localOffset < 0 {
          e.localOffset := 0;
        }
        var timeOfDay := EventTimeOfDay(e.localOffset);
        var eventTime := Mktime(todayDate, timeOfDay, zone);
        if eventTime <= todayNow {
          eventTime := Mktime(todayDate + 1, timeOfDay, zone);
        }
        e.nextTrigger := eventTime;
      } else if e.nextTrigger != 0 {
        e.nextTrigger := e.nextTrigger + e.localOffset;
      } else {
        e.nextTrigger := todayNow + e.localOffset;
      }
    }

    /** Puts a fetched event back with a new trigger; a trigger already in the past ends the daemon. */
    method Reschedule(e: Event) returns (outcome: Outcome)
      requires Running() && e !in heap.events
      modifies `todayNow, `todayDate, clock, e, heap, heap.slots
      ensures Running() && (heap.slots == old(heap.slots) || fresh(heap.slots))
      ensures outcome.Invalid? <==> e.kind.Once?
      ensures outcome.Invalid? ==>
        && heap.events == old(heap.events) && clock.count == old(clock.count)
        && e.nextTrigger == old(e.nextTrigger) && e.localOffset == old(e.localOffset)
      ensures !outcome.Invalid? ==>
        && clock.count == old(clock.count) + 2
        && e.localOffset == SanitizedOffset(e.kind, old(e.localOffset))
        && e.nextTrigger
           == NextTrigger(e.kind, old(e.nextTrigger), old(e.localOffset), clock.ticks(old(clock.count)), zone)
        && (outcome.Exited? <==> e.nextTrigger < clock.ticks(old(clock.count) + 1))
      ensures outcome.Exited? ==> heap.events == old(heap.events)
      ensures outcome.Scheduled? ==>
        && heap.events == old(heap.events) + {e}
        && outcome.trigger == e.nextTrigger
    {
      if e.kind.Once? {
        return Invalid;
      }
      ScheduleNextTrigger(e);
      var now := clock.Time();
      if e.nextTrigger < now {
        return Exited;
      }
      heap.Insert(e);
      return Scheduled(e.nextTrigger);
    }

    /** Creates an internal event with the default kind of its action. */
    method Create(action: int, seconds: int) returns (outcome: Outcome, e: Event?)
      requires Running()
      modifies `todayNow, `todayDate, clock, heap, heap.slots
      ensures Running() && (heap.slots == old(heap.slots) || fresh(heap.slots))
      ensures outcome.Invalid? <==> !(1 <= action <= ACTION_MAXVALUE && seconds >= 1)
      ensures outcome.Invalid? ==> heap.events == old(heap.events) && clock.count == old(clock.count)
      ensures !outcome.Invalid? ==>
        && e != null && fresh(e) && clock.count == old(clock.count) + 2
        && e.action == ActionOfCode(action) && e.kind == DefaultKind(e.action)
        && e.source == SOURCE_INTERNAL && e.localOffset == seconds
        && (if action <= 4 then e.kind == Daily else e.kind == if action == 6 then Once else Interval)
        && (action >= 5 ==> e.nextTrigger == clock.ticks(old(clock.count)) + seconds)
        && e.nextTrigger == NextTrigger(e.kind, 0, seconds, clock.ticks(old(clock.count)), zone)
        && (outcome.Exited? <==> e.nextTrigger < clock.ticks(old(clock.count) + 1))
      ensures outcome.Exited? ==> heap.events == old(heap.events)
      ensures outcome.Scheduled? ==>
        && heap.events == old(heap.events) + {e}
        && outcome.trigger == e.nextTrigger
    {
      if action > ACTION_MAXVALUE || action < 1 || seconds < 1 {
        return Invalid, null;
      }
      e := new Event(DefaultKind(ActionOfCode(action)), ActionOfCode(action), SOURCE_INTERNAL, seconds);
      ScheduleNextTrigger(e);
      var now := clock.Time();
      if e.nextTrigger < now {
        return Exited, e;
      }
      heap.Insert(e);
      outcome := Scheduled(e.nextTrigger);
    }

    /** Drains the heap into a null-terminated list of the events to keep. */
    method SaveKept(mask: int) returns (saved: array<Event?>, ghost kept: seq<Event>)
      requires heap.Valid()
      modifies heap, heap.slots
      ensures heap.Valid() && heap.slots == old(heap.slots) && heap.events == {}
      ensures fresh(saved) && Terminated(saved[..], kept)
      ensures Lists(kept, KeptFrom(old(heap.events), mask))
    {
      saved := new Event?[heap.size + 1](_ => null);
      var index := 0;
      kept := [];
      ghost var fetched: set<Event> := {};
      while true
        invariant heap.Valid() && heap.slots == old(heap.slots) && fresh(saved)
        invariant fetched !! heap.events && fetched + heap.events == old(heap.events)
        invariant Lists(kept, KeptFrom(fetched, mask))
        invariant index == |kept| && index + heap.size < saved.Length
        invariant forall i :: 0 <= i < index ==> saved[i] == kept[i]
        invariant forall i :: index <= i < saved.Length ==> saved[i] == null
        decreases heap.size
      {
        var event := heap.Fetch();
        if event == null {
          break;
        }
        KeptFromGrows(fetched, mask, event);
        fetched := fetched + {event};
        if !SharesBit(event.source, mask) {
          AppendedLists(kept, event, KeptFrom(fetched - {event}, mask));
          saved[index] := event;
          index := index + 1;
          kept := kept + [event];
        }
      }
    }

    /** Inserts every entry of a null-terminated list. */
    method PutBack(saved: array<Event?>, ghost entries: seq<Event>)
      requires heap.Valid() && saved != heap.slots && Terminated(saved[..], entries)
      requires forall i, j :: 0 <= i < j < |entries| ==> entries[i] != entries[j]
      requires forall e :: e in entries ==> e !in heap.events
      modifies heap, heap.slots
      ensures heap.Valid() && (heap.slots == old(heap.slots) || fresh(heap.slots))
      ensures heap.events == old(heap.events) + set e | e in entries
    {
      var index := 0;
      while saved[index] != null
        invariant 0 <= index <= |entries| && Terminated(saved[..], entries)
        invariant heap.Valid() && saved != heap.slots && (heap.slots == old(heap.slots) || fresh(heap.slots))
        invariant heap.events == old(heap.events) + set e | e in entries[..index]
        decreases |entries| - index
      {
        heap.Insert(saved[index]);
        index := index + 1;
      }
      assert entries[..index] == entries;
    }

    /** Removes the events whose source shares a bit with the mask; a mask beyond both sources removes everything. */
    method Clear(mask: int)
      requires Valid()
      modifies heap, heap.slots
      ensures Valid() && (heap.slots == old(heap.slots) || fresh(heap.slots))
      ensures heap.events == if mask > 3 then {} else KeptFrom(old(heap.events), mask)
    {
      if mask == 3 {
        ClearKeepsByMask(heap.events, mask);
      }
      if mask > 2 {
        heap.Destroy();
      } else {
        var saved, kept := SaveKept(mask);
        PutBack(saved, kept);
      }
    }

    /** Releases the parsed test schedule; returns the events it frees. */
    method TestClear() returns (freed: seq<Event>)
      requires Valid()
      modifies `parsed
      ensures Valid() && TestSchedule() == [] && parsed.Length == 0 && fresh(parsed)
      ensures freed == old(TestSchedule())
    {
      freed := [];
      if parsed.Length > 0 {
        var index := 0;
        ghost var entries := TestSchedule();
        while parsed[index] != null
          invariant 0 <= index <= |entries| < parsed.Length && freed == entries[..index]
          decreases |entries| - index
        {
          assert parsed[..][index] == parsed[index];
          freed := freed + [parsed[index]];
          index := index + 1;
        }
        assert parsed[..][index] == parsed[index];
      }
      parsed := new Event?[0];
    }

    /** Inserts the parsed events, setting each slot to null as it goes. */
    method InsertParsed()
      requires Valid() && Separate() && parsed.Length > 0
      modifies heap, heap.slots, parsed
      ensures heap.Valid() && heap.slots != parsed && (heap.slots == old(heap.slots) || fresh(heap.slots))
      ensures heap.events == old(heap.events) + set e | e in old(TestSchedule())
      ensures parsed[0] == null && parsed[parsed.Length - 1] == null
    {
      ghost var entries := TestSchedule();
      var n := 0;
      while parsed[n] != null
        invariant 0 <= n <= |entries| < parsed.Length
        invariant heap.Valid() && heap.slots != parsed && (heap.slots == old(heap.slots) || fresh(heap.slots))
        invariant n > 0 ==> parsed[0] == null
        invariant forall i :: n <= i < parsed.Length ==> parsed[i] == old(parsed[i])
        invariant heap.events == old(heap.events) + set e | e in entries[..n]
        decreases |entries| - n
      {
        assert old(parsed[..])[n] == parsed[n];
        heap.Insert(parsed[n]);
        parsed[n] := null;
        n := n + 1;
      }
      assert old(parsed[..])[n] == parsed[n];
      assert entries[..n] == entries;
    }

    /** Moves the parsed test schedule into the heap; none of its events is freed. */
    method CommitTestSchedule() returns (freed: seq<Event>)
      requires Valid() && Separate()
      modifies heap, heap.slots, `parsed, parsed
      ensures Valid() && (heap.slots == old(heap.slots) || fresh(heap.slots))
      ensures heap.events == old(heap.events) + set e | e in old(TestSchedule())
      ensures TestSchedule() == [] && freed == [] && (parsed == old(parsed) || fresh(parsed))
    {
      freed := [];
      if parsed.Length == 0 {
        return;
      }
      InsertParsed();
      freed := TestClear();
    }

    /** What daemon_initialize() does to the schedule. */
    method ReplaceParsed() returns (freed: seq<Event>)
      requires Valid() && Separate()
      modifies heap, heap.slots, `parsed, parsed
      ensures Valid() && TestSchedule() == [] && freed == []
      ensures heap.slots == old(heap.slots) || fresh(heap.slots)
      ensures parsed == old(parsed) || fresh(parsed)
      ensures heap.events == KeptFrom(old(heap.events), SOURCE_PARSED) + set e | e in old(TestSchedule())
    {
      Clear(SOURCE_PARSED);
      freed := CommitTestSchedule();
    }
  }
}
