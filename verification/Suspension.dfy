/**
 * The suspension of the main loop by its schedule (daemon.c): the flag that a
 * pump leaves is the one that the loop tests before it starts a worker.
 */
module Suspension {
  import opened Events
  import opened MainLoop
  import opened Pump

  /** Some event of the action fired. */
  ghost predicate Fires(j: Journal, action: Action) {
    j.Firing? && (j.event.action == action || Fires(j.earlier, action))
  }

  /** A SUSPEND fired, and no RESUME after it. */
  ghost predicate LeavesSuspended(j: Journal) {
    j.Firing? && (j.event.action.Suspend? || (!j.event.action.Resume? && LeavesSuspended(j.earlier)))
  }

  /** The last SUSPEND or RESUME decides; without either, the flag stays. */
  lemma {:induction false} SuspendedExactly(j: Journal, suspended: bool)
    ensures AfterActions(j, suspended) <==> LeavesSuspended(j) || (suspended && !Fires(j, Resume))
  {
    if j.Firing? {
      SuspendedExactly(j.earlier, suspended);
    }
  }

  /** Each schedule wake-up is a pump with the given journal, which starts from the flag and sets it. */
  ghost predicate PumpedBy(s: State, ws: seq<Wake>, js: seq<Journal>)
    requires |js| == |ws|
    decreases |ws|
  {
    ws == [] ||
    ( && (ws[0].pump.Some? ==> ws[0].pump.value.suspended == AfterActions(js[0], s.bySchedule))
      && PumpedBy(After(s, ws[0]), ws[1..], js[1..]) )
  }

  /** A scheduled suspension stands, and no worker is started, until a pump fires a RESUME. */
  lemma {:induction false} SuspendedUntilResume(s: State, ws: seq<Wake>, js: seq<Journal>)
    requires s.bySchedule && |js| == |ws| && PumpedBy(s, ws, js)
    requires forall i :: 0 <= i < |ws| ==> ws[i].pump.Some? ==> !Fires(js[i], Resume)
    ensures AfterMore(s, ws).actions == s.actions && AfterMore(s, ws).bySchedule
    decreases |ws|
  {
    hide Signalled, Ticked, After;
    if ws != [] {
      SuspendedExactly(js[0], s.bySchedule);
      ScheduleSuspends(s, ws[..1]);
      assert ws[..1][1..] == [];
      assert AfterMore(s, ws[..1]) == After(s, ws[0]);
      SuspendedUntilResume(After(s, ws[0]), ws[1..], js[1..]);
    }
  }

  /** From a pump whose last SUSPEND has no RESUME after it until a pump fires a RESUME, no worker is started. */
  lemma SuspendSuspends(s: State, ws: seq<Wake>, js: seq<Journal>)
    requires |js| == |ws| > 0 && PumpedBy(s, ws, js)
    requires ws[0].pump.Some? && LeavesSuspended(js[0])
    requires !TimedOut(s, ws[0]).exited && !TimedOut(s, ws[0]).stuck
    requires forall i :: 0 < i < |ws| ==> ws[i].pump.Some? ==> !Fires(js[i], Resume)
    ensures AfterMore(s, ws).actions == After(s, ws[0]).actions && AfterMore(s, ws).bySchedule
  {
    hide TimedOut;
    SuspendedExactly(js[0], s.bySchedule);
    SuspendedUntilResume(After(s, ws[0]), ws[1..], js[1..]);
  }

  /** The flag a completed pump leaves is the one its journal gives. */
  lemma JournalSetsFlag(d: Daemon, start: Snapshot, j: Journal, now: int)
    requires start.Covers(start.trigger.Keys) && d.Recorded(start, j, now)
    ensures d.suspendedBySchedule <==> LeavesSuspended(j) || (start.suspended && !Fires(j, Resume))
  {
    SuspendedExactly(j, start.suspended);
  }
}
