/** The scheduled event record and its enumerations (event.h). */
module Events {

  /** Scheduling schema of an event (EVENT_TYPE_*). */
  datatype Kind = Daily | Interval | Once

  /** What the dispatcher runs when the event triggers (EVENT_ACTION_*). */
  datatype Action =
    | Suspend
    | Resume
    | PowerOff
    | PowerOn
    | ImportTmpfs
    | ImportTmpfsTimeout
    | Watchdog

  const SOURCE_INTERNAL := 1
  const SOURCE_PARSED := 2

  /** The source of every event that is made; the field has two bits. */
  type Source = s: int | s == SOURCE_INTERNAL || s == SOURCE_PARSED witness SOURCE_INTERNAL

  const SECONDS_PER_DAY := 86400
  const SECONDS_PER_HOUR := 3600
  const SECONDS_PER_MINUTE := 60

  /**
   * One event. The scheduler rewrites nextTrigger and localOffset in place;
   * kind, action and source are written once, when the event is allocated.
   */
  class Event {
    var nextTrigger: int
    var localOffset: int
    const kind: Kind
    const action: Action
    const source: Source

    constructor (kind: Kind, action: Action, source: Source, localOffset: int)
      ensures this.kind == kind && this.action == action && this.source == source
      ensures this.localOffset == localOffset && nextTrigger == 0
    {
      this.kind, this.action, this.source := kind, action, source;
      this.localOffset, this.nextTrigger := localOffset, 0;
    }
  }
}
