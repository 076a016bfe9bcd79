/** The lap timer (util.c) that times the write test. */
module Timer {

  const NANOS_PER_SECOND := 1000000000

  datatype Timespec = Timespec(sec: int, nsec: int)

  const EPOCH := Timespec(0, 0)

  predicate Normal(t: Timespec) {
    0 <= t.nsec < NANOS_PER_SECOND
  }

  function Nanos(t: Timespec): int {
    t.sec * NANOS_PER_SECOND + t.nsec
  }

  /** The length of a lap: from the start if there was none before. */
  function LapNanos(start: Timespec, lap: Timespec, now: Timespec): int {
    Nanos(now) - Nanos(if lap == EPOCH then start else lap)
  }

  class LapTimer {
    var start: Timespec
    var lap: Timespec
    var elapsedTotal: Timespec
    var elapsedLap: Timespec

    /** xtmr() and xtmrreset(): no lap yet, which the epoch stands for. */
    constructor (now: Timespec)
      ensures start == now && lap == EPOCH
    {
      start, lap, elapsedTotal, elapsedLap := now, EPOCH, EPOCH, EPOCH;
    }

    /** xtmrlap() at the time now. */
    method Lap(now: Timespec)
      requires Normal(start) && Normal(lap) && Normal(now)
      modifies this
      ensures start == old(start) && lap == now
      ensures Normal(elapsedTotal) && Nanos(elapsedTotal) == Nanos(now) - Nanos(start)
      ensures Normal(elapsedLap) && Nanos(elapsedLap) == LapNanos(start, old(lap), now)
    {
      if start.nsec > now.nsec {
        elapsedTotal := Timespec(now.sec - start.sec - 1, 1000000000 - (start.nsec - now.nsec));
      } else {
        elapsedTotal := Timespec(now.sec - start.sec, now.nsec - start.nsec);
      }
      if lap.sec == 0 && lap.nsec == 0 {
        elapsedLap := elapsedTotal;
      } else if lap.nsec > now.nsec {
        elapsedLap := Timespec(now.sec - lap.sec - 1, 1000000000 - (lap.nsec - now.nsec));
      } else {
        elapsedLap := Timespec(now.sec - lap.sec, now.nsec - lap.nsec);
      }
      lap := now;
    }
  }

  function LastLap(readings: seq<Timespec>): Timespec {
    if readings == [] then EPOCH else readings[|readings| - 1]
  }

  /** All laps together. */
  function LapSum(start: Timespec, readings: seq<Timespec>): int {
    if readings == [] then 0
    else
      var before := readings[..|readings| - 1];
      LapSum(start, before) + LapNanos(start, LastLap(before), readings[|readings| - 1])
  }

  /** How many laps ended at the very epoch and so look like none. */
  function EpochLaps(readings: seq<Timespec>): nat {
    if readings == [] then 0
    else EpochLaps(readings[..|readings| - 1]) + if readings[|readings| - 1] == EPOCH then 1 else 0
  }

  /** The laps add up to the total time, but for laps that ended at the epoch: the next one starts over. */
  lemma {:induction false} LapsAddUp(start: Timespec, readings: seq<Timespec>)
    requires readings != []
    ensures LapSum(start, readings)
         == Nanos(LastLap(readings)) - Nanos(start) - EpochLaps(readings[..|readings| - 1]) * Nanos(start)
  {
    var before := readings[..|readings| - 1];
    if before != [] {
      LapsAddUp(start, before);
      var k, s := EpochLaps(before[..|before| - 1]), Nanos(start);
      assert EpochLaps(before) == if LastLap(before) == EPOCH then k + 1 else k;
      assert (k + 1) * s == k * s + s;
    }
  }
}
