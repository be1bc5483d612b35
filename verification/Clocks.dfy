/** Instants in milliseconds and the clocks that zones show at them. */
module Clocks {

  const MINUTE := 60_000
  const HOUR := 3_600_000
  const DAY := 86_400_000

  /** A zone's offset in milliseconds at each instant. */
  type Zone = int -> int

  /** What the zone's clock shows, as milliseconds on a clock that runs like UTC. */
  function Local(z: Zone, t: int): int {
    t + z(t)
  }

  /** The day number on the zone's calendar. */
  function DayAt(z: Zone, t: int): int {
    Local(z, t) / DAY
  }

  /** The time of day at an instant. */
  function TimeOfDay(z: Zone, t: int): int {
    Local(z, t) % DAY
  }

  /** The one time a zone's clock is moved. */
  datatype Change = Change(at: int, before: int, after: int) {
    function Offset(t: int): int {
      if t < at then before else after
    }
  }

  ghost predicate ChangesOnce(z: Zone, c: Change) {
    forall t :: z(t) == c.Offset(t)
  }
}
