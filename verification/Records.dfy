/** One decoded Record, as the reader's accessors return it, and the totals it carries. */
module Records {
  import opened Prelude

  /**
   A `duration` as it comes off the wire. A double that is an infinity or not a number is one
   case; every finite double is a real, with no rounding.
   */
  datatype Seconds = Finite(v: real) | NotFinite
  {
    function Minus(other: Seconds): Seconds {
      if this.Finite? && other.Finite? then Finite(v - other.v) else NotFinite
    }
  }

  /** One Record. `timed` and `pricesPause` are facts of the build's Entry layout. */
  datatype Record = Record(
    interpreter: int, generation: nat, index: nat,
    timed: bool, pricesPause: bool,
    tsStart: int, tsStop: int,
    collections: i64, collected: int, uncollectable: int,
    duration: Seconds)
  {
    /** Whether the Entry describes a finished Collection. A build with no timestamps cannot say. */
    predicate IsComplete() {
      !timed || tsStart < tsStop
    }

    function PauseNs(): int {
      Max(tsStop - tsStart, 0)
    }
  }

  datatype RingKey = RingKey(pid: int, interpreter: int, generation: nat)

  datatype Lifetime = Lifetime(collections: i64, collected: int, uncollectable: int, duration: Seconds)

  function LifetimeOf(r: Record): Lifetime {
    Lifetime(r.collections, r.collected, r.uncollectable, r.duration)
  }

  function KeyOf(pid: int, r: Record): RingKey {
    RingKey(pid, r.interpreter, r.generation)
  }

  function InRing(key: RingKey): Record -> bool {
    (r: Record) => r.interpreter == key.interpreter && r.generation == key.generation
  }

  /** The order Records fold in: interpreter, generation, counter. */
  predicate RingOrder(a: Record, b: Record) {
    || a.interpreter < b.interpreter
    || (a.interpreter == b.interpreter &&
        (a.generation < b.generation ||
         (a.generation == b.generation && a.collections <= b.collections)))
  }

  /** The order an exporter receives Records in. */
  predicate StartOrder(a: Record, b: Record) {
    a.tsStart <= b.tsStart
  }
}
