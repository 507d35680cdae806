/** Packet sequence numbers and half-open sequence ranges (lancaster/sequence.h). */
module Sequences {

  datatype Option<+T> = None | Some(value: T)

  const SEQUENCE_MAX: int := 0x7FFF_FFFF_FFFF_FFFF
  const SEQUENCE_MIN: int := -0x8000_0000_0000_0000

  // Sequences reserved on the TCP channel.
  const HEARTBEAT_SEQ := -1
  const WILL_QUIT_SEQ := -2

  datatype Range = Range(low: int, high: int) {
    predicate Valid() { low < high }

    predicate Contains(n: int) { low <= n < high }

    /** The in-place widening done when a further request is read: each bound moves on its own. */
    function Widen(r: Range): Range {
      Range(if r.low < low then r.low else low, if r.high > high then r.high else high)
    }
  }

  /** What INVALIDATE_RANGE assigns: contains nothing, and is neutral for Widen. */
  const INVALID_RANGE := Range(SEQUENCE_MAX, SEQUENCE_MIN)
}
