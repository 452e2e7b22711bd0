/** Scalar types shared by the components of the archiving service. */
module Primitives {

  /** A `LocalDateTime`, as nanoseconds on the local clock from a fixed origin. */
  type Timestamp = int

  /** A `java.util.UUID`; the model only compares UUIDs for equality. */
  type Uuid = nat

  /** `plusSeconds` on a `LocalDateTime` adds this many nanoseconds per second. */
  const NanosPerSecond: int := 1_000_000_000
}
