/** Compile-time constants of the UV bot and the small Option wrapper used by the lookups. */
module Config {

  /** Maximum number of characters an inbound chat message may have (exclusive bound). */
  const MAXLEN: nat := 100

  /** Number of subscriber slots in the registry. */
  const MAXSUB: nat := 10

  /** UV index at or above which the once-a-day warning fires. */
  const UVWARNING: int := 30

  datatype Option<+T> = None | Some(value: T)
}
