/** Datatypes shared by the models. */
module Common {

  datatype Option<+T> = None | Some(value: T)

  /** Durations are counted in nanoseconds, as the clocks of the source are. */
  const SECOND: int := 1_000_000_000
  const MINUTE: int := 60 * SECOND
}
