/** The optional value used for the nullable columns, nil references and absent results of the platform, and the instants it records. */
module Wrappers {
  datatype Option<+T> = None | Some(value: T) {
    function GetOr(default: T): T {
      if Some? then value else default
    }
  }

  /** Nanoseconds from an epoch before everything the platform records; the calendar counts from year 0. */
  type Instant = nat
}
