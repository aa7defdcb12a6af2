/** The error kinds every fallible constructor reports (src/errors.rs). */
module Errors {

  /** `InvalidRepetition` and `InvalidDateTime` are declared by the library
      but no operation produces them. */
  datatype SchedulerError =
    | InvalidConfiguration
    | TimeInPast
    | InvalidDuration
    | InvalidRepetition
    | InvalidDateTime
}
