/**
  The outcomes of the habit tracker's operations. Every `raise` of the
  Python source becomes a `Failure`; the operation then returns an `Err` or a
  `Fail` instead of a value.
*/
module Failures {

  datatype Option<T> = None | Some(value: T)

  /** The distinct conditions under which the source raises. */
  datatype Failure =
    | BlankName                  // ValueError: name not a non-empty string
    | BlankPeriodicity           // ValueError: periodicity not a non-empty string
    | BeforeStartDate            // ValueError: completion earlier than the start date
    | AlreadyCompletedToday      // ValueError: daily habit, same calendar day
    | AlreadyCompletedThisWeek   // ValueError: weekly habit, same ISO year and week
    | AlreadyCompletedThisMonth  // ValueError: monthly habit, same year and month
    | UnsupportedPeriodicity     // ValueError: periodicity other than daily, weekly, monthly
    | InvalidPeriodicity         // ValueError: filter periodicity not one of the three
    | HabitNotFound              // ValueError: no habit with the given name
    | NotAHabit                  // TypeError: add_habit given something that is not a Habit
    | MissingKey                 // KeyError while loading a record
    | InvalidDate                // ValueError from strptime while loading a record

  datatype Result<T> = Ok(value: T) | Err(error: Failure)

  /** The outcome of an operation that returns nothing when it succeeds. */
  datatype Outcome = Pass | Fail(error: Failure)
}
