/** Optional values and success/failure results shared by the tournament model. */
module Wrappers {

  /** A value that may be absent (JavaScript `null`). */
  datatype Option<+T> = None | Some(value: T)

  /** The outcome of a handler that either succeeds or is rejected with a validation error. */
  datatype Result<+R, +E> = Ok(value: R) | Err(error: E)
}

/** The one error kind of the tournament: a rejected user action, with the state left unchanged. */
module Validation {

  datatype ValidationError =
    | EmptyName      // "Team name cannot be empty."
    | DuplicateName  // "Team name already exists."
    | TooFewTeams    // "At least two teams are required to start a tournament."
    | MissingScores  // "Please enter scores for both teams."
    | TieGame        // "Tie game. Please enter different scores."
}
