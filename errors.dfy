// Sentinel errors of the library and the two wrappers the model returns them in.
module Errors {

  /** One constructor per sentinel value of errors.go. */
  datatype Error =
    | EmptyDeck          // drawing from an empty deck
    | InvalidHandSize    // a hand that does not have exactly 5 cards
    | DuplicateCards     // a hand holding the same (rank, suit) twice
    | InvalidHoleCards   // hole cards that are not exactly 2 cards
    | InvalidBoardState  // a board operation in the wrong street

  /** A pointer that may be nil. */
  datatype Option<+T> = None | Some(value: T)

  /** A Go `(value, error)` pair where exactly one side is meaningful. */
  datatype Result<+T> = Ok(value: T) | Err(error: Error)
}
