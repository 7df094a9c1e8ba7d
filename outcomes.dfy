/** Failure-carrying values shared by the whole model. */
module Outcomes {

  /** A value that may be absent (`null` or `undefined` in the source). */
  datatype Option<+T> = None | Some(value: T)

  /** How an awaited call settles: with a value, or by throwing an Error that carries a message. */
  datatype Outcome<+T> = Success(value: T) | Failure(msg: string)

  /** Shown by the flashcard and math views when a thrown error has an empty message. */
  const UnknownError := "An unknown error occurred."

  /** The banner text of a caught error: its message, unless that message is empty (falsy). */
  function ErrorText(message: string): (r: string)
    ensures r != ""
    ensures message != "" ==> r == message
    ensures message == "" ==> r == UnknownError
  {
    if message == "" then UnknownError else message
  }
}
