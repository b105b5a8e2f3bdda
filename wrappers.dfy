/** The optional value used wherever the pages hold `T | null` or `T | undefined`, and the
    outcome of a request. */
module Wrappers {

  datatype Option<+T> = None | Some(value: T)

  /** How a request ends: `Answered` with what the page reads from the response, or `Failed`
      with the message the page shows when the request throws or the page rejects the answer.
      A page that does not look at the status reads an error status as an ordinary answer, so
      for it `Answered` means only that the request did not throw. */
  datatype Response<+T> = Answered(value: T) | Failed(message: string)
}
