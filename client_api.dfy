/** What a store action learns from its API call: the value the server sent
    back, or the failure it threw. Which of the two happens is an input to
    the model. */
module ClientApi {

  datatype Outcome<T> = Ok(value: T) | Failed(message: string)

  /** `error.message || fallback`: the failure's message, or the action's
      own text when the message is empty or missing. */
  function ErrorText(message: string, fallback: string): (r: string)
    ensures message != "" ==> r == message
    ensures message == "" ==> r == fallback
  {
    if message != "" then message else fallback
  }
}
