/** StreamExtensions.RunnableExtensions: adapters for a fallible procedure
    of no inputs. */
module RunnableExtensions {
  import opened JavaLang
  import opened Callables
  import ExceptionText

  /** `handleException(r, ec)`: runs r once; on an exception hands it to ec,
      whose own completion (even a throw) is the result. */
  function HandleException(r: ExceptionThrowingRunnable, ec: ExceptionConsumer): (c: Completion<()>)
    ensures r().Normal? ==> c == r()
    ensures r().Abrupt? ==> c == ec(r().thrown)
  {
    TryCatch(r(), ec)
  }

  /** `throwRuntimeException(r)`: an exception from r becomes a
      RuntimeException whose message names r (rendered as rText) and has
      no input list. */
  function ThrowRuntimeException(r: ExceptionThrowingRunnable, rText: string): (c: Completion<()>)
    ensures r().Normal? ==> c == r()
    ensures r().Abrupt? ==>
      c == Abrupt(NewRuntimeException(ExceptionText.Text(r().thrown, rText, [])))
  {
    HandleException(r, e => Abrupt(NewRuntimeException(ExceptionText.Text(e, rText, []))))
  }
}
