/** The Java values the adapters work with: references that may be null,
    java.util.Optional, exceptions, and the two ways a Java call completes. */
module JavaLang {

  /** A Java reference of type T, which may be null. */
  datatype Ref<+T> = Null | NonNull(obj: T)

  /** java.util.Optional: either empty or holding a (non-null) value. */
  datatype Optional<+T> = Empty | Present(value: T)

  /** A thrown java.lang.Exception: its class name and its message
      (getMessage() may return null). */
  datatype Exception = Exception(className: string, message: Ref<string>)

  /** How the evaluation of a call ends: it completes normally with a value,
      or it completes abruptly by throwing an exception. */
  datatype Completion<+T> = Normal(value: T) | Abrupt(thrown: Exception)

  const RuntimeExceptionClass := "java.lang.RuntimeException"

  /** `new RuntimeException(message)` */
  function NewRuntimeException(message: string): Exception
  {
    Exception(RuntimeExceptionClass, NonNull(message))
  }

  /** `Optional.ofNullable(x)`: empty for null, present otherwise. */
  function OfNullable<T>(x: Ref<T>): Optional<T>
  {
    match x
    case Null => Empty
    case NonNull(v) => Present(v)
  }

  /** `try { return <attempt>; } catch (Exception e) { return handler(e); }`.
      The handler runs outside the try block, so however it completes
      (normally or by throwing) is how the whole statement completes. */
  function TryCatch<T>(attempt: Completion<T>, handler: Exception -> Completion<T>): (r: Completion<T>)
    ensures attempt.Normal? ==> r == attempt
    ensures attempt.Abrupt? ==> r == handler(attempt.thrown)
  {
    match attempt
    case Normal(_) => attempt
    case Abrupt(e) => handler(e)
  }

  /** What `StringBuilder.append(e.getMessage())` writes: a null message
      is written as "null". */
  function MessageText(e: Exception): string
  {
    match e.message
    case Null => "null"
    case NonNull(s) => s
  }
}
