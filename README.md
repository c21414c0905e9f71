# Stream extensions: a Dafny model of the exception adapters

This project models `StreamExtensions`, a small Java library that lets
exception-throwing lambdas take part in `java.util.stream` pipelines. Each
adapter calls a fallible callable once and picks one of three dispositions
when it throws:

- `handleException` hands the exception, then the original inputs, to a
  caller-supplied handler.
- `throwRuntimeException` rethrows it as a `RuntimeException` whose message
  comes from `runtimeExceptionText`.
- `returnOptional` turns an exception, or a null result, into an empty
  `Optional`.

The adapters come in four families: Runnable, Consumer (one to three
inputs), Supplier and Function (one to three inputs). On top of the
one-input `returnOptional` sit two stream mappers:
`removeExceptionsFromStream` drops the failing elements, and
`splitExceptionsFromStream` also collects the failing inputs in a queue.

How Java is represented:

- A call ends in a `Completion`: `Normal(value)` or `Abrupt(thrown)`.
  A `void` callable completes with `()`. A value may be null, which is
  `Ref.Null`.
- The callables are Dafny arrow types named after the functional interfaces
  of `FunctionExtensions.java` (module `Callables`). Handlers return a
  `Completion` too, because a handler may throw an unchecked exception.
  That exception propagates unchanged, since the handler runs outside the
  `try`.
- The try/catch skeleton is written once, as `JavaLang.TryCatch`. Each Java
  overload is a function of its own, and its contract states both outcomes.
- `runtimeExceptionText` appears twice. `ExceptionText.Text` is the
  template as a function. `ExceptionText.RuntimeExceptionText` is the
  string-builder loop, including the deletion of the trailing `", "`,
  proved equal to `Text`.
- Streams are finite sequences, and a stream element may be null.
  `splitExceptionsFromStream` is a method whose loop appends to two
  sequences, read once the first stream is drained. Draining is a
  `Completion`, because the queue of bad inputs (a `ConcurrentLinkedQueue`)
  refuses null. At the first rejected input that is null, `add` throws
  `NullPointerException` out of the drain, and the queue keeps what came
  before. Without such an input, the drained output is
  `RemoveExceptionsFromStream` and the queue is `RejectedInputs`.

`FunctionExtensions.java` declares `ExceptionThrowingPolyConsumer` and
`ExceptionThrowingPolyFunction` (lines 67-70 and 96-99), but no adapter takes
them, so none is modelled. Every adapter catches with `catch (Exception e)`,
so `java.lang.Exception` and its subclasses are caught; an `Error` is not. The
model has no `Error`: every abrupt completion it carries is an exception the
adapters catch.

## Model

| member | source | states |
|---|---|---|
| JavaLang.TryCatch | src/main/java/arash/sepasi/streamextensions/StreamExtensions.java:31-35 | `try { attempt } catch (Exception e) { handler(e) }`: a normal attempt is the result unchanged, and an abrupt one completes exactly as the handler applied to the thrown exception does (the same block at lines 46-50, 92-96, 113-117 and every other adapter) |
| RunnableExtensions.HandleException | src/main/java/arash/sepasi/streamextensions/StreamExtensions.java:30-36 | on normal completion the runnable's result stands and the handler is not involved; when it throws, the result is the handler's completion for that exception (a throwing handler propagates) |
| RunnableExtensions.ThrowRuntimeException | src/main/java/arash/sepasi/streamextensions/StreamExtensions.java:37-41 | normal completion passes through; a thrown exception becomes a RuntimeException whose message is the template with the runnable's text and no input list |
| ConsumerExtensions.HandleException1 | src/main/java/arash/sepasi/streamextensions/StreamExtensions.java:45-51 | normal completion passes through; on an exception the result is the handler applied to (exception, input) |
| ConsumerExtensions.HandleException2 | src/main/java/arash/sepasi/streamextensions/StreamExtensions.java:52-58 | the same for two inputs: handler applied to (exception, i1, i2) |
| ConsumerExtensions.HandleException3 | src/main/java/arash/sepasi/streamextensions/StreamExtensions.java:62-69 | the same for three inputs: handler applied to {exception, i1, i2, i3} |
| ConsumerExtensions.ThrowRuntimeException1 | src/main/java/arash/sepasi/streamextensions/StreamExtensions.java:70-74 | normal completion passes through; an exception becomes a RuntimeException with message Text(e, consumer, [input]) |
| ConsumerExtensions.ThrowRuntimeException2 | src/main/java/arash/sepasi/streamextensions/StreamExtensions.java:75-79 | as above with the two inputs listed in order |
| ConsumerExtensions.ThrowRuntimeException3 | src/main/java/arash/sepasi/streamextensions/StreamExtensions.java:83-87 | as above with the three inputs listed in order |
| SupplierExtensions.HandleException | src/main/java/arash/sepasi/streamextensions/StreamExtensions.java:91-97 | the supplier's value when it returns; otherwise exactly what the handler makes of the exception |
| SupplierExtensions.ThrowRuntimeException | src/main/java/arash/sepasi/streamextensions/StreamExtensions.java:98-102 | the supplier's value when it returns; otherwise a RuntimeException with message Text(e, supplier, []) |
| SupplierExtensions.ReturnOptional | src/main/java/arash/sepasi/streamextensions/StreamExtensions.java:103-108 | present exactly when the supplier returns a non-null value, and then holding that value; empty on an exception or null; never throws |
| SupplierExtensions.DispositionsAgree | src/main/java/arash/sepasi/streamextensions/StreamExtensions.java:91-108 | the three dispositions agree on a returned value; returnOptional is empty exactly when throwRuntimeException throws or yields null |
| FunctionExtensions.HandleException1 | src/main/java/arash/sepasi/streamextensions/StreamExtensions.java:112-118 | the function's value when it returns; otherwise the handler's completion for (exception, input), uncaught if the handler throws |
| FunctionExtensions.HandleException2 | src/main/java/arash/sepasi/streamextensions/StreamExtensions.java:120-126 | the same for two inputs: handler applied to (exception, i1, i2) |
| FunctionExtensions.HandleException3 | src/main/java/arash/sepasi/streamextensions/StreamExtensions.java:132-139 | the same for three inputs: handler applied to {exception, i1, i2, i3} |
| FunctionExtensions.ThrowRuntimeException1 | src/main/java/arash/sepasi/streamextensions/StreamExtensions.java:141-145 | the function's value when it returns; otherwise a RuntimeException with message Text(e, function, [input]) |
| FunctionExtensions.ThrowRuntimeException2 | src/main/java/arash/sepasi/streamextensions/StreamExtensions.java:147-151 | as above with the two inputs listed in order |
| FunctionExtensions.ThrowRuntimeException3 | src/main/java/arash/sepasi/streamextensions/StreamExtensions.java:157-161 | as above with the three inputs listed in order |
| FunctionExtensions.ReturnOptional1 | src/main/java/arash/sepasi/streamextensions/StreamExtensions.java:163-168 | present with v exactly when the function returns non-null v; empty on an exception or null; never throws |
| FunctionExtensions.ReturnOptional2 | src/main/java/arash/sepasi/streamextensions/StreamExtensions.java:170-175 | the same for two inputs |
| FunctionExtensions.ReturnOptional3 | src/main/java/arash/sepasi/streamextensions/StreamExtensions.java:181-186 | the same for three inputs |
| FunctionExtensions.DispositionsAgree1 | src/main/java/arash/sepasi/streamextensions/StreamExtensions.java:112-168 | on a returned value handleException and throwRuntimeException give it unchanged; returnOptional is empty exactly when throwRuntimeException throws or yields null |
| FunctionExtensions.DispositionsAgree2 | src/main/java/arash/sepasi/streamextensions/StreamExtensions.java:120-175 | the same agreement for two inputs |
| FunctionExtensions.DispositionsAgree3 | src/main/java/arash/sepasi/streamextensions/StreamExtensions.java:132-186 | the same agreement for three inputs |
| FunctionExtensions.RuntimeExceptionKeepsMessage1 | src/main/java/arash/sepasi/streamextensions/StreamExtensions.java:141-145 | the rethrown exception is a RuntimeException whose message starts with the lead text and the function and ends with ": " and the original message |
| ExceptionText.Text | src/main/java/arash/sepasi/streamextensions/StreamExtensions.java:236-253 | every message starts with "Caught an exception when evaluating " and the callable, and ends with ": " and the exception's message ("null" when it has none) |
| ExceptionText.RuntimeExceptionText | src/main/java/arash/sepasi/streamextensions/StreamExtensions.java:236-253 | the append loop followed by deleting the last two characters produces exactly the template Text |
| ExceptionText.TerminatedIsJoinThenSeparator | src/main/java/arash/sepasi/streamextensions/StreamExtensions.java:243-247 | what the loop writes, each input followed by ", ", is the joined list plus one separator, so the deletion leaves no trailing separator |
| ExceptionText.TextShape | src/main/java/arash/sepasi/streamextensions/StreamExtensions.java:241-251 | with no inputs the template has no input clause; with inputs the template's single input clause " with inputs (" ... ")" holds the joined inputs (the callable or input texts may themselves contain that phrase) |
| ExceptionText.JoinFront | src/main/java/arash/sepasi/streamextensions/StreamExtensions.java:243-244 | the list reads left to right: first input, separator, then the rest |
| ExceptionText.JoinLength | src/main/java/arash/sepasi/streamextensions/StreamExtensions.java:243-247 | the joined text is the inputs' total length plus two characters per gap between inputs |
| ExceptionText.SplitJoin | src/main/java/arash/sepasi/streamextensions/StreamExtensions.java:243-247 | when no input text contains a comma, cutting the clause at ", " gives back the inputs in order |
| StreamMappers.TupleAccessors | src/main/java/arash/sepasi/streamextensions/StreamExtensions.java:221-234 | getFirst and getSecond return exactly the constructor arguments |
| StreamMappers.MapToOptional | src/main/java/arash/sepasi/streamextensions/StreamExtensions.java:193-198 | one Optional per input, in order; the k-th is present exactly when the mapper returns a non-null value for the k-th input, and then holds that value (the same stage at lines 207-214) |
| StreamMappers.PresentValues | src/main/java/arash/sepasi/streamextensions/StreamExtensions.java:199-200 | filtering present values and unwrapping them never lengthens the stream |
| StreamMappers.RemoveExceptionsFromStream | src/main/java/arash/sepasi/streamextensions/StreamExtensions.java:191-201 | the output is no longer than the input |
| StreamMappers.RejectedInputs | src/main/java/arash/sepasi/streamextensions/StreamExtensions.java:207-214 | the inputs with an empty returnOptional result, which the queue holds after a drain with no null reject, are no more than the inputs |
| StreamMappers.SingleInput | src/main/java/arash/sepasi/streamextensions/StreamExtensions.java:206-216 | a single input goes either as its mapped value to the output or as itself to the rejects, never both; a null result counts as a reject (for a null input that is rejected, the split itself throws instead: see SplitExceptionsFromStream) |
| StreamMappers.RemoveExceptionsAppend | src/main/java/arash/sepasi/streamextensions/StreamExtensions.java:191-201 | the output of a concatenation is the concatenation of the outputs (input order kept) |
| StreamMappers.RejectedInputsAppend | src/main/java/arash/sepasi/streamextensions/StreamExtensions.java:207-214 | the rejects of a concatenation are the concatenation of the rejects (input order kept) |
| StreamMappers.FirstNullReject | src/main/java/arash/sepasi/streamextensions/StreamExtensions.java:208-211 | the position of the first input that is null and has an empty result, which `badInputs.add` refuses: every earlier input is not such a one |
| StreamMappers.SplitStep | src/main/java/arash/sepasi/streamextensions/StreamExtensions.java:207-214 | one step of the split's pass: input k adds its value to the output when returnOptional is present, and adds itself to the rejects when it is empty |
| StreamMappers.SplitExceptionsFromStream | src/main/java/arash/sepasi/streamextensions/StreamExtensions.java:203-219 | with no null reject, draining the first stream gives exactly removeExceptionsFromStream's output and the queue exactly the inputs with an empty result, in order; otherwise draining throws NullPointerException and the queue holds the rejects before the first null reject |
| StreamMappers.SplitExceptionsFromStreamNullSafe | src/main/java/arash/sepasi/streamextensions/StreamExtensions.java:203-219 | the split with a queue that accepts null: the first sequence is removeExceptionsFromStream's output and the second every input with an empty result, nulls included |
| StreamMappers.SplitPartitionsInput | src/main/java/arash/sepasi/streamextensions/StreamExtensions.java:203-219 | output length plus rejects length equals input length (what both splits return when no rejected input is null, and the null-safe split always) |
| StreamMappers.RemoveExceptionsMembership | src/main/java/arash/sepasi/streamextensions/StreamExtensions.java:191-201 | v is in the output if and only if some input's returnOptional result is present with v |
| StreamMappers.RejectedInputsMembership | src/main/java/arash/sepasi/streamextensions/StreamExtensions.java:207-214 | x is among RejectedInputs if and only if x is an input whose returnOptional result is empty (the queue's contents when no rejected input is null) |
| StreamMappers.PartialDrainSeesPrefix | src/main/java/arash/sepasi/streamextensions/StreamExtensions.java:204-217 | reading the queue after only k inputs were pulled sees a prefix of the full rejects |
| StreamMappers.AlwaysThrowingMapper | src/main/java/arash/sepasi/streamextensions/StreamExtensions.java:191-219 | a mapper that always throws gives an empty output and RejectedInputs is every input, in order (the split's queue when the stream holds no null) |
| Scenarios.EvensRemovedOverZeroToNine | src/test/java/arash/sepasi/streamextensions/StreamExtensionsTest.java:223-237 | throwing on evens over 0..9 leaves exactly "1", "3", "5", "7", "9" |
| Scenarios.EvensRejectedOverZeroToNine | src/test/java/arash/sepasi/streamextensions/StreamExtensionsTest.java:253-274 | throwing on evens over 0..9 rejects exactly 0, 2, 4, 6, 8 |
| Scenarios.SplitEvensOverZeroToNine | src/test/java/arash/sepasi/streamextensions/StreamExtensionsTest.java:253-274 | the split over 0..9 yields the odds rendered and the evens, each in order |
| Scenarios.SplitAlwaysThrowingOverZeroToNine | src/test/java/arash/sepasi/streamextensions/StreamExtensionsTest.java:239-251 | with a mapper that always throws, the split yields an empty first sequence and the whole input second |
| Scenarios.SplitNullInputThrows | src/main/java/arash/sepasi/streamextensions/StreamExtensions.java:207-216 | a stream holding one null String mapped by `s -> s.length()`: draining the first stream throws NullPointerException and the queue stays empty |
| Scenarios.SplitNullInputNullSafe | src/main/java/arash/sepasi/streamextensions/StreamExtensions.java:203-219 | the same stream through the null-safe split: empty output, and the null input returned as a reject |
| Scenarios.SuccessfulFunctionIsPresent | src/test/java/arash/sepasi/streamextensions/StreamExtensionsTest.java:136-141 | returnOptional of the successful fixture function is present with "RETURNED" + "INPUT" |
| Scenarios.ThrowingFunctionRaises | src/test/java/arash/sepasi/streamextensions/StreamExtensionsTest.java:78-81 | throwRuntimeException of the throwing fixture raises a RuntimeException naming the function, the input and the message "StaticFunction" |

## Left out

- Overloads taking the Di shapes (`src/main/java/arash/sepasi/streamextensions/StreamExtensions.java:59-61`, `80-82`, `128-130`, `153-155`, `177-179`) are left out. They only cast to the Bi shapes and call the Bi overloads, which are modelled.
- StreamMappers.SplitExceptionsFromStream: draining is modelled as one whole collect of the first stream. Elements pulled before a NullPointerException, and the laziness of the stream, are not modelled beyond the queue's contents at that point.
- SLF4J logging (`LOG.warn` at lines 105, 165, 172, 183, 196, 210) is left out as an external side effect, so "exactly one warning" is not modelled. Its message argument is evaluated even when nothing is logged; see the `toString()` line for what that assumes.
- Stream laziness is not modelled. Streams are finite sequences traversed eagerly. Re-traversing a stream gives the same result trivially, because the model's functions are deterministic.
- The thread safety of `ConcurrentLinkedQueue` is not modelled. Neither is the order of appends under concurrent traversal, which need not be input order. The queue is a local sequence filled in input order. `PartialDrainSeesPrefix` covers only reading it before the sequential traversal ends.
- Side effects of the callables and handlers are not modelled. A callable is modelled by how it completes. That each adapter calls it exactly once shows only in the structure of each body: one application, and the handler only on the exception branch.
- `toString()` of the callable and of the inputs is not modelled. They arrive as a text parameter and `show` functions. This includes `String.valueOf` writing "null" for a null input.
- The model assumes that `toString()` of the callable and inputs, and `getMessage()`, complete normally. `runtimeExceptionText` runs inside the handlers, outside the `try` (lines 104-106, 164-166, 171-173, 182-184). A throwing `toString()` or `getMessage()` would therefore escape `returnOptional` and both stream mappers. The "never throws" of the ReturnOptional rows holds only under this assumption.
- `java.lang.Error` is not modelled. `catch (Exception e)` does not catch it, so it would escape every adapter, including `returnOptional` and both stream mappers.
- Exception subclasses are modelled only by their class name. The new `RuntimeException` carries only its message, as in the code, which passes no cause.
- The `PolyConsumer<Object>` and `PolyFunction<Object, O>` handlers are modelled as four-argument arrows. The code always calls them with the array {e, i1, i2, i3}, so the cast `(Exception) inputs[0]` cannot fail.
- The callable-shape interfaces of `FunctionExtensions.java` have no behaviour. They appear only as the types in module `Callables`.

## Findings

| source | as written | input that shows it | evidently intended | confidence | as-written member | corrected member |
|---|---|---|---|---|---|---|
| src/main/java/arash/sepasi/streamextensions/StreamExtensions.java:204-211 | the queue of bad inputs is a `ConcurrentLinkedQueue`, whose `add(null)` throws NullPointerException, so a null input that causes an exception aborts the drain of the first stream | `splitExceptionsFromStream(Stream.of((String) null), s -> s.length())`, then draining `getFirst()` | the null input is returned in the second stream, as the class comment (line 21) promises for every input that caused an exception | high, not executed | Scenarios.SplitNullInputThrows | StreamMappers.SplitExceptionsFromStreamNullSafe |
