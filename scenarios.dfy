/** The cases exercised by StreamExtensionsTest, stated over the model. */
module Scenarios {
  import opened JavaLang
  import opened Callables
  import ExceptionText
  import FunctionExtensions
  import StreamMappers

  const Result := "RETURNED"
  const Input := "INPUT"

  function DecimalString(n: nat): string
  {
    if n < 10 then [(48 + n) as char] else DecimalString(n / 10) + [(48 + n % 10) as char]
  }

  /** `Integer.toString` */
  function IntegerString(i: int): string
  {
    if i < 0 then "-" + DecimalString(-i) else DecimalString(i)
  }

  /** Unboxing a null Integer throws NullPointerException. */
  const UnboxingNull := Exception("java.lang.NullPointerException", Null)

  /** The mapper that throws on even numbers and renders odd ones. */
  function ThrowOnEvens(i: Ref<int>): Completion<Ref<string>>
  {
    match i
    case Null => Abrupt(UnboxingNull)
    case NonNull(n) =>
      if n % 2 == 0 then Abrupt(Exception("java.lang.Exception", NonNull("Mapper caught even number " + IntegerString(n))))
      else Normal(NonNull(IntegerString(n)))
  }

  /** `IntStream.range(lo, hi).boxed()` */
  function Boxed(lo: int, hi: int): seq<Ref<int>>
  {
    seq(if lo < hi then hi - lo else 0, k => NonNull(lo + k))
  }

  const ZeroToNine: seq<Ref<int>> := Boxed(0, 10)

  /** Throwing on evens over 0..9 keeps "1", "3", "5", "7", "9", in order. */
  lemma EvensRemovedOverZeroToNine()
    ensures StreamMappers.RemoveExceptionsFromStream(ZeroToNine, ThrowOnEvens) == ["1", "3", "5", "7", "9"]
  {
    OddsKept(5);
    assert seq(5, k => IntegerString(2 * k + 1)) == ["1", "3", "5", "7", "9"];
  }

  /** ... and rejects 0, 2, 4, 6, 8, in order. */
  lemma EvensRejectedOverZeroToNine()
    ensures StreamMappers.RejectedInputs(ZeroToNine, ThrowOnEvens)
            == [NonNull(0), NonNull(2), NonNull(4), NonNull(6), NonNull(8)]
  {
    EvensRejected(5);
    assert seq(5, k => NonNull(2 * k)) == [NonNull(0), NonNull(2), NonNull(4), NonNull(6), NonNull(8)];
  }

  /** Over 0 .. 2m - 1, throwing on evens keeps the m odd numbers' texts. */
  lemma {:induction false} OddsKept(m: nat)
    ensures StreamMappers.RemoveExceptionsFromStream(Boxed(0, 2 * m), ThrowOnEvens) == seq(m, k => IntegerString(2 * k + 1))
  {
    if m > 0 {
      OddsKept(m - 1);
      assert Boxed(0, 2 * m) == Boxed(0, 2 * (m - 1)) + [NonNull(2 * m - 2), NonNull(2 * m - 1)];
      RemovedPair(Boxed(0, 2 * (m - 1)), 2 * m - 2);
      assert seq(m, k => IntegerString(2 * k + 1)) == seq(m - 1, k => IntegerString(2 * k + 1)) + [IntegerString(2 * m - 1)];
    }
  }

  /** ... and rejects the m even numbers. */
  lemma {:induction false} EvensRejected(m: nat)
    ensures StreamMappers.RejectedInputs(Boxed(0, 2 * m), ThrowOnEvens) == seq(m, k => NonNull(2 * k))
  {
    if m > 0 {
      EvensRejected(m - 1);
      assert Boxed(0, 2 * m) == Boxed(0, 2 * (m - 1)) + [NonNull(2 * m - 2), NonNull(2 * m - 1)];
      RejectedPair(Boxed(0, 2 * (m - 1)), 2 * m - 2);
      assert seq(m, k => NonNull(2 * k)) == seq(m - 1, k => NonNull(2 * k)) + [NonNull(2 * m - 2)];
    }
  }

  /** Appending an even number and its successor adds the successor's text
      to the output. */
  lemma RemovedPair(s: seq<Ref<int>>, n: int)
    requires n % 2 == 0
    ensures StreamMappers.RemoveExceptionsFromStream(s + [NonNull(n), NonNull(n + 1)], ThrowOnEvens)
            == StreamMappers.RemoveExceptionsFromStream(s, ThrowOnEvens) + [IntegerString(n + 1)]
  {
    EvenThenOdd(n);
    StreamMappers.RemoveExceptionsAppend(s, [NonNull(n), NonNull(n + 1)], ThrowOnEvens);
  }

  /** ... and the even number to the rejects. */
  lemma RejectedPair(s: seq<Ref<int>>, n: int)
    requires n % 2 == 0
    ensures StreamMappers.RejectedInputs(s + [NonNull(n), NonNull(n + 1)], ThrowOnEvens)
            == StreamMappers.RejectedInputs(s, ThrowOnEvens) + [NonNull(n)]
  {
    EvenThenOdd(n);
    StreamMappers.RejectedInputsAppend(s, [NonNull(n), NonNull(n + 1)], ThrowOnEvens);
  }

  /** An even number is rejected and the odd number after it is kept. */
  lemma EvenThenOdd(n: int)
    requires n % 2 == 0
    ensures StreamMappers.RemoveExceptionsFromStream([NonNull(n), NonNull(n + 1)], ThrowOnEvens) == [IntegerString(n + 1)]
    ensures StreamMappers.RejectedInputs([NonNull(n), NonNull(n + 1)], ThrowOnEvens) == [NonNull(n)]
  {
    assert [NonNull(n), NonNull(n + 1)] == [NonNull(n)] + [NonNull(n + 1)];
    StreamMappers.SingleInput(NonNull(n), ThrowOnEvens);
    StreamMappers.SingleInput(NonNull(n + 1), ThrowOnEvens);
    StreamMappers.RemoveExceptionsAppend([NonNull(n)], [NonNull(n + 1)], ThrowOnEvens);
    StreamMappers.RejectedInputsAppend([NonNull(n)], [NonNull(n + 1)], ThrowOnEvens);
  }

  /** No element of 0..9 is null, so the split never meets a null reject. */
  lemma NoNullInZeroToNine<O>(mapper: ExceptionThrowingFunction<Ref<int>, O>)
    ensures StreamMappers.FirstNullReject(ZeroToNine, mapper) == |ZeroToNine|
  {
    StreamMappers.FirstNullRejectAt(ZeroToNine, mapper, |ZeroToNine|);
  }

  /** splitExceptionsFromStream with the mapper throwing on evens, first
      stream drained before the second. */
  method SplitEvensOverZeroToNine() returns (t: StreamMappers.Tuple<Completion<seq<string>>, seq<Ref<int>>>)
    ensures t.GetFirst() == Normal(["1", "3", "5", "7", "9"])
    ensures t.GetSecond() == [NonNull(0), NonNull(2), NonNull(4), NonNull(6), NonNull(8)]
  {
    EvensRemovedOverZeroToNine();
    EvensRejectedOverZeroToNine();
    NoNullInZeroToNine(ThrowOnEvens);
    t := StreamMappers.SplitExceptionsFromStream(ZeroToNine, ThrowOnEvens);
  }

  /** The mapper that always throws. */
  function AlwaysThrows(i: Ref<int>): Completion<Ref<string>>
  {
    var shown := match i case Null => "null" case NonNull(n) => IntegerString(n);
    Abrupt(Exception("java.lang.Exception", NonNull("Mapper caught even number " + shown)))
  }

  /** splitExceptionsFromStream with a mapper that always throws: nothing
      in the first stream, the whole input in the second. */
  method SplitAlwaysThrowingOverZeroToNine() returns (t: StreamMappers.Tuple<Completion<seq<string>>, seq<Ref<int>>>)
    ensures t.GetFirst() == Normal([])
    ensures t.GetSecond() == ZeroToNine
  {
    StreamMappers.AlwaysThrowingMapper(ZeroToNine, AlwaysThrows);
    NoNullInZeroToNine(AlwaysThrows);
    t := StreamMappers.SplitExceptionsFromStream(ZeroToNine, AlwaysThrows);
  }

  /** `s -> s.length()`: calling a method on null throws NullPointerException. */
  function LengthOf(s: Ref<string>): Completion<Ref<int>>
  {
    match s
    case Null => Abrupt(Exception("java.lang.NullPointerException", Null))
    case NonNull(text) => Normal(NonNull(|text|))
  }

  /** A stream holding one null String, mapped by `s -> s.length()`: the
      mapper's exception is caught, but queueing the null input throws, so
      draining the first stream throws and nothing is queued. */
  method SplitNullInputThrows() returns (t: StreamMappers.Tuple<Completion<seq<int>>, seq<Ref<string>>>)
    ensures t.GetFirst() == Abrupt(StreamMappers.NullPointerException)
    ensures t.GetSecond() == []
  {
    assert StreamMappers.IsNullReject(LengthOf, Null);
    StreamMappers.FirstNullRejectAt([Null], LengthOf, 0);
    t := StreamMappers.SplitExceptionsFromStream([Null], LengthOf);
  }

  /** The same stream through the null-safe split: the null input is
      returned among the inputs that caused exceptions. */
  method SplitNullInputNullSafe() returns (t: StreamMappers.Tuple<seq<int>, seq<Ref<string>>>)
    ensures t.GetFirst() == []
    ensures t.GetSecond() == [Null]
  {
    StreamMappers.SingleInput(Null, LengthOf);
    t := StreamMappers.SplitExceptionsFromStreamNullSafe([Null], LengthOf);
  }

  /** `successfulFunction` applied through `returnOptional` yields
      RESULT + INPUT. */
  lemma SuccessfulFunctionIsPresent()
    ensures FunctionExtensions.ReturnOptional1((i: string) => Normal(NonNull(Result + i)), Input)
            == Present("RETURNEDINPUT")
  {
    assert Result + Input == "RETURNEDINPUT";
  }

  /** MethodsForTesting.exceptionThrowingFunction */
  function StaticThrowingFunction(i: string): Completion<Ref<string>>
  {
    Abrupt(Exception("java.lang.Exception", NonNull("StaticFunction")))
  }

  /** `exceptionThrowingFunction` through `throwRuntimeException` raises a
      RuntimeException naming the function, the input and the original
      message. */
  lemma ThrowingFunctionRaises(fText: string)
    ensures FunctionExtensions.ThrowRuntimeException1(StaticThrowingFunction, fText, Input, (s: string) => s)
            == Abrupt(Exception("java.lang.RuntimeException",
                 NonNull("Caught an exception when evaluating " + fText + " with inputs (INPUT): StaticFunction")))
  {
    var e := StaticThrowingFunction(Input).thrown;
    ExceptionText.TextShape(e, fText, [Input]);
    assert ExceptionText.Join([Input]) == Input;
    assert "Caught an exception when evaluating " + fText + " with inputs (" + Input + "): " + "StaticFunction"
        == "Caught an exception when evaluating " + fText + " with inputs (INPUT): StaticFunction";
  }
}
