/** StreamExtensions.ConsumerExtensions: adapters for fallible procedures of
    one, two and three inputs. The handler receives the exception first,
    then the inputs in order. */
module ConsumerExtensions {
  import opened JavaLang
  import opened Callables
  import ExceptionText

  function HandleException1<I>(c: ExceptionThrowingConsumer<I>, input: I, ec: DiConsumer<I>): (r: Completion<()>)
    ensures c(input).Normal? ==> r == c(input)
    ensures c(input).Abrupt? ==> r == ec(c(input).thrown, input)
  {
    TryCatch(c(input), e => ec(e, input))
  }

  function HandleException2<I1, I2>(c: ExceptionThrowingBiConsumer<I1, I2>, i1: I1, i2: I2, ec: TriConsumer<I1, I2>)
    : (r: Completion<()>)
    ensures c(i1, i2).Normal? ==> r == c(i1, i2)
    ensures c(i1, i2).Abrupt? ==> r == ec(c(i1, i2).thrown, i1, i2)
  {
    TryCatch(c(i1, i2), e => ec(e, i1, i2))
  }

  function HandleException3<I1, I2, I3>(c: ExceptionThrowingTriConsumer<I1, I2, I3>, i1: I1, i2: I2, i3: I3,
                                        ec: PolyConsumer<I1, I2, I3>): (r: Completion<()>)
    ensures c(i1, i2, i3).Normal? ==> r == c(i1, i2, i3)
    ensures c(i1, i2, i3).Abrupt? ==> r == ec(c(i1, i2, i3).thrown, i1, i2, i3)
  {
    TryCatch(c(i1, i2, i3), e => ec(e, i1, i2, i3))
  }

  /** An exception from c becomes a RuntimeException whose message names c
      (cText) and lists the input, rendered by `show`. */
  function ThrowRuntimeException1<I>(c: ExceptionThrowingConsumer<I>, cText: string, i: I, show: I -> string)
    : (r: Completion<()>)
    ensures c(i).Normal? ==> r == c(i)
    ensures c(i).Abrupt? ==>
      r == Abrupt(NewRuntimeException(ExceptionText.Text(c(i).thrown, cText, [show(i)])))
  {
    HandleException1(c, i, (e, input) => Abrupt(NewRuntimeException(ExceptionText.Text(e, cText, [show(i)]))))
  }

  function ThrowRuntimeException2<I1, I2>(c: ExceptionThrowingBiConsumer<I1, I2>, cText: string, i1: I1, i2: I2,
                                          show1: I1 -> string, show2: I2 -> string): (r: Completion<()>)
    ensures c(i1, i2).Normal? ==> r == c(i1, i2)
    ensures c(i1, i2).Abrupt? ==>
      r == Abrupt(NewRuntimeException(ExceptionText.Text(c(i1, i2).thrown, cText, [show1(i1), show2(i2)])))
  {
    HandleException2(c, i1, i2,
      (e, in1, in2) => Abrupt(NewRuntimeException(ExceptionText.Text(e, cText, [show1(i1), show2(i2)]))))
  }

  function ThrowRuntimeException3<I1, I2, I3>(c: ExceptionThrowingTriConsumer<I1, I2, I3>, cText: string,
                                              i1: I1, i2: I2, i3: I3,
                                              show1: I1 -> string, show2: I2 -> string, show3: I3 -> string)
    : (r: Completion<()>)
    ensures c(i1, i2, i3).Normal? ==> r == c(i1, i2, i3)
    ensures c(i1, i2, i3).Abrupt? ==>
      r == Abrupt(NewRuntimeException(
             ExceptionText.Text(c(i1, i2, i3).thrown, cText, [show1(i1), show2(i2), show3(i3)])))
  {
    HandleException3(c, i1, i2, i3,
      (e, in1, in2, in3) =>
        Abrupt(NewRuntimeException(ExceptionText.Text(e, cText, [show1(i1), show2(i2), show3(i3)]))))
  }
}
