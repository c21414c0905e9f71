/** StreamExtensions.FunctionExtensions: adapters for fallible functions of
    one, two and three inputs. The handler receives the exception first,
    then the inputs in order. */
module FunctionExtensions {
  import opened JavaLang
  import opened Callables
  import ExceptionText

  // ===== handleException =====

  function HandleException1<I, O>(f: ExceptionThrowingFunction<I, O>, i: I, ef: DiFunction<I, O>): (r: Completion<Ref<O>>)
    ensures f(i).Normal? ==> r == f(i)
    ensures f(i).Abrupt? ==> r == ef(f(i).thrown, i)
  {
    TryCatch(f(i), e => ef(e, i))
  }

  function HandleException2<I1, I2, O>(f: ExceptionThrowingBiFunction<I1, I2, O>, i1: I1, i2: I2,
                                       ef: TriFunction<I1, I2, O>): (r: Completion<Ref<O>>)
    ensures f(i1, i2).Normal? ==> r == f(i1, i2)
    ensures f(i1, i2).Abrupt? ==> r == ef(f(i1, i2).thrown, i1, i2)
  {
    TryCatch(f(i1, i2), e => ef(e, i1, i2))
  }

  function HandleException3<I1, I2, I3, O>(f: ExceptionThrowingTriFunction<I1, I2, I3, O>, i1: I1, i2: I2, i3: I3,
                                           ef: PolyFunction<I1, I2, I3, O>): (r: Completion<Ref<O>>)
    ensures f(i1, i2, i3).Normal? ==> r == f(i1, i2, i3)
    ensures f(i1, i2, i3).Abrupt? ==> r == ef(f(i1, i2, i3).thrown, i1, i2, i3)
  {
    TryCatch(f(i1, i2, i3), e => ef(e, i1, i2, i3))
  }

  // ===== throwRuntimeException =====

  function ThrowRuntimeException1<I, O>(f: ExceptionThrowingFunction<I, O>, fText: string, i: I, show: I -> string)
    : (r: Completion<Ref<O>>)
    ensures f(i).Normal? ==> r == f(i)
    ensures f(i).Abrupt? ==>
      r == Abrupt(NewRuntimeException(ExceptionText.Text(f(i).thrown, fText, [show(i)])))
  {
    HandleException1(f, i, (e, input) => Abrupt(NewRuntimeException(ExceptionText.Text(e, fText, [show(i)]))))
  }

  function ThrowRuntimeException2<I1, I2, O>(f: ExceptionThrowingBiFunction<I1, I2, O>, fText: string, i1: I1, i2: I2,
                                             show1: I1 -> string, show2: I2 -> string): (r: Completion<Ref<O>>)
    ensures f(i1, i2).Normal? ==> r == f(i1, i2)
    ensures f(i1, i2).Abrupt? ==>
      r == Abrupt(NewRuntimeException(ExceptionText.Text(f(i1, i2).thrown, fText, [show1(i1), show2(i2)])))
  {
    HandleException2(f, i1, i2,
      (e, in1, in2) => Abrupt(NewRuntimeException(ExceptionText.Text(e, fText, [show1(i1), show2(i2)]))))
  }

  function ThrowRuntimeException3<I1, I2, I3, O>(f: ExceptionThrowingTriFunction<I1, I2, I3, O>, fText: string,
                                                 i1: I1, i2: I2, i3: I3,
                                                 show1: I1 -> string, show2: I2 -> string, show3: I3 -> string)
    : (r: Completion<Ref<O>>)
    ensures f(i1, i2, i3).Normal? ==> r == f(i1, i2, i3)
    ensures f(i1, i2, i3).Abrupt? ==>
      r == Abrupt(NewRuntimeException(
             ExceptionText.Text(f(i1, i2, i3).thrown, fText, [show1(i1), show2(i2), show3(i3)])))
  {
    HandleException3(f, i1, i2, i3,
      (e, in1, in2, in3) =>
        Abrupt(NewRuntimeException(ExceptionText.Text(e, fText, [show1(i1), show2(i2), show3(i3)]))))
  }

  // ===== returnOptional =====

  /** Present with v exactly when f returns non-null v; empty when f throws
      or returns null. It never throws. */
  function ReturnOptional1<I, O>(f: ExceptionThrowingFunction<I, O>, i: I): (r: Optional<O>)
    ensures r.Present? <==> f(i).Normal? && f(i).value.NonNull?
    ensures r.Present? ==> f(i) == Normal(NonNull(r.value))
  {
    OfNullable(HandleException1(f, i, (e, input) => Normal(Null)).value)
  }

  function ReturnOptional2<I1, I2, O>(f: ExceptionThrowingBiFunction<I1, I2, O>, i1: I1, i2: I2): (r: Optional<O>)
    ensures r.Present? <==> f(i1, i2).Normal? && f(i1, i2).value.NonNull?
    ensures r.Present? ==> f(i1, i2) == Normal(NonNull(r.value))
  {
    OfNullable(HandleException2(f, i1, i2, (e, in1, in2) => Normal(Null)).value)
  }

  function ReturnOptional3<I1, I2, I3, O>(f: ExceptionThrowingTriFunction<I1, I2, I3, O>, i1: I1, i2: I2, i3: I3)
    : (r: Optional<O>)
    ensures r.Present? <==> f(i1, i2, i3).Normal? && f(i1, i2, i3).value.NonNull?
    ensures r.Present? ==> f(i1, i2, i3) == Normal(NonNull(r.value))
  {
    OfNullable(HandleException3(f, i1, i2, i3, (e, in1, in2, in3) => Normal(Null)).value)
  }
  // ===== how the three dispositions relate =====

  /** When f returns, handleException and throwRuntimeException both give
      its value and returnOptional wraps it; returnOptional is empty exactly
      when throwRuntimeException throws or yields null. */
  lemma DispositionsAgree1<I, O>(f: ExceptionThrowingFunction<I, O>, i: I, ef: DiFunction<I, O>,
                                 fText: string, show: I -> string)
    ensures f(i).Normal? ==> HandleException1(f, i, ef) == f(i) && ThrowRuntimeException1(f, fText, i, show) == f(i)
    ensures ReturnOptional1(f, i).Empty?
            <==> ThrowRuntimeException1(f, fText, i, show).Abrupt? || ThrowRuntimeException1(f, fText, i, show) == Normal(Null)
  {
  }

  lemma DispositionsAgree2<I1, I2, O>(f: ExceptionThrowingBiFunction<I1, I2, O>, i1: I1, i2: I2, ef: TriFunction<I1, I2, O>,
                                      fText: string, show1: I1 -> string, show2: I2 -> string)
    ensures f(i1, i2).Normal? ==>
      HandleException2(f, i1, i2, ef) == f(i1, i2) && ThrowRuntimeException2(f, fText, i1, i2, show1, show2) == f(i1, i2)
    ensures ReturnOptional2(f, i1, i2).Empty?
            <==> ThrowRuntimeException2(f, fText, i1, i2, show1, show2).Abrupt?
                 || ThrowRuntimeException2(f, fText, i1, i2, show1, show2) == Normal(Null)
  {
  }

  lemma DispositionsAgree3<I1, I2, I3, O>(f: ExceptionThrowingTriFunction<I1, I2, I3, O>, i1: I1, i2: I2, i3: I3,
                                          ef: PolyFunction<I1, I2, I3, O>, fText: string,
                                          show1: I1 -> string, show2: I2 -> string, show3: I3 -> string)
    ensures f(i1, i2, i3).Normal? ==>
      HandleException3(f, i1, i2, i3, ef) == f(i1, i2, i3)
      && ThrowRuntimeException3(f, fText, i1, i2, i3, show1, show2, show3) == f(i1, i2, i3)
    ensures ReturnOptional3(f, i1, i2, i3).Empty?
            <==> ThrowRuntimeException3(f, fText, i1, i2, i3, show1, show2, show3).Abrupt?
                 || ThrowRuntimeException3(f, fText, i1, i2, i3, show1, show2, show3) == Normal(Null)
  {
  }

  /** The RuntimeException names the function first and ends with the
      original exception's message. */
  lemma RuntimeExceptionKeepsMessage1<I, O>(f: ExceptionThrowingFunction<I, O>, fText: string, i: I, show: I -> string)
    requires f(i).Abrupt?
    ensures ThrowRuntimeException1(f, fText, i, show).Abrupt?
    ensures var thrown := ThrowRuntimeException1(f, fText, i, show).thrown;
      && thrown.className == "java.lang.RuntimeException"
      && thrown.message.NonNull?
      && ExceptionText.StartsWith(thrown.message.obj, "Caught an exception when evaluating " + fText)
      && ExceptionText.EndsWith(thrown.message.obj, ": " + MessageText(f(i).thrown))
  {
  }
}
