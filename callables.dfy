/** The callable shapes the adapters consume (the functional interfaces of
    FunctionExtensions.java), as Dafny arrow types. A fallible callable
    completes normally or throws; a `void` callable completes with `()`,
    and a value-returning one with a reference that may be null.
    The "non-failing" handler shapes cannot throw a checked exception in
    Java but may still throw an unchecked one, so they return a Completion
    too. */
module Callables {
  import opened JavaLang

  // ===== exception-throwing callables =====

  type ExceptionThrowingRunnable = () -> Completion<()>
  type ExceptionThrowingConsumer<-I> = I -> Completion<()>
  type ExceptionThrowingBiConsumer<-I1, -I2> = (I1, I2) -> Completion<()>
  type ExceptionThrowingTriConsumer<-I1, -I2, -I3> = (I1, I2, I3) -> Completion<()>

  type ExceptionThrowingSupplier<O> = () -> Completion<Ref<O>>
  type ExceptionThrowingFunction<-I, O> = I -> Completion<Ref<O>>
  type ExceptionThrowingBiFunction<-I1, -I2, O> = (I1, I2) -> Completion<Ref<O>>
  type ExceptionThrowingTriFunction<-I1, -I2, -I3, O> = (I1, I2, I3) -> Completion<Ref<O>>

  // ===== handlers, which receive the caught exception first =====

  /** java.util.function.Consumer<Exception> */
  type ExceptionConsumer = Exception -> Completion<()>
  /** DiConsumer<Exception, I> */
  type DiConsumer<-I> = (Exception, I) -> Completion<()>
  /** TriConsumer<Exception, I1, I2> */
  type TriConsumer<-I1, -I2> = (Exception, I1, I2) -> Completion<()>
  /** PolyConsumer<Object>, which the adapters always call with the array
      {e, i1, i2, i3}; modelled with those four positions. */
  type PolyConsumer<-I1, -I2, -I3> = (Exception, I1, I2, I3) -> Completion<()>

  /** java.util.function.Function<Exception, O> */
  type ExceptionFunction<O> = Exception -> Completion<Ref<O>>
  /** DiFunction<Exception, I, O> */
  type DiFunction<-I, O> = (Exception, I) -> Completion<Ref<O>>
  /** TriFunction<Exception, I1, I2, O> */
  type TriFunction<-I1, -I2, O> = (Exception, I1, I2) -> Completion<Ref<O>>
  /** PolyFunction<Object, O>, always called with {e, i1, i2, i3}. */
  type PolyFunction<-I1, -I2, -I3, O> = (Exception, I1, I2, I3) -> Completion<Ref<O>>
}
