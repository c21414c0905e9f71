/** StreamExtensions.SupplierExtensions: adapters for a fallible producer of
    a value (which may be null). */
module SupplierExtensions {
  import opened JavaLang
  import opened Callables
  import ExceptionText

  /** `handleException(s, ec)`: the supplier's value, or what ec makes of
      its exception (ec may itself throw, and that propagates). */
  function HandleException<O>(s: ExceptionThrowingSupplier<O>, ec: ExceptionFunction<O>): (r: Completion<Ref<O>>)
    ensures s().Normal? ==> r == s()
    ensures s().Abrupt? ==> r == ec(s().thrown)
  {
    TryCatch(s(), ec)
  }

  function ThrowRuntimeException<O>(s: ExceptionThrowingSupplier<O>, sText: string): (r: Completion<Ref<O>>)
    ensures s().Normal? ==> r == s()
    ensures s().Abrupt? ==>
      r == Abrupt(NewRuntimeException(ExceptionText.Text(s().thrown, sText, [])))
  {
    HandleException(s, e => Abrupt(NewRuntimeException(ExceptionText.Text(e, sText, []))))
  }

  /** `returnOptional(s)`: present with v exactly when s returns non-null v;
      empty when s throws or returns null. It never throws. */
  function ReturnOptional<O>(s: ExceptionThrowingSupplier<O>): (r: Optional<O>)
    ensures r.Present? <==> s().Normal? && s().value.NonNull?
    ensures r.Present? ==> s() == Normal(NonNull(r.value))
  {
    OfNullable(HandleException(s, e => Normal(Null)).value)
  }
  /** When s returns, handleException and throwRuntimeException both give
      its value; returnOptional is empty exactly when throwRuntimeException
      throws or yields null. */
  lemma DispositionsAgree<O>(s: ExceptionThrowingSupplier<O>, ec: ExceptionFunction<O>, sText: string)
    ensures s().Normal? ==> HandleException(s, ec) == s() && ThrowRuntimeException(s, sText) == s()
    ensures ReturnOptional(s).Empty?
            <==> ThrowRuntimeException(s, sText).Abrupt? || ThrowRuntimeException(s, sText) == Normal(Null)
  {
  }
}
