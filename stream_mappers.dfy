/** The stream mappers of StreamExtensions: `removeExceptionsFromStream`
    and `splitExceptionsFromStream`, both built on the one-input
    `returnOptional`. Streams are modelled as finite sequences, traversed
    eagerly and in order. */
module StreamMappers {
  import opened JavaLang
  import opened Callables
  import FunctionExtensions

  /** `StreamExtensions.Tuple`: an immutable pair. */
  datatype Tuple<First, Second> = Tuple(first: First, second: Second)
  {
    function GetFirst(): First { first }
    function GetSecond(): Second { second }
  }

  /** The accessors give back exactly what the pair was built from. */
  lemma TupleAccessors<First, Second>(a: First, b: Second)
    ensures Tuple(a, b).GetFirst() == a && Tuple(a, b).GetSecond() == b
  {
  }

  /** `.map(i -> returnOptional(mapper, i))`: one Optional per input, in
      order, present exactly where the mapper returned a non-null value. */
  function MapToOptional<I, O>(stream: seq<I>, mapper: ExceptionThrowingFunction<I, O>): (r: seq<Optional<O>>)
    ensures |r| == |stream|
    ensures forall k :: 0 <= k < |r| ==>
      (r[k].Present? <==> mapper(stream[k]).Normal? && mapper(stream[k]).value.NonNull?)
    ensures forall k :: 0 <= k < |r| && r[k].Present? ==> mapper(stream[k]) == Normal(NonNull(r[k].value))
  {
    seq(|stream|, k requires 0 <= k < |stream| => FunctionExtensions.ReturnOptional1(mapper, stream[k]))
  }

  /** `.filter(o -> o.isPresent()).map(o -> o.get())` */
  function PresentValues<O>(os: seq<Optional<O>>): (r: seq<O>)
    ensures |r| <= |os|
  {
    if |os| == 0 then []
    else (if os[0].Present? then [os[0].value] else []) + PresentValues(os[1..])
  }

  /** `removeExceptionsFromStream(stream, mapper)` */
  function RemoveExceptionsFromStream<I, O>(stream: seq<I>, mapper: ExceptionThrowingFunction<I, O>): (r: seq<O>)
    ensures |r| <= |stream|
  {
    PresentValues(MapToOptional(stream, mapper))
  }

  /** The inputs that `splitExceptionsFromStream` adds to its queue of bad
      inputs: those for which `returnOptional(mapper, i)` is empty. */
  function RejectedInputs<I, O>(stream: seq<I>, mapper: ExceptionThrowingFunction<I, O>): (r: seq<I>)
    ensures |r| <= |stream|
  {
    if |stream| == 0 then []
    else (if FunctionExtensions.ReturnOptional1(mapper, stream[0]).Empty? then [stream[0]] else [])
         + RejectedInputs(stream[1..], mapper)
  }

  /** What a single input contributes: its mapped value to the output, or
      itself to the rejects, never both. A null result counts as a reject. */
  lemma SingleInput<I, O>(x: I, mapper: ExceptionThrowingFunction<I, O>)
    ensures mapper(x).Normal? && mapper(x).value.NonNull? ==>
      RemoveExceptionsFromStream([x], mapper) == [mapper(x).value.obj] && RejectedInputs([x], mapper) == []
    ensures mapper(x).Abrupt? || mapper(x) == Normal(Null) ==>
      RemoveExceptionsFromStream([x], mapper) == [] && RejectedInputs([x], mapper) == [x]
  {
    var os := MapToOptional([x], mapper);
    assert os[1..] == [];
  }

  lemma {:induction false} PresentValuesAppend<O>(a: seq<Optional<O>>, b: seq<Optional<O>>)
    ensures PresentValues(a + b) == PresentValues(a) + PresentValues(b)
    decreases |a|
  {
    if |a| > 0 {
      assert (a + b)[1..] == a[1..] + b;
      PresentValuesAppend(a[1..], b);
    } else {
      assert a + b == b;
    }
  }

  /** The output of a concatenation is the concatenation of the outputs:
      the filter keeps input order. */
  lemma {:induction false} RemoveExceptionsAppend<I, O>(a: seq<I>, b: seq<I>, mapper: ExceptionThrowingFunction<I, O>)
    ensures RemoveExceptionsFromStream(a + b, mapper)
            == RemoveExceptionsFromStream(a, mapper) + RemoveExceptionsFromStream(b, mapper)
  {
    assert MapToOptional(a + b, mapper) == MapToOptional(a, mapper) + MapToOptional(b, mapper);
    PresentValuesAppend(MapToOptional(a, mapper), MapToOptional(b, mapper));
  }

  /** The rejects of a concatenation are the concatenation of the rejects:
      the queue keeps input order. */
  lemma {:induction false} RejectedInputsAppend<I, O>(a: seq<I>, b: seq<I>, mapper: ExceptionThrowingFunction<I, O>)
    ensures RejectedInputs(a + b, mapper) == RejectedInputs(a, mapper) + RejectedInputs(b, mapper)
    decreases |a|
  {
    if |a| > 0 {
      assert (a + b)[1..] == a[1..] + b;
      RejectedInputsAppend(a[1..], b, mapper);
    } else {
      assert a + b == b;
    }
  }

  /** `new NullPointerException()`, as thrown by `ConcurrentLinkedQueue.add(null)`. */
  const NullPointerException := Exception("java.lang.NullPointerException", Null)

  /** An element that the split would add to its queue of bad inputs
      although it is null. */
  predicate IsNullReject<I, O>(mapper: ExceptionThrowingFunction<Ref<I>, O>, x: Ref<I>)
  {
    x.Null? && FunctionExtensions.ReturnOptional1(mapper, x).Empty?
  }

  /** The position of the first null reject, or |stream| when there is none. */
  function FirstNullReject<I, O>(stream: seq<Ref<I>>, mapper: ExceptionThrowingFunction<Ref<I>, O>): (k: nat)
    ensures k <= |stream|
    ensures k < |stream| ==> IsNullReject(mapper, stream[k])
    ensures forall j :: 0 <= j < k ==> !IsNullReject(mapper, stream[j])
  {
    if |stream| == 0 then 0
    else if IsNullReject(mapper, stream[0]) then 0
    else 1 + FirstNullReject(stream[1..], mapper)
  }

  lemma FirstNullRejectAt<I, O>(stream: seq<Ref<I>>, mapper: ExceptionThrowingFunction<Ref<I>, O>, k: nat)
    requires k <= |stream|
    requires k < |stream| ==> IsNullReject(mapper, stream[k])
    requires forall j :: 0 <= j < k ==> !IsNullReject(mapper, stream[j])
    ensures FirstNullReject(stream, mapper) == k
  {
  }

  /** One step of the split's pass: input k goes, as its mapped value, to
      the output or, as itself, to the rejects. */
  lemma SplitStep<I, O>(stream: seq<I>, mapper: ExceptionThrowingFunction<I, O>, k: nat)
    requires k < |stream|
    ensures FunctionExtensions.ReturnOptional1(mapper, stream[k]).Present? ==>
      RemoveExceptionsFromStream(stream[..k + 1], mapper)
        == RemoveExceptionsFromStream(stream[..k], mapper) + [FunctionExtensions.ReturnOptional1(mapper, stream[k]).value]
      && RejectedInputs(stream[..k + 1], mapper) == RejectedInputs(stream[..k], mapper)
    ensures FunctionExtensions.ReturnOptional1(mapper, stream[k]).Empty? ==>
      RemoveExceptionsFromStream(stream[..k + 1], mapper) == RemoveExceptionsFromStream(stream[..k], mapper)
      && RejectedInputs(stream[..k + 1], mapper) == RejectedInputs(stream[..k], mapper) + [stream[k]]
  {
    assert stream[..k + 1] == stream[..k] + [stream[k]];
    RemoveExceptionsAppend(stream[..k], [stream[k]], mapper);
    RejectedInputsAppend(stream[..k], [stream[k]], mapper);
    SingleInput(stream[k], mapper);
  }

  /** `splitExceptionsFromStream(stream, mapper)`, with the first stream
      drained before the second is read. One pass sends each mapped value to
      the first stream and adds each input with an empty result to the queue
      of bad inputs. The queue refuses null: at the first rejected null
      input, `add` throws NullPointerException out of the drain, and the
      queue keeps what was added before it. */
  method SplitExceptionsFromStream<I, O>(stream: seq<Ref<I>>, mapper: ExceptionThrowingFunction<Ref<I>, O>)
    returns (t: Tuple<Completion<seq<O>>, seq<Ref<I>>>)
    ensures FirstNullReject(stream, mapper) == |stream| ==>
      t == Tuple(Normal(RemoveExceptionsFromStream(stream, mapper)), RejectedInputs(stream, mapper))
    ensures FirstNullReject(stream, mapper) < |stream| ==>
      t == Tuple(Abrupt(NullPointerException), RejectedInputs(stream[..FirstNullReject(stream, mapper)], mapper))
  {
    var good: seq<O> := [];
    var badInputs: seq<Ref<I>> := [];
    for k := 0 to |stream|
      invariant forall j :: 0 <= j < k ==> !IsNullReject(mapper, stream[j])
      invariant good == RemoveExceptionsFromStream(stream[..k], mapper)
      invariant badInputs == RejectedInputs(stream[..k], mapper)
    {
      var i := stream[k];
      var o := FunctionExtensions.ReturnOptional1(mapper, i);
      if o.Empty? && i.Null? {
        FirstNullRejectAt(stream, mapper, k);
        t := Tuple(Abrupt(NullPointerException), badInputs);
        return;
      }
      SplitStep(stream, mapper, k);
      if o.Empty? {
        badInputs := badInputs + [i];
      } else {
        good := good + [o.value];
      }
    }
    FirstNullRejectAt(stream, mapper, |stream|);
    assert stream[..|stream|] == stream;
    t := Tuple(Normal(good), badInputs);
  }

  /** The split with a queue that accepts null (a synchronized list, say):
      every input goes to one of the two sequences, nulls included. */
  method SplitExceptionsFromStreamNullSafe<I, O>(stream: seq<I>, mapper: ExceptionThrowingFunction<I, O>)
    returns (t: Tuple<seq<O>, seq<I>>)
    ensures t.GetFirst() == RemoveExceptionsFromStream(stream, mapper)
    ensures t.GetSecond() == RejectedInputs(stream, mapper)
  {
    var good: seq<O> := [];
    var badInputs: seq<I> := [];
    for k := 0 to |stream|
      invariant good == RemoveExceptionsFromStream(stream[..k], mapper)
      invariant badInputs == RejectedInputs(stream[..k], mapper)
    {
      var i := stream[k];
      var o := FunctionExtensions.ReturnOptional1(mapper, i);
      SplitStep(stream, mapper, k);
      if o.Empty? {
        badInputs := badInputs + [i];
      } else {
        good := good + [o.value];
      }
    }
    assert stream[..|stream|] == stream;
    t := Tuple(good, badInputs);
  }

  // ===== what the split promises once the output has been drained =====
  // (all of the split's input when no rejected input is null, and the
  // null-safe split's input in every case)

  /** Every input goes to exactly one of the two sequences. */
  lemma {:induction false} SplitPartitionsInput<I, O>(stream: seq<I>, mapper: ExceptionThrowingFunction<I, O>)
    ensures |RemoveExceptionsFromStream(stream, mapper)| + |RejectedInputs(stream, mapper)| == |stream|
    decreases |stream|
  {
    if |stream| > 0 {
      var x, rest := stream[0], stream[1..];
      assert stream == [x] + rest;
      RemoveExceptionsAppend([x], rest, mapper);
      RejectedInputsAppend([x], rest, mapper);
      SingleInput(x, mapper);
      SplitPartitionsInput(rest, mapper);
    }
  }

  /** The output holds exactly the present results of the inputs. */
  lemma {:induction false} RemoveExceptionsMembership<I, O>(stream: seq<I>, mapper: ExceptionThrowingFunction<I, O>, v: O)
    ensures v in RemoveExceptionsFromStream(stream, mapper)
            <==> exists k :: 0 <= k < |stream| && FunctionExtensions.ReturnOptional1(mapper, stream[k]) == Present(v)
    decreases |stream|
  {
    if |stream| > 0 {
      var x, rest := stream[0], stream[1..];
      assert stream == [x] + rest;
      RemoveExceptionsAppend([x], rest, mapper);
      SingleInput(x, mapper);
      RemoveExceptionsMembership(rest, mapper, v);
      if v in RemoveExceptionsFromStream(stream, mapper) {
        if v !in RemoveExceptionsFromStream([x], mapper) {
          var k :| 0 <= k < |rest| && FunctionExtensions.ReturnOptional1(mapper, rest[k]) == Present(v);
          assert stream[k + 1] == rest[k];
        } else {
          assert FunctionExtensions.ReturnOptional1(mapper, stream[0]) == Present(v);
        }
      }
      if exists k :: 0 <= k < |stream| && FunctionExtensions.ReturnOptional1(mapper, stream[k]) == Present(v) {
        var k :| 0 <= k < |stream| && FunctionExtensions.ReturnOptional1(mapper, stream[k]) == Present(v);
        if k > 0 {
          assert rest[k - 1] == stream[k];
        }
      }
    }
  }

  /** The queue holds exactly the inputs whose result is empty (a thrown
      exception or null). */
  lemma {:induction false} RejectedInputsMembership<I, O>(stream: seq<I>, mapper: ExceptionThrowingFunction<I, O>, x: I)
    ensures x in RejectedInputs(stream, mapper)
            <==> x in stream && FunctionExtensions.ReturnOptional1(mapper, x).Empty?
    decreases |stream|
  {
    if |stream| > 0 {
      var rest := stream[1..];
      assert stream == [stream[0]] + rest;
      RejectedInputsAppend([stream[0]], rest, mapper);
      SingleInput(stream[0], mapper);
      RejectedInputsMembership(rest, mapper, x);
    }
  }

  /** Reading the queue after only the first k inputs have been pulled
      through the output sees a prefix of the full rejects, and the output
      pulled so far is a prefix of the full output. */
  lemma PartialDrainSeesPrefix<I, O>(stream: seq<I>, mapper: ExceptionThrowingFunction<I, O>, k: nat)
    requires k <= |stream|
    ensures RejectedInputs(stream[..k], mapper) <= RejectedInputs(stream, mapper)
    ensures RemoveExceptionsFromStream(stream[..k], mapper) <= RemoveExceptionsFromStream(stream, mapper)
  {
    assert stream == stream[..k] + stream[k..];
    RejectedInputsAppend(stream[..k], stream[k..], mapper);
    RemoveExceptionsAppend(stream[..k], stream[k..], mapper);
  }

  /** A mapper that always throws leaves the output empty and sends every
      input, in order, to the queue. */
  lemma {:induction false} AlwaysThrowingMapper<I, O>(stream: seq<I>, mapper: ExceptionThrowingFunction<I, O>)
    requires forall i :: mapper(i).Abrupt?
    ensures RemoveExceptionsFromStream(stream, mapper) == []
    ensures RejectedInputs(stream, mapper) == stream
    decreases |stream|
  {
    if |stream| > 0 {
      var x, rest := stream[0], stream[1..];
      assert stream == [x] + rest;
      RemoveExceptionsAppend([x], rest, mapper);
      SingleInput(x, mapper);
      AlwaysThrowingMapper(rest, mapper);
    }
  }
}
