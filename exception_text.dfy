/** The diagnostic message shared by every `throwRuntimeException` and
    `returnOptional` adapter (`runtimeExceptionText`). The callable and the
    inputs arrive already rendered by their `toString()`. */
module ExceptionText {
  import opened JavaLang

  const Lead := "Caught an exception when evaluating "
  const InputsOpen := " with inputs ("
  const Separator := ", "

  predicate StartsWith(s: string, prefix: string)
  {
    |prefix| <= |s| && s[..|prefix|] == prefix
  }

  predicate EndsWith(s: string, suffix: string)
  {
    |suffix| <= |s| && s[|s| - |suffix|..] == suffix
  }

  /** The inputs separated by ", ", with no separator after the last. */
  function Join(parts: seq<string>): string
  {
    if |parts| == 0 then ""
    else if |parts| == 1 then parts[0]
    else Join(parts[..|parts| - 1]) + Separator + parts[|parts| - 1]
  }

  /** What the append loop writes: every input followed by ", ". */
  function Terminated(parts: seq<string>): string
  {
    if |parts| == 0 then ""
    else Terminated(parts[..|parts| - 1]) + parts[|parts| - 1] + Separator
  }

  /** The message template: lead text and callable, the parenthesised input
      list only when there is at least one input, then the failure's message. */
  function Text(e: Exception, funcText: string, inputs: seq<string>): (r: string)
    ensures StartsWith(r, "Caught an exception when evaluating " + funcText)
    ensures EndsWith(r, ": " + MessageText(e))
  {
    var clause := if |inputs| == 0 then "" else InputsOpen + Join(inputs) + ")";
    var r := Lead + funcText + clause + ": " + MessageText(e);
    assert r == (Lead + funcText) + (clause + ": " + MessageText(e));
    assert r == (Lead + funcText + clause) + (": " + MessageText(e));
    r
  }

  /** `runtimeExceptionText(e, funcInt, inputs...)`: appends to a string
      builder, one input and one separator per loop turn, then deletes the
      trailing separator before closing the parenthesis. */
  method RuntimeExceptionText(e: Exception, funcText: string, inputs: seq<string>) returns (s: string)
    ensures s == Text(e, funcText, inputs)
  {
    var sb := Lead + funcText;
    if |inputs| > 0 {
      sb := sb + InputsOpen;
      for k := 0 to |inputs|
        invariant sb == Lead + funcText + InputsOpen + Terminated(inputs[..k])
      {
        assert inputs[..k + 1][..k] == inputs[..k];
        sb := sb + inputs[k] + Separator;
      }
      assert inputs[..|inputs|] == inputs;
      TerminatedIsJoinThenSeparator(inputs);
      assert sb == (Lead + funcText + InputsOpen + Join(inputs)) + Separator;
      sb := sb[..|sb| - 2] + ")";
    }
    sb := sb + ": " + MessageText(e);
    s := sb;
  }

  /** Deleting the last two characters of what the loop wrote leaves the
      inputs joined without a trailing separator. */
  lemma {:induction false} TerminatedIsJoinThenSeparator(parts: seq<string>)
    requires |parts| > 0
    ensures Terminated(parts) == Join(parts) + Separator
  {
    if |parts| > 1 {
      var init := parts[..|parts| - 1];
      TerminatedIsJoinThenSeparator(init);
    }
  }

  /** The two shapes of the message: no input clause at all without inputs;
      otherwise exactly one parenthesised, comma-separated list. */
  lemma TextShape(e: Exception, funcText: string, inputs: seq<string>)
    ensures inputs == [] ==>
      Text(e, funcText, inputs) == "Caught an exception when evaluating " + funcText + ": " + MessageText(e)
    ensures inputs != [] ==>
      Text(e, funcText, inputs)
      == "Caught an exception when evaluating " + funcText + " with inputs (" + Join(inputs) + "): " + MessageText(e)
  {
  }

  /** Joining reads left to right: the first input, a separator, then the
      rest joined. */
  lemma {:induction false} JoinFront(x: string, rest: seq<string>)
    requires rest != []
    ensures Join([x] + rest) == x + Separator + Join(rest)
  {
    var parts := [x] + rest;
    if |rest| > 1 {
      var init := rest[..|rest| - 1];
      assert parts[..|parts| - 1] == [x] + init;
      JoinFront(x, init);
    } else {
      assert parts[..|parts| - 1] == [x];
    }
  }

  function TotalLength(parts: seq<string>): nat
  {
    if |parts| == 0 then 0 else TotalLength(parts[..|parts| - 1]) + |parts[|parts| - 1]|
  }

  /** Exactly one separator between consecutive inputs and none elsewhere. */
  lemma {:induction false} JoinLength(parts: seq<string>)
    requires parts != []
    ensures |Join(parts)| == TotalLength(parts) + 2 * (|parts| - 1)
  {
    if |parts| > 1 {
      JoinLength(parts[..|parts| - 1]);
    }
  }

  // ===== reading an input list back =====

  /** The position of the first ", " in s at or after `from`, or |s|. */
  function SeparatorFrom(s: string, from: nat): (k: nat)
    requires from <= |s|
    ensures from <= k <= |s|
    ensures k < |s| ==> k + 2 <= |s| && s[k..k + 2] == Separator
    decreases |s| - from
  {
    if from + 2 > |s| then |s|
    else if s[from..from + 2] == Separator then from
    else SeparatorFrom(s, from + 1)
  }

  /** Cuts a string at every ", ". */
  function Split(s: string): seq<string>
    decreases |s|
  {
    var k := SeparatorFrom(s, 0);
    if k == |s| then [s] else [s[..k]] + Split(s[k + 2..])
  }

  ghost predicate NoComma(parts: seq<string>)
  {
    forall k :: 0 <= k < |parts| ==> ',' !in parts[k]
  }

  lemma {:induction false} SeparatorAfter(x: string, tail: string, from: nat)
    requires from <= |x| && ',' !in x
    ensures SeparatorFrom(x + Separator + tail, from) == |x|
    decreases |x| - from
  {
    var s := x + Separator + tail;
    if from < |x| {
      assert s[from] == x[from];
      SeparatorAfter(x, tail, from + 1);
    } else {
      assert s[from..from + 2] == Separator;
    }
  }

  lemma {:induction false} NoSeparator(x: string, from: nat)
    requires from <= |x| && ',' !in x
    ensures SeparatorFrom(x, from) == |x|
    decreases |x| - from
  {
    if from + 2 <= |x| {
      assert x[from] in x;
      assert x[from..from + 2][0] == x[from];
      NoSeparator(x, from + 1);
    }
  }

  /** When no input's text contains a comma, the joined list can be read
      back: the list clause loses neither order nor boundaries. */
  lemma {:induction false} SplitJoin(parts: seq<string>)
    requires parts != [] && NoComma(parts)
    ensures Split(Join(parts)) == parts
    decreases |parts|
  {
    if |parts| == 1 {
      NoSeparator(parts[0], 0);
    } else {
      var x, rest := parts[0], parts[1..];
      assert parts == [x] + rest;
      assert ',' !in x;
      JoinFront(x, rest);
      var s := x + Separator + Join(rest);
      SeparatorAfter(x, Join(rest), 0);
      assert s[..|x|] == x;
      assert s[|x| + 2..] == Join(rest);
      SplitJoin(rest);
    }
  }
}
