// HEART_CHECK and HEART_ASSERT (assert.h): a condition that, outside
// strict-performance builds, hands the rendered values to the assertion
// display when it fails and breaks into the debugger when the display asks
// to. The display's answer is the parameter `dialogBreaks`; `shown` records
// the details text handed to it.
module HeartAssert {
  import opened Wrappers
  import opened DebugStringify

  /** What evaluating a check did: its value, whether `DisplayAssertError` was called
      and with which details text, and whether it broke into the debugger. */
  datatype Outcome = Outcome(value: bool, shown: Option<string>, broke: bool)

  /** HEART_ERROR: renders the values into a 2048-byte buffer and hands them
      to `DisplayAssertError`, which decides whether a dialog appears; when
      that call returns true the debugger breaks. Its value is false either
      way: `DisplayAssertError(...) && (__debugbreak(), false)`. */
  function HeartError(args: seq<string>, values: seq<string>, dialogBreaks: bool): (o: Outcome)
    requires |args| == |values| <= 10 && forall i | 0 <= i < |args| :: NoNul(args[i])
    ensures !o.value && o.shown.Some? && (o.broke <==> dialogBreaks)
    ensures NamesFit(args) && o.shown.value == RenderAll(Render([], Some(0)), 2048, StringifyNames(args), values).text
  {
    NamesLayout(args);
    var details := RenderAll(Render([], Some(0)), 2048, StringifyNames(args), values).text;
    var broke := dialogBreaks;
    Outcome(false, Some(details), broke)
  }

  /** The names literal of up to ten arguments ends in an empty name. */
  ghost predicate NamesFit(args: seq<string>)
  {
    EmptyNameAhead(StringifyNames(args), 0)
  }

  /** HEART_CHECK(expr, args...): in strict-performance builds just the
      condition; otherwise the condition or, when it fails, HEART_ERROR. */
  function HeartCheck(strictPerf: bool, expr: bool, args: seq<string>, values: seq<string>, dialogBreaks: bool): (o: Outcome)
    requires |args| == |values| <= 10 && forall i | 0 <= i < |args| :: NoNul(args[i])
    ensures o.value == expr
    ensures o.shown.Some? <==> !strictPerf && !expr
    ensures o.broke <==> o.shown.Some? && dialogBreaks
  {
    if strictPerf || expr then Outcome(expr, None, false)
    else
      var e := HeartError(args, values, dialogBreaks);
      Outcome(expr || e.value, e.shown, e.broke)
  }

  /** HEART_ASSERT(expr, args...): the same effects as HEART_CHECK with the
      value discarded; nothing at all in strict-performance builds. */
  function HeartAssert(strictPerf: bool, expr: bool, args: seq<string>, values: seq<string>, dialogBreaks: bool): (o: Outcome)
    requires |args| == |values| <= 10 && forall i | 0 <= i < |args| :: NoNul(args[i])
    ensures o.shown.Some? <==> !strictPerf && !expr
    ensures o.broke <==> o.shown.Some? && dialogBreaks
    ensures o.value
  {
    if strictPerf then Outcome(true, None, false)
    else
      var c := HeartCheck(strictPerf, expr, args, values, dialogBreaks);
      Outcome(true, c.shown, c.broke)
  }

  /** A failed check shows the values as "name = value" lines when they fit
      in the dialog's buffer. */
  lemma FailedCheckShowsValues(args: seq<string>, values: seq<string>, dialogBreaks: bool)
    requires |args| == |values| <= 10
    requires forall i | 0 <= i < |args| :: args[i] != [] && NoNul(args[i]) && values[i] != []
    requires |Lines(args, values)| < 2048
    ensures HeartCheck(false, false, args, values, dialogBreaks).shown == Some(Lines(args, values))
  {
    assert forall i | 0 <= i < |args| :: NameOk(args[i]);
    HeartToDebugStr(args, values, 2048);
  }
}
