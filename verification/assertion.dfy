/**
  The assertion engine: `assert(expected, funcname, func, ...args)` calls the compiled submission,
  decides pass, fail or crash, and renders the line the test page prints.

  The submission is an abstract callable: given the argument list it either returns a value or
  throws. Whatever it does to its (by-reference) arguments is invisible here, because the argument
  text is rendered before the call and the decision looks only at the returned value.
*/
module Assertion {
  import opened Values
  import opened Formatter
  import opened Comparator

  datatype Completion = Returned(value: Value) | Threw(error: Value)

  /** A compiled submission, taken to be isolated from the page: its outcome depends on its
      arguments alone, and it neither reads nor writes the page's state. */
  type Callable = seq<Value> -> Completion

  /** What one assertion reports: the call as `name(args)`, and either both renderings or the fault. */
  datatype AssertionRecord =
    | Passed(call: string, expectedText: string, actualText: string)
    | Failed(call: string, expectedText: string, actualText: string)
    | Crashed(call: string, fault: string)

  /** The rendered argument list: each argument through `valToString`, separated by `", "`. */
  function ArgsText(args: seq<Value>): string {
    Join(", ", ArgTexts(args))
  }

  function ArgTexts(args: seq<Value>): seq<string> {
    if |args| == 0 then [] else [ValToString(args[0])] + ArgTexts(args[1..])
  }

  /** The decision `assert` takes on a returned value: an array `expected` needs an array `actual`
      that `testArrayEquality` accepts; anything else needs `expected === actual`. */
  predicate Matches(expected: Value, actual: Value) {
    if IsArray(expected) then IsArray(actual) && ShallowEqual(expected.elems, actual.elems)
    else StrictEq(expected, actual)
  }

  /** `assert`: a thrown fault is a crash, a returned value passes exactly when it matches. */
  function Assert(expected: Value, funcname: string, func: Callable, args: seq<Value>): (rec: AssertionRecord)
    ensures rec.call == funcname + "(" + ArgsText(args) + ")"
    ensures rec.Crashed? <==> func(args).Threw?
    ensures !rec.Crashed? ==> rec.expectedText == ValToString(expected)
    ensures !rec.Crashed? ==> rec.actualText == ValToString(func(args).value)
  {
    var call := funcname + "(" + ArgsText(args) + ")";
    match func(args)
    case Threw(err) => Crashed(call, ToStr(err))
    case Returned(actual) =>
      if Matches(expected, actual) then Passed(call, ValToString(expected), ValToString(actual))
      else Failed(call, ValToString(expected), ValToString(actual))
  }

  /** The boolean `assert` returns to its suite. */
  predicate AssertPasses(expected: Value, funcname: string, func: Callable, args: seq<Value>) {
    Assert(expected, funcname, func, args).Passed?
  }

  /** A call that throws never passes; it is reported with the fault's text. */
  lemma CrashNeverPasses(expected: Value, funcname: string, func: Callable, args: seq<Value>)
    requires func(args).Threw?
    ensures !AssertPasses(expected, funcname, func, args)
    ensures Assert(expected, funcname, func, args).fault == ToStr(func(args).error)
  {
  }

  /** A non-array `expected` passes exactly when the call returns a value `===` to it -- no
      coercion, and on a coherent heap that is plain equality of values. */
  lemma ScalarExpectation(expected: Value, funcname: string, func: Callable, args: seq<Value>)
    requires !IsArray(expected)
    ensures AssertPasses(expected, funcname, func, args) <==>
      func(args).Returned? && StrictEq(expected, func(args).value)
    ensures func(args).Returned? && Coherent(expected, func(args).value) ==>
      (AssertPasses(expected, funcname, func, args) <==> func(args).value == expected)
  {
    if func(args).Returned? && Coherent(expected, func(args).value) {
      StrictEqIsIdentity(expected, func(args).value);
    }
  }

  /** An array `expected` passes exactly when the call returns an array of the same length whose
      elements are `===` index by index. */
  lemma ArrayExpectation(expected: Value, funcname: string, func: Callable, args: seq<Value>)
    requires IsArray(expected)
    ensures AssertPasses(expected, funcname, func, args) <==>
      && func(args).Returned?
      && IsArray(func(args).value)
      && |func(args).value.elems| == |expected.elems|
      && forall i :: 0 <= i < |expected.elems| ==> StrictEq(expected.elems[i], func(args).value.elems[i])
  {
  }

  /** A returned array of the wrong length fails whatever its contents; so does any non-array. */
  lemma WrongShapeFails(expected: Value, funcname: string, func: Callable, args: seq<Value>)
    requires IsArray(expected) && func(args).Returned?
    requires !IsArray(func(args).value) || |func(args).value.elems| != |expected.elems|
    ensures Assert(expected, funcname, func, args).Failed?
  {
  }

  /** The argument text of the `sum(1, 2)` result line and of a call with no arguments. */
  lemma ArgsTextExamples()
    ensures ArgsText([Num(1), Num(2)]) == "1, 2"
    ensures ArgsText([]) == ""
    ensures ArgsText([Arr(0, [Num(6), Num(9)]), Num(6)]) == "[6, 9], 6"
  {
    assert ArgTexts([Num(1), Num(2)]) == ["1", "2"];
    var two := [Arr(0, [Num(6), Num(9)]), Num(6)];
    assert ValToString(two[0]) == "[6, 9]";
    assert two[1..] == [Num(6)];
    assert ArgTexts(two) == ["[6, 9]", "6"];
  }
}
