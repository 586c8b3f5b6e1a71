/**
  Problem test suites, the aggregate check and the settled outcome of a test run.

  A suite compiles the submitted body with its fixed parameter names (`tryCreateFunction`, an
  abstract compiler here) and, if that succeeds, runs every fixed case through `assert` in
  declaration order. `testHardest` compiles nothing and returns an empty list.
*/
module Suites {
  import opened Values
  import opened Assertion

  datatype TestCase = TestCase(args: seq<Value>, expected: Value)

  datatype Suite =
    | Graded(funcName: string, params: seq<string>, cases: seq<TestCase>)
    | Ungraded

  /** `new Function(...params, body)`: the compiled callable, or `None` when the body does not parse. */
  type Compiler = (seq<string>, string) -> Option<Callable>

  /** The assertion records of `cases`, one per case, in declaration order. */
  function Run(funcName: string, f: Callable, cases: seq<TestCase>): (recs: seq<AssertionRecord>)
    ensures |recs| == |cases|
    ensures forall i :: 0 <= i < |cases| ==> recs[i] == Assert(cases[i].expected, funcName, f, cases[i].args)
  {
    if |cases| == 0 then []
    else
      var last := cases[|cases| - 1];
      Run(funcName, f, cases[..|cases| - 1]) + [Assert(last.expected, funcName, f, last.args)]
  }

  /** A `test*` suite: `null` when the body does not compile (and no case runs), otherwise one
      boolean per case, in order, each the verdict of that case's assertion. */
  function RunSuite(suite: Suite, compile: Compiler, body: string): (r: Option<seq<bool>>)
    ensures suite.Ungraded? ==> r == Some([])
    ensures suite.Graded? ==> (r.None? <==> compile(suite.params, body).None?)
    ensures suite.Graded? && r.Some? ==>
      && |r.value| == |suite.cases|
      && forall i :: 0 <= i < |suite.cases| ==>
           r.value[i] == AssertPasses(suite.cases[i].expected, suite.funcName, compile(suite.params, body).value, suite.cases[i].args)
  {
    match suite
    case Ungraded => Some([])
    case Graded(funcName, params, cases) =>
      match compile(params, body)
      case None => None
      case Some(f) =>
        var recs := Run(funcName, f, cases);
        Some(seq(|recs|, i requires 0 <= i < |recs| => recs[i].Passed?))
  }

  /** What `checkArrayPassed` decides: a list came back and every entry in it is true. */
  predicate AllPassed(response: Option<seq<bool>>) {
    response.Some? && forall i :: 0 <= i < |response.value| ==> response.value[i]
  }

  /** `checkArrayPassed`: false for `null`, otherwise false at the first false entry. */
  method CheckArrayPassed(arr: Option<seq<bool>>) returns (r: bool)
    ensures r <==> AllPassed(arr)
    ensures arr.None? ==> !r
    ensures arr == Some([]) ==> r
  {
    if arr.None? {
      return false;
    }
    var a := arr.value;
    var i := 0;
    while i < |a|
      invariant 0 <= i <= |a|
      invariant forall j :: 0 <= j < i ==> a[j]
    {
      if !a[i] {
        return false;
      }
      i := i + 1;
    }
    return true;
  }

  /** A graded suite passes as a whole exactly when the body compiles and every case passes; a
      body that does not compile is never a pass. */
  lemma {:induction false} SuitePassesIffEveryCase(suite: Suite, compile: Compiler, body: string)
    requires suite.Graded?
    ensures AllPassed(RunSuite(suite, compile, body)) <==>
      && compile(suite.params, body).Some?
      && forall i :: 0 <= i < |suite.cases| ==>
           AssertPasses(suite.cases[i].expected, suite.funcName, compile(suite.params, body).value, suite.cases[i].args)
  {
    var r := RunSuite(suite, compile, body);
    if r.Some? {
      assert |r.value| == |suite.cases|;
    }
  }

  /** `testHardest` passes whatever is submitted. */
  lemma UngradedAlwaysPasses(compile: Compiler, body: string)
    ensures AllPassed(RunSuite(Ungraded, compile, body))
  {
  }

  /** How the race between the suite and the 5-second timeout settled. */
  datatype Settlement =
    | Resolved(response: Option<seq<bool>>)
    | Rejected(reason: Value)

  /** `runTest`: the suite runs synchronously inside the promise executor, so it has settled before
      the timeout can fire, and the race takes the suite's own result -- even an all-false one. It
      rejects only when the suite throws, as calling the missing entry of an unknown problem name
      does (a `TypeError`). The registry holds the table's own keys only; names that `PROBLEM_MAP`
      inherits from `Object.prototype` are not modelled. */
  function RunTest(registry: map<string, Suite>, name: string, compile: Compiler, body: string): (s: Settlement)
    ensures name in registry ==> s == Resolved(RunSuite(registry[name], compile, body))
    ensures name !in registry ==> s.Rejected?
  {
    if name in registry then Resolved(RunSuite(registry[name], compile, body))
    else Rejected(Obj(0, "TypeError: PROBLEM_MAP[name] is not a function"))
  }

  /** The problems the page can be opened for. */
  const ProblemNames: set<string> := {
    "sleepIn", "sum", "monkeyTrouble", "lastDigit", "sortedSearch", "starTriangle",
    "verifyPalindrome", "mergeTwoSortedArrays", "maximumSubarray", "reverseInteger", "moveZeroes", "muchInCommon",
    "productExceptSelf", "murica", "findTheDuplicate", "longestIncreasingSubsequence", "maximumProduct", "hardest"
  }

  /** `testSum`: parameters `a`, `b` and eight cases. */
  const SumSuite: Suite := Graded("sum", ["a", "b"], [
    TestCase([Num(1), Num(2)], Num(3)),
    TestCase([Num(3), Num(2)], Num(5)),
    TestCase([Num(2), Num(2)], Num(4)),
    TestCase([Num(-1), Num(0)], Num(-1)),
    TestCase([Num(3), Num(3)], Num(6)),
    TestCase([Num(0), Num(0)], Num(0)),
    TestCase([Num(0), Num(1)], Num(1)),
    TestCase([Num(3), Num(4)], Num(7))
  ])

  /** A callable that, on two numbers, returns their sum (as `return a+b;` does). */
  ghost predicate AddsNumbers(f: Callable) {
    forall args: seq<Value> :: |args| == 2 && args[0].Num? && args[1].Num? ==> f(args) == Returned(Num(args[0].n + args[1].n))
  }

  /** A case of `sum`: two numbers and their sum as the expectation. */
  predicate IsSumCase(c: TestCase) {
    |c.args| == 2 && c.args[0].Num? && c.args[1].Num? && c.expected == Num(c.args[0].n + c.args[1].n)
  }

  lemma AdderPassesSumCase(f: Callable, c: TestCase)
    requires AddsNumbers(f) && IsSumCase(c)
    ensures AssertPasses(c.expected, "sum", f, c.args)
  {
    assert f(c.args) == Returned(c.expected);
    ScalarExpectation(c.expected, "sum", f, c.args);
  }

  /** Any body compiling to an adder passes every case of `sum`. */
  lemma SumAcceptsAddition(compile: Compiler, body: string)
    requires compile(["a", "b"], body).Some? && AddsNumbers(compile(["a", "b"], body).value)
    ensures RunSuite(SumSuite, compile, body).Some?
    ensures |RunSuite(SumSuite, compile, body).value| == 8
    ensures AllPassed(RunSuite(SumSuite, compile, body))
  {
    var f := compile(["a", "b"], body).value;
    var cases := SumSuite.cases;
    forall i | 0 <= i < |cases|
      ensures AssertPasses(cases[i].expected, "sum", f, cases[i].args)
    {
      assert IsSumCase(cases[i]);
      AdderPassesSumCase(f, cases[i]);
    }
    SuitePassesIffEveryCase(SumSuite, compile, body);
  }

  /** A body computing `a - b` already fails the first case of `sum`, so the suite fails. */
  lemma SumRejectsSubtraction(compile: Compiler, body: string)
    requires compile(["a", "b"], body).Some?
    requires compile(["a", "b"], body).value([Num(1), Num(2)]) == Returned(Num(-1))
    ensures RunSuite(SumSuite, compile, body).Some? && !RunSuite(SumSuite, compile, body).value[0]
    ensures !AllPassed(RunSuite(SumSuite, compile, body))
  {
  }

  /** A body that does not compile is reported as `null`: no case of `sum` runs and nothing passes. */
  lemma SumRejectsUncompilable(compile: Compiler, body: string)
    requires compile(["a", "b"], body).None?
    ensures RunSuite(SumSuite, compile, body).None?
    ensures !AllPassed(RunSuite(SumSuite, compile, body))
  {
  }
}
