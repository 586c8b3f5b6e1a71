/**
  The page: one problem's editor, its typing timer and its submissions, driven by the listeners.

  The page is opened for one problem name (the submit button's `name`); its idle budget comes from
  the `TIME_MAP` table and its suite from the `PROBLEM_MAP` table.
*/
module Page {
  import opened Suites
  import opened Timer
  import opened TextEditor

  /** `TIME_MAP`: six easy and six medium problems at 5 s, five hard ones at 10 s, `hardest`
      unbounded. */
  const TimeTable: map<string, Budget> := map[
    "sleepIn" := Millis(5000), "sum" := Millis(5000), "monkeyTrouble" := Millis(5000),
    "lastDigit" := Millis(5000), "sortedSearch" := Millis(5000), "starTriangle" := Millis(5000),
    "verifyPalindrome" := Millis(5000), "mergeTwoSortedArrays" := Millis(5000),
    "maximumSubarray" := Millis(5000), "reverseInteger" := Millis(5000),
    "moveZeroes" := Millis(5000), "muchInCommon" := Millis(5000),
    "productExceptSelf" := Millis(10000), "murica" := Millis(10000),
    "findTheDuplicate" := Millis(10000), "longestIncreasingSubsequence" := Millis(10000),
    "maximumProduct" := Millis(10000), "hardest" := Infinity
  ]

  /** `TIME_MAP[name]`: `undefined` for a name the table lacks. */
  function BudgetFor(name: string): (b: Budget)
    ensures ValidBudget(b)
    ensures b.Infinity? <==> name == "hardest"
    ensures b.Missing? <==> name !in ProblemNames
    ensures b.Millis? ==> b.ms == 5000 || b.ms == 10000
  {
    if name in TimeTable then TimeTable[name] else Missing
  }

  /** The two lookup tables name the same problems. */
  lemma TablesAgree()
    ensures TimeTable.Keys == ProblemNames
  {
  }

  /** What `onTypeFail` writes into the editor. */
  const Placeholder: string := "// Your code here \U{2B07}\U{FE0F}"

  datatype PageState = PageState(name: string, timer: TimerState, editor: EditorState)

  function Load(name: string): PageState {
    PageState(name, Start, EditorState("", 0, 0))
  }

  predicate PageInv(p: PageState) {
    Inv(p.timer) && Valid(p.editor)
  }

  /** keydown: a Tab edits the editor (other keys are the browser's own editing); either way the
      timer's keydown transition follows. */
  function OnKeyDown(p: PageState, key: string): (p': PageState)
    requires Valid(p.editor)
    ensures p'.timer == KeyDown(p.timer)
    ensures key == "Tab" ==> p'.editor == InsertTab(p.editor)
    ensures key != "Tab" ==> p'.editor == p.editor
  {
    p.(editor := if key == "Tab" then InsertTab(p.editor) else p.editor,
       timer := KeyDown(p.timer))
  }

  /** keyup: the idle countdown restarts; the editor and the rest of the timer are untouched. */
  function OnKeyUp(p: PageState): (p': PageState)
    ensures Idle(p'.timer) == 0 && p'.timer.currTime == p.timer.currTime
    ensures p'.timer.paused == p.timer.paused && p'.timer.handle == p.timer.handle
    ensures p'.timer.live == p.timer.live
    ensures p'.editor == p.editor && p'.name == p.name
  {
    p.(timer := KeyUp(p.timer))
  }

  /** One tick of the interval; when it ends in `onTypeFail` the editor is reset to the
      placeholder (the caret lands after it) and the interval stops, the clocks left standing. */
  function OnTick(p: PageState): (p': PageState)
    ensures p'.timer == Tick(p.timer, BudgetFor(p.name))
    ensures TickFires(p.timer, BudgetFor(p.name)) ==>
      p'.editor.value == Placeholder && !p'.timer.handle
      && p'.timer.currTime == p.timer.currTime + TickMillis
    ensures !TickFires(p.timer, BudgetFor(p.name)) ==> p'.editor == p.editor
  {
    var b := BudgetFor(p.name);
    p.(timer := Tick(p.timer, b),
       editor := if TickFires(p.timer, b) then EditorState(Placeholder, |Placeholder|, |Placeholder|) else p.editor)
  }

  /** A click on submit: the page's suite runs on the editor's text, and its settled outcome
      drives the timer. */
  function OnSubmit(p: PageState, registry: map<string, Suite>, compile: Compiler): (p': PageState)
    ensures p'.editor == p.editor
    ensures p.name !in registry ==> p' == p
    ensures p.name in registry && AllPassed(RunSuite(registry[p.name], compile, p.editor.value)) ==>
      p'.timer == Stop(p.timer)
    ensures p.name in registry && !AllPassed(RunSuite(registry[p.name], compile, p.editor.value)) ==>
      p'.timer == p.timer.(paused := true)
  {
    p.(timer := Complete(p.timer, RunTest(registry, p.name, compile, p.editor.value)))
  }

  datatype PageEvent = KeyDownOn(key: string) | KeyUpOn | TickOn | SubmitOn

  function PageStep(p: PageState, registry: map<string, Suite>, compile: Compiler, e: PageEvent): PageState
    requires Valid(p.editor)
  {
    match e
    case KeyDownOn(k) => OnKeyDown(p, k)
    case KeyUpOn => OnKeyUp(p)
    case TickOn => OnTick(p)
    case SubmitOn => OnSubmit(p, registry, compile)
  }

  lemma PageStepPreservesInv(p: PageState, registry: map<string, Suite>, compile: Compiler, e: PageEvent)
    requires PageInv(p)
    ensures PageInv(PageStep(p, registry, compile, e))
    ensures PageStep(p, registry, compile, e).name == p.name
  {
    match e
    case KeyDownOn(k) => StepPreservesInv(p.timer, BudgetFor(p.name), KeyDownEvent);
    case KeyUpOn => StepPreservesInv(p.timer, BudgetFor(p.name), KeyUpEvent);
    case TickOn => StepPreservesInv(p.timer, BudgetFor(p.name), TickEvent);
    case SubmitOn =>
      StepPreservesInv(p.timer, BudgetFor(p.name), Completed(RunTest(registry, p.name, compile, p.editor.value)));
  }

  /** The two tables decide the same names: with the suites registered for exactly the problems of
      `PROBLEM_MAP`, a test run rejects exactly for the names `TIME_MAP` has no budget for. */
  lemma RunTestRejectsExactlyWithoutBudget(registry: map<string, Suite>, name: string, compile: Compiler, body: string)
    requires registry.Keys == ProblemNames
    ensures RunTest(registry, name, compile, body).Rejected? <==> BudgetFor(name).Missing?
  {
  }

  /** The page after `events`, in order. */
  function PageReplay(p: PageState, registry: map<string, Suite>, compile: Compiler, events: seq<PageEvent>): PageState
    requires PageInv(p)
    ensures PageInv(PageReplay(p, registry, compile, events))
    ensures PageReplay(p, registry, compile, events).name == p.name
  {
    if |events| == 0 then p
    else
      var q := PageReplay(p, registry, compile, events[..|events| - 1]);
      PageStepPreservesInv(q, registry, compile, events[|events| - 1]);
      PageStep(q, registry, compile, events[|events| - 1])
  }

  /** Every page state reachable from load, by any sequence of listener calls, keeps the timer
      invariant and a selection inside the editor's text. */
  lemma ReachableFromLoad(name: string, registry: map<string, Suite>, compile: Compiler, events: seq<PageEvent>)
    ensures PageInv(Load(name))
    ensures PageInv(PageReplay(Load(name), registry, compile, events))
    ensures PageReplay(Load(name), registry, compile, events).name == name
  {
  }

  function PageTicks(p: PageState, n: nat): PageState {
    if n == 0 then p else OnTick(PageTicks(p, n - 1))
  }

  /** Page ticks are timer ticks, and the editor is untouched until the tick that fires. */
  lemma {:induction false} PageTicksFollowTimer(p: PageState, n: nat)
    requires forall k :: 0 <= k < n ==> !TickFires(Ticks(p.timer, BudgetFor(p.name), k), BudgetFor(p.name))
    ensures PageTicks(p, n).timer == Ticks(p.timer, BudgetFor(p.name), n)
    ensures PageTicks(p, n).editor == p.editor && PageTicks(p, n).name == p.name
  {
    if n > 0 {
      PageTicksFollowTimer(p, n - 1);
    }
  }

  /** After a keyup with no pause, a page with a finite budget keeps its editor through
      budget / 100 - 1 ticks and is reset to the placeholder by the next one. */
  lemma IdlePageResetsAtBudget(p: PageState)
    requires BudgetFor(p.name).Millis?
    requires p.timer.live > 0 && p.timer.handle && !p.timer.paused && Idle(p.timer) == 0
    ensures var n := BudgetFor(p.name).ms / TickMillis;
      && n >= 1
      && PageTicks(p, n - 1).editor == p.editor && PageTicks(p, n - 1).timer.handle
      && PageTicks(p, n).editor.value == Placeholder && !PageTicks(p, n).timer.handle
      && PageTicks(p, n).timer.currTime == p.timer.currTime + BudgetFor(p.name).ms
  {
    var b := BudgetFor(p.name);
    var n := b.ms / TickMillis;
    forall k | 0 <= k < n - 1
      ensures !TickFires(Ticks(p.timer, b, k), b)
    {
      NoFireBeforeBudget(p.timer, b, k);
    }
    PageTicksFollowTimer(p, n - 1);
    FiresExactlyAtBudget(p.timer, b);
    NoFireBeforeBudget(p.timer, b, n - 1);
    assert TickFires(Ticks(p.timer, b, n - 1), b);
  }

  lemma SumBudget()
    ensures BudgetFor("sum") == Millis(5000)
  {
    assert "sum" in TimeTable;
  }

  /** On the `sum` page, from any state satisfying the page invariant -- which every state reached
      from load does (`ReachableFromLoad`) -- a key pressed and released starts a 5 s countdown: 49
      silent ticks leave the editor alone and the 50th resets it. */
  lemma SumPageCountdown(p: PageState, key: string)
    requires p.name == "sum" && PageInv(p)
    ensures var q := OnKeyUp(OnKeyDown(p, key));
      var n := BudgetFor(p.name).ms / TickMillis;
      && n == 50
      && PageTicks(q, n - 1).editor == q.editor && PageTicks(q, n - 1).timer.handle
      && PageTicks(q, n).editor.value == Placeholder && !PageTicks(q, n).timer.handle
      && PageTicks(q, n).timer.currTime == p.timer.currTime + 5000
  {
    var q := OnKeyUp(OnKeyDown(p, key));
    SumBudget();
    IdlePageResetsAtBudget(q);
  }

  /** On the `hardest` page the idle countdown never resets the editor. */
  lemma HardestNeverResets(p: PageState, n: nat)
    requires p.name == "hardest" && p.timer.live > 0
    ensures PageTicks(p, n).editor == p.editor
    ensures PageTicks(p, n).timer.live == p.timer.live
  {
    PageTicksFollowTimer(p, n);
    UnboundedNeverFires(p.timer, Infinity, n);
  }

  /** Submitting on the `hardest` page always passes and stops the clock. */
  lemma HardestSubmissionStops(p: PageState, registry: map<string, Suite>, compile: Compiler)
    requires p.name == "hardest" && "hardest" in registry && registry["hardest"] == Ungraded
    ensures !OnSubmit(p, registry, compile).timer.handle
  {
    UngradedAlwaysPasses(compile, p.editor.value);
  }
}
