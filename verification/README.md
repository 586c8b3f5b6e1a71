# Test-page core of leetcode-from-hell, modelled in Dafny

The page is an in-browser coding exercise. The user types a function body into a text area, and a
100 ms clock wipes the editor when the time since their last key release reaches the problem's idle
budget exactly. On
submit, the body is compiled with the problem's parameter names and run against a fixed list of
cases. The outcome then stops the clock (all cases pass) or pauses the idle countdown (anything
else).

This project models the pure logic behind that page in `script.js`:

- `values.dfy` (`Values`): JavaScript values, strict equality `===` and the implicit conversion
  `"" + v`. Objects carry a reference, and `===` compares objects by reference only.
- `formatter.dfy` (`Formatter`): `formatString`, `arrayToString` and `valToString`, including the
  quirks of `arrayToString`:
  - element 0 is converted raw;
  - later elements recurse if they are arrays;
  - later elements are quoted only if they are `String` objects.
- `comparator.dfy` (`Comparator`): the shallow `testArrayEquality`. `isArray` is `Values.IsArray`.
- `assertion.dfy` (`Assertion`): the pass/fail/crash decision of `assert` and its rendered record.
- `suites.dfy` (`Suites`): the shape of the `test*` suites, `checkArrayPassed`, and the settled
  outcome of `runTest`. The `sum` suite and `testHardest` are written out as examples.
- `timer.dfy` (`Timer`): the typing-timeout state machine. Its state is `currTime`,
  `keypressTime`, `pauseKeypress`, whether `globalTimer` holds an interval, and how many intervals
  are live.
- `editor.dfy` (`TextEditor`): Tab inserts two spaces in place of the selection.
- `page.dfy` (`Page`): the listeners wired together for one problem, with the `TIME_MAP` budgets.

Behaviour of `script.js` a reader may not expect, all of it kept in the model:

- Strings inside arrays are not quoted, so `["a"]` renders `[a]`. A nested array in position 0
  collapses to its comma-joined text, so `[[1,2],[3]]` renders `[1,2, [3]]`.
- keyup only restarts the idle countdown. It is keydown that clears the pause.
- `onTypeFail` resets the labels, but not `currTime` or `keypressTime`.
- The suite runs synchronously inside the promise executor. So when the submission returns or
  throws, the race settles with the suite's own result, and the 5-second timeout can never win. The
  race rejects only when the suite throws, for example when the page's problem name has no suite (a
  `TypeError`). A submission that never returns blocks the page instead (see "Left out").
- After a pass, the interval stops, but the next keydown starts it again.
- The idle time can exceed the budget. One way: a tick lands between the keydown that restarts
  the clock after `onTypeFail` and its keyup. Because the test is an exact `===`, that countdown
  then never fires until the next keyup (`Timer.IdleCanPassBudget`, `Timer.NeverFiresPastBudget`).
- The comment on `checkArrayPassed` says "at least one element is true". The code requires every
  element to be true.

## Model

| member | source | states |
|---|---|---|
| `Values.StrictEqIsIdentity` | script.js:185 | `===` never coerces. On values whose shared references agree, it holds exactly when the values are equal. |
| `Values.NoCoercion` | script.js:185 | A number is never `===` to its decimal text, `null` is not `===` to `undefined`, and booleans are not `===` to 0 or 1. |
| `Values.IntToStringRoundTrip` | script.js:284 | The decimal text that `"" + n` gives reads back to `n`. |
| `Values.StrictEq` | script.js:185 | `===` on a primitive holds exactly for an equal value of the same type, so it never coerces. It holds only between two objects or two primitives, objects with different references are unequal, and every value is `===` to itself. |
| `Values.IsArray` | script.js:332-334 | Falsy values, `String` objects and other non-array objects are never arrays. Every array is one. |
| `Values.ToStr` | script.js:284 | `"" + n` reads back to `n`. A string or `String` object converts to its own text, and `null` to `null`. The empty array converts to empty text, and a non-empty one holds at least its length − 1 commas' worth of text. |
| `Values.JoinFrom` | script.js:315 | The join of the elements from `i` on is empty past the end. Otherwise it is at least n − i − 1 characters long, one per separator; `Values.JoinFromIsJoin` gives its content. |
| `Values.JoinFromIsJoin` | script.js:315 | The join of the elements from `i` on is the `","`-join of their element texts, for every array and every `i`. |
| `Values.ArrayTextIsJoin` | script.js:315 | `"" + array` equals the `","`-join of its element texts, with `null` and `undefined` elements as empty text. |
| `Values.JoinLength` | script.js:313-327 | Joining n parts adds exactly n - 1 separators to the parts' total length. |
| `Formatter.FormatString` | script.js:288-308 | The loop's output is `"`, then each character (newline, carriage return and tab as their two-character escapes), then `"`, the same as the recursive character-by-character definition. |
| `Formatter.QuotedLength` | script.js:288-308 | A formatted string is the input's length + 2 + the number of newline, carriage-return and tab characters. |
| `Formatter.QuotedRoundTrip` | script.js:288-308 | For text without a backslash, stripping the quotes and reading the escapes back gives the input unchanged. |
| `Formatter.QuotedNotInjective` | script.js:291-303 | Backslashes are not escaped, so a backslash followed by `n` renders the same as a newline. |
| `Formatter.ArrayToString` | script.js:312-329 | The result is always bracketed: at least two characters, `[` first and `]` last. The empty array renders exactly `[]`. |
| `Formatter.ElemText` | script.js:318-324 | After position 0, arrays render bracketed by the recursive call and `String` objects render quoted. Everything else, primitive strings included, renders as `"" + v`. |
| `Formatter.ArrayLayout` | script.js:312-329 | `[]` renders as `[]`. A non-empty array renders as `[`, its element texts joined by `", "`, and `]`. Element 0 is converted raw and later elements follow the recursion/quoting rule. |
| `Formatter.ArrayLength` | script.js:312-329 | The rendered length is 2 + the element texts' total length + 2·(length − 1). |
| `Formatter.ArrayLeavesStringsUnquoted` | script.js:315-324 | Primitive strings inside an array are printed without quotes, both in front and after it. |
| `Formatter.ArrayCollapsesFrontArray` | script.js:315-319 | A nested array in position 0 prints as its comma-joined contents. Later nested arrays recurse: `[[1,2],[3]]` renders `[1,2, [3]]`. |
| `Formatter.ArrayQuotesLaterStringObjects` | script.js:315-321 | A `String` object is quoted only after position 0. |
| `Formatter.ArrayNullRendering` | script.js:315-323 | `null` prints as `null` in the array itself, but as empty text inside a collapsed front array. So `[[null]]` renders like `[]`. |
| `Formatter.ValToString` | script.js:278-285 | Arrays render bracketed. Strings and `String` objects render quoted, with the length law and the read-back law. Everything else renders as `"" + v`. |
| `Formatter.Examples` | script.js:278-285 | `3`, `-1`, `"a\nb"`, `[1, 2]` and `[]` render as the test page prints them. |
| `Comparator.TestArrayEquality` | script.js:337-345 | True exactly when the lengths agree and every index is `===`. Differing lengths are always false. |
| `Comparator.ShallowEqualOnPrimitives` | script.js:340-342 | On arrays of primitives, the shallow comparison agrees with comparison by contents. |
| `Comparator.NestedArraysCompareByReference` | script.js:341 | Two arrays that hold distinct array objects at the same index compare unequal, whatever those inner arrays contain. |
| `Comparator.SameContentsYetUnequal` | script.js:341 | An instance: two arrays with the same contents at every level still compare unequal. |
| `Assertion.Assert` | script.js:146-194 | The record names the call as `name(args)`. It is a crash exactly when the call throws. Otherwise it carries the renderings of the expected and actual values. |
| `Assertion.CrashNeverPasses` | script.js:188-191 | A call that throws never passes and is reported with the fault's text. |
| `Assertion.ScalarExpectation` | script.js:185-187 | A non-array expectation passes exactly when the call returns a value `===` to it. On a coherent heap, that is an equal value. |
| `Assertion.ArrayExpectation` | script.js:179-184 | An array expectation passes exactly when the call returns an array of the same length that is `===` at every index. |
| `Assertion.WrongShapeFails` | script.js:179-193 | Against an array expectation, a returned non-array or an array of another length fails. |
| `Assertion.ArgsTextExamples` | script.js:149-157 | Arguments render through `valToString`, separated by `", "`. |
| `Suites.Run` | script.js:362-372 | The suite produces one assertion record per case, in declaration order. |
| `Suites.RunSuite` | script.js:356-373 | `null` exactly when the body does not compile. Otherwise one boolean per case, in order, each the verdict of that case. `testHardest` gives `[]`. |
| `Suites.CheckArrayPassed` | script.js:269-275 | True exactly when a list came back and all its entries are true. `null` is false and `[]` is true. |
| `Suites.SuitePassesIffEveryCase` | script.js:356-373 | A graded suite passes as a whole exactly when the body compiles and every case passes. |
| `Suites.UngradedAlwaysPasses` | script.js:789-791 | `testHardest` passes whatever is submitted. |
| `Suites.RunTest` | script.js:215-231 | For a problem in the table, the race settles with the suite's own result. For a name that is not one of the table's own keys, it rejects. |
| `Suites.SumAcceptsAddition` | script.js:356-373 | Any body compiling to an adder passes all eight `sum` cases. |
| `Suites.SumRejectsSubtraction` | script.js:363 | A body returning `a - b` fails the first `sum` case, so the suite fails. |
| `Suites.SumRejectsUncompilable` | script.js:357-358 | A body that does not compile yields `null`: no case runs and nothing passes. |
| `Timer.KeyUp` | script.js:85-87 | The idle time restarts at 0. Nothing else changes. |
| `Timer.KeyDown` | script.js:107-109 | Clears the pause. Starts one interval only if `globalTimer` holds none. The clocks are unchanged. |
| `Timer.Stop` | script.js:256-257 | Cancels the held interval and leaves both clocks and the pause flag standing. |
| `Timer.Tick` | script.js:111-124 | Adds exactly 100 to `currTime`. While paused the idle time is 0. The tick stops the interval exactly on an exact hit of the budget. Without a live interval nothing happens. |
| `Timer.Complete` | script.js:234-246 | A list with every entry true stops the interval. `null` or any false entry pauses the countdown. A rejected race changes nothing. |
| `Timer.StepPreservesInv` | script.js:85-124 | Every event keeps the clocks whole ticks, keeps `0 <= keypressTime <= currTime`, and keeps exactly the held interval live. |
| `Timer.AtMostOneInterval` | script.js:107-111 | From page load, whatever the events, at most one interval is ever live, for submissions that leave the page's state alone (see "Left out"). |
| `Timer.NoFireBeforeBudget` | script.js:112-123 | Unpaused, each tick adds 100 to the idle time. Nothing fires while the idle time stays below the budget. |
| `Timer.FiresExactlyAtBudget` | script.js:120-123 | After a keyup with no pause, a finite budget fires after exactly budget/100 ticks, never earlier. The clocks stay where they are. |
| `Timer.IdleCanPassBudget` | script.js:107-123 | After a tick fires `onTypeFail`, a keydown and one tick before the keyup leave the idle time one tick past the budget, with the interval live and unpaused. |
| `Timer.IdlePassesBudgetAfterKeyUp` | script.js:85-123 | With any finite budget, just after a keyup with the interval running: budget/100 ticks (the last fires), keydown and one tick leave the idle time a tick past the budget, with the interval live. |
| `Timer.NeverFiresPastBudget` | script.js:121 | Once the idle time has reached the budget without firing, ticks never fire until a keyup. |
| `Timer.UnboundedNeverFires` | script.js:121-122 | An `Infinity` (or missing) budget never fires, however many ticks pass. |
| `Timer.PausedNeverFires` | script.js:115-117 | While paused, the idle time is held at 0, so a valid budget never fires. |
| `Timer.FailedRunFreezesCountdown` | script.js:238-240 | After a run that does not pass, ticks never trigger `onTypeFail` until the next keydown. |
| `Timer.PassedRunStopsClock` | script.js:235-237 | After a passing run, no interval is live and the clock stands still. |
| `TextEditor.InsertTab` | script.js:93-105 | The prefix before the selection is kept, two spaces follow, then the suffix after the selection. The length is `len − (end − start) + 2`. Both selection bounds become `start + 2`. |
| `TextEditor.TabAtCaretIsUndone` | script.js:99-104 | With no selection, deleting the two characters before the new caret restores the editor exactly. |
| `TextEditor.TabReplacesSelection` | script.js:99-100 | The new text holds exactly the old characters minus the selection, plus two spaces. |
| `Page.BudgetFor` | script.js:39-65 | Budgets are 5000 or 10000 ms, positive multiples of 100. Only `hardest` is unbounded. A name that is not one of the table's own keys gets a budget that never fires. |
| `Page.TablesAgree` | script.js:11-63 | `PROBLEM_MAP` and `TIME_MAP` name the same eighteen problems. |
| `Page.SumBudget` | script.js:42 | The `sum` problem allows 5000 ms between keys. |
| `Page.OnKeyDown` | script.js:90-126 | A Tab edits the editor as `InsertTab` does and other keys leave it alone. The timer then takes its keydown step. |
| `Page.OnKeyUp` | script.js:85-87 | The idle time restarts at 0. The clock, pause, interval and editor are untouched. |
| `Page.OnTick` | script.js:250-258 | A tick that fires resets the editor to the placeholder and stops the interval, with `currTime` only advanced by the tick. Any other tick leaves the editor alone. |
| `Page.OnSubmit` | script.js:129-137 | The page's suite runs on the editor's text. A full pass stops the clock, anything else pauses it, and a name that is not one of the table's own keys changes nothing. This holds for submissions that leave the page's state alone (see "Left out"). |
| `Page.RunTestRejectsExactlyWithoutBudget` | script.js:39-65 | With suites registered for exactly the problems of `PROBLEM_MAP`, a test run rejects exactly for the names `TIME_MAP` has no budget for. |
| `Page.PageStepPreservesInv` | script.js:85-137 | Every listener keeps the timer invariant and a selection inside the editor's text. |
| `Page.PageReplay` | script.js:85-137 | Any sequence of listener calls keeps the page invariant and the problem name. |
| `Page.ReachableFromLoad` | script.js:70-76 | The freshly loaded page satisfies the invariant, and so does every page reached from it. |
| `Page.PageTicksFollowTimer` | script.js:111-124 | Page ticks are timer ticks, and the editor is untouched until the tick that fires. |
| `Page.IdlePageResetsAtBudget` | script.js:111-124 | With a finite budget, after a keyup the editor survives budget/100 − 1 silent ticks. The next tick resets it. |
| `Page.SumPageCountdown` | script.js:42 | On the `sum` page, a key press and release starts a 5 s countdown. 49 silent ticks keep the editor and the 50th resets it. |
| `Page.HardestNeverResets` | script.js:62 | On the `hardest` page, the idle countdown never resets the editor. |
| `Page.HardestSubmissionStops` | script.js:789-791 | Submitting on the `hardest` page always passes and stops the clock. |

## Left out

- DOM output: the result lines, labels, `alert` and `console.log` (script.js:1-8, 168-189, 245, 263). They are output with no decision in them. The record of an assertion is modelled; its HTML line is not.
- `new Function` compilation (script.js:197-206). JavaScript parsing and evaluation in the page's scope are foreign, so compilation is an abstract compiler returning `None` or a callable.
- The callable: a submission is an abstract function from arguments to a returned value or a thrown one. Changes it makes to its arguments are not modelled. They cannot affect the decision, because the argument text is rendered before the call.
- Isolation of the submission. The model assumes a submission never reads or writes page state and that its result depends only on its arguments. In the source, `new Function` (script.js:199) builds it in the page's global scope. Its body can assign `currTime`, `keypressTime`, `pauseKeypress` or `globalTimer` (script.js:70-76), call `onTypeFail` or `clearInterval`, set the editor's text, and keep state between calls. For example, a `sum` body `globalTimer = null; return a + b;` passes, leaves its interval live after the completion's `clearInterval(globalTimer)`, and lets the next keydown start a second one. `Timer.AtMostOneInterval` and `Page.OnSubmit` hold only for isolated submissions.
- The promise race and `setTimeout` (script.js:217-231). This is concurrency, so only the settled outcome is modelled.
- The `toFixed(1)` seconds labels (script.js:66-67, 113, 120, 253-254). This is floating-point display; times stay integer milliseconds.
- `startTime` and `endTime` (script.js:73-74, 130). They are written but never read.
- The answer tables of the other sixteen suites. They are fixed data; only `sum` and `hardest` are written out.
- JavaScript number semantics: NaN, −0, non-integral numbers, and the exponent form of `"" + n` for very large numbers. Numbers are mathematical integers.
- Keys other than Tab: the browser's own text editing is not modelled, so only the Tab edit changes the editor.
- Where the caret lands after `onTypeFail` writes the placeholder. The browser decides this; the model puts it at the end.
- A value's `toString` throwing, cyclic arrays and sparse arrays. Values are finite trees.
- The heap: references are plain numbers, and heap coherence is a predicate that lemmas assume where they need it.
- `Suites.RunTest` models `PROBLEM_MAP` as a map of its own keys only (and `Page.BudgetFor` does the same for `TIME_MAP`, where an inherited name such as `valueOf` gives a function rather than `undefined`; it never fires either way). `PROBLEM_MAP[name]` also finds methods inherited from `Object.prototype`, such as `valueOf` or `hasOwnProperty`; those names resolve instead of rejecting, and they are not modelled.
- `Page.OnSubmit` inherits the same restriction: for a page named after an `Object.prototype` method, the source can stop or pause the clock, where the model changes nothing.
- Submissions that never return. Every modelled callable returns or throws. In the source, a submission that loops forever blocks the page inside the promise executor (script.js:226-228), so the race never settles and no tick or key event runs again.
- UTF-16 strings. JavaScript strings are UTF-16 code units: `length`, indexing (script.js:290-302) and `selectionStart`/`selectionEnd` (script.js:95-104) count code units. The model's strings are sequences of Unicode scalar values. For text outside the Basic Multilingual Plane, the lengths in `Formatter.QuotedLength` and `TextEditor.InsertTab` and the selection offsets count differently, and lone surrogates cannot be represented.
