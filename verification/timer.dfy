/**
  The typing-timeout timer: the page's global clock and idle countdown.

  State is `currTime` (milliseconds since the clock first started), `keypressTime` (the
  `currTime` of the last keyup), `pauseKeypress`, whether `globalTimer` holds an interval, and how
  many 100 ms intervals are actually live. Events are keydown (which starts the interval if none is
  held), keyup, the interval's tick, and the settled outcome of a test run.
*/
module Timer {
  import opened Values
  import opened Suites

  const TickMillis: int := 100

  /** An idle budget from the `TIME_MAP` table: a number of milliseconds, `Infinity`, or
      `undefined` for a page whose problem name the table lacks. */
  datatype Budget = Millis(ms: int) | Infinity | Missing

  /** The budgets the table holds: positive whole multiples of the tick, or unbounded. */
  predicate ValidBudget(b: Budget) {
    b.Millis? ==> b.ms > 0 && b.ms % TickMillis == 0
  }

  datatype TimerState = TimerState(
    currTime: int,
    keypressTime: int,
    paused: bool,   // `pauseKeypress`
    handle: bool,   // `globalTimer` is not null
    live: nat)      // intervals currently scheduled

  /** The state when the page loads. */
  const Start: TimerState := TimerState(0, 0, false, false, 0)

  /** Milliseconds since the last keyup, as the countdown sees them. */
  function Idle(t: TimerState): int {
    t.currTime - t.keypressTime
  }

  /** The tick's test `currTime - keypressTime === TYPING_TIMEOUT_MILLIS`: an exact hit on a
      finite budget; a number is never `===` to `Infinity` or to `undefined`. */
  predicate Expired(b: Budget, idle: int) {
    b.Millis? && idle == b.ms
  }

  /** keyup: the idle countdown restarts from the current time. */
  function KeyUp(t: TimerState): (t': TimerState)
    ensures Idle(t') == 0
    ensures t'.currTime == t.currTime && t'.paused == t.paused
    ensures t'.handle == t.handle && t'.live == t.live
  {
    t.(keypressTime := t.currTime)
  }

  /** keydown: clears the pause and starts an interval only when `globalTimer` holds none. */
  function KeyDown(t: TimerState): (t': TimerState)
    ensures !t'.paused && t'.handle
    ensures t'.live == if t.handle then t.live else t.live + 1
    ensures t'.currTime == t.currTime && t'.keypressTime == t.keypressTime
  {
    if t.handle then t.(paused := false)
    else t.(paused := false, handle := true, live := t.live + 1)
  }

  /** `clearInterval(globalTimer); globalTimer = null`: cancels the held interval, if any, and
      leaves both clocks as they are. */
  function Stop(t: TimerState): (t': TimerState)
    ensures !t'.handle
    ensures t'.live == if t.handle && t.live > 0 then t.live - 1 else t.live
    ensures t'.currTime == t.currTime && t'.keypressTime == t.keypressTime && t'.paused == t.paused
  {
    if t.handle then t.(handle := false, live := if t.live > 0 then t.live - 1 else 0)
    else t
  }

  /** Whether the next tick of a live interval ends in `onTypeFail`. */
  predicate TickFires(t: TimerState, b: Budget) {
    t.live > 0 && Expired(b, if t.paused then 0 else Idle(t) + TickMillis)
  }

  /** One 100 ms tick: the clock advances; while paused the keypress time follows it; on an exact
      hit of the budget `onTypeFail` stops the interval. With no live interval nothing ticks. */
  function Tick(t: TimerState, b: Budget): (t': TimerState)
    ensures t.live == 0 ==> t' == t
    ensures t.live > 0 ==> t'.currTime == t.currTime + TickMillis && t'.paused == t.paused
    ensures t.live > 0 && t.paused ==> Idle(t') == 0
    ensures t.live > 0 && !t.paused ==> t'.keypressTime == t.keypressTime
    ensures t.live > 0 && !TickFires(t, b) ==> t'.handle == t.handle && t'.live == t.live
    ensures TickFires(t, b) ==> !t'.handle
  {
    if t.live == 0 then t
    else
      var c := t.currTime + TickMillis;
      var t1 := t.(currTime := c, keypressTime := if t.paused then c else t.keypressTime);
      if Expired(b, Idle(t1)) then Stop(t1) else t1
  }

  /** `n` consecutive ticks. */
  function Ticks(t: TimerState, b: Budget, n: nat): TimerState {
    if n == 0 then t else Tick(Ticks(t, b, n - 1), b)
  }

  /** The completion handler of a test run: a list whose entries are all true stops the interval;
      any other list, or `null`, pauses the countdown; a rejected race changes nothing. */
  function Complete(t: TimerState, s: Settlement): (t': TimerState)
    ensures s.Rejected? ==> t' == t
    ensures s.Resolved? && s.response.Some? && (forall i :: 0 <= i < |s.response.value| ==> s.response.value[i]) ==>
      t' == Stop(t)
    ensures s.Resolved? && (s.response.None? || exists i :: 0 <= i < |s.response.value| && !s.response.value[i]) ==>
      t' == t.(paused := true)
  {
    match s
    case Rejected(_) => t
    case Resolved(response) => if AllPassed(response) then Stop(t) else t.(paused := true)
  }

  datatype Event = KeyDownEvent | KeyUpEvent | TickEvent | Completed(s: Settlement)

  function Step(t: TimerState, b: Budget, e: Event): TimerState {
    match e
    case KeyDownEvent => KeyDown(t)
    case KeyUpEvent => KeyUp(t)
    case TickEvent => Tick(t, b)
    case Completed(s) => Complete(t, s)
  }

  function Replay(t: TimerState, b: Budget, events: seq<Event>): TimerState {
    if |events| == 0 then t else Step(Replay(t, b, events[..|events| - 1]), b, events[|events| - 1])
  }

  /** What holds in every reachable state: the clocks are whole ticks, the last keyup is not in
      the future, and exactly the held interval is live. */
  predicate Inv(t: TimerState) {
    && 0 <= t.keypressTime <= t.currTime
    && t.currTime % TickMillis == 0
    && t.keypressTime % TickMillis == 0
    && t.live == if t.handle then 1 else 0
  }

  lemma StepPreservesInv(t: TimerState, b: Budget, e: Event)
    requires Inv(t)
    ensures Inv(Step(t, b, e))
  {
  }

  /** From page load, whatever events arrive, at most one interval is ever live, and the idle
      time is a non-negative whole number of ticks. */
  lemma {:induction false} AtMostOneInterval(b: Budget, events: seq<Event>)
    ensures Inv(Replay(Start, b, events))
    ensures Replay(Start, b, events).live <= 1
    ensures Idle(Replay(Start, b, events)) >= 0 && Idle(Replay(Start, b, events)) % TickMillis == 0
  {
    if |events| > 0 {
      AtMostOneInterval(b, events[..|events| - 1]);
      StepPreservesInv(Replay(Start, b, events[..|events| - 1]), b, events[|events| - 1]);
    }
  }

  /** Unpaused, the countdown only grows by 100 per tick, and nothing fires while it stays below
      the budget. */
  lemma {:induction false} NoFireBeforeBudget(t: TimerState, b: Budget, n: nat)
    requires b.Millis? && t.live > 0 && !t.paused
    requires Idle(t) + TickMillis * n < b.ms
    ensures var u := Ticks(t, b, n);
      && u.live == t.live && u.handle == t.handle && !u.paused
      && u.currTime == t.currTime + TickMillis * n
      && u.keypressTime == t.keypressTime
  {
    if n > 0 {
      NoFireBeforeBudget(t, b, n - 1);
    }
  }

  /** After a keyup with no pause and no further keys, a finite budget fires after exactly
      budget / 100 ticks: never earlier, and `onTypeFail` leaves both clocks standing. */
  lemma FiresExactlyAtBudget(t: TimerState, b: Budget)
    requires ValidBudget(b) && b.Millis?
    requires t.live > 0 && t.handle && !t.paused && Idle(t) == 0
    ensures forall k :: 0 <= k < b.ms / TickMillis ==> Ticks(t, b, k).handle && Ticks(t, b, k).live == t.live
    ensures var u := Ticks(t, b, b.ms / TickMillis);
      && !u.handle && u.live == t.live - 1
      && u.currTime == t.currTime + b.ms && u.keypressTime == t.keypressTime
  {
    var n := b.ms / TickMillis;
    forall k | 0 <= k < n
      ensures Ticks(t, b, k).handle && Ticks(t, b, k).live == t.live
    {
      NoFireBeforeBudget(t, b, k);
    }
    NoFireBeforeBudget(t, b, n - 1);
    var u := Ticks(t, b, n - 1);
    assert TickFires(u, b);
  }

  /** The hit must be exact: once the countdown has reached the budget without firing -- as after
      a restart by keydown with no keyup since `onTypeFail` -- ticks never fire again until a keyup. */
  lemma {:induction false} NeverFiresPastBudget(t: TimerState, b: Budget, n: nat)
    requires b.Millis? && t.live > 0 && !t.paused
    requires Idle(t) >= b.ms
    ensures Ticks(t, b, n).live == t.live && Ticks(t, b, n).handle == t.handle && !Ticks(t, b, n).paused
    ensures Ticks(t, b, n).keypressTime == t.keypressTime
    ensures Ticks(t, b, n).currTime == t.currTime + TickMillis * n
  {
    if n > 0 {
      NeverFiresPastBudget(t, b, n - 1);
    }
  }

  /** The countdown can overshoot: when a tick has fired `onTypeFail` (which leaves both clocks
      standing), a key pressed again and one tick before its release leave the idle time one tick
      past the budget, with the interval live and no pause -- and from there, by
      `NeverFiresPastBudget`, it does not fire again until a keyup. */
  lemma IdleCanPassBudget(t: TimerState, b: Budget)
    requires Inv(t) && TickFires(t, b) && !t.paused
    ensures var u := Tick(KeyDown(Tick(t, b)), b);
      && Idle(u) == b.ms + TickMillis && Idle(u) > b.ms
      && u.handle && u.live == 1 && !u.paused && Inv(u)
  {
  }

  /** With any finite budget, from any reachable state just after a keyup with the interval running
      (as keydown then keyup from page load leave it): budget / 100 silent ticks (the last fires
      `onTypeFail`), keydown again and one tick before its keyup leave the idle time a tick past
      the budget, with the interval live and unpaused. */
  lemma IdlePassesBudgetAfterKeyUp(t: TimerState, b: Budget)
    requires ValidBudget(b) && b.Millis?
    requires Inv(t) && t.handle && !t.paused && Idle(t) == 0
    ensures var u := Tick(KeyDown(Ticks(t, b, b.ms / TickMillis)), b);
      Idle(u) == b.ms + TickMillis && u.handle && u.live == 1 && !u.paused
  {
    var n := b.ms / TickMillis;
    NoFireBeforeBudget(t, b, n - 1);
    var v := Ticks(t, b, n - 1);
    assert Inv(v) && TickFires(v, b);
    IdleCanPassBudget(v, b);
  }

  /** An unbounded (or missing) budget never fires, however long the silence. */
  lemma {:induction false} UnboundedNeverFires(t: TimerState, b: Budget, n: nat)
    requires !b.Millis? && t.live > 0
    ensures Ticks(t, b, n).live == t.live && Ticks(t, b, n).handle == t.handle
    ensures Ticks(t, b, n).currTime == t.currTime + TickMillis * n
  {
    if n > 0 {
      UnboundedNeverFires(t, b, n - 1);
    }
  }

  /** While paused the countdown is held at zero, so a valid budget never fires. */
  lemma {:induction false} PausedNeverFires(t: TimerState, b: Budget, n: nat)
    requires ValidBudget(b) && t.live > 0 && t.paused
    ensures Ticks(t, b, n).live == t.live && Ticks(t, b, n).paused
    ensures n > 0 ==> Idle(Ticks(t, b, n)) == 0
  {
    if n > 0 {
      PausedNeverFires(t, b, n - 1);
    }
  }

  /** A run that does not pass (a `false` entry or `null`) freezes the countdown until the next
      keydown, so no amount of reading time triggers `onTypeFail`. */
  lemma FailedRunFreezesCountdown(t: TimerState, b: Budget, response: Option<seq<bool>>, n: nat)
    requires ValidBudget(b) && t.live > 0 && !AllPassed(response)
    ensures Ticks(Complete(t, Resolved(response)), b, n).live == t.live
  {
    PausedNeverFires(Complete(t, Resolved(response)), b, n);
  }

  /** A run that passes leaves no interval live, so the clocks stand still from then on. */
  lemma PassedRunStopsClock(t: TimerState, b: Budget, response: Option<seq<bool>>, n: nat)
    requires Inv(t) && AllPassed(response)
    ensures Ticks(Complete(t, Resolved(response)), b, n) == Complete(t, Resolved(response))
    ensures Complete(t, Resolved(response)).currTime == t.currTime
  {
    var u := Complete(t, Resolved(response));
    assert u.live == 0;
    TicksWithoutInterval(u, b, n);
  }

  lemma {:induction false} TicksWithoutInterval(t: TimerState, b: Budget, n: nat)
    requires t.live == 0
    ensures Ticks(t, b, n) == t
  {
    if n > 0 {
      TicksWithoutInterval(t, b, n - 1);
    }
  }
}
