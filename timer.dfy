/**
 * The countdown `sendQuestion` starts: an interval that fires once a second,
 * remembers the question index it was armed for and its own `timeLeft`, and
 * clears itself once the session has moved on or the time is out. Here the
 * interval is a value and each firing an explicit `Tick`.
 */
module Timer {
  import opened Messages

  /** The countdown starts at 30 seconds. */
  const TimerSeconds: int := 30

  datatype TimerState = TimerState(armedIndex: nat, timeLeft: int, cleared: bool)

  /** A timer as `sendQuestion(index)` arms it. */
  function Armed(index: nat): TimerState {
    TimerState(index, TimerSeconds, false)
  }

  /** The staleness guard: the session is still waiting for answers to this timer's question and time is left. */
  predicate Live(t: TimerState, status: Status, index: nat) {
    !t.cleared && status == WaitingAnswer && index == t.armedIndex && t.timeLeft > 0
  }

  /**
   * One firing of the interval against the session's `status` and
   * `currentQuestionIndex`: a stale or exhausted timer clears itself and emits
   * nothing; a live one broadcasts its `timeLeft`, counts down, and broadcasts
   * time-up when it reaches zero.
   */
  function Tick(t: TimerState, status: Status, index: nat): (r: (TimerState, seq<ServerEvent>))
    ensures r.0.armedIndex == t.armedIndex
    ensures r.1 != [] <==> Live(t, status, index)
    ensures !Live(t, status, index) ==> r.0 == t.(cleared := true)
    ensures Live(t, status, index) ==> r.0 == t.(timeLeft := t.timeLeft - 1) && r.1[0] == TimerUpdate(t.timeLeft)
    ensures Live(t, status, index) ==> (TimeUp in r.1 <==> t.timeLeft == 1)
  {
    if t.cleared then
      (t, [])
    else if status != WaitingAnswer || index != t.armedIndex || t.timeLeft <= 0 then
      (t.(cleared := true), [])
    else
      var left := t.timeLeft - 1;
      (t.(timeLeft := left), [TimerUpdate(t.timeLeft)] + (if left <= 0 then [TimeUp] else []))
  }

  /** `n` firings while the session stays in `status` at `index`. */
  function Run(t: TimerState, n: nat, status: Status, index: nat): (r: (TimerState, seq<ServerEvent>))
    decreases n
  {
    if n == 0 then (t, [])
    else
      var (t1, e1) := Tick(t, status, index);
      var (t2, e2) := Run(t1, n - 1, status, index);
      (t2, e1 + e2)
  }

  /** `TimerUpdate(from)`, `TimerUpdate(from - 1)`, ..., `k` events in all. */
  function Countdown(from: int, k: nat): (es: seq<ServerEvent>)
    ensures |es| == k
    ensures forall i :: 0 <= i < k ==> es[i] == TimerUpdate(from - i)
    decreases k
  {
    if k == 0 then [] else [TimerUpdate(from)] + Countdown(from - 1, k - 1)
  }

  function Min(a: int, b: int): int {
    if a <= b then a else b
  }

  /**
   * A live timer with `m` seconds left, fired `n` times while the session stays on
   * its question, emits `m, m - 1, ...` one per firing and, after the update for
   * 1, time-up exactly once; further firings emit nothing.
   */
  lemma {:induction false} RunLive(t: TimerState, n: nat, index: nat)
    requires !t.cleared && t.armedIndex == index && t.timeLeft >= 1
    ensures Run(t, n, WaitingAnswer, index).1
         == Countdown(t.timeLeft, Min(n, t.timeLeft)) + (if n >= t.timeLeft then [TimeUp] else [])
    decreases n
  {
    if n > 0 {
      var (t1, e1) := Tick(t, WaitingAnswer, index);
      if t.timeLeft == 1 {
        RunSilent(t1, n - 1, WaitingAnswer, index);
        assert Countdown(t.timeLeft, 1) == [TimerUpdate(1)];
      } else {
        RunLive(t1, n - 1, index);
        assert e1 == [TimerUpdate(t.timeLeft)];
        assert Countdown(t.timeLeft, Min(n, t.timeLeft))
            == [TimerUpdate(t.timeLeft)] + Countdown(t.timeLeft - 1, Min(n - 1, t.timeLeft - 1));
      }
    }
  }

  /** A cleared or exhausted timer stays silent for ever. */
  lemma {:induction false} RunSilent(t: TimerState, n: nat, status: Status, index: nat)
    requires t.cleared || t.timeLeft <= 0
    ensures Run(t, n, status, index).1 == []
    decreases n
  {
    if n > 0 {
      var (t1, e1) := Tick(t, status, index);
      RunSilent(t1, n - 1, status, index);
    }
  }

  /**
   * The full countdown of a freshly armed timer: 30, 29, ..., 1 and then time-up
   * once, if the session stays on the question for 30 firings.
   */
  lemma FreshTimerCountdown(index: nat, n: nat)
    ensures Run(Armed(index), n, WaitingAnswer, index).1
         == Countdown(TimerSeconds, Min(n, TimerSeconds)) + (if n >= TimerSeconds then [TimeUp] else [])
  {
    RunLive(Armed(index), n, index);
  }

  /**
   * The staleness guard looks only at the status and the index: a timer fired
   * while the session is elsewhere clears itself and never emits again, but one
   * that is not fired in that window keeps going as soon as the session is back in
   * waiting_answer at its index.
   */
  lemma StaleTimerGuard(t: TimerState, status: Status, index: nat, n: nat)
    requires status != WaitingAnswer || index != t.armedIndex
    ensures Tick(t, status, index).1 == []
    ensures Run(Tick(t, status, index).0, n, WaitingAnswer, t.armedIndex).1 == []
  {
    RunSilent(Tick(t, status, index).0, n, WaitingAnswer, t.armedIndex);
  }
}
