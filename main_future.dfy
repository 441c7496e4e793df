/** Listings 5 and 6: `MainFuture`, the state machine that `Delay { when }.await`
    is lowered into, and its `poll`. */
module Lowered {
  import opened Task
  import opened Timing
  import opened DelayFuture

  /** How long after its first poll the future waits: `Duration::from_millis(10)`. */
  const Timeout: Duration := FromMillis(10)

  /** `enum MainFuture`: never polled; waiting on a `Delay`; completed. */
  datatype State = State0 | State1(delay: Delay) | Terminated

  /** How many states are still ahead; every transition lowers it. */
  function Rank(s: State): nat
  {
    match s
    case State0 => 2
    case State1(_) => 1
    case Terminated => 0
  }

  /** The delay that a poll starting in `s` waits on: a new one due `Timeout`
      after the clock's reading at `tick`, or the one already held. */
  function Awaited(s: State, reading: nat -> Instant, tick: nat): Delay
    requires s != Terminated
  {
    if s.State0? then Delay(reading(tick) + Timeout) else s.delay
  }

  /** The effect of one call of `poll`: the state written back, the answer,
      the waiter thread started, and how many rounds the loop ran (one clock
      reading per round). */
  datatype Step = Step(state: State, poll: Poll<()>, spawned: Option<Waiter>, rounds: nat)

  /** One call of `MainFuture::poll` from state `s`, the clock giving
      `reading(tick)`, `reading(tick + 1)`, ... to its calls of `Instant::now()`.
      The loop runs once per state it passes through: twice from `State0`,
      which falls through to polling its fresh `Delay` in the same call, once
      from `State1`. It answers `Ready` exactly when the last reading is at or
      past the awaited deadline, and then only after writing `Terminated`;
      otherwise it keeps the same `Delay` and hands on its waiter. */
  function Resume(s: State, reading: nat -> Instant, tick: nat, waker: Waker): (o: Step)
    requires s != Terminated
    ensures 1 <= o.rounds <= 2 && (o.rounds == 2 <==> s == State0)
    ensures o.poll.Ready? <==> Awaited(s, reading, tick).when <= reading(tick + o.rounds - 1)
    ensures o.poll.Ready? ==> o.state == Terminated && o.spawned == None
    ensures o.poll.Pending? ==> o.state == State1(Awaited(s, reading, tick))
    ensures o.poll.Pending? ==> o.spawned == Some(Waiter(waker, Awaited(s, reading, tick).when))
    decreases Rank(s)
  {
    match s
    case State0 =>
      var next := Resume(State1(Delay(reading(tick) + Timeout)), reading, tick + 1, waker);
      next.(rounds := next.rounds + 1)
    case State1(d) =>
      var p := PollDelay(d, reading(tick), waker);
      match p.poll
      case Ready(out) =>
        assert out == Done;
        Step(Terminated, Ready(()), None, 1)
      case Pending =>
        Step(State1(d), Pending, p.spawned, 1)
  }

  /** Transitions only go forward: a poll either moves to a later state or,
      answering `Pending`, stays where it is; it never returns to `State0`. */
  lemma OnlyForward(s: State, reading: nat -> Instant, tick: nat, waker: Waker)
    requires s != Terminated
    ensures var o := Resume(s, reading, tick, waker);
      o.state != State0 &&
      (Rank(o.state) < Rank(s) || (o.state == s && o.poll.Pending?))
  {
  }

  /** Under a clock that never goes back, once some reading has reached the
      deadline of the held `Delay`, the next poll from `State1` finishes. */
  lemma ReadyOnceDeadlineReached(s: State, reading: nat -> Instant, k: nat, tick: nat, waker: Waker)
    requires Monotone(reading)
    requires s.State1? && s.delay.when <= reading(k) && k <= tick
    ensures Resume(s, reading, tick, waker) == Step(Terminated, Ready(()), None, 1)
  {
    MonotoneAt(reading, k, tick);
  }

  /** `MainFuture` as the object that `poll` overwrites in place through
      `Pin<&mut Self>`. */
  class MainFuture {
    var state: State

    /** A fresh future, never polled. */
    constructor ()
      ensures state == State0
    {
      state := State0;
    }

    /** `<MainFuture as Future>::poll`. Polling a terminated future panics in
        the source, so callers must not do it. */
    method Poll(clock: Clock, waker: Waker) returns (r: Task.Poll<()>, spawned: Option<Waiter>)
      requires state != Terminated
      modifies this, clock
      ensures var o := Resume(old(state), clock.reading, old(clock.ticks), waker);
        state == o.state && r == o.poll && spawned == o.spawned &&
        clock.ticks == old(clock.ticks) + o.rounds
    {
      ghost var start, tick0 := state, clock.ticks;
      while true
        invariant (state == start && clock.ticks == tick0) ||
                  (start == State0 && state == State1(Awaited(start, clock.reading, tick0)) &&
                   clock.ticks == tick0 + 1)
        decreases Rank(state)
      {
        match state
        case State0 =>
          var now := clock.Now();
          var future := Delay(now + Timeout);
          state := State1(future);
        case State1(myFuture) =>
          var now := clock.Now();
          var p := PollDelay(myFuture, now, waker);
          match p.poll
          case Ready(out) =>
            assert out == Done;
            state := Terminated;
            return Ready(()), None;
          case Pending =>
            return Pending, p.spawned;
      }
    }
  }
}
