/** Listing 4: driving `MainFuture` to completion, as the Tokio runtime behind
    `#[tokio::main]` does for `Delay { when }.await`. */
module Runtime {
  import opened Task
  import opened Timing
  import opened DelayFuture
  import opened Lowered

  /** The outcome of driving a future: its last state, its output if it
      finished, how many polls it took and the waiter threads they started. */
  datatype Run = Run(state: State, output: Option<()>, polls: nat, spawned: seq<Waiter>)

  /** The awaited `Delay` polled at the successive readings `reading(tick)`,
      `reading(tick + 1)`, ... until it is ready or `fuel` more polls are
      spent. Every pending poll starts exactly one waiter, for the deadline
      and bound to the driver's waker. Every poll but the last read a time
      before the deadline, and the run finished exactly when the last one
      read a time at or past it: it never finishes early. */
  function WaitOn(d: Delay, reading: nat -> Instant, tick: nat, waker: Waker, fuel: nat): (r: Run)
    ensures 1 <= r.polls <= fuel + 1
    ensures r.output.Some? <==> r.state == Terminated
    ensures r.output.None? ==> r.state == State1(d) && r.polls == fuel + 1
    ensures |r.spawned| == (if r.output.Some? then r.polls - 1 else r.polls)
    ensures forall w :: w in r.spawned ==> w == Waiter(waker, d.when)
    ensures forall j :: tick <= j < tick + r.polls - 1 ==> reading(j) < d.when
    ensures r.output.Some? <==> d.when <= reading(tick + r.polls - 1)
    decreases fuel
  {
    var p := PollDelay(d, reading(tick), waker);
    if p.poll.Ready? then
      Run(Terminated, Some(()), 1, [])
    else if fuel == 0 then
      Run(State1(d), None, 1, [p.spawned.value])
    else
      var rest := WaitOn(d, reading, tick + 1, waker, fuel - 1);
      rest.(polls := rest.polls + 1, spawned := [p.spawned.value] + rest.spawned)
  }

  /** The reading at which a poll from `s` first polls its awaited delay: one
      later for a fresh future, whose first reading sets the deadline. */
  function DelayTick(s: State, tick: nat): nat
  {
    if s.State0? then tick + 1 else tick
  }

  /** A driver that polls the future again straight after every `Pending`, at
      the next clock readings, at most `fuel` times more: the awaited delay
      polled from the reading it first sees on (`DriveRepolls` shows this is
      re-polling `MainFuture`). */
  function Drive(s: State, reading: nat -> Instant, tick: nat, waker: Waker, fuel: nat): (r: Run)
    requires s != Terminated
  {
    WaitOn(Awaited(s, reading, tick), reading, DelayTick(s, tick), waker, fuel)
  }

  /** Driving is re-polling `MainFuture`: each step is one `Resume` from the
      current state at the next unread reading; `Ready` ends the run, and
      every `Pending` adds its waiter and one poll to the rest of the run. */
  lemma DriveRepolls(s: State, reading: nat -> Instant, tick: nat, waker: Waker, fuel: nat)
    requires s != Terminated
    ensures var o := Resume(s, reading, tick, waker);
      Drive(s, reading, tick, waker, fuel) ==
      if o.poll.Ready? then Run(Terminated, Some(()), 1, [])
      else if fuel == 0 then Run(o.state, None, 1, [o.spawned.value])
      else
        var rest := Drive(o.state, reading, tick + o.rounds, waker, fuel - 1);
        rest.(polls := rest.polls + 1, spawned := [o.spawned.value] + rest.spawned)
  {
    var o := Resume(s, reading, tick, waker);
    var d := Awaited(s, reading, tick);
    assert o.poll.Ready? <==> PollDelay(d, reading(DelayTick(s, tick)), waker).poll.Ready?;
    assert o.poll.Pending? ==> o.state == State1(d) && tick + o.rounds == DelayTick(s, tick) + 1;
  }

  /** Under a clock that never goes back, a driver that polls a waiting delay
      often enough to reach a reading `k` at or past its deadline finishes. */
  lemma WaitOnCompletes(d: Delay, reading: nat -> Instant, tick: nat, waker: Waker, fuel: nat, k: nat)
    requires Monotone(reading)
    requires d.when <= reading(k) && k <= tick + fuel
    ensures WaitOn(d, reading, tick, waker, fuel).output.Some?
  {
    if k < tick {
      MonotoneAt(reading, k, tick);
    }
  }

  /** Under a clock that never goes back, a driver with enough polls left to
      reach a reading at or past the deadline ends in `Terminated` with
      output `()`. */
  lemma DriveCompletes(s: State, reading: nat -> Instant, tick: nat, waker: Waker, fuel: nat, k: nat)
    requires Monotone(reading)
    requires s != Terminated
    requires Awaited(s, reading, tick).when <= reading(k) && k <= tick + fuel
    ensures Drive(s, reading, tick, waker, fuel).state == Terminated
    ensures Drive(s, reading, tick, waker, fuel).output == Some(())
  {
    WaitOnCompletes(Awaited(s, reading, tick), reading, DelayTick(s, tick), waker, fuel, k);
    var out := Drive(s, reading, tick, waker, fuel).output;
    assert out.value == ();
  }

  /** Driving a fresh future never finishes before `Timeout` has passed since
      its first reading: every later reading its polls took but the last was
      short of that, and it finished exactly when the last one was not. */
  lemma DriveFreshNotEarly(reading: nat -> Instant, tick: nat, waker: Waker, fuel: nat)
    ensures var r := Drive(State0, reading, tick, waker, fuel);
      (forall j :: tick < j < tick + r.polls ==> reading(j) < reading(tick) + Timeout) &&
      (r.output.Some? <==> reading(tick) + Timeout <= reading(tick + r.polls))
  {
  }

  /** The body of the thread a pending `Delay` poll spawns: read the clock
      once, sleep only if that reading is short of the deadline, then wake
      the task. When it wakes, the clock has reached the deadline. */
  method RunWaiter(w: Waiter, clock: Clock)
    requires Monotone(clock.reading) && Unbounded(clock.reading)
    modifies clock
    ensures old(clock.ticks) < clock.ticks
    ensures w.when <= clock.reading(clock.ticks)
    ensures w.when <= clock.reading(old(clock.ticks)) ==> clock.ticks == old(clock.ticks) + 1
    ensures forall j: nat :: old(clock.ticks) + 1 <= j < clock.ticks ==> clock.reading(j) < w.when
  {
    var now := clock.Now();
    var pause := SleepFor(w, now);
    if pause > 0 {
      clock.SleepUntil(now + pause);
    } else {
      MonotoneAt(clock.reading, clock.ticks - 1, clock.ticks);
    }
    // `waker.wake()`: the runtime will poll the task again.
  }

  /** The runtime's `block_on` for a fresh `MainFuture`: poll; on `Pending`,
      let the waiter thread of the Delay run (one reading of the clock, the
      sleep, `wake()`), then poll again. Because the wake never comes before
      the deadline, the future completes on the poll after the first wake, and
      never earlier than `Timeout` after the first reading. */
  method BlockOn(f: MainFuture, clock: Clock, waker: Waker) returns (polls: nat)
    requires f.state == State0
    requires Monotone(clock.reading) && Unbounded(clock.reading)
    modifies f, clock
    ensures f.state == Terminated
    ensures 1 <= polls <= 2
    ensures old(clock.ticks) < clock.ticks
    ensures clock.reading(old(clock.ticks)) + Timeout <= clock.reading(clock.ticks - 1)
    ensures polls == 2 <==> clock.reading(old(clock.ticks) + 1) < clock.reading(old(clock.ticks)) + Timeout
  {
    ghost var tick0 := clock.ticks;
    ghost var deadline := clock.reading(tick0) + Timeout;
    polls := 0;
    while true
      invariant polls <= 1 && tick0 <= clock.ticks
      invariant polls == 0 ==> f.state == State0 && clock.ticks == tick0
      invariant polls == 1 ==>
        f.state == State1(Delay(deadline)) && deadline <= clock.reading(clock.ticks) &&
        clock.reading(tick0 + 1) < deadline
      decreases 2 - polls
    {
      ghost var before, t := f.state, clock.ticks;
      assert Awaited(before, clock.reading, t) == Delay(deadline);
      if polls == 1 {
        ReadyOnceDeadlineReached(before, clock.reading, t, t, waker);
      }
      var r, spawned := f.Poll(clock, waker);
      polls := polls + 1;
      if r.Ready? {
        return;
      }
      assert spawned == Some(Waiter(waker, deadline));
      assert f.state == State1(Delay(deadline)) && clock.reading(tick0 + 1) < deadline;
      RunWaiter(spawned.value, clock);
    }
  }
}
