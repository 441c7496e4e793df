# A hand-lowered Rust future, modelled in Dafny

The repository is the code of a magazine article on asynchronous programming in
Rust. Its one piece of real logic is a timer future and the state machine that
the compiler builds for `await`:

- `Delay` (Listing 3) is ready with the output `"done"` once `Instant::now()`
  has reached its deadline `when`. Until then each poll answers `Pending` and
  spawns a thread. That thread reads the clock again, sleeps until the deadline
  if it has not come yet, and then calls `wake()` on a clone of the poll's waker.
- `MainFuture` (Listings 5 and 6) is `Delay { when }.await` lowered into three
  states: `State0` (never polled), `State1(Delay)` (waiting) and `Terminated`.
  Its `poll` loops over its own state. From `State0` it builds a `Delay` due
  10 ms after now, stores it and falls straight through to polling it. From
  `State1` it polls the `Delay`. If that is ready it checks the payload, stores
  `Terminated` and answers `Ready(())`; otherwise it answers `Pending`. A poll in
  `Terminated` panics.
- Listing 4 awaits the `Delay` under the Tokio runtime, which polls the task
  again each time it is woken.

The model has five modules:

- `Task` (task.dfy): `Poll`, `Option` and an abstract `Waker`.
- `Timing` (timing.dfy): instants and durations as integers of nanoseconds, and
  a `Clock` class. `Clock.reading(i)` is what the i-th observation of the clock
  shows, so each `Instant::now()` is one `Now()` call that consumes one reading.
  `thread::sleep` is `SleepUntil`: the clock moves on until it shows the target.
- `DelayFuture` (delay.dfy): `Delay`, the spawned thread as a `Waiter` value,
  and `PollDelay`, a pure function of the delay, the clock reading and the waker.
- `Lowered` (main_future.dfy): the `State` datatype. `Resume` is the
  specification of one `poll`; it is recursive, with one call per loop round.
  The class `MainFuture` holds the state in a mutable field, and its `Poll`
  method runs the source's loop and is proved equal to `Resume`.
- `Runtime` (runtime.dfy): `WaitOn`, which polls a `Delay` at successive
  clock readings until it is ready, and `Drive`, a driver that polls the
  future again straight after every `Pending`. `Drive` is defined through
  `WaitOn`, and `DriveRepolls` proves that it is the same as re-polling
  `MainFuture` with `Resume`. It also holds `RunWaiter`, the body of the
  spawned thread, and `BlockOn`, the wake-driven driver of Listing 4.
  `BlockOn` polls, lets the waiter thread read the clock and sleep, and then
  polls again.

The clock and the waker are parameters: the clock is a given sequence of
readings, and the waker is the identity of the task to wake. Spawning the wake
thread becomes a returned `Waiter` value.

The contract of Rust's `Future` says a future that has answered `Ready` should
not be polled again. `MainFuture` enforces this by panicking. `Delay::poll` has
no such guard: polled again, it compares the clock once more and answers
`Ready("done")` again. The model follows the code (`StaysReady`).

## Model

| member | source | states |
|---|---|---|
| `Timing.Clock.Now` | listing01-09.rs:66 | `Instant::now()` returns the next reading of the clock and consumes exactly that one reading |
| `Timing.Clock.SleepUntil` | listing01-09.rs:75-77 | sleeping ends at the first reading at or past the target, so the next `now()` is no earlier than the target; only readings before the target are skipped |
| `DelayFuture.PollDelay` | listing01-09.rs:64-81 | a poll answers `Ready("done")` exactly when the reading is at or past `when`, and then starts no thread; otherwise it answers `Pending` and starts exactly one waiter, holding this poll's waker and the same `when` |
| `DelayFuture.SleepFor` | listing01-09.rs:73-77 | the waiter's sleep is the shortest one after which the deadline has come: `when - now` if the deadline is ahead, none otherwise, so the wake never comes before the deadline |
| `DelayFuture.StaysReady` | listing01-09.rs:66-67 | a delay that was ready at one reading is ready again, with no new thread, at every later reading and under any waker |
| `DelayFuture.WakeIsNotEarly` | listing01-09.rs:72-78 | a poll at any reading no earlier than the wake-up time of a pending poll's waiter finds the delay ready with `"done"` |
| `Lowered.Resume` | listing01-09.rs:126-150 | one `poll` runs the loop twice from `State0` (the fresh `Delay`, due 10 ms after the first reading, is polled in the same call) and once from `State1`; it answers `Ready(())` exactly when the last reading has reached the awaited deadline, and then the state is `Terminated` and no thread was started; on `Pending` the state is `State1` with the same `Delay` and one waiter for that deadline was started |
| `Lowered.OnlyForward` | listing01-09.rs:104-111 | no poll returns to `State0`; every poll either moves to a later state or answers `Pending` and keeps its state |
| `Lowered.ReadyOnceDeadlineReached` | listing01-09.rs:134-139 | under a clock that never goes back, once any earlier reading has reached the held deadline, the next poll from `State1` answers `Ready(())` and terminates |
| `Lowered.MainFuture.constructor` | listing01-09.rs:104-106 | a new future is in `State0` |
| `Lowered.MainFuture.Poll` | listing01-09.rs:121-151 | the in-place loop writes back exactly the state, answer and waiter of `Resume` and consumes as many clock readings as the loop ran rounds; it may not be called in `Terminated` |
| `Runtime.WaitOn` | listing01-09.rs:92-96 | awaiting a `Delay` polls it at successive readings; every poll but the last read a time before the deadline, and the run finished (state `Terminated`) exactly when the last reading is at or past it, so it never finishes early; a run that did not finish used all its polls and still holds the same `Delay`; each pending poll started exactly one waiter, with the driver's waker and that deadline |
| `Runtime.DriveRepolls` | listing01-09.rs:121-151 | driving the lowered future is re-polling `MainFuture`: each poll is one `Resume` from the current state at the next unread reading; `Ready` ends the run at once with no waiter; a `Pending` with no polls left ends it waiting, with that poll's waiter; any other `Pending` adds its waiter and one poll to the run continuing from the state it wrote back |
| `Runtime.WaitOnCompletes` | listing01-09.rs:66-67 | under a clock that never goes back, polling a `Delay` often enough to reach a reading at or past its deadline always finishes |
| `Runtime.DriveCompletes` | listing01-09.rs:92-96 | under a clock that never goes back, a driver with enough polls left to reach a reading at or past the deadline ends in `Terminated` with output `()` |
| `Runtime.DriveFreshNotEarly` | listing01-09.rs:128-139 | driving a fresh future finishes exactly on the first poll whose reading is at least 10 ms after its first reading; every reading before that is short of it |
| `Runtime.RunWaiter` | listing01-09.rs:72-79 | the spawned thread reads the clock once and sleeps only if that reading is short of the deadline; it skips only readings before the deadline, and when it wakes the task the clock has reached the deadline |
| `Runtime.BlockOn` | listing01-09.rs:90-97 | driving a fresh future by its wakes ends in `Terminated` after one or two polls; two exactly when the reading taken by the first poll's `Delay` is short of the deadline; and the last reading is at least 10 ms after the first |

## Left out

- Listing 1 (listing01-09.rs:5-28) is thread fan-out with `Mutex` and `Arc`, and its `Lotto` type is not part of this model.
- Listings 2 and 7 (listing01-09.rs:35-50, 159-173) are blocking and Tokio socket I/O. The request string only feeds the socket.
- Listings 8 and 9 (listing01-09.rs:180-211) are unstable `for await?` syntax and async-trait declarations that call `crabbycat::issues` and `meets_criteria`, which are not part of this model.
- The thread that `Delay::poll` spawns runs concurrently in the source. `BlockOn` runs it in one interleaving: the runtime is parked until the wake, so the thread's reading and sleep come between two polls.
- `waker.wake()` and Tokio's scheduler are not modelled beyond "the task is polled again after the wake". Coalescing of repeated wakes and stale wakers have no code in this repository.
- `Pin` and `Context` carry no behaviour here. The context becomes the `Waker` it hands out.
- `DelayFuture.PollDelay`: in the source `Delay::poll` calls `Instant::now()` itself. The model takes that reading as a parameter; `MainFuture.Poll` reads the clock and passes it on.
- `Lowered.MainFuture.Poll`: the panic "future polled after completion" (listing01-09.rs:146-147) is a precondition, not a modelled fault. `assert_eq!(out, "done")` (listing01-09.rs:137) is proved to hold.
- `Lowered.MainFuture.Poll`: instants are unbounded integers, so the panic of `Instant + Duration` on overflow (listing01-09.rs:129-130) is not modelled.
- `Runtime.BlockOn` and `Runtime.RunWaiter` require a clock that never goes back and passes every instant. `Timing.Clock.SleepUntil` requires a clock that never goes back and some reading at or past its target. Real sleeping always ends; a list of readings needs these assumptions to promise it.
- `Runtime.Drive` and `Runtime.WaitOn` poll again straight after every `Pending`, at most `fuel` more times. `BlockOn` models the wake-driven order of Listing 4.
