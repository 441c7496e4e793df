/** Listing 3: `Delay`, a future that is ready once the clock reaches its
    deadline, and the background thread its pending polls start. */
module DelayFuture {
  import opened Task
  import opened Timing

  /** The output of a finished `Delay`. */
  const Done: string := "done"

  /** `struct Delay { when: Instant }`. */
  datatype Delay = Delay(when: Instant)

  /** The thread a pending poll spawns: it owns a clone of the poll's waker
      and a copy of the deadline, sleeps until the deadline and then wakes. */
  datatype Waiter = Waiter(waker: Waker, when: Instant)

  /** What one poll of a `Delay` answers, and the thread it spawned, if any. */
  datatype DelayPoll = DelayPoll(poll: Poll<string>, spawned: Option<Waiter>)

  /** `<Delay as Future>::poll`, given the reading `now` of `Instant::now()`.
      The delay itself is not changed: it is passed by value. */
  function PollDelay(d: Delay, now: Instant, waker: Waker): (r: DelayPoll)
    ensures r.poll.Ready? <==> d.when <= now
    ensures r.poll.Ready? ==> r.poll.value == Done && r.spawned == None
    ensures r.poll.Pending? ==> r.spawned == Some(Waiter(waker, d.when))
  {
    if now >= d.when then
      DelayPoll(Ready(Done), None)
    else
      DelayPoll(Pending, Some(Waiter(waker, d.when)))
  }

  /** How long the waiter sleeps after reading `now` on its own thread: the
      shortest pause after which the deadline has come (none if it already has). */
  function SleepFor(w: Waiter, now: Instant): (pause: Duration)
    ensures w.when <= now + pause
    ensures pause == 0 || now + pause == w.when
  {
    if now < w.when then w.when - now else 0
  }

  /** A delay that was ready stays ready at every later reading and whatever
      the waker. */
  lemma StaysReady(d: Delay, now: Instant, later: Instant, waker: Waker, waker': Waker)
    requires PollDelay(d, now, waker).poll.Ready?
    requires now <= later
    ensures PollDelay(d, later, waker') == DelayPoll(Ready(Done), None)
  {
  }

  /** The wake is never early: a poll at any reading no earlier than the
      moment the waiter of a pending poll wakes finds the delay ready. */
  lemma WakeIsNotEarly(d: Delay, now: Instant, waker: Waker, threadNow: Instant, later: Instant, waker': Waker)
    requires PollDelay(d, now, waker).poll.Pending?
    requires threadNow + SleepFor(PollDelay(d, now, waker).spawned.value, threadNow) <= later
    ensures PollDelay(d, later, waker') == DelayPoll(Ready(Done), None)
  {
  }
}
