/** The pieces of Rust's `std::task` that the futures of this model use. */
module Task {

  /** The answer of one poll: finished with a value, or not yet. */
  datatype Poll<T> = Ready(value: T) | Pending

  datatype Option<T> = None | Some(value: T)

  /** The waker handed to a poll through its context, reduced to the identity
      of the task that `wake()` asks the executor to poll again. */
  datatype Waker = Waker(task: nat)
}
