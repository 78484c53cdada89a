/** How the modelled functions answer their callers. */
module Results {
  datatype Option<T> = None | Some(value: T)

  // panic() halts the machine: nothing is said about the state behind it.
  datatype Outcome<T> = Done(value: T) | Panic(message: string)
}
