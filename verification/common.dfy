/** What several parts of the operator share. */
module Common {
  datatype Option<T> = None | Some(value: T)

  /** Nanoseconds in a second. */
  const SECOND: int := 1_000_000_000

  /** A custom resource is identified by its namespace and its name in it. */
  datatype Instance = Instance(namespace: string, name: string)
}
