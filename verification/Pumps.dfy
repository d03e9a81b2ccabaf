/** What the stream pumps share: the staging area's size and what the worker may do between two of their callbacks. */
module Pumps {
  import opened BufferSpec
  import opened BufferProperties

  const BUF_SIZE: nat := 16 * 1024

  /** An operation of another job on the source or on the target, or the pump's next callback. */
  datatype Event = Source(op: Op) | Target(op: Op) | Work

  /** Other jobs may do anything to the target, and anything to the source but read from it. */
  predicate Allowed(e: Event) {
    match e
    case Source(op) => NonReading(op)
    case _ => true
  }

  /** The worker alone, `n` callbacks long. */
  function Works(n: nat): seq<Event> {
    if n == 0 then [] else [Work] + Works(n - 1)
  }
}
