/** The record the scheduler keeps for every admitted unit of work. */
module Pojo {
  import opened Handle

  datatype Option<T> = None | Some(value: T)

  /** Identifiers handed out at admission (a counter stands in for random UUIDs). */
  type Id = nat

  /** Timestamps are opaque clock readings supplied by the caller. */
  type Time = nat

  /** The two status strings the scheduler writes: "ALREADY" and "RUNNING". */
  datatype Status = Already | Running

  /** Default priority used when a caller does not give one. */
  const DefaultRank: int := 5

  /** One admitted unit of work. A larger `rank` means a higher priority.
      `thread` is null only in the defensive copies handed out to callers. */
  datatype ThreadInfo = ThreadInfo(
    thread: Thread?,
    uuid: Id,
    name: string,
    description: string,
    status: Status,
    appendTime: Time,
    startTime: Option<Time>,
    rank: int)
  {
    /** A copy of every field except the thread handle. */
    function Copy(): (c: ThreadInfo)
      ensures c.thread == null
    {
      ThreadInfo(null, uuid, name, description, status, appendTime, startTime, rank)
    }
  }

  /** A copy differs from the original in the handle only: every other field is kept. */
  lemma CopyForgetsOnlyHandle(x: ThreadInfo)
    ensures x.Copy() == x.(thread := null)
    ensures x.thread == null ==> x.Copy() == x
  {
  }

  /** Copying twice is the same as copying once. */
  lemma CopyIdempotent(x: ThreadInfo)
    ensures x.Copy().Copy() == x.Copy()
  {
  }

  /** Two records have equal copies exactly when they agree on everything but the handle. */
  lemma CopyInjectiveOffHandle(x: ThreadInfo, y: ThreadInfo)
    ensures x.Copy() == y.Copy() <==> x.(thread := null) == y.(thread := null)
  {
  }
}
