/** `get_flag` and `set_flag` as resumable calls: where a call waits, and how it
    goes on with what the awaited store operation gave it. Between two awaits a
    call runs alone on its event loop, so these are its atomic stretches.
    `F` is whatever stands for the flag a call carries along. */
module Program {
  import opened Prelude
  import opened FeatureFlags

  /** A call of `get_flag`, or of `set_flag` with the time it took at its start. */
  datatype Op = Get | Set(enabled: bool, user: NonEmpty, stamp: Timestamp)

  /** What a store read gives. `Invalid` is content that fails the validation of
      `FeatureFlag`. */
  datatype Reply<+F> = Absent | Present(value: F) | Invalid

  /** How a call ends. The two failures are exceptions other than
      `FeatureFlagNotFoundError`, told apart by whether the row was committed. */
  datatype Outcome<+F> =
    | Hit(found: F) | Loaded(found: F) | NotFound | Written(found: F) | Failed | FailedAfterCommit

  /** The await at which a call is suspended. At its commit, the session holds the
      pending row and whether it is an update of a row that was read. */
  datatype Pc<+F> =
    | AtRedisGet | AtRowRead | AtCommit(rowFound: bool, row: Row) | AtRedisSet(flag: F) | Done(outcome: Outcome<F>)

  /** `begun` and `since` only observe the clock: when the call started, and when
      it reached its present await. */
  datatype Call<+F> = Call(op: Op, begun: nat, since: nat, pc: Pc<F>)

  /** The row that a set asks for. */
  function RowOf(op: Op): Row
    requires op.Set?
  {
    Row(op.enabled, op.stamp, op.user)
  }

  function FirstAwait<F>(op: Op): Pc<F> {
    if op.Get? then AtRedisGet else AtRowRead
  }

  function AfterRedisGet<F>(cached: Reply<F>): Pc<F> {
    match cached
    case Absent => AtRowRead
    case Present(flag) => Done(Hit(flag))
    case Invalid => Done(Failed)
  }

  function AfterRowRead<F>(op: Op, row: Reply<F>): Pc<F> {
    match op
    case Set(_, _, _) => AtCommit(!row.Absent?, RowOf(op))
    case Get =>
      match row
      case Absent => Done(NotFound)
      case Present(flag) => AtRedisSet(flag)
      case Invalid => Done(Failed)
  }

  /** `set_flag` builds its flag after the commit. */
  function AfterCommit<F>(written: Reply<F>): Pc<F> {
    if written.Present? then AtRedisSet(written.value) else Done(FailedAfterCommit)
  }

  function AfterRedisSet<F>(op: Op, flag: F): Pc<F> {
    Done(if op.Get? then Loaded(flag) else Written(flag))
  }

  /** The awaited operation raised; nothing in a call catches that. */
  function AfterFailure<F>(op: Op, committed: bool): Pc<F> {
    Done(if op.Set? && committed then FailedAfterCommit else Failed)
  }
}
