/** One call from its start to its end with no other call in between, each of its
    awaits succeeding or raising. */
module SoloCalls {
  import opened Prelude
  import opened FeatureFlags
  import opened Program
  import opened Storage
  import opened Interleaving

  /** An awaited operation succeeds, or it raises with its effect `applied` or not. */
  datatype Await = Succeeds | Raises(applied: bool)

  /** What becomes of each operation that a call may await. */
  datatype Awaits = Awaits(redisGet: Await, rowRead: Await, commit: Await, redisSet: Await)

  const CALM: Awaits := Awaits(Succeeds, Succeeds, Succeeds, Succeeds)

  function AwaitAt(pc: Pc<Flag>, awaits: Awaits): Await
    requires !pc.Done?
  {
    match pc
    case AtRedisGet => awaits.redisGet
    case AtRowRead => awaits.rowRead
    case AtCommit(_, _) => awaits.commit
    case AtRedisSet(_) => awaits.redisSet
  }

  function Stretch(ttl: Ttl, st: Stores, p: Pair, op: Op, pc: Pc<Flag>, awaits: Awaits): Progress
    requires !pc.Done?
  {
    match AwaitAt(pc, awaits)
    case Succeeds => Resumed(ttl, st, p, op, pc)
    case Raises(applied) => Interrupted(ttl, st, p, op, pc, applied)
  }

  function Rank(pc: Pc<Flag>): nat {
    match pc
    case AtRedisGet => 4
    case AtRowRead => 3
    case AtCommit(_, _) => 2
    case AtRedisSet(_) => 1
    case Done(_) => 0
  }

  /** A call running alone from `pc` to its end. */
  function Alone(ttl: Ttl, st: Stores, p: Pair, op: Op, pc: Pc<Flag>, awaits: Awaits): (end: Progress)
    ensures end.pc.Done?
    decreases Rank(pc)
  {
    if pc.Done? then Progress(st, pc) else
      var next := Stretch(ttl, st, p, op, pc, awaits);
      Alone(ttl, next.stores, p, op, next.pc, awaits)
  }

  function CallAlone(ttl: Ttl, st: Stores, p: Pair, op: Op, awaits: Awaits): Progress {
    Alone(ttl, st, p, op, FirstAwait(op), awaits)
  }

  lemma AloneFrom(ttl: Ttl, st: Stores, p: Pair, op: Op, pc: Pc<Flag>, awaits: Awaits, next: Progress)
    requires !pc.Done? && next == Stretch(ttl, st, p, op, pc, awaits)
    ensures Alone(ttl, st, p, op, pc, awaits) ==
            if next.pc.Done? then next else Alone(ttl, next.stores, p, op, next.pc, awaits)
  {
  }

  // ---------- the same call among the fleet's ----------

  /** The action of the fleet that takes the call one stretch further. */
  function StretchAction(id: CallId, pc: Pc<Flag>, awaits: Awaits): Action
    requires !pc.Done?
  {
    match AwaitAt(pc, awaits)
    case Succeeds => Resume(id)
    case Raises(applied) => Interrupt(id, applied)
  }

  lemma StretchIsNext(ttl: Ttl, s: Fleet, id: CallId, awaits: Awaits)
    requires InFlight(s, id)
    ensures var next := Stretch(ttl, s.stores, id.pair, s.calls[id].op, s.calls[id].pc, awaits);
            && Next(ttl, s, StretchAction(id, s.calls[id].pc, awaits)) == Moved(s, id, next)
            && Rank(next.pc) < Rank(s.calls[id].pc)
  {
  }

  /** The fleet after the actions of this one call, until it is done. */
  function Completed(ttl: Ttl, s: Fleet, id: CallId, awaits: Awaits): Fleet
    requires id in s.calls
    decreases Rank(s.calls[id].pc)
  {
    if s.calls[id].pc.Done? then s else
      StretchIsNext(ttl, s, id, awaits);
      Completed(ttl, Next(ttl, s, StretchAction(id, s.calls[id].pc, awaits)), id, awaits)
  }

  /** A fleet in which no other call takes a step does to the stores what the call
      does alone, ends it the same way, and leaves the other calls where they are. */
  lemma {:induction false} CompletedAlone(ttl: Ttl, s: Fleet, id: CallId, awaits: Awaits)
    requires id in s.calls
    ensures var s', end := Completed(ttl, s, id, awaits), Alone(ttl, s.stores, id.pair, s.calls[id].op, s.calls[id].pc, awaits);
            && s'.stores == end.stores && id in s'.calls && s'.calls[id].pc == end.pc
            && s'.calls.Keys == s.calls.Keys && forall other | other in s.calls && other != id :: s'.calls[other] == s.calls[other]
    decreases Rank(s.calls[id].pc)
  {
    if s.calls[id].pc.Done? {
    } else {
      var call := s.calls[id];
      var next := Stretch(ttl, s.stores, id.pair, call.op, call.pc, awaits);
      StretchIsNext(ttl, s, id, awaits);
      AloneFrom(ttl, s.stores, id.pair, call.op, call.pc, awaits, next);
      CompletedAlone(ttl, Moved(s, id, next), id, awaits);
    }
  }

  /** The end of a call that has its flag: the entry is written, and a raising SET
      raises out of the call. */
  function Cached(ttl: Ttl, st: Stores, p: Pair, op: Op, flag: Flag, redisSet: Await): Progress {
    var stored := st.SetString(CacheKey(p), CacheText(flag), ttl);
    match redisSet
    case Succeeds => Progress(stored, Done(if op.Get? then Loaded(flag) else Written(flag)))
    case Raises(applied) => Progress(if applied then stored else st, Done(if op.Get? then Failed else FailedAfterCommit))
  }

  lemma CachingPath(ttl: Ttl, st: Stores, p: Pair, op: Op, flag: Flag, awaits: Awaits)
    ensures Alone(ttl, st, p, op, AtRedisSet(flag), awaits) == Cached(ttl, st, p, op, flag, awaits.redisSet)
  {
    AloneFrom(ttl, st, p, op, AtRedisSet(flag), awaits, Stretch(ttl, st, p, op, AtRedisSet(flag), awaits));
  }

  /** A get running alone: a hit ends it and rewrites nothing, a missing row is
      never cached, and only a loaded flag is. */
  lemma GetPath(ttl: Ttl, st: Stores, p: Pair, awaits: Awaits)
    ensures CallAlone(ttl, st, p, Get, awaits) ==
            if awaits.redisGet.Raises? then Progress(st, Done(Failed)) else
              match CachedReply(st.GetString(CacheKey(p)))
              case Present(flag) => Progress(st, Done(Hit(flag)))
              case Invalid => Progress(st, Done(Failed))
              case Absent =>
                if awaits.rowRead.Raises? then Progress(st, Done(Failed)) else
                  match RowReply(st, p)
                  case Absent => Progress(st, Done(NotFound))
                  case Invalid => Progress(st, Done(Failed))
                  case Present(flag) => Cached(ttl, st, p, Get, flag, awaits.redisSet)
  {
    var first := Stretch(ttl, st, p, Get, AtRedisGet, awaits);
    AloneFrom(ttl, st, p, Get, AtRedisGet, awaits, first);
    if first.pc == AtRowRead {
      var second := Stretch(ttl, st, p, Get, AtRowRead, awaits);
      AloneFrom(ttl, st, p, Get, AtRowRead, awaits, second);
      if second.pc.AtRedisSet? {
        CachingPath(ttl, st, p, Get, second.pc.flag, awaits);
      }
    }
  }

  /** From its commit on: a lone set is never refused, its row is stored even if
      the commit raises after taking effect, and only then is the flag built. */
  lemma CommitPath(ttl: Ttl, st: Stores, p: Pair, op: Op, awaits: Awaits)
    requires op.Set?
    ensures var written := st.Commit(p, RowOf(op));
            Alone(ttl, st, p, op, AtCommit(p in st.rows, RowOf(op)), awaits) ==
            match awaits.commit
            case Raises(applied) =>
              if applied then Progress(written, Done(FailedAfterCommit)) else Progress(st, Done(Failed))
            case Succeeds =>
              match RowToFlag(p.name, RowOf(op))
              case None => Progress(written, Done(FailedAfterCommit))
              case Some(flag) => Cached(ttl, written, p, op, flag, awaits.redisSet)
  {
    var pc := AtCommit(p in st.rows, RowOf(op));
    var next := Stretch(ttl, st, p, op, pc, awaits);
    AloneFrom(ttl, st, p, op, pc, awaits, next);
    if next.pc.AtRedisSet? {
      CachingPath(ttl, next.stores, p, op, next.pc.flag, awaits);
    }
  }

  /** A set running alone. */
  lemma SetPath(ttl: Ttl, st: Stores, p: Pair, op: Op, awaits: Awaits)
    requires op.Set?
    ensures CallAlone(ttl, st, p, op, awaits) ==
            if awaits.rowRead.Raises? then Progress(st, Done(Failed))
            else Alone(ttl, st, p, op, AtCommit(p in st.rows, RowOf(op)), awaits)
  {
    assert RowReply(st, p).Absent? <==> p !in st.rows;
    AloneFrom(ttl, st, p, op, AtRowRead, awaits, Stretch(ttl, st, p, op, AtRowRead, awaits));
  }

  /** A flag without a name fails validation when the row is already stored. */
  lemma UnnamedSetPath(ttl: Ttl, st: Stores, p: Pair, op: Op)
    requires op.Set? && p.name == ""
    ensures CallAlone(ttl, st, p, op, CALM) == Progress(st.Commit(p, RowOf(op)), Done(FailedAfterCommit))
  {
    SetPath(ttl, st, p, op, CALM);
    CommitPath(ttl, st, p, op, CALM);
  }

  lemma NamedSetPath(ttl: Ttl, st: Stores, p: Pair, op: Op, flag: Flag)
    requires op.Set? && RowToFlag(p.name, RowOf(op)) == Some(flag)
    ensures CallAlone(ttl, st, p, op, CALM) ==
            Progress(st.Commit(p, RowOf(op)).SetString(CacheKey(p), CacheText(flag), ttl), Done(Written(flag)))
  {
    SetPath(ttl, st, p, op, CALM);
    CommitPath(ttl, st, p, op, CALM);
  }
}
