/** `FeatureFlagService` over its clients, one call at a time: the imperative code,
    proved to take the same path through the stores as the call that the
    interleaving model runs alone, with every awaited operation free to raise. */
module FeatureFlagService {
  import opened Prelude
  import opened FeatureFlags
  import opened Program
  import opened Storage
  import opened SoloCalls
  import opened SerialRefinement
  import ColumnWrites
  import FlagJson
  import RedisKey

  /** What an awaited operation gives. What raises in a service call is raised by it. */
  datatype Awaited<+T> = Got(value: T) | Raised {
    predicate IsFailure() {
      Raised?
    }

    function PropagateFailure(): Result
      requires Raised?
    {
      OtherError
    }

    function Extract(): T
      requires Got?
    {
      value
    }
  }

  /** Redis as its client sees it. `now` is the clock that it expires keys by. */
  class RedisClient {
    var entries: map<string, Entry>
    var now: nat

    constructor ()
      ensures entries == map[] && now == 0
    {
      entries, now := map[], 0;
    }

    /** Nothing for a key that is absent or past its expiry. */
    method GetString(key: string, await: Await) returns (r: Awaited<Option<string>>)
      ensures r.Raised? <==> await.Raises?
      ensures r.Got? ==> (r.value.Some? <==> key in entries && now < entries[key].expiresAt)
      ensures r.Got? && r.value.Some? ==> r.value.value == entries[key].text
    {
      if await.Raises? {
        return Raised;
      }
      if key in entries && now < entries[key].expiresAt {
        return Got(Some(entries[key].text));
      }
      return Got(None);
    }

    /** Replaces value and expiry of the key, and touches no other key. A command
        that raises has been applied or not. */
    method SetString(key: string, value: string, ttlSeconds: Ttl, await: Await) returns (r: Awaited<()>)
      modifies this
      ensures r.Raised? <==> await.Raises?
      ensures entries == if await == Raises(false) then old(entries) else old(entries)[key := Entry(value, now + ttlSeconds)]
      ensures now == old(now)
    {
      if await != Raises(false) {
        entries := entries[key := Entry(value, now + ttlSeconds)];
      }
      return if await.Succeeds? then Got(()) else Raised;
    }
  }

  /** The `feature_flags` table, keyed by the composite primary key. */
  class PostgresClient {
    var rows: map<Pair, Row>

    constructor ()
      ensures rows == map[]
    {
      rows := map[];
    }
  }

  /** A mapped instance, mutable until its session commits. */
  class FeatureFlagRow {
    const pair: Pair
    var value: bool
    var updatedAt: Timestamp
    var updatedBy: NonEmpty

    constructor (pair: Pair, value: bool, updatedAt: Timestamp, updatedBy: NonEmpty)
      ensures this.pair == pair && Columns() == Row(value, updatedAt, updatedBy)
    {
      this.pair, this.value, this.updatedAt, this.updatedBy := pair, value, updatedAt, updatedBy;
    }

    function Columns(): Row
      reads this
    {
      Row(value, updatedAt, updatedBy)
    }
  }

  /** A session with the one instance that a service call tracks in it, and the
      columns as they were loaded, unless the instance is new. */
  class Session {
    const postgres: PostgresClient
    var tracked: FeatureFlagRow?
    var loaded: Option<Row>

    constructor (postgres: PostgresClient)
      ensures this.postgres == postgres && tracked == null && loaded == None
    {
      this.postgres, tracked, loaded := postgres, null, None;
    }

    /** An insert of a stored pair, or an update of a missing one, is refused. */
    predicate Accepted(rows: map<Pair, Row>)
      reads this
    {
      tracked == null || (loaded.None? <==> tracked.pair !in rows)
    }

    /** The row after the commit: a new row, or the changed columns of a loaded one
        over what is stored. */
    function Flushed(rows: map<Pair, Row>): Row
      requires tracked != null
      reads this, tracked
    {
      if loaded.Some? && tracked.pair in rows then
        ColumnWrites.Merge(rows[tracked.pair], loaded.value, tracked.Columns())
      else tracked.Columns()
    }

    /** Loads the row into a fresh instance and tracks it. */
    method Get(pair: Pair, await: Await) returns (r: Awaited<FeatureFlagRow?>)
      modifies this
      ensures r.Raised? <==> await.Raises?
      ensures r.Got? ==> (r.value == null <==> pair !in postgres.rows)
      ensures r.Got? && r.value != null ==>
                fresh(r.value) && r.value.pair == pair && r.value.Columns() == postgres.rows[pair]
      ensures r.Got? ==> tracked == r.value && loaded == if r.value == null then None else Some(postgres.rows[pair])
    {
      if await.Raises? {
        return Raised;
      }
      tracked, loaded := null, None;
      if pair in postgres.rows {
        var stored := postgres.rows[pair];
        tracked := new FeatureFlagRow(pair, stored.value, stored.updatedAt, stored.updatedBy);
        loaded := Some(stored);
      }
      return Got(tracked);
    }

    method Add(row: FeatureFlagRow)
      modifies this
      ensures tracked == row && loaded == None
    {
      tracked, loaded := row, None;
    }

    /** Sends the tracked instance as it is now. A commit that is refused, or that
        raises unapplied, writes nothing. */
    method Commit(await: Await) returns (r: Awaited<()>)
      modifies postgres
      ensures r.Got? <==> await.Succeeds? && (tracked == null || (loaded.None? <==> tracked.pair !in old(postgres.rows)))
      ensures tracked == null || await == Raises(false) || (loaded.None? <==> tracked.pair in old(postgres.rows)) ==>
                postgres.rows == old(postgres.rows)
      ensures tracked != null && await != Raises(false) && (loaded.None? <==> tracked.pair !in old(postgres.rows)) ==>
                && tracked.pair in postgres.rows
                && postgres.rows == old(postgres.rows)[tracked.pair := postgres.rows[tracked.pair]]
                && (loaded.None? ==> postgres.rows[tracked.pair] == tracked.Columns())
                && (loaded.Some? ==>
                      ColumnWrites.OnlyChanged(old(postgres.rows)[tracked.pair], loaded.value, tracked.Columns(),
                                               postgres.rows[tracked.pair]))
    {
      if await == Raises(false) || !Accepted(postgres.rows) {
        return Raised;
      }
      if tracked != null {
        postgres.rows := postgres.rows[tracked.pair := Flushed(postgres.rows)];
      }
      return if await.Succeeds? then Got(()) else Raised;
    }
  }

  class FeatureFlagMetrics {
    var readsTotal: nat
    var writesTotal: nat

    constructor ()
      ensures readsTotal == 0 && writesTotal == 0
    {
      readsTotal, writesTotal := 0, 0;
    }
  }

  /** The model's call ended with these stores and this result. */
  predicate EndsAs(end: Progress, st: Stores, r: Result) {
    end.pc.Done? && st == end.stores && r == ResultOf(end.pc.outcome)
  }

  lemma GetFinds(ttl: Ttl, st: Stores, p: Pair, awaits: Awaits)
    requires awaits.redisGet.Raises? || st.GetString(CacheKey(p)).Some?
    ensures var cached := CachedReply(st.GetString(CacheKey(p)));
            EndsAs(CallAlone(ttl, st, p, Get, awaits), st,
                   if awaits.redisGet.Succeeds? && cached.Present? then Returned(cached.value) else OtherError)
  {
    GetPath(ttl, st, p, awaits);
  }

  lemma GetLoadsNothing(ttl: Ttl, st: Stores, p: Pair, awaits: Awaits)
    requires awaits.redisGet.Succeeds? && st.GetString(CacheKey(p)).None?
    requires awaits.rowRead.Raises? || !RowReply(st, p).Present?
    ensures EndsAs(CallAlone(ttl, st, p, Get, awaits), st,
                   if awaits.rowRead.Succeeds? && RowReply(st, p).Absent? then MissingFlag else OtherError)
  {
    GetPath(ttl, st, p, awaits);
  }

  lemma GetCaches(ttl: Ttl, st: Stores, p: Pair, awaits: Awaits, flag: Flag)
    requires awaits.redisGet.Succeeds? && st.GetString(CacheKey(p)).None?
    requires awaits.rowRead.Succeeds? && RowReply(st, p) == Present(flag)
    ensures EndsAs(CallAlone(ttl, st, p, Get, awaits),
                   if awaits.redisSet == Raises(false) then st else st.SetString(CacheKey(p), CacheText(flag), ttl),
                   if awaits.redisSet.Raises? then OtherError else Returned(flag))
  {
    GetPath(ttl, st, p, awaits);
  }

  /** What becomes of the Redis GET and the row read decides the end of a get. */
  lemma GetEnds(ttl: Ttl, st: Stores, p: Pair, awaits: Awaits)
    ensures var end := CallAlone(ttl, st, p, Get, awaits);
            if awaits.redisGet.Raises? then EndsAs(end, st, OtherError)
            else if st.GetString(CacheKey(p)).Some? then
              var cached := CachedReply(st.GetString(CacheKey(p)));
              EndsAs(end, st, if cached.Present? then Returned(cached.value) else OtherError)
            else if awaits.rowRead.Raises? || !RowReply(st, p).Present? then
              EndsAs(end, st, if awaits.rowRead.Succeeds? && RowReply(st, p).Absent? then MissingFlag else OtherError)
            else
              var flag := RowReply(st, p).value;
              EndsAs(end,
                     if awaits.redisSet == Raises(false) then st else st.SetString(CacheKey(p), CacheText(flag), ttl),
                     if awaits.redisSet.Raises? then OtherError else Returned(flag))
  {
    if awaits.redisGet.Raises? || st.GetString(CacheKey(p)).Some? {
      GetFinds(ttl, st, p, awaits);
    } else if awaits.rowRead.Raises? || !RowReply(st, p).Present? {
      GetLoadsNothing(ttl, st, p, awaits);
    } else {
      GetCaches(ttl, st, p, awaits, RowReply(st, p).value);
    }
  }

  lemma SetRaises(ttl: Ttl, st: Stores, p: Pair, op: Op, awaits: Awaits)
    requires op.Set? && (awaits.rowRead.Raises? || awaits.commit.Raises?)
    ensures var unwritten := awaits.rowRead.Raises? || awaits.commit == Raises(false);
            EndsAs(CallAlone(ttl, st, p, op, awaits), if unwritten then st else st.Commit(p, RowOf(op)), OtherError)
  {
    SetPath(ttl, st, p, op, awaits);
    CommitPath(ttl, st, p, op, awaits);
  }

  lemma SetWithoutName(ttl: Ttl, st: Stores, p: Pair, op: Op, awaits: Awaits)
    requires op.Set? && awaits.rowRead.Succeeds? && awaits.commit.Succeeds? && p.name == ""
    ensures EndsAs(CallAlone(ttl, st, p, op, awaits), st.Commit(p, RowOf(op)), OtherError)
  {
    SetPath(ttl, st, p, op, awaits);
    CommitPath(ttl, st, p, op, awaits);
  }

  lemma SetCaches(ttl: Ttl, st: Stores, p: Pair, op: Op, awaits: Awaits, flag: Flag)
    requires op.Set? && awaits.rowRead.Succeeds? && awaits.commit.Succeeds?
    requires RowToFlag(p.name, RowOf(op)) == Some(flag)
    ensures var written := st.Commit(p, RowOf(op));
            EndsAs(CallAlone(ttl, st, p, op, awaits),
                   if awaits.redisSet == Raises(false) then written
                   else written.SetString(CacheKey(p), CacheText(flag), ttl),
                   if awaits.redisSet.Raises? then OtherError else Returned(flag))
  {
    SetPath(ttl, st, p, op, awaits);
    CommitPath(ttl, st, p, op, awaits);
  }

  class FeatureFlagService {
    const postgres: PostgresClient
    const redis: RedisClient
    const metrics: FeatureFlagMetrics
    const cacheTtlSeconds: Ttl

    constructor (postgres: PostgresClient, redis: RedisClient, metrics: FeatureFlagMetrics, cacheTtlSeconds: Ttl)
      ensures this.postgres == postgres && this.redis == redis && this.metrics == metrics
      ensures this.cacheTtlSeconds == cacheTtlSeconds
    {
      this.postgres, this.redis, this.metrics := postgres, redis, metrics;
      this.cacheTtlSeconds := cacheTtlSeconds;
    }

    /** Both stores and the clock, as the interleaving model has them. */
    function Stored(): Stores
      reads postgres, redis
    {
      Stores(redis.now, postgres.rows, redis.entries)
    }

    static method CacheKeyOf(tenantId: string, name: string) returns (key: string)
      ensures key == CacheKey(Pair(tenantId, name))
    {
      key := RedisKey.CreateRedisKey(CACHE_KEY_PREFIX, [tenantId, name]);
    }

    method WriteCache(cacheKey: string, flag: Flag, await: Await) returns (r: Awaited<()>)
      modifies redis
      ensures r.Raised? <==> await.Raises?
      ensures Stored() == if await == Raises(false) then old(Stored())
                          else old(Stored()).SetString(cacheKey, CacheText(flag), cacheTtlSeconds)
    {
      var text := CacheText(flag);
      r := redis.SetString(cacheKey, text, cacheTtlSeconds, await);
    }

    /** Returns or raises, and leaves both stores, as a get running alone whose
        awaits go as given; if none raises, a coherent cache stays coherent and gives
        the answer of the plain map. Counted once, whatever the outcome. */
    method GetFlag(name: string, tenantId: string, awaits: Awaits) returns (r: Result)
      modifies redis, metrics
      ensures EndsAs(CallAlone(cacheTtlSeconds, old(Stored()), Pair(tenantId, name), Get, awaits), Stored(), r)
      ensures awaits == CALM && Coherent(old(Stored())) ==>
                Coherent(Stored()) && r == PlainGet(postgres.rows, Pair(tenantId, name))
      ensures awaits == CALM && Coherent(old(Stored())) && Pair(tenantId, name) !in postgres.rows ==> r == MissingFlag
      ensures awaits == CALM && Coherent(old(Stored())) && Pair(tenantId, name) in postgres.rows && name != "" ==>
                var row := postgres.rows[Pair(tenantId, name)];
                r == Returned(Flag(name, row.value, row.updatedAt, row.updatedBy))
      ensures metrics.readsTotal == old(metrics.readsTotal) + 1 && metrics.writesTotal == old(metrics.writesTotal)
    {
      ghost var st := Stored();
      var pair := Pair(tenantId, name);
      GetEnds(cacheTtlSeconds, st, pair, awaits);
      GetAnswers(cacheTtlSeconds, st, pair, awaits);
      var cacheKey := CacheKeyOf(tenantId, name);
      metrics.readsTotal := metrics.readsTotal + 1;
      var cached :- redis.GetString(cacheKey, awaits.redisGet);
      assert cached == st.GetString(CacheKey(pair));
      if cached.Some? {
        var flag := FlagJson.Decode(cached.value);
        return if flag.Some? then Returned(flag.value) else OtherError;
      }
      var session := new Session(postgres);
      var row :- session.Get(pair, awaits.rowRead);
      if row == null {
        return MissingFlag;
      }
      var flag := RowToFlag(row.pair.name, row.Columns());
      if flag.None? {
        return OtherError;
      }
      var _ :- WriteCache(cacheKey, flag.value, awaits.redisSet);
      return Returned(flag.value);
    }

    /** The session block of a set. A missing row is added, a present one mutated in
        place; with no other call in between, the commit is accepted either way and
        the row is stored as a whole, unless an await raises with no effect. */
    method UpsertRow(pair: Pair, enabled: bool, userId: NonEmpty, now: Timestamp, awaits: Awaits) returns (r: Awaited<()>)
      modifies postgres
      ensures r.Raised? <==> awaits.rowRead.Raises? || awaits.commit.Raises?
      ensures Stored() == if awaits.rowRead.Raises? || awaits.commit == Raises(false) then old(Stored())
                          else old(Stored()).Commit(pair, Row(enabled, now, userId))
    {
      var session := new Session(postgres);
      var loaded := session.Get(pair, awaits.rowRead);
      if loaded.Raised? {
        return Raised;
      }
      var row := loaded.value;
      if row == null {
        var newRow := new FeatureFlagRow(pair, enabled, now, userId);
        session.Add(newRow);
      } else {
        row.value := enabled;
        row.updatedAt := now;
        row.updatedBy := userId;
      }
      r := session.Commit(awaits.commit);
    }

    /** The same for a set. If it returns, its row stands in the table and it is
        counted; a flag that does not validate raises after its commit, and so does
        a SET that raises. */
    method SetFlag(name: string, enabled: bool, tenantId: string, userId: NonEmpty, now: Timestamp, awaits: Awaits)
        returns (r: Result)
      modifies postgres, redis, metrics
      ensures EndsAs(CallAlone(cacheTtlSeconds, old(Stored()), Pair(tenantId, name), Set(enabled, userId, now), awaits),
                     Stored(), r)
      ensures postgres.rows == if awaits.rowRead.Raises? || awaits.commit == Raises(false) then old(postgres.rows)
                               else old(postgres.rows)[Pair(tenantId, name) := Row(enabled, now, userId)]
      ensures r.Returned? || awaits == CALM ==> r == PlainGet(postgres.rows, Pair(tenantId, name))
      ensures r.Returned? ==> name != "" && r == Returned(Flag(name, enabled, now, userId))
      ensures awaits == CALM && name != "" ==> r.Returned?
      ensures awaits == CALM && Coherent(old(Stored())) ==> Coherent(Stored())
      ensures metrics.writesTotal == old(metrics.writesTotal) + if r.Returned? then 1 else 0
      ensures metrics.readsTotal == old(metrics.readsTotal)
    {
      ghost var st, op := Stored(), Set(enabled, userId, now);
      var pair := Pair(tenantId, name);
      if awaits.rowRead.Raises? || awaits.commit.Raises? {
        SetRaises(cacheTtlSeconds, st, pair, op, awaits);
      } else if name == "" {
        SetWithoutName(cacheTtlSeconds, st, pair, op, awaits);
      } else {
        SetCaches(cacheTtlSeconds, st, pair, op, awaits, Flag(name, enabled, now, userId));
      }
      SetAnswers(cacheTtlSeconds, st, pair, op, awaits);
      var _ :- UpsertRow(pair, enabled, userId, now, awaits);
      if name == "" {
        return OtherError;
      }
      var flag := Flag(name, enabled, now, userId);
      var cacheKey := CacheKeyOf(tenantId, name);
      var _ :- WriteCache(cacheKey, flag, awaits.redisSet);
      metrics.writesTotal := metrics.writesTotal + 1;
      return Returned(flag);
    }
  }
}
