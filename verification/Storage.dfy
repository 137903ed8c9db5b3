/** PostgreSQL's `feature_flags` table, Redis, and the clock Redis expires by. */
module Storage {
  import opened Prelude
  import opened FeatureFlags
  import opened Program
  import Decimal
  import FlagJson
  import RedisKey

  /** `SET key value EX ttl` replaces value and expiry together. */
  datatype Entry = Entry(text: string, expiresAt: nat)

  datatype Stores = Stores(now: nat, rows: map<Pair, Row>, entries: map<string, Entry>) {

    predicate Live(key: string) {
      key in entries && now < entries[key].expiresAt
    }

    function GetString(key: string): Option<string> {
      if Live(key) then Some(entries[key].text) else None
    }

    function SetString(key: string, text: string, ttl: nat): Stores {
      this.(entries := entries[key := Entry(text, now + ttl)])
    }

    /** The key constraint: an insert needs the pair to be free; an update finds
        its row, since rows are never deleted. */
    predicate CommitAccepted(pair: Pair, rowFound: bool) {
      rowFound <==> pair in rows
    }

    function Commit(pair: Pair, row: Row): Stores {
      this.(rows := rows[pair := row])
    }
  }

  /** `CACHE_TTL_SECONDS` has `ge=1`. */
  type Ttl = n: nat | n >= 1 witness 300

  const CACHE_KEY_PREFIX := "feature_flag"

  /** `_cache_key`. */
  function CacheKey(pair: Pair): string {
    RedisKey.Key(CACHE_KEY_PREFIX, [pair.tenant, pair.name])
  }

  /** The text of a cache key. */
  lemma CacheKeyText(pair: Pair)
    ensures CacheKey(pair) ==
            "feature_flag" +
            (":" + (Decimal.Print(|pair.tenant|) + (":" + pair.tenant))) +
            (":" + (Decimal.Print(|pair.name|) + (":" + pair.name)))
  {
    RedisKey.KeyByParts(CACHE_KEY_PREFIX, [], pair.tenant);
    RedisKey.KeyByParts(CACHE_KEY_PREFIX, [pair.tenant], pair.name);
    assert [] + [pair.tenant] == [pair.tenant] && [pair.tenant] + [pair.name] == [pair.tenant, pair.name];
  }

  lemma CacheKeyInjective(p: Pair, q: Pair)
    ensures CacheKey(p) == CacheKey(q) <==> p == q
  {
    if CacheKey(p) == CacheKey(q) {
      var ps, qs := [p.tenant, p.name], [q.tenant, q.name];
      RedisKey.Injective(CACHE_KEY_PREFIX, ps, qs);
      assert ps[0] == qs[0] && ps[1] == qs[1];
    }
  }

  function CacheText(flag: Flag): string {
    FlagJson.Encode(flag)
  }

  function CachedReply(text: Option<string>): Reply<Flag> {
    match text
    case None => Absent
    case Some(t) =>
      match FlagJson.Decode(t)
      case Some(flag) => Present(flag)
      case None => Invalid
  }

  function FlagReply(name: string, row: Row): Reply<Flag> {
    match RowToFlag(name, row)
    case Some(flag) => Present(flag)
    case None => Invalid
  }

  function RowReply(st: Stores, pair: Pair): Reply<Flag> {
    if pair in st.rows then FlagReply(pair.name, st.rows[pair]) else Absent
  }

  /** The stores and the call after one stretch of a call. */
  datatype Progress = Progress(stores: Stores, pc: Pc<Flag>)

  /** The awaited operation succeeds and the call runs to its next await. */
  function Resumed(ttl: Ttl, st: Stores, pair: Pair, op: Op, pc: Pc<Flag>): Progress
    requires !pc.Done?
  {
    match pc
    case AtRedisGet => Progress(st, AfterRedisGet(CachedReply(st.GetString(CacheKey(pair)))))
    case AtRowRead => Progress(st, AfterRowRead(op, RowReply(st, pair)))
    case AtCommit(rowFound, row) =>
      if st.CommitAccepted(pair, rowFound) then
        Progress(st.Commit(pair, row), AfterCommit(FlagReply(pair.name, row)))
      else
        Progress(st, AfterFailure(op, false))
    case AtRedisSet(flag) =>
      Progress(st.SetString(CacheKey(pair), CacheText(flag), ttl), AfterRedisSet(op, flag))
  }

  /** The awaited operation raises, its effect on the store having taken place
      (`applied`) or not. */
  function Interrupted(ttl: Ttl, st: Stores, pair: Pair, op: Op, pc: Pc<Flag>, applied: bool): Progress
    requires !pc.Done?
  {
    match pc
    case AtCommit(rowFound, row) =>
      var written := applied && st.CommitAccepted(pair, rowFound);
      Progress(if written then st.Commit(pair, row) else st, AfterFailure(op, written))
    case AtRedisSet(flag) =>
      Progress(if applied then st.SetString(CacheKey(pair), CacheText(flag), ttl) else st, AfterFailure(op, true))
    case _ => Progress(st, AfterFailure(op, false))
  }
}
