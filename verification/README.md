# Feature-flag service: a verified model

A Dafny 4.11 model of a FastAPI service that keeps feature flags in PostgreSQL behind a
Redis TTL cache, with proofs of what its protocol, its codecs and its response wrappers
keep. `dafny verify dfyconfig.toml` checks everything.

**The cache-aside protocol.** `get_flag` and `set_flag` suspend at each await: the Redis
GET, the row read, the commit, the Redis SET. `Program` has the code between two awaits,
`Storage` the table, Redis and the clock, and `Interleaving` the machine in which any
number of calls of any processes take turns at every await, time passes, Redis evicts,
and any awaited operation raises, having taken effect or not. `Independence` proves that
what one `(tenant, name)` pair sees of such a run is a run of the small machine
`OnePair`, whose rows carry commit numbers; theorems about the whole fleet are proved
there and carried back. They are: provenance and bounded staleness (`Staleness`), a
witness that the bound is reached (`Races`), convergence, racing first writes, conserved
counters, what serial calls add under failures (`SerialRuns`), and the invisibility of
the cache for serial calls without failures (`SerialRefinement`). `SoloCalls` runs one
call from start to end, each await free to raise, and `FeatureFlagService` is the
imperative service, classes with mutable rows, sessions and clients, proved to do to the
stores what such a call does. `ColumnWrites` says when the ORM's column-wise updates are
the whole-row commits of the model, and `ColumnRace` what happens when they are not.

**The codecs.** `RedisKey` and `KeyPrefixes` (the key encoder, its decoder, and exactly
when two prefixes can share a key), `Json`, `IsoStamp` and `FlagJson` (the cached text, as
any reader of JSON takes it), `TextReading`, `Decimal`, `Hexadecimal`, `Utf8`, `PercentEncoding`, `Urls`, `PostgresUrl` and `RedisUrl` (the two connection URLs).

**The response wrappers.** `Asgi`, `CorrelationId`, `SecureHeaders` and `RequestStack`:
the generic 500 handler around the correlation-id middleware around the security-header
middleware, over every sequence of messages.

## Assumptions

- A store operation is one atomic step; a SET or a commit whose await raises took effect
  at once or never. A session that is closed without a commit writes nothing.
- In the interleaving model a commit writes the whole row. The ORM sends the changed
  columns only, so for overlapping sets of one pair `Provenance`, `BoundedStaleness` and
  the theorems that compare flags with rows need this assumption. `RunIsWhole` gives the
  exact condition under which a run with column-wise updates is a run of the model,
  `SerialRunsAreWhole` shows that runs without overlap in a pair always are, and
  `NeverStoredButCached` is a run in which a flag reaches Redis that was never stored.
- `begun` and `since` in a call only observe the clock. A call's identity names its pair.
- Characters are Unicode scalar values; lone surrogates do not occur. Timestamps are UTC
  calendar fields with microseconds.
- The raw name of an `X-Request-ID` header that an inner application sends is lower case,
  as ASGI demands: header assignment looks for that spelling. (The model's assignment
  replaces every case variant, which is then the same.) `request.state` is the scope's
  state; the 500 handler answers only if no response has started. What the
  security-header library adds to a response is part of the arbitrary inner messages.
- URLs are split as in section 3 of RFC 3986: an address literal ends behind its bracket,
  any other host at the first colon. The brackets are part of the host.
- UUIDs and the current time are parameters.

## Where the code says more or less than its documentation

- `feature_flag_metrics.py:17` says that `writes_total` counts the sets that persisted a
  flag. The code counts only those that also finished their Redis SET:
  `CountersConserved` gives the exact difference.
- `create_redis_key` is injective for one prefix. Across prefixes it is not:
  `PrefixesCanMeet` has two that meet, `PrefixesMeetWhen` says exactly which do.
- Host and database are put into the URLs as they are, and the configuration accepts any
  non-empty text. The round trips hold if and only if the host holds no delimiter or is
  an address literal in brackets, and the database holds no `?` or `#`. `HOST` as `::1`
  or `db:5433` does not come back (`ColonsNeedBrackets`); `[::1]` does.
- `set_flag` builds its flag after the commit, so an empty name raises with the row
  already stored (`UnnamedSetPath`).

## Model

| member | source | states |
|---|---|---|
| Staleness.BoundedStaleness | src/app/services/feature_flag/feature_flag_service.py:74-90 | In every interleaving in which no call of the pair takes more than `delay` from row read or commit to its SET, every flag a get returns was the table's current flag at an instant later than (start of the call - delay - TTL) |
| Races.BoundIsReached | src/app/services/feature_flag/feature_flag_service.py:76-90 | For every named pair, TTL and delay there is a run, without any failing store call, in which a slow get writes the old flag over the entry a set has refreshed: it meets the bound with one tick to spare, and leaves Redis disagreeing with the table when no call is in flight |
| Staleness.LoadedIsCurrent | src/app/services/feature_flag/feature_flag_service.py:81-90 | A flag that a get loaded was the current row at an instant at which that get was in flight, however slow any call is |
| Staleness.Provenance | src/app/services/feature_flag/feature_flag_service.py:74-90 | In every reachable state every cache entry, every flag about to be cached and every flag returned was once the current flag of exactly that tenant and name |
| Convergence.CacheConverges | src/app/services/feature_flag/feature_flag_service.py:127-153 | After the last commit to a pair, once the calls then in flight are over, TTL seconds later every live entry is the text of the current row; no assumption on how long calls take |
| Convergence.GetsConverge | src/app/services/feature_flag/feature_flag_service.py:74-90 | Every get begun TTL after those calls are over, hit or loaded, returns the current flag if it returns one |
| Convergence.HitsConverge | src/app/services/feature_flag/feature_flag_service.py:74-79 | From then on a get that finds the pair in Redis returns the current flag |
| Independence.PairsAreIndependent | src/app/services/feature_flag/feature_flag_service.py:74-138 | Any interleaved run, projected onto one pair, is a run of that pair's own machine with the same clock, row, cache entry, calls and results at every position |
| Independence.PairRunLifts | src/app/services/feature_flag/feature_flag_service.py:74-138 | Conversely, for every run of a pair's machine, on any actions, there is a fleet run that projects to those actions and shows the pair the same states |
| Independence.NonInterference | src/app/services/feature_flag/feature_flag_service.py:156-167 | Two runs that agree on the steps of one pair end with the same row, entry and call results for it, whatever the other pairs do |
| Independence.OtherPairFramed | src/app/services/feature_flag/feature_flag_service.py:140-153 | A stretch of another pair's call, successful or raising, leaves this pair's row and entry alone |
| PairInvariants.WitnessedAt | src/app/services/feature_flag/feature_flag_service.py:83-90 | Every row version that is cached, carried or returned was the current version at the time it was taken |
| FirstWrites.OneInsertPerPair | alembic/versions/04befa978a2d_create_feature_flags.py:25-33 | In every run at most one insert per pair commits |
| FirstWrites.OtherFirstWritesFail | src/app/services/feature_flag/feature_flag_service.py:111-136 | Once one call has inserted the row, each other set that had read no row fails at its commit and changes no table, cache, counter or other call |
| FirstWrites.EntryImpliesRow | src/app/services/feature_flag/feature_flag_service.py:83-89 | A missing flag is never cached: an entry, live or expired, implies a stored row |
| FirstWrites.NeverDisappears | src/app/services/feature_flag/feature_flag_service.py:76-87 | A get begun after a set of its pair has committed never ends with `FeatureFlagNotFoundError` |
| Counters.CountersConserved | src/app/metrics/feature_flag_metrics.py:16-38 | At every step `reads_total` = hits + loads + not-found + failed + in-flight gets, and commits = `writes_total` + sets between commit and SET + sets that failed after their commit |
| Counters.GetClassesMean | src/app/metrics/feature_flag_metrics.py:16-17 | What is counted as hit, load, not found, failed and in flight, as sets of calls by outcome |
| Counters.SetClassesMean | src/app/metrics/feature_flag_metrics.py:18 | The same for written sets, sets between commit and SET, and sets that failed after their commit |
| Counters.MoveClassified | src/app/services/feature_flag/feature_flag_service.py:127-138 | A stretch of a call commits exactly when it turns a set into a committed one, and bumps `writes_total` exactly when the set is done |
| SerialRuns.StaleEntryExpires | src/app/config/feature_flag_config.py:10-16 | Where a pair's calls do not overlap, with failures at every await: an entry that differs from its row is the flag that some commit overwrote, and expires at most TTL after that commit |
| SerialRuns.GetsNeverGoBack | src/app/services/feature_flag/feature_flag_service.py:76-90 | In such runs the flags returned by successive gets were current at positions that only move forward |
| SerialRefinement.CacheIsInvisible | src/app/services/feature_flag/feature_flag_service.py:53-138 | Without failures and overlap on the pair, whatever other pairs do and whenever entries expire or go: a finishing call gives what a plain map gives, and a finishing set has left its row |
| SerialRefinement.RefinesPlainMap | src/app/services/feature_flag/feature_flag_service.py:53-138 | Any script of calls, expiry and eviction has the results of the same script on a plain map from pair to row, and the same rows |
| SerialRefinement.GetAnswers | src/app/services/feature_flag/feature_flag_service.py:53-90 | A get alone, its awaits free to raise, changes no row; from a coherent cache and if nothing raises it gives the plain map's answer and keeps the cache coherent |
| SerialRefinement.SetAnswers | src/app/services/feature_flag/feature_flag_service.py:92-138 | A set alone stores its row unless the row read or the commit raises without effect; a set that returns gives the plain map's answer |
| SoloCalls.GetPath | src/app/services/feature_flag/feature_flag_service.py:74-90 | What a get alone does to both stores, whatever raises: a hit ends it, reads nothing else and rewrites nothing; only a loaded flag is cached |
| SoloCalls.CompletedAlone | src/app/services/feature_flag/feature_flag_service.py:53-138 | A call of the fleet during which no other call takes a step does to the stores what the call does alone, ends the same way, and leaves the other calls where they are |
| SoloCalls.CommitPath | src/app/services/feature_flag/feature_flag_service.py:127-138 | What a set alone does from its commit on, whatever raises: never refused, the row stored even if the commit raises after taking effect, the flag built and cached only afterwards |
| SoloCalls.NamedSetPath | src/app/services/feature_flag/feature_flag_service.py:110-138 | If nothing raises: the row is stored, the entry refreshed with a full TTL, the written flag returned |
| SoloCalls.UnnamedSetPath | src/app/services/feature_flag/feature_flag_service.py:127-134 | A set with an empty name stores its row and then raises, without touching Redis |
| ColumnWrites.RunIsWhole | src/app/services/feature_flag/feature_flag_service.py:123-127 | A run in which updates send only changed columns is a run of the whole-row model if and only if at every update the columns it leaves alone are still as its session loaded them |
| ColumnWrites.SerialRunsAreWhole | src/app/services/feature_flag/feature_flag_service.py:111-127 | Where calls of a pair do not overlap it always is, whatever raises and however different pairs interleave |
| ColumnWrites.UpdateOnlyChanges | src/app/services/feature_flag/feature_flag_service.py:123-127 | After an update each column the session changed has its new value, and every other column is as it was stored |
| ColumnRace.NeverStoredButCached | src/app/services/feature_flag/feature_flag_service.py:111-138 | For every named pair and any two overlapping sets of which one keeps the stored value (with another stamp or editor) and the other turns it: the first returns and caches a flag that no state of the table ever shows |
| SerialRefinement.CachedForTtl | src/app/clients/redis/redis_client.py:124-136 | After a set a get hits for exactly TTL seconds and does not prolong the entry; from then on it loads |
| FeatureFlagService.FeatureFlagService.GetFlag | src/app/services/feature_flag/feature_flag_service.py:53-90 | Whatever its awaits raise, returns or raises and leaves both stores as the protocol's get running alone; if nothing raises, a coherent cache gives the plain map's answer and stays coherent; counted once whatever the outcome |
| FeatureFlagService.FeatureFlagService.SetFlag | src/app/services/feature_flag/feature_flag_service.py:92-138 | The same for a set; its row stands in the table unless the row read or the commit raises without effect, a returning set gives the plain map's answer, and exactly the returning sets are counted |
| FeatureFlagService.FeatureFlagService.UpsertRow | src/app/services/feature_flag/feature_flag_service.py:111-127 | Adding a new row and mutating a loaded one both end with the whole row stored, though only the changed columns of a loaded row are sent |
| FeatureFlagService.FeatureFlagService.WriteCache | src/app/services/feature_flag/feature_flag_service.py:140-153 | The JSON of the flag lies under the key with the configured TTL, unless the SET raises without effect, and nothing else changes |
| FeatureFlagService.FeatureFlagService.CacheKeyOf | src/app/services/feature_flag/feature_flag_service.py:155-167 | The key of tenant and name under the `feature_flag` prefix |
| FeatureFlagService.Session.Commit | src/app/clients/postgres/feature_flag_table.py:28-34 | A new row is inserted, the changed columns of a loaded one are written over what is stored; an insert of a stored pair is refused, and a refused commit or one that raises without effect writes nothing |
| FeatureFlagService.RedisClient.GetString | src/app/clients/redis/redis_client.py:108-122 | The stored text, or nothing for an absent or expired key, unless the command raises |
| FeatureFlagService.RedisClient.SetString | src/app/clients/redis/redis_client.py:124-136 | Value and expiry of one key are replaced together, or not at all if the command raises without effect |
| Storage.CacheKeyInjective | src/app/services/feature_flag/feature_flag_service.py:156-167 | Two pairs share a cache key only if they are the same tenant and name |
| Storage.CacheKeyText | src/app/services/feature_flag/feature_flag_service.py:156-167 | The cache key is `feature_flag`, then tenant and name, each behind its length in decimal |
| RedisKey.CreateRedisKey | src/app/clients/redis/create_redis_key.py:4-25 | The loop and join give the prefix followed by `:len:part` for every part |
| RedisKey.KeyByParts | src/app/clients/redis/create_redis_key.py:21-25 | Each further part adds a colon, its length in decimal, a colon and the part; no parts give the prefix |
| Decimal.PrintIsDecimal | src/app/clients/redis/create_redis_key.py:23 | Numbers are printed with the ten usual digits, the last one behind the rest |
| RedisKey.UniquelyDecodable | src/app/clients/redis/create_redis_key.py:4-25 | A key decodes to a list of parts if and only if it is the key built from them, for all strings and lists |
| RedisKey.Injective | src/app/clients/redis/create_redis_key.py:21-25 | No two lists of parts, of any lengths, share a key |
| KeyPrefixes.PrefixesCanMeet | src/app/clients/redis/create_redis_key.py:15 | Two prefixes and part lists with the same key |
| KeyPrefixes.PrefixesMeetWhen | src/app/clients/redis/create_redis_key.py:15-25 | Two prefixes share some key if and only if the longer goes on from the shorter like the beginning of a part list that can be completed |
| KeyPrefixes.ColonFreePrefixesApart | src/app/clients/redis/create_redis_key.py:15-25 | Keys under colon-free prefixes are equal only if prefix and parts are |
| FlagJson.DecodeEncode | src/app/services/feature_flag/feature_flag_service.py:149-153 | The cached text of every flag decodes to that flag: name, enabled bit, timestamp and editor, with quotes, backslashes and controls |
| FlagJson.EncodedMembers | src/app/services/feature_flag/feature_flag_service.py:149-153 | Read as JSON, the cached text is an object of exactly four members: `name`, `enabled` with the literal `true` or `false` of the flag, `updated_at` and `updated_by_user_id` |
| Json.LiteralsAre | src/app/services/feature_flag/feature_flag_service.py:79 | The text `true` is read as true, `false` as false, `null` as null |
| Json.ShortEscapesAre | src/app/services/feature_flag/feature_flag_service.py:79 | The eight short escapes stand for the code points that section 7 of RFC 8259 gives them |
| Json.CodeUnitsAre | src/app/services/feature_flag/feature_flag_service.py:79 | An escape with four hexadecimal digits stands for the character of that number |
| Json.ReadWrittenObject | src/app/services/feature_flag/feature_flag_service.py:149-153 | Any object of strings and literals is read back as the members that were written, in order |
| IsoStamp.StampPositions | src/app/models/feature_flags/feature_flag.py:40-43 | Where year, month, day, hour, minute, second and microseconds stand in the timestamp text, with its separators |
| Json.ReadEscaped | src/app/services/feature_flag/feature_flag_service.py:79 | Reading a string literal gives back the escaped string and stops at its closing quote |
| PercentEncoding.UnquoteQuote | src/app/config/postgres_config.py:88-89 | Percent-decoding recovers every string, and the encoded form has only unreserved characters and `%XX` |
| PercentEncoding.QuoteByCharacter | src/app/config/postgres_config.py:88-89 | A letter, digit, hyphen, period, underscore or tilde stands as it is; any other character becomes `%` and two upper-case hexadecimal digits for each of its UTF-8 bytes |
| Utf8.EncodeCharLayout | src/app/config/postgres_config.py:88-89 | The bytes of a character have the number, marks and payloads of section 3 of RFC 3629 |
| Hexadecimal.DigitsAre | src/app/config/postgres_config.py:88-89 | The sixteen digits of each case, and what they stand for |
| PercentEncoding.WellQuotedFree | src/app/config/postgres_config.py:74-76 | No reserved character is left in such a text |
| Urls.RoundTrip | src/app/config/postgres_config.py:83-91 | A URL built from components is split into the same components if and only if the host holds no delimiter or is a bracketed address literal, and the path holds no `?` or `#` |
| Urls.CleanHostIs | src/app/config/postgres_config.py:74-76 | The condition on the host, with its characters written out |
| Urls.BuildParsed | src/app/config/postgres_config.py:83-91 | Splitting loses nothing: building the components of any URL text gives the text back |
| PercentEncoding.UnquoteUnchanged | src/app/config/postgres_config.py:74-76 | A text that was not encoded survives decoding if and only if it holds no percent sign, and never grows by it |
| PostgresUrl.RoundTrip | src/app/config/postgres_config.py:66-91 | User, password, host, port, database and SSL mode come back from the URL, for every user and password, if and only if the host holds no delimiter or is a bracketed address literal, and the database holds no `?` or `#` |
| PostgresUrl.DsnText | src/app/config/postgres_config.py:83-91 | The whole URL: literal scheme `postgresql+psycopg://`, quoted credentials, host, port, database and literal `?sslmode=` with the configured text |
| PostgresUrl.ColonsNeedBrackets | src/app/config/postgres_config.py:39-41 | A host with a colon, such as `::1` or `db:5433`, does not come back; the same text in brackets does |
| PostgresUrl.DecodedRoundTrip | src/app/config/postgres_config.py:66-91 | For a consumer that percent-decodes host and database too, the round trip holds if and only if, besides, neither holds a percent sign |
| PostgresUrl.EmptyPasswordWithoutColon | src/app/config/postgres_config.py:83-91 | Under the same condition on host and database, a URL library that drops the colon before an empty password loses nothing |
| RedisUrl.RoundTrip | src/app/config/redis_config.py:38-60 | Scheme, host, port, database index and any non-empty password come back if and only if the host holds no delimiter or is a bracketed address literal |
| RedisUrl.DsnText | src/app/config/redis_config.py:53-60 | The whole URL: literal `rediss://` if TLS is used and else `redis://`, the quoted password if there is one, host, port and database index |
| RedisUrl.ColonsNeedBrackets | src/app/config/redis_config.py:30-32 | A host with a colon does not come back; the same text in brackets does |
| RedisUrl.DecodedRoundTrip | src/app/config/redis_config.py:38-60 | For a consumer that percent-decodes the host too, the round trip holds if and only if, besides, the host holds no percent sign |
| RedisUrl.SameUrlWhen | src/app/config/redis_config.py:53-60 | Two configurations whose hosts hold no `@` share a URL exactly when they differ at most by an absent against an empty password, whatever else the hosts hold |
| RedisUrl.PasswordInHost | src/app/config/redis_config.py:53-60 | With an `@` in the host, a password can be told as part of the host: two different configurations with one URL |
| Decimal.ReadPrint | src/app/config/redis_config.py:58 | Decimal printing and reading are inverse |
| CorrelationId.CorrelationIdFromHeaders | src/app/middlewares/correlation_id_middleware.py:75-88 | The first header that is a case variant of `X-Request-ID`, if its value has more than blanks, gives the id: its value without the blanks around it. Else the same for `X-Correlation-ID`; else the generated id |
| CorrelationId.InboundIsFirst | src/app/middlewares/correlation_id_middleware.py:84-87 | The lookup and strip read the first header of the name and nothing else |
| CorrelationId.SpaceIsBlank | src/app/middlewares/correlation_id_middleware.py:85 | The blanks that are stripped, listed |
| Asgi.LowerIsSameName | src/app/middlewares/secure_headers.py:96-99 | Comparing in lower case finds exactly the case variants: names of one length, at each place the same character or two ASCII letters 32 apart |
| Asgi.LookupIsFirst | src/app/middlewares/correlation_id_middleware.py:85 | A lookup gives the value of the first header that is a case variant of the name, and nothing if there is none |
| CorrelationId.StripIsExact | src/app/middlewares/correlation_id_middleware.py:85 | A stripped value is the given one without exactly the blanks around it |
| CorrelationId.RequestIdSend.Send | src/app/middlewares/correlation_id_middleware.py:60-69 | A response start goes out with the id assigned, any other message as it is |
| Asgi.Assigned | src/app/middlewares/correlation_id_middleware.py:67-68 | After the assignment exactly one header of the name is left, with the value, and the others are as before |
| RequestStack.CorrelationCall | src/app/middlewares/correlation_id_middleware.py:44-72 | The id chosen from the request's own headers, or else the generated one, is stored in the state and stamped on the stream; other scopes than HTTP pass unchanged |
| RequestStack.HandleUnhandledHttpException | src/app/middlewares/unhandled_http_exception_handler.py:33-56 | A 500 with exactly one `X-Request-ID`, equal to the stored id unless that is absent or empty; the id is logged if there is one |
| RequestStack.Serve | src/app/lifecycle/lifecycle_manager.py:265-297 | End to end: every response start that reaches the client carries exactly one `X-Request-ID`, equal to the non-empty stored id, which is the one chosen from the request's headers or else generated, on the normal path and on the generic 500, for every header list, stream and raising point |
| RequestStack.DeliveredCarriesId | src/app/middlewares/correlation_id_middleware.py:60-69 | Every response start of any stream leaves the two wrappers with the id as its only `X-Request-ID` |
| RequestStack.DeliveredStream | src/app/middlewares/secure_headers.py:89-102 | Over any stream both wrappers keep number, order, kind and content; on a response start the policy is gone on documentation pages, `X-Request-ID` is the id, and all other headers are as before, in order; other messages are untouched |
| RequestStack.SecureCall | src/app/middlewares/secure_headers.py:63-76 | The wrapper is used on documentation pages only; the stream is delivered in order, message by message |
| SecureHeaders.CspSend.Send | src/app/middlewares/secure_headers.py:89-102 | A response start goes on without the policy header, any other message as it is |
| SecureHeaders.DocsExemption | src/app/middlewares/secure_headers.py:79-102 | Over any stream number, order and non-header content are kept; on documentation pages no case variant of `Content-Security-Policy` survives and the other headers keep value and order; elsewhere nothing changes |
| SecureHeaders.DocsPathByFirstSegment | src/app/middlewares/secure_headers.py:26-36 | A path is exempt if and only if its first segment is `docs` or `redoc` |
| Asgi.WithoutKeepsOrder | src/app/middlewares/secure_headers.py:97-99 | The filter leaves exactly the headers of other names, at increasing positions |

## Left out

- FeatureFlagService.FeatureFlagService.GetFlag: one call at a time; overlap is in `Interleaving`.
- FeatureFlagService.FeatureFlagService.SetFlag: as for `GetFlag`.
- FeatureFlagService.Session.Commit: one tracked row, as a service call has it.
- Staleness.Provenance: for whole-row commits, as are the other theorems over interleaved runs; `ColumnWrites` says exactly which runs of the ORM that covers.
- Staleness.BoundedStaleness: as for `Provenance`.
- FlagJson.DecodeEncode: members may come in any order with blanks between them, but numbers, nested values, the validator's conversions from other types and other spellings of a timestamp are not read.
- PostgresUrl.RoundTrip: what the URL library rejects or rewrites beyond the splitting of RFC 3986 (characters it forbids in a host, the syntax of address literals) is not modelled.
- RedisUrl.RoundTrip: as for `PostgresUrl.RoundTrip`.
- RequestStack.Serve: the HTTP scope only; the log record is a result of `HandleUnhandledHttpException`, and binding the id to the log context is not modelled.
- Ordering of rows by `updated_at`: the time is taken before the session opens, so commit order can differ from it; commit numbers are used.
- Linearizability for overlapping calls: the code does not give it, as `BoundIsReached` shows.
- Sockets, pools, TLS, drivers and their timeouts, and the raw Redis client.
- Startup and shutdown order, probes, metrics exposition, log configuration, routers, request validation, migrations: thin wrappers or finite cases.
