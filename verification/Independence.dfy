/** Independence of pairs: an interleaved run, seen from one pair, is the run of
    that pair's own machine on the actions that concern it. */
module Independence {
  import opened Prelude
  import opened FeatureFlags
  import opened Program
  import opened Storage
  import opened Interleaving
  import OnePair
  import FlagJson

  function ProjectAction(a: Action, p: Pair): OnePair.Action {
    match a
    case Tick(seconds) => OnePair.Tick(seconds)
    case Evict(key) => if key == CacheKey(p) then OnePair.Evict else OnePair.Skip
    case Begin(id, op) => if id.pair == p then OnePair.Begin(id.serial, op) else OnePair.Skip
    case Resume(id) => if id.pair == p then OnePair.Resume(id.serial) else OnePair.Skip
    case Interrupt(id, applied) => if id.pair == p then OnePair.Interrupt(id.serial, applied) else OnePair.Skip
  }

  /** The steps of one pair, the others idle: positions stay the same. */
  function Project(acts: seq<Action>, p: Pair): (cs: seq<OnePair.Action>)
    ensures |cs| == |acts| && forall k | 0 <= k < |acts| :: cs[k] == ProjectAction(acts[k], p)
  {
    seq(|acts|, k requires 0 <= k < |acts| => ProjectAction(acts[k], p))
  }

  function ConfigOf(ttl: Ttl, p: Pair): OnePair.Config {
    OnePair.Config(ttl, p.name != "")
  }

  predicate FlagIs(name: string, vs: seq<OnePair.Version>, flag: Flag, sample: OnePair.Sample) {
    sample.version < |vs| && RowToFlag(name, vs[sample.version].row) == Some(flag)
  }

  predicate PcIs(name: string, vs: seq<OnePair.Version>, pc: Pc<Flag>, abs: Pc<OnePair.Sample>) {
    match (pc, abs)
    case (AtRedisGet, AtRedisGet) => true
    case (AtRowRead, AtRowRead) => true
    case (AtCommit(found, row), AtCommit(found', row')) => found == found' && row == row'
    case (AtRedisSet(flag), AtRedisSet(sample)) => FlagIs(name, vs, flag, sample)
    case (Done(Hit(flag)), Done(Hit(sample))) => FlagIs(name, vs, flag, sample)
    case (Done(Loaded(flag)), Done(Loaded(sample))) => FlagIs(name, vs, flag, sample)
    case (Done(Written(flag)), Done(Written(sample))) => FlagIs(name, vs, flag, sample)
    case (Done(NotFound), Done(NotFound)) => true
    case (Done(Failed), Done(Failed)) => true
    case (Done(FailedAfterCommit), Done(FailedAfterCommit)) => true
    case _ => false
  }

  predicate CallIs(name: string, vs: seq<OnePair.Version>, call: Call<Flag>, abs: Call<OnePair.Sample>) {
    call.op == abs.op && call.begun == abs.begun && call.since == abs.since && PcIs(name, vs, call.pc, abs.pc)
  }

  predicate RowMatches(st: Stores, p: Pair, c: OnePair.Cell) {
    && (p in st.rows <==> c.versions != [])
    && (p in st.rows ==> st.rows[p] == c.versions[|c.versions| - 1].row)
  }

  predicate EntryMatches(st: Stores, p: Pair, c: OnePair.Cell) {
    && (CacheKey(p) in st.entries <==> c.cached.Some?)
    && (c.cached.Some? ==>
          && st.entries[CacheKey(p)].expiresAt == c.cached.value.expiresAt
          && c.cached.value.sample.version < |c.versions|
          && var flag := RowToFlag(p.name, c.versions[c.cached.value.sample.version].row);
             flag.Some? && st.entries[CacheKey(p)].text == CacheText(flag.value))
  }

  ghost predicate CallsMatch(s: Fleet, p: Pair, c: OnePair.Cell) {
    && (forall n: nat :: CallId(p, n) in s.calls <==> n in c.calls)
    && (forall n: nat | n in c.calls :: CallIs(p.name, c.versions, s.calls[CallId(p, n)], c.calls[n]))
  }

  /** The fleet as the pair `p` sees it: same clock, row, cache entry and calls. */
  ghost predicate Matches(s: Fleet, p: Pair, c: OnePair.Cell) {
    && s.stores.now == c.now
    && RowMatches(s.stores, p, c)
    && EntryMatches(s.stores, p, c)
    && CallsMatch(s, p, c)
  }

  // ---------- one stretch of a call ----------

  predicate StoresMatch(st: Stores, p: Pair, c: OnePair.Cell) {
    st.now == c.now && RowMatches(st, p, c) && EntryMatches(st, p, c)
  }

  lemma CachedReplyIs(st: Stores, p: Pair, c: OnePair.Cell)
    requires StoresMatch(st, p, c)
    ensures c.Live() <==> st.GetString(CacheKey(p)).Some?
    ensures c.Live() ==>
              var reply := CachedReply(st.GetString(CacheKey(p)));
              reply.Present? && FlagIs(p.name, c.versions, reply.value, c.cached.value.sample)
  {
    if c.Live() {
      var flag := RowToFlag(p.name, c.versions[c.cached.value.sample.version].row).value;
      FlagJson.DecodeEncode(flag);
    }
  }

  predicate ProgressMatches(p: Pair, c: OnePair.Cell, conc: Progress, abs: OnePair.Progress) {
    && StoresMatch(conc.stores, p, abs.cell)
    && abs.cell.calls == c.calls
    && c.versions <= abs.cell.versions
    && PcIs(p.name, abs.cell.versions, conc.pc, abs.pc)
  }

  lemma CommitMatches(st: Stores, p: Pair, c: OnePair.Cell, row: Row)
    requires StoresMatch(st, p, c)
    ensures StoresMatch(st.Commit(p, row), p, OnePair.Commit(c, row))
    ensures c.versions <= OnePair.Commit(c, row).versions
  {
  }

  lemma SetMatches(ttl: Ttl, st: Stores, p: Pair, c: OnePair.Cell, flag: Flag, sample: OnePair.Sample)
    requires StoresMatch(st, p, c) && FlagIs(p.name, c.versions, flag, sample)
    ensures StoresMatch(st.SetString(CacheKey(p), CacheText(flag), ttl), p, OnePair.SetCached(ConfigOf(ttl, p), c, sample))
  {
    var st', c' := st.SetString(CacheKey(p), CacheText(flag), ttl), OnePair.SetCached(ConfigOf(ttl, p), c, sample);
    assert st'.entries[CacheKey(p)] == Entry(CacheText(flag), st.now + ttl);
    assert c'.cached == Some(OnePair.Cached(sample, c.now + ttl)) && c'.versions == c.versions;
  }

  lemma RowReadMatches(ttl: Ttl, st: Stores, p: Pair, c: OnePair.Cell, op: Op)
    requires StoresMatch(st, p, c)
    ensures PcIs(p.name, c.versions, Resumed(ttl, st, p, op, AtRowRead).pc,
                 OnePair.Resumed(ConfigOf(ttl, p), c, op, AtRowRead).pc)
  {
    assert RowReply(st, p).Absent? <==> c.versions == [];
  }

  lemma AfterCommitMatches(ttl: Ttl, p: Pair, c: OnePair.Cell, row: Row, sample: OnePair.Sample)
    requires sample.version < |c.versions| && c.versions[sample.version].row == row
    ensures PcIs(p.name, c.versions, AfterCommit(FlagReply(p.name, row)),
                 AfterCommit(OnePair.Reply(ConfigOf(ttl, p), sample)))
  {
  }

  lemma CommitResumedMatches(ttl: Ttl, st: Stores, p: Pair, c: OnePair.Cell, op: Op, rowFound: bool, row: Row)
    requires StoresMatch(st, p, c)
    ensures ProgressMatches(p, c, Resumed(ttl, st, p, op, AtCommit(rowFound, row)),
                            OnePair.Resumed(ConfigOf(ttl, p), c, op, AtCommit(rowFound, row)))
  {
    if st.CommitAccepted(p, rowFound) {
      CommitMatches(st, p, c, row);
      AfterCommitMatches(ttl, p, OnePair.Commit(c, row), row, OnePair.Sample(|c.versions|, c.now));
    }
  }

  lemma ResumedMatches(ttl: Ttl, st: Stores, p: Pair, c: OnePair.Cell, op: Op, pc: Pc<Flag>, abs: Pc<OnePair.Sample>)
    requires StoresMatch(st, p, c) && PcIs(p.name, c.versions, pc, abs) && !pc.Done?
    ensures !abs.Done?
    ensures ProgressMatches(p, c, Resumed(ttl, st, p, op, pc), OnePair.Resumed(ConfigOf(ttl, p), c, op, abs))
  {
    match pc
    case AtRedisGet =>
      CachedReplyIs(st, p, c);
    case AtRowRead =>
      RowReadMatches(ttl, st, p, c, op);
    case AtCommit(rowFound, row) =>
      CommitResumedMatches(ttl, st, p, c, op, rowFound, row);
    case AtRedisSet(flag) =>
      SetMatches(ttl, st, p, c, flag, abs.flag);
  }

  lemma CommitInterruptedMatches(ttl: Ttl, st: Stores, p: Pair, c: OnePair.Cell, op: Op, rowFound: bool, row: Row, applied: bool)
    requires StoresMatch(st, p, c)
    ensures ProgressMatches(p, c, Interrupted(ttl, st, p, op, AtCommit(rowFound, row), applied),
                            OnePair.Interrupted(ConfigOf(ttl, p), c, op, AtCommit(rowFound, row), applied))
  {
    CommitMatches(st, p, c, row);
  }

  lemma SetInterruptedMatches(ttl: Ttl, st: Stores, p: Pair, c: OnePair.Cell, op: Op, flag: Flag, sample: OnePair.Sample, applied: bool)
    requires StoresMatch(st, p, c) && FlagIs(p.name, c.versions, flag, sample)
    ensures ProgressMatches(p, c, Interrupted(ttl, st, p, op, AtRedisSet(flag), applied),
                            OnePair.Interrupted(ConfigOf(ttl, p), c, op, AtRedisSet(sample), applied))
  {
    SetMatches(ttl, st, p, c, flag, sample);
  }

  lemma InterruptedMatches(ttl: Ttl, st: Stores, p: Pair, c: OnePair.Cell, op: Op, pc: Pc<Flag>,
                           abs: Pc<OnePair.Sample>, applied: bool)
    requires StoresMatch(st, p, c) && PcIs(p.name, c.versions, pc, abs) && !pc.Done?
    ensures !abs.Done?
    ensures ProgressMatches(p, c, Interrupted(ttl, st, p, op, pc, applied),
                            OnePair.Interrupted(ConfigOf(ttl, p), c, op, abs, applied))
  {
    match pc
    case AtCommit(rowFound, row) => CommitInterruptedMatches(ttl, st, p, c, op, rowFound, row, applied);
    case AtRedisSet(flag) => SetInterruptedMatches(ttl, st, p, c, op, flag, abs.flag, applied);
    case _ =>
  }

  /** A stretch of another pair's call leaves this pair's row and entry alone. */
  lemma OtherPairFramed(ttl: Ttl, st: Stores, p: Pair, c: OnePair.Cell, q: Pair, op: Op, pc: Pc<Flag>, applied: bool)
    requires StoresMatch(st, p, c) && q != p && !pc.Done?
    ensures StoresMatch(Resumed(ttl, st, q, op, pc).stores, p, c)
    ensures StoresMatch(Interrupted(ttl, st, q, op, pc, applied).stores, p, c)
  {
    CacheKeyInjective(p, q);
  }

  // ---------- one action ----------

  lemma MovedMatches(s: Fleet, p: Pair, c: OnePair.Cell, n: nat, conc: Progress, abs: OnePair.Progress)
    requires Matches(s, p, c) && n in c.calls
    requires ProgressMatches(p, c, conc, abs)
    ensures Matches(Moved(s, CallId(p, n), conc), p, OnePair.Moved(c, n, abs))
  {
    var s', c' := Moved(s, CallId(p, n), conc), OnePair.Moved(c, n, abs);
    forall m: nat | m in c'.calls ensures CallIs(p.name, c'.versions, s'.calls[CallId(p, m)], c'.calls[m]) {
      assert CallIs(p.name, c.versions, s.calls[CallId(p, m)], c.calls[m]);
    }
  }

  lemma OtherMovedMatches(s: Fleet, p: Pair, c: OnePair.Cell, id: CallId, conc: Progress)
    requires Matches(s, p, c) && id in s.calls && id.pair != p
    requires StoresMatch(conc.stores, p, c)
    ensures Matches(Moved(s, id, conc), p, c)
  {
    var s' := Moved(s, id, conc);
    assert forall n: nat :: CallId(p, n) in s'.calls <==> CallId(p, n) in s.calls;
    assert forall n: nat | CallId(p, n) in s.calls :: s'.calls[CallId(p, n)] == s.calls[CallId(p, n)];
  }

  lemma InFlightMatches(s: Fleet, p: Pair, c: OnePair.Cell, n: nat)
    requires Matches(s, p, c)
    ensures InFlight(s, CallId(p, n)) <==> OnePair.InFlight(c, n)
    ensures CallId(p, n) in s.calls ==>
              n in c.calls && CallIs(p.name, c.versions, s.calls[CallId(p, n)], c.calls[n])
  {
    assert n in c.calls ==> CallIs(p.name, c.versions, s.calls[CallId(p, n)], c.calls[n]);
  }

  lemma ResumeMatches(ttl: Ttl, s: Fleet, id: CallId, p: Pair, c: OnePair.Cell)
    requires Matches(s, p, c)
    ensures Matches(Next(ttl, s, Resume(id)), p, OnePair.Next(ConfigOf(ttl, p), c, ProjectAction(Resume(id), p)))
  {
    if id.pair == p {
      InFlightMatches(s, p, c, id.serial);
    }
    if InFlight(s, id) {
      var call := s.calls[id];
      if id.pair == p {
        var abs := c.calls[id.serial];
        ResumedMatches(ttl, s.stores, p, c, call.op, call.pc, abs.pc);
        MovedMatches(s, p, c, id.serial, Resumed(ttl, s.stores, p, call.op, call.pc),
                     OnePair.Resumed(ConfigOf(ttl, p), c, abs.op, abs.pc));
      } else {
        OtherPairFramed(ttl, s.stores, p, c, id.pair, call.op, call.pc, false);
        OtherMovedMatches(s, p, c, id, Resumed(ttl, s.stores, id.pair, call.op, call.pc));
      }
    }
  }

  lemma InterruptMatches(ttl: Ttl, s: Fleet, id: CallId, applied: bool, p: Pair, c: OnePair.Cell)
    requires Matches(s, p, c)
    ensures Matches(Next(ttl, s, Interrupt(id, applied)), p,
                    OnePair.Next(ConfigOf(ttl, p), c, ProjectAction(Interrupt(id, applied), p)))
  {
    if id.pair == p {
      InFlightMatches(s, p, c, id.serial);
    }
    if InFlight(s, id) {
      var call := s.calls[id];
      if id.pair == p {
        var abs := c.calls[id.serial];
        InterruptedMatches(ttl, s.stores, p, c, call.op, call.pc, abs.pc, applied);
        MovedMatches(s, p, c, id.serial, Interrupted(ttl, s.stores, p, call.op, call.pc, applied),
                     OnePair.Interrupted(ConfigOf(ttl, p), c, abs.op, abs.pc, applied));
      } else {
        OtherPairFramed(ttl, s.stores, p, c, id.pair, call.op, call.pc, applied);
        OtherMovedMatches(s, p, c, id, Interrupted(ttl, s.stores, id.pair, call.op, call.pc, applied));
      }
    }
  }

  lemma OwnBeginMatches(s: Fleet, p: Pair, c: OnePair.Cell, n: nat, call: Call<Flag>, abs: Call<OnePair.Sample>)
    requires Matches(s, p, c) && n !in c.calls
    requires CallIs(p.name, c.versions, call, abs)
    ensures CallsMatch(s.(calls := s.calls[CallId(p, n) := call]), p, c.(calls := c.calls[n := abs]))
  {
    var s' := s.(calls := s.calls[CallId(p, n) := call]);
    var c' := c.(calls := c.calls[n := abs]);
    forall m: nat | m in c'.calls ensures CallIs(p.name, c'.versions, s'.calls[CallId(p, m)], c'.calls[m]) {
      if m != n {
        assert CallIs(p.name, c.versions, s.calls[CallId(p, m)], c.calls[m]);
      }
    }
  }

  lemma BeginMatches(ttl: Ttl, s: Fleet, id: CallId, op: Op, p: Pair, c: OnePair.Cell)
    requires Matches(s, p, c)
    ensures Matches(Next(ttl, s, Begin(id, op)), p, OnePair.Next(ConfigOf(ttl, p), c, ProjectAction(Begin(id, op), p)))
  {
    var now := s.stores.now;
    if id.pair == p && id !in s.calls {
      OwnBeginMatches(s, p, c, id.serial, Call(op, now, now, FirstAwait(op)), Call(op, now, now, FirstAwait(op)));
    } else if id.pair != p {
      var s' := Next(ttl, s, Begin(id, op));
      assert forall n: nat :: CallId(p, n) in s'.calls <==> CallId(p, n) in s.calls;
      assert forall n: nat | CallId(p, n) in s.calls :: s'.calls[CallId(p, n)] == s.calls[CallId(p, n)];
    }
  }

  lemma TickMatches(ttl: Ttl, s: Fleet, seconds: nat, p: Pair, c: OnePair.Cell)
    requires Matches(s, p, c)
    ensures Matches(Next(ttl, s, Tick(seconds)), p, OnePair.Next(ConfigOf(ttl, p), c, OnePair.Tick(seconds)))
  {
    var s', c' := Next(ttl, s, Tick(seconds)), OnePair.Next(ConfigOf(ttl, p), c, OnePair.Tick(seconds));
    assert RowMatches(s'.stores, p, c') && EntryMatches(s'.stores, p, c');
  }

  lemma OwnEvictMatches(s: Fleet, p: Pair, c: OnePair.Cell)
    requires Matches(s, p, c)
    ensures Matches(s.(stores := s.stores.(entries := s.stores.entries - {CacheKey(p)})), p, c.(cached := None))
  {
    var s' := s.(stores := s.stores.(entries := s.stores.entries - {CacheKey(p)}));
    assert RowMatches(s'.stores, p, c) && CacheKey(p) !in s'.stores.entries;
  }

  lemma OtherEvictMatches(s: Fleet, key: string, p: Pair, c: OnePair.Cell)
    requires Matches(s, p, c) && key != CacheKey(p)
    ensures Matches(s.(stores := s.stores.(entries := s.stores.entries - {key})), p, c)
  {
    var s' := s.(stores := s.stores.(entries := s.stores.entries - {key}));
    assert RowMatches(s'.stores, p, c) && EntryMatches(s'.stores, p, c);
  }

  lemma EvictMatches(ttl: Ttl, s: Fleet, key: string, p: Pair, c: OnePair.Cell)
    requires Matches(s, p, c)
    ensures Matches(Next(ttl, s, Evict(key)), p, OnePair.Next(ConfigOf(ttl, p), c, ProjectAction(Evict(key), p)))
  {
    if key == CacheKey(p) {
      OwnEvictMatches(s, p, c);
    } else {
      OtherEvictMatches(s, key, p, c);
    }
  }

  lemma ActionMatches(ttl: Ttl, s: Fleet, a: Action, p: Pair, c: OnePair.Cell)
    requires Matches(s, p, c)
    ensures Matches(Next(ttl, s, a), p, OnePair.Next(ConfigOf(ttl, p), c, ProjectAction(a, p)))
  {
    match a
    case Tick(seconds) => TickMatches(ttl, s, seconds, p, c);
    case Evict(key) => EvictMatches(ttl, s, key, p, c);
    case Begin(id, op) => BeginMatches(ttl, s, id, op, p, c);
    case Resume(id) => ResumeMatches(ttl, s, id, p, c);
    case Interrupt(id, applied) => InterruptMatches(ttl, s, id, applied, p, c);
  }

  // ---------- whole runs ----------

  lemma {:induction false} MatchesAt(ttl: Ttl, acts: seq<Action>, t: seq<Fleet>, p: Pair, cs: seq<OnePair.Cell>, k: nat)
    requires IsRun(ttl, acts, t) && OnePair.IsRun(ConfigOf(ttl, p), Project(acts, p), cs)
    requires k < |t|
    ensures Matches(t[k], p, cs[k])
  {
    if k == 0 {
    } else {
      MatchesAt(ttl, acts, t, p, cs, k - 1);
      assert t[k] == Next(ttl, t[k - 1], acts[k - 1]);
      assert cs[k] == OnePair.Next(ConfigOf(ttl, p), cs[k - 1], Project(acts, p)[k - 1]);
      ActionMatches(ttl, t[k - 1], acts[k - 1], p, cs[k - 1]);
    }
  }

  /** For every interleaving of any calls, and every pair: the run of the pair's
      own machine on its projected actions has, at every position, the same
      clock, row, cache entry and calls, with the same results. */
  lemma PairsAreIndependent(ttl: Ttl, acts: seq<Action>, t: seq<Fleet>, p: Pair) returns (cs: seq<OnePair.Cell>)
    requires IsRun(ttl, acts, t)
    ensures OnePair.IsRun(ConfigOf(ttl, p), Project(acts, p), cs) && |cs| == |t|
    ensures forall k | 0 <= k < |t| :: Matches(t[k], p, cs[k])
  {
    cs := OnePair.Run(ConfigOf(ttl, p), Project(acts, p));
    forall k | 0 <= k < |t| ensures Matches(t[k], p, cs[k]) {
      MatchesAt(ttl, acts, t, p, cs, k);
    }
  }

  /** The same for a run of the pair's machine that is already at hand. */
  lemma ProjectedRunLifts(ttl: Ttl, acts: seq<Action>, p: Pair, cs: seq<OnePair.Cell>) returns (t: seq<Fleet>)
    requires OnePair.IsRun(ConfigOf(ttl, p), Project(acts, p), cs)
    ensures IsRun(ttl, acts, t)
    ensures forall k | 0 <= k < |t| :: Matches(t[k], p, cs[k])
  {
    t := Run(ttl, acts);
    forall k | 0 <= k < |t| ensures Matches(t[k], p, cs[k]) {
      MatchesAt(ttl, acts, t, p, cs, k);
    }
  }

  /** An action of the fleet that the pair sees as `a`. */
  function LiftAction(a: OnePair.Action, p: Pair): (lifted: Action)
    ensures ProjectAction(lifted, p) == a
  {
    match a
    case Skip =>
      assert CacheKey(p)[0] == 'f';
      Evict("")
    case Tick(seconds) => Tick(seconds)
    case Evict => Evict(CacheKey(p))
    case Begin(n, op) => Begin(CallId(p, n), op)
    case Resume(n) => Resume(CallId(p, n))
    case Interrupt(n, applied) => Interrupt(CallId(p, n), applied)
  }

  /** And every run of a pair's machine, on any actions whatever, is what some run
      of a fleet shows of the pair: the small machine has no behaviour of its own. */
  lemma PairRunLifts(ttl: Ttl, p: Pair, pas: seq<OnePair.Action>, cs: seq<OnePair.Cell>)
      returns (acts: seq<Action>, t: seq<Fleet>)
    requires OnePair.IsRun(ConfigOf(ttl, p), pas, cs)
    ensures Project(acts, p) == pas && IsRun(ttl, acts, t) && |t| == |cs|
    ensures forall k | 0 <= k < |t| :: Matches(t[k], p, cs[k])
  {
    acts := seq(|pas|, k requires 0 <= k < |pas| => LiftAction(pas[k], p));
    assert Project(acts, p) == pas;
    t := ProjectedRunLifts(ttl, acts, p, cs);
  }

  /** What a caller of `p` can tell: the row, the cache entry, and for each call
      where it stands, or what it returned or raised. */
  ghost predicate Indistinguishable(s: Fleet, u: Fleet, p: Pair) {
    && s.stores.now == u.stores.now
    && (p in s.stores.rows <==> p in u.stores.rows)
    && (p in s.stores.rows ==> s.stores.rows[p] == u.stores.rows[p])
    && (CacheKey(p) in s.stores.entries <==> CacheKey(p) in u.stores.entries)
    && (CacheKey(p) in s.stores.entries ==> s.stores.entries[CacheKey(p)] == u.stores.entries[CacheKey(p)])
    && (forall n: nat :: CallId(p, n) in s.calls <==> CallId(p, n) in u.calls)
    && (forall n: nat | CallId(p, n) in s.calls :: s.calls[CallId(p, n)] == u.calls[CallId(p, n)])
  }

  lemma MatchesDetermines(s: Fleet, u: Fleet, p: Pair, c: OnePair.Cell)
    requires Matches(s, p, c) && Matches(u, p, c)
    ensures Indistinguishable(s, u, p)
  {
    forall n: nat | CallId(p, n) in s.calls ensures s.calls[CallId(p, n)] == u.calls[CallId(p, n)] {
      assert CallIs(p.name, c.versions, s.calls[CallId(p, n)], c.calls[n]);
      assert CallIs(p.name, c.versions, u.calls[CallId(p, n)], c.calls[n]);
    }
  }

  /** The actions that concern the pair, or the clock. */
  function Steps(cs: seq<OnePair.Action>): seq<OnePair.Action> {
    if cs == [] then [] else
      Steps(cs[..|cs| - 1]) + (if cs[|cs| - 1].Skip? then [] else [cs[|cs| - 1]])
  }

  function FinalCell(cfg: OnePair.Config, cs: seq<OnePair.Action>): OnePair.Cell {
    OnePair.Run(cfg, cs)[|cs|]
  }

  lemma FinalCellAppend(cfg: OnePair.Config, cs: seq<OnePair.Action>, a: OnePair.Action)
    ensures FinalCell(cfg, cs + [a]) == OnePair.Next(cfg, FinalCell(cfg, cs), a)
  {
    assert (cs + [a])[..|cs|] == cs;
  }

  lemma {:induction false} IdlingChangesNothing(cfg: OnePair.Config, cs: seq<OnePair.Action>)
    ensures FinalCell(cfg, Steps(cs)) == FinalCell(cfg, cs)
  {
    if cs == [] {
    } else {
      var before, a := cs[..|cs| - 1], cs[|cs| - 1];
      IdlingChangesNothing(cfg, before);
      FinalCellAppend(cfg, before, a);
      assert cs == before + [a];
      if a.Skip? {
        assert Steps(cs) == Steps(before);
      } else {
        FinalCellAppend(cfg, Steps(before), a);
      }
    }
  }

  /** Two runs, however many steps other pairs take in each, end with the same
      row, cache entry and call results for `p` if they agree on the steps of `p`. */
  lemma NonInterference(ttl: Ttl, acts: seq<Action>, t: seq<Fleet>, acts': seq<Action>, t': seq<Fleet>, p: Pair)
    requires IsRun(ttl, acts, t) && IsRun(ttl, acts', t')
    requires Steps(Project(acts, p)) == Steps(Project(acts', p))
    ensures Indistinguishable(t[|acts|], t'[|acts'|], p)
  {
    var cfg, cs, cs' := ConfigOf(ttl, p), Project(acts, p), Project(acts', p);
    IdlingChangesNothing(cfg, cs);
    IdlingChangesNothing(cfg, cs');
    MatchesAt(ttl, acts, t, p, OnePair.Run(cfg, cs), |acts|);
    MatchesAt(ttl, acts', t', p, OnePair.Run(cfg, cs'), |acts'|);
    MatchesDetermines(t[|acts|], t'[|acts'|], p, FinalCell(cfg, cs));
  }
}
