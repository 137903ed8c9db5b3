/** Without overlapping calls and without a failing store, the cache cannot be
    observed: the service behaves as a plain map from pair to row. */
module SerialRefinement {
  import opened Prelude
  import opened FeatureFlags
  import opened Program
  import opened Storage
  import opened Interleaving
  import opened Independence
  import opened SerialRuns
  import opened SoloCalls
  import OnePair
  import FlagJson

  /** What a caller sees: a flag, `FeatureFlagNotFoundError`, or another exception. */
  datatype Result = Returned(flag: Flag) | MissingFlag | OtherError

  function ResultOf(outcome: Outcome<Flag>): Result {
    match outcome
    case Hit(flag) => Returned(flag)
    case Loaded(flag) => Returned(flag)
    case Written(flag) => Returned(flag)
    case NotFound => MissingFlag
    case Failed => OtherError
    case FailedAfterCommit => OtherError
  }

  /** Reading the plain map. A row without a name does not validate as a flag. */
  function PlainGet(rows: map<Pair, Row>, p: Pair): Result {
    if p !in rows then MissingFlag else
      match RowToFlag(p.name, rows[p])
      case Some(flag) => Returned(flag)
      case None => OtherError
  }

  // ---------- expiry and eviction at any moment ----------

  /** An entry can only be behind while a set is on its way to refresh it, and a
      session's view of the row stays true until its commit. */
  ghost predicate Quiet(cfg: OnePair.Config, c: OnePair.Cell) {
    && (!cfg.named ==> c.cached.None? && forall n | n in c.calls :: !c.calls[n].pc.AtRedisSet?)
    && OneCarriesLatest(c)
    && (c.cached.Some? && c.cached.value.sample.version != |c.versions| - 1 ==>
          exists n :: OnePair.InFlight(c, n) && c.calls[n].op.Set? && c.calls[n].pc.AtRedisSet?)
    && (forall n | n in c.calls && c.calls[n].pc.AtCommit? ::
          c.calls[n].op.Set? && c.calls[n].pc.row == RowOf(c.calls[n].op) &&
          (c.calls[n].pc.rowFound <==> c.versions != []))
    && (forall n | n in c.calls && c.calls[n].op.Set? && c.calls[n].pc.AtRedisSet? ::
          c.versions != [] && c.versions[|c.versions| - 1].row == RowOf(c.calls[n].op))
    && (forall n | n in c.calls && c.calls[n].op.Set? :: !c.calls[n].pc.AtRedisGet?)
  }

  lemma ResumeKeepsQuiet(cfg: OnePair.Config, c: OnePair.Cell, n: nat)
    requires Quiet(cfg, c) && OnePair.InFlight(c, n)
    ensures Quiet(cfg, OnePair.Next(cfg, c, OnePair.Resume(n)))
  {
    var c' := OnePair.Next(cfg, c, OnePair.Resume(n));
    NextKeepsOne(cfg, c, OnePair.Resume(n));
    OthersDone(c, n);
    if c'.calls[n].pc.AtRedisSet? {
      assert OnePair.InFlight(c', n);
    }
  }

  lemma NextKeepsQuiet(cfg: OnePair.Config, c: OnePair.Cell, a: OnePair.Action)
    requires Quiet(cfg, c) && !a.Interrupt?
    requires a.Begin? ==> forall n | n in c.calls :: c.calls[n].pc.Done?
    ensures Quiet(cfg, OnePair.Next(cfg, c, a))
  {
    if a.Resume? && OnePair.InFlight(c, a.serial) {
      ResumeKeepsQuiet(cfg, c, a.serial);
    } else {
      var c' := OnePair.Next(cfg, c, a);
      NextKeepsOne(cfg, c, a);
      if c'.cached.Some? && c'.cached.value.sample.version != |c'.versions| - 1 {
        var n :| OnePair.InFlight(c, n) && c.calls[n].op.Set? && c.calls[n].pc.AtRedisSet?;
        assert OnePair.InFlight(c', n);
      }
    }
  }

  lemma {:induction false} QuietAt(cfg: OnePair.Config, acts: seq<OnePair.Action>, t: seq<OnePair.Cell>, k: nat)
    requires OnePair.IsRun(cfg, acts, t) && PairSerial(acts, t) && k < |t|
    requires forall i | 0 <= i < |acts| :: !acts[i].Interrupt?
    ensures Quiet(cfg, t[k])
  {
    if k == 0 {
    } else {
      QuietAt(cfg, acts, t, k - 1);
      assert t[k] == OnePair.Next(cfg, t[k - 1], acts[k - 1]);
      NextKeepsQuiet(cfg, t[k - 1], acts[k - 1]);
    }
  }

  /** The pair's machine: the plain answer, in terms of versions. */
  predicate PlainOutcome(cfg: OnePair.Config, c: OnePair.Cell, call: Call<OnePair.Sample>) {
    call.pc.Done? &&
    match call.pc.outcome
    case NotFound => c.versions == []
    case Failed => c.versions != [] && !cfg.named
    case FailedAfterCommit => c.versions != [] && !cfg.named
    case _ => c.versions != [] && call.pc.outcome.found.version == |c.versions| - 1
  }

  lemma FinishesPlainly(cfg: OnePair.Config, c: OnePair.Cell, n: nat)
    requires Quiet(cfg, c) && OnePair.InFlight(c, n)
    requires !OnePair.InFlight(OnePair.Next(cfg, c, OnePair.Resume(n)), n)
    ensures var c' := OnePair.Next(cfg, c, OnePair.Resume(n));
            && PlainOutcome(cfg, c', c'.calls[n])
            && (c.calls[n].op.Set? ==> c'.versions != [] && c'.versions[|c'.versions| - 1].row == RowOf(c.calls[n].op))
  {
    OthersDone(c, n);
    assert c.calls[n].pc.AtRedisGet? && c.cached.Some? ==> c.cached.value.sample.version == |c.versions| - 1;
  }

  /** No store call made for `p` fails. */
  ghost predicate Calm(acts: seq<Action>, p: Pair) {
    forall k | 0 <= k < |acts| :: acts[k].Interrupt? ==> acts[k].id.pair != p
  }

  lemma PlainLifts(ttl: Ttl, s: Fleet, p: Pair, c: OnePair.Cell, n: nat)
    requires Matches(s, p, c) && n in c.calls && PlainOutcome(ConfigOf(ttl, p), c, c.calls[n])
    ensures CallId(p, n) in s.calls && s.calls[CallId(p, n)].pc.Done?
    ensures ResultOf(s.calls[CallId(p, n)].pc.outcome) == PlainGet(s.stores.rows, p)
  {
    InFlightMatches(s, p, c, n);
  }

  lemma RowLifts(s: Fleet, p: Pair, c: OnePair.Cell)
    requires Matches(s, p, c)
    ensures c.versions != [] ==> p in s.stores.rows && s.stores.rows[p] == c.versions[|c.versions| - 1].row
  {
  }

  /** The finishing step of a call, from the pair's machine to the fleet. */
  lemma FinishLifts(ttl: Ttl, s: Fleet, p: Pair, c: OnePair.Cell, n: nat, s': Fleet, c': OnePair.Cell)
    requires Matches(s, p, c) && InFlight(s, CallId(p, n))
    requires Matches(s', p, c') && !InFlight(s', CallId(p, n))
    requires Quiet(ConfigOf(ttl, p), c) && c' == OnePair.Next(ConfigOf(ttl, p), c, OnePair.Resume(n))
    ensures CallId(p, n) in s'.calls && s'.calls[CallId(p, n)].pc.Done?
    ensures ResultOf(s'.calls[CallId(p, n)].pc.outcome) == PlainGet(s'.stores.rows, p)
    ensures var op := s.calls[CallId(p, n)].op;
            op.Set? ==> p in s'.stores.rows && s'.stores.rows[p] == RowOf(op)
  {
    InFlightMatches(s, p, c, n);
    InFlightMatches(s', p, c', n);
    FinishesPlainly(ConfigOf(ttl, p), c, n);
    PlainLifts(ttl, s', p, c', n);
    RowLifts(s', p, c');
  }

  lemma OnlyItsResumeFinishes(ttl: Ttl, s: Fleet, a: Action, id: CallId)
    requires InFlight(s, id) && !InFlight(Next(ttl, s, a), id)
    requires a.Interrupt? ==> a.id.pair != id.pair
    ensures a == Resume(id)
  {
  }

  /** A stretch of a call, as its pair's machine sees it. */
  lemma ResumeSeen(ttl: Ttl, acts: seq<Action>, t: seq<Fleet>, k: nat, id: CallId)
      returns (c: OnePair.Cell, c': OnePair.Cell)
    requires IsRun(ttl, acts, t) && Serial(acts, t, id.pair) && Calm(acts, id.pair)
    requires k < |acts| && acts[k] == Resume(id)
    ensures Matches(t[k], id.pair, c) && Matches(t[k + 1], id.pair, c')
    ensures Quiet(ConfigOf(ttl, id.pair), c)
    ensures c' == OnePair.Next(ConfigOf(ttl, id.pair), c, OnePair.Resume(id.serial))
  {
    var p := id.pair;
    var ps := Project(acts, p);
    var cs := PairsAreIndependent(ttl, acts, t, p);
    SerialProjects(ttl, acts, t, p, cs);
    QuietAt(ConfigOf(ttl, p), ps, cs, k);
    assert cs[k + 1] == OnePair.Next(ConfigOf(ttl, p), cs[k], ps[k]);
    c, c' := cs[k], cs[k + 1];
  }

  /** The cache is invisible. However the calls of other pairs interleave, and
      whenever entries expire or are evicted: where the calls of `p` do not overlap
      and no store call of theirs fails, a finishing call gives exactly what a plain
      map would, and a finishing set has left its row in that map. */
  lemma CacheIsInvisible(ttl: Ttl, acts: seq<Action>, t: seq<Fleet>, k: nat, id: CallId)
    requires IsRun(ttl, acts, t) && Serial(acts, t, id.pair) && Calm(acts, id.pair)
    requires k < |acts| && InFlight(t[k], id) && !InFlight(t[k + 1], id)
    ensures id in t[k + 1].calls
    ensures ResultOf(t[k + 1].calls[id].pc.outcome) == PlainGet(t[k + 1].stores.rows, id.pair)
    ensures t[k].calls[id].op.Set? ==>
              id.pair in t[k + 1].stores.rows && t[k + 1].stores.rows[id.pair] == RowOf(t[k].calls[id].op)
  {
    assert t[k + 1] == Next(ttl, t[k], acts[k]);
    OnlyItsResumeFinishes(ttl, t[k], acts[k], id);
    var c, c' := ResumeSeen(ttl, acts, t, k, id);
    assert id == CallId(id.pair, id.serial);
    FinishLifts(ttl, t[k], id.pair, c, id.serial, t[k + 1], c');
  }

  // ---------- a script of calls, one after the other ----------

  datatype Event = Pass(seconds: nat) | Evicted(key: string) | Called(pair: Pair, op: Op)

  datatype Reached<S> = Reached(state: S, results: seq<Result>)

  function Play(ttl: Ttl, st: Stores, script: seq<Event>): Reached<Stores>
    decreases |script|
  {
    if script == [] then Reached(st, []) else
      match script[0]
      case Pass(seconds) => Play(ttl, st.(now := st.now + seconds), script[1..])
      case Evicted(key) => Play(ttl, st.(entries := st.entries - {key}), script[1..])
      case Called(p, op) =>
        var end := CallAlone(ttl, st, p, op, CALM);
        var rest := Play(ttl, end.stores, script[1..]);
        Reached(rest.state, [ResultOf(end.pc.outcome)] + rest.results)
  }

  function PlainSet(rows: map<Pair, Row>, p: Pair, op: Op): map<Pair, Row> {
    if op.Set? then rows[p := RowOf(op)] else rows
  }

  /** The same script against a plain map: no cache, no clock. */
  function PlainPlay(rows: map<Pair, Row>, script: seq<Event>): Reached<map<Pair, Row>>
    decreases |script|
  {
    if script == [] then Reached(rows, []) else
      match script[0]
      case Pass(_) => PlainPlay(rows, script[1..])
      case Evicted(_) => PlainPlay(rows, script[1..])
      case Called(p, op) =>
        var rows' := PlainSet(rows, p, op);
        var rest := PlainPlay(rows', script[1..]);
        Reached(rest.state, [PlainGet(rows', p)] + rest.results)
  }

  /** Every entry, live or not, is the text of the row under its key. */
  ghost predicate Coherent(st: Stores) {
    forall p | CacheKey(p) in st.entries ::
      && p in st.rows && RowToFlag(p.name, st.rows[p]).Some?
      && st.entries[CacheKey(p)].text == CacheText(RowToFlag(p.name, st.rows[p]).value)
  }

  lemma StoringKeepsCoherent(ttl: Ttl, st: Stores, p: Pair, flag: Flag)
    requires p in st.rows && RowToFlag(p.name, st.rows[p]) == Some(flag)
    requires forall q | q != p && CacheKey(q) in st.entries ::
               q in st.rows && RowToFlag(q.name, st.rows[q]).Some? &&
               st.entries[CacheKey(q)].text == CacheText(RowToFlag(q.name, st.rows[q]).value)
    ensures Coherent(st.SetString(CacheKey(p), CacheText(flag), ttl))
  {
    forall q | q != p ensures CacheKey(q) != CacheKey(p) {
      CacheKeyInjective(p, q);
    }
  }

  lemma CoherentReply(st: Stores, p: Pair)
    requires Coherent(st) && st.Live(CacheKey(p))
    ensures p in st.rows && CachedReply(st.GetString(CacheKey(p))) == RowReply(st, p)
    ensures RowReply(st, p).Present?
  {
    FlagJson.DecodeEncode(RowToFlag(p.name, st.rows[p]).value);
  }

  lemma GetIsPlain(ttl: Ttl, st: Stores, p: Pair)
    requires Coherent(st)
    ensures var end := CallAlone(ttl, st, p, Get, CALM);
            && ResultOf(end.pc.outcome) == PlainGet(st.rows, p)
            && end.stores.rows == st.rows && Coherent(end.stores)
  {
    GetPath(ttl, st, p, CALM);
    if st.Live(CacheKey(p)) {
      CoherentReply(st, p);
    } else if p in st.rows && p.name != "" {
      StoringKeepsCoherent(ttl, st, p, RowToFlag(p.name, st.rows[p]).value);
    }
  }

  lemma NamedSetIsPlain(ttl: Ttl, st: Stores, p: Pair, op: Op)
    requires Coherent(st) && op.Set? && p.name != ""
    ensures var end := CallAlone(ttl, st, p, op, CALM);
            && ResultOf(end.pc.outcome) == PlainGet(end.stores.rows, p)
            && end.stores.rows == st.rows[p := RowOf(op)] && Coherent(end.stores)
  {
    var flag := RowToFlag(p.name, RowOf(op)).value;
    NamedSetPath(ttl, st, p, op, flag);
    StoringKeepsCoherent(ttl, st.Commit(p, RowOf(op)), p, flag);
  }

  lemma UnnamedSetIsPlain(ttl: Ttl, st: Stores, p: Pair, op: Op)
    requires Coherent(st) && op.Set? && p.name == ""
    ensures var end := CallAlone(ttl, st, p, op, CALM);
            && ResultOf(end.pc.outcome) == PlainGet(end.stores.rows, p)
            && end.stores.rows == st.rows[p := RowOf(op)] && Coherent(end.stores)
  {
    UnnamedSetPath(ttl, st, p, op);
    assert CacheKey(p) !in st.entries;
  }

  lemma SetIsPlain(ttl: Ttl, st: Stores, p: Pair, op: Op)
    requires Coherent(st) && op.Set?
    ensures var end := CallAlone(ttl, st, p, op, CALM);
            && ResultOf(end.pc.outcome) == PlainGet(end.stores.rows, p)
            && end.stores.rows == st.rows[p := RowOf(op)] && Coherent(end.stores)
  {
    if p.name != "" {
      NamedSetIsPlain(ttl, st, p, op);
    } else {
      UnnamedSetIsPlain(ttl, st, p, op);
    }
  }

  /** What a caller can tell of a get running alone, its awaits free to raise. */
  lemma GetAnswers(ttl: Ttl, st: Stores, p: Pair, awaits: Awaits)
    ensures var end := CallAlone(ttl, st, p, Get, awaits);
            && end.stores.rows == st.rows
            && (awaits == CALM && Coherent(st) ==>
                  Coherent(end.stores) && ResultOf(end.pc.outcome) == PlainGet(st.rows, p))
  {
    GetPath(ttl, st, p, awaits);
    if awaits == CALM && Coherent(st) {
      GetIsPlain(ttl, st, p);
    }
  }

  /** What a caller can tell of a set running alone, its awaits free to raise. */
  lemma SetAnswers(ttl: Ttl, st: Stores, p: Pair, op: Op, awaits: Awaits)
    requires op.Set?
    ensures var end := CallAlone(ttl, st, p, op, awaits);
            var r := ResultOf(end.pc.outcome);
            && end.stores.rows == (if awaits.rowRead.Raises? || awaits.commit == Raises(false) then st.rows
                                   else st.rows[p := RowOf(op)])
            && (r.Returned? || awaits == CALM ==> r == PlainGet(end.stores.rows, p))
            && (awaits == CALM && Coherent(st) ==> Coherent(end.stores))
  {
    SetPath(ttl, st, p, op, awaits);
    CommitPath(ttl, st, p, op, awaits);
    if awaits == CALM && Coherent(st) {
      SetIsPlain(ttl, st, p, op);
    }
  }

  lemma GetHits(ttl: Ttl, st: Stores, p: Pair, flag: Flag)
    requires st.GetString(CacheKey(p)) == Some(CacheText(flag))
    ensures CallAlone(ttl, st, p, Get, CALM) == Progress(st, Done(Hit(flag)))
  {
    FlagJson.DecodeEncode(flag);
    GetPath(ttl, st, p, CALM);
  }

  lemma GetLoads(ttl: Ttl, st: Stores, p: Pair, flag: Flag)
    requires st.GetString(CacheKey(p)) == None && RowReply(st, p) == Present(flag)
    ensures CallAlone(ttl, st, p, Get, CALM) ==
            Progress(st.SetString(CacheKey(p), CacheText(flag), ttl), Done(Loaded(flag)))
  {
    GetPath(ttl, st, p, CALM);
  }

  /** An entry as its key finds it, some time after it was stored. */
  lemma FoundLater(st: Stores, key: string, text: string, ttl: Ttl, seconds: nat)
    ensures var stored := st.SetString(key, text, ttl);
            stored.(now := stored.now + seconds).GetString(key) == if seconds < ttl then Some(text) else None
  {
  }

  /** How long a stored flag lasts: for TTL seconds a get finds it in Redis and
      changes nothing, not even the expiry; from then on a get loads the row again. */
  lemma CachedForTtl(ttl: Ttl, st: Stores, p: Pair, op: Op, flag: Flag, seconds: nat)
    requires op.Set? && RowToFlag(p.name, RowOf(op)) == Some(flag)
    ensures var stored := CallAlone(ttl, st, p, op, CALM).stores;
            var later := stored.(now := stored.now + seconds);
            CallAlone(ttl, later, p, Get, CALM) ==
            if seconds < ttl then Progress(later, Done(Hit(flag)))
            else Progress(later.SetString(CacheKey(p), CacheText(flag), ttl), Done(Loaded(flag)))
  {
    NamedSetPath(ttl, st, p, op, flag);
    var stored := CallAlone(ttl, st, p, op, CALM).stores;
    var later := stored.(now := stored.now + seconds);
    FoundLater(st.Commit(p, RowOf(op)), CacheKey(p), CacheText(flag), ttl, seconds);
    if seconds < ttl {
      GetHits(ttl, later, p, flag);
    } else {
      GetLoads(ttl, later, p, flag);
    }
  }

  /** Serial refinement: over any script of non-overlapping calls, with time passing
      and entries evicted in between, the results are those of the plain map. */
  lemma {:induction false} RefinesPlainMap(ttl: Ttl, st: Stores, script: seq<Event>)
    requires Coherent(st)
    ensures var cached, plain := Play(ttl, st, script), PlainPlay(st.rows, script);
            cached.results == plain.results && cached.state.rows == plain.state && Coherent(cached.state)
    decreases |script|
  {
    if script == [] {
    } else {
      match script[0]
      case Pass(seconds) => RefinesPlainMap(ttl, st.(now := st.now + seconds), script[1..]);
      case Evicted(key) => RefinesPlainMap(ttl, st.(entries := st.entries - {key}), script[1..]);
      case Called(p, op) =>
        if op.Get? {
          GetIsPlain(ttl, st, p);
        } else {
          SetIsPlain(ttl, st, p, op);
        }
        RefinesPlainMap(ttl, CallAlone(ttl, st, p, op, CALM).stores, script[1..]);
    }
  }
}
