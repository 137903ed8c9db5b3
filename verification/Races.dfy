/** What overlapping calls can do to the cache: the staleness bound is reached, and
    the guarantees of serial runs do fail without seriality. */
module Races {
  import opened Prelude
  import opened FeatureFlags
  import opened Program
  import opened Storage
  import opened Interleaving
  import opened Independence
  import opened Staleness
  import OnePair

  const STAMP: Timestamp := RawTimestamp(2026, 1, 15, 12, 0, 0, 0)
  /** A pair whose flag validates. */
  type NamedPair = p: Pair | p.name != "" witness Pair("tenant-a", "dark_mode")

  const ON: Op := Set(true, "user-1", STAMP)
  const OFF: Op := Set(false, "user-1", STAMP)

  function ActionAt(p: NamedPair, k: nat, ttl: Ttl, delay: nat): Action
    requires k < 17
  {
    match k
    case 0 => Begin(CallId(p, 0), ON)
    case 1 => Resume(CallId(p, 0))
    case 2 => Resume(CallId(p, 0))
    case 3 => Resume(CallId(p, 0))
    case 4 => Evict(CacheKey(p))
    case 5 => Begin(CallId(p, 1), Get)
    case 6 => Resume(CallId(p, 1))
    case 7 => Resume(CallId(p, 1))
    case 8 => Begin(CallId(p, 2), OFF)
    case 9 => Resume(CallId(p, 2))
    case 10 => Resume(CallId(p, 2))
    case 11 => Resume(CallId(p, 2))
    case 12 => Tick(delay)
    case 13 => Resume(CallId(p, 1))
    case 14 => Tick(ttl - 1)
    case 15 => Begin(CallId(p, 3), Get)
    case _ => Resume(CallId(p, 3))
  }

  /** Call 0 switches the flag on; its entry is evicted. Call 1, a get, reads the row
      and is slow. Call 2 switches the flag off, in the table and in Redis. Then call 1
      writes the old flag over the refreshed entry, where call 3, a get, finds it in
      the last second of its life. */
  function SlowReader(p: NamedPair, ttl: Ttl, delay: nat): seq<Action> {
    seq(17, k requires 0 <= k < 17 => ActionAt(p, k, ttl, delay))
  }

  // ---------- the race, step by step, in the pair's own machine ----------

  const ON_ROW: Row := Row(true, STAMP, "user-1")
  const OFF_ROW: Row := Row(false, STAMP, "user-1")
  const OLD: OnePair.Sample := OnePair.Sample(0, 0)
  const NEW: OnePair.Sample := OnePair.Sample(1, 0)

  function NowAt(k: nat, ttl: Ttl, delay: nat): nat {
    if k < 13 then 0 else if k < 15 then delay else delay + ttl - 1
  }

  function VersionsAt(k: nat): seq<OnePair.Version> {
    if k < 3 then [] else if k < 11 then [OnePair.Version(ON_ROW, 0, true)]
    else [OnePair.Version(ON_ROW, 0, true), OnePair.Version(OFF_ROW, 0, false)]
  }

  function CachedAt(k: nat, ttl: Ttl, delay: nat): Option<OnePair.Cached> {
    if k == 4 then Some(OnePair.Cached(OLD, ttl)) else if k < 12 then None
    else if k < 14 then Some(OnePair.Cached(NEW, ttl)) else Some(OnePair.Cached(OLD, delay + ttl))
  }

  function OnAt(k: nat): Pc<OnePair.Sample> {
    if k < 2 then AtRowRead else if k < 3 then AtCommit(false, ON_ROW)
    else if k < 4 then AtRedisSet(OLD) else Done(Written(OLD))
  }

  function SlowAt(k: nat): Pc<OnePair.Sample> {
    if k < 7 then AtRedisGet else if k < 8 then AtRowRead
    else if k < 14 then AtRedisSet(OLD) else Done(Loaded(OLD))
  }

  function OffAt(k: nat): Pc<OnePair.Sample> {
    if k < 10 then AtRowRead else if k < 11 then AtCommit(true, OFF_ROW)
    else if k < 12 then AtRedisSet(NEW) else Done(Written(NEW))
  }

  function LateAt(k: nat): Pc<OnePair.Sample> {
    if k < 17 then AtRedisGet else Done(Hit(OLD))
  }

  function CallsAt(k: nat, ttl: Ttl, delay: nat): map<nat, Call<OnePair.Sample>> {
    (if k < 1 then map[] else map[0 := Call(ON, 0, 0, OnAt(k))]) +
    (if k < 6 then map[] else map[1 := Call(Get, 0, if k < 14 then 0 else delay, SlowAt(k))]) +
    (if k < 9 then map[] else map[2 := Call(OFF, 0, 0, OffAt(k))]) +
    (if k < 16 then map[] else map[3 := Call(Get, delay + ttl - 1, delay + ttl - 1, LateAt(k))])
  }

  function CellAt(k: nat, ttl: Ttl, delay: nat): OnePair.Cell {
    OnePair.Cell(NowAt(k, ttl, delay), VersionsAt(k), CachedAt(k, ttl, delay), CallsAt(k, ttl, delay))
  }

  function Cells(ttl: Ttl, delay: nat): seq<OnePair.Cell> {
    seq(18, k requires 0 <= k < 18 => CellAt(k, ttl, delay))
  }

  ghost predicate StepsAt(p: NamedPair, k: nat, ttl: Ttl, delay: nat)
    requires k < 17
  {
    CellAt(k + 1, ttl, delay) ==
    OnePair.Next(ConfigOf(ttl, p), CellAt(k, ttl, delay), ProjectAction(ActionAt(p, k, ttl, delay), p))
  }

  lemma FirstSetBegins(p: NamedPair, ttl: Ttl, delay: nat)
    ensures StepsAt(p, 0, ttl, delay) && StepsAt(p, 1, ttl, delay)
  {
  }

  lemma FirstSetCommits(p: NamedPair, ttl: Ttl, delay: nat)
    ensures StepsAt(p, 2, ttl, delay)
  {
  }

  lemma FirstSetEnds(p: NamedPair, ttl: Ttl, delay: nat)
    ensures StepsAt(p, 3, ttl, delay) && StepsAt(p, 4, ttl, delay)
  {
  }

  lemma SlowGetBegins(p: NamedPair, ttl: Ttl, delay: nat)
    ensures StepsAt(p, 5, ttl, delay) && StepsAt(p, 6, ttl, delay)
  {
  }

  lemma SlowGetReads(p: NamedPair, ttl: Ttl, delay: nat)
    ensures StepsAt(p, 7, ttl, delay)
  {
  }

  lemma SecondSetBegins(p: NamedPair, ttl: Ttl, delay: nat)
    ensures StepsAt(p, 8, ttl, delay)
  {
  }

  lemma SecondSetReads(p: NamedPair, ttl: Ttl, delay: nat)
    ensures StepsAt(p, 9, ttl, delay)
  {
  }

  lemma SecondSetCommits(p: NamedPair, ttl: Ttl, delay: nat)
    ensures StepsAt(p, 10, ttl, delay)
  {
  }

  lemma SecondSetEnds(p: NamedPair, ttl: Ttl, delay: nat)
    ensures StepsAt(p, 11, ttl, delay)
  {
  }

  lemma TimePasses(p: NamedPair, ttl: Ttl, delay: nat)
    ensures StepsAt(p, 12, ttl, delay) && StepsAt(p, 14, ttl, delay)
  {
  }

  lemma SlowGetWrites(p: NamedPair, ttl: Ttl, delay: nat)
    ensures StepsAt(p, 13, ttl, delay)
  {
  }

  lemma LateGetBegins(p: NamedPair, ttl: Ttl, delay: nat)
    ensures StepsAt(p, 15, ttl, delay)
  {
  }

  lemma LateGetHits(p: NamedPair, ttl: Ttl, delay: nat)
    ensures StepsAt(p, 16, ttl, delay)
  {
  }

  lemma EveryStep(p: NamedPair, k: nat, ttl: Ttl, delay: nat)
    requires k < 17
    ensures StepsAt(p, k, ttl, delay)
  {
    if k < 5 {
      FirstSetBegins(p, ttl, delay);
      FirstSetCommits(p, ttl, delay);
      FirstSetEnds(p, ttl, delay);
    } else if k < 8 {
      SlowGetBegins(p, ttl, delay);
      SlowGetReads(p, ttl, delay);
    } else if k < 12 {
      SecondSetBegins(p, ttl, delay);
      SecondSetReads(p, ttl, delay);
      SecondSetCommits(p, ttl, delay);
      SecondSetEnds(p, ttl, delay);
    } else {
      TimePasses(p, ttl, delay);
      SlowGetWrites(p, ttl, delay);
      LateGetBegins(p, ttl, delay);
      LateGetHits(p, ttl, delay);
    }
  }

  lemma CellsRun(p: NamedPair, ttl: Ttl, delay: nat)
    ensures OnePair.IsRun(ConfigOf(ttl, p), Project(SlowReader(p, ttl, delay), p), Cells(ttl, delay))
  {
    var ps, cs := Project(SlowReader(p, ttl, delay), p), Cells(ttl, delay);
    assert |cs| == |ps| + 1 && cs[0] == OnePair.Init();
    forall k | 0 <= k < |ps| ensures cs[k + 1] == OnePair.Next(ConfigOf(ttl, p), cs[k], ps[k]) {
      EveryStep(p, k, ttl, delay);
      assert StepsAt(p, k, ttl, delay);
    }
  }

  lemma RaceRuns(p: NamedPair, ttl: Ttl, delay: nat) returns (t: seq<Fleet>)
    ensures IsRun(ttl, SlowReader(p, ttl, delay), t) && |t| == 18
    ensures forall k | 0 <= k < |t| :: Matches(t[k], p, CellAt(k, ttl, delay))
  {
    CellsRun(p, ttl, delay);
    t := ProjectedRunLifts(ttl, SlowReader(p, ttl, delay), p, Cells(ttl, delay));
    forall k | 0 <= k < |t| ensures Matches(t[k], p, CellAt(k, ttl, delay)) {
      assert Cells(ttl, delay)[k] == CellAt(k, ttl, delay);
    }
  }

  // ---------- no store call fails, and no SET is later than the delay ----------

  lemma NothingFails(p: NamedPair, k: nat, ttl: Ttl, delay: nat)
    requires k < 17
    ensures !ActionAt(p, k, ttl, delay).Interrupt?
  {
  }

  /** The calls of the race that are resumed at their SET. */
  lemma WhoWrites(p: NamedPair, k: nat, ttl: Ttl, delay: nat)
    requires k < 17 && ActionAt(p, k, ttl, delay).Resume?
    requires var n := ActionAt(p, k, ttl, delay).id.serial;
             n in CellAt(k, ttl, delay).calls && CellAt(k, ttl, delay).calls[n].pc.AtRedisSet?
    ensures k in {3, 11, 13}
  {
  }

  lemma WritesInTime(k: nat, ttl: Ttl, delay: nat, c: OnePair.Cell, n: nat)
    requires k in {3, 11, 13} && c == CellAt(k, ttl, delay)
    requires n == (if k == 3 then 0 else if k == 11 then 2 else 1)
    ensures n in c.calls && c.now <= c.calls[n].since + delay
  {
  }

  lemma CellIsTimely(p: NamedPair, k: nat, ttl: Ttl, delay: nat, a: Action, c: OnePair.Cell)
    requires k < 17 && a == ActionAt(p, k, ttl, delay) && c == CellAt(k, ttl, delay)
    requires a.Resume? && a.id.serial in c.calls && c.calls[a.id.serial].pc.AtRedisSet?
    ensures c.now <= c.calls[a.id.serial].since + delay
  {
    WhoWrites(p, k, ttl, delay);
    WritesInTime(k, ttl, delay, c, a.id.serial);
  }

  /** A SET that is timely in the pair's machine is timely in the fleet. */
  lemma TimelyLifts(p: NamedPair, s: Fleet, a: Action, c: OnePair.Cell, delay: nat)
    requires Matches(s, p, c) && WritesCache(s, a, p)
    requires a.id.serial in c.calls && c.calls[a.id.serial].pc.AtRedisSet? ==>
               c.now <= c.calls[a.id.serial].since + delay
    ensures s.stores.now <= s.calls[a.id].since + delay
  {
    InFlightMatches(s, p, c, a.id.serial);
    assert a.id == CallId(p, a.id.serial);
  }

  lemma TimelyStep(p: NamedPair, k: nat, ttl: Ttl, delay: nat, s: Fleet, a: Action, c: OnePair.Cell)
    requires k < 17 && a == ActionAt(p, k, ttl, delay)
    requires c == CellAt(k, ttl, delay) && Matches(s, p, c)
    requires WritesCache(s, a, p)
    ensures s.stores.now <= s.calls[a.id].since + delay
  {
    NothingFails(p, k, ttl, delay);
    if a.id.serial in c.calls && c.calls[a.id.serial].pc.AtRedisSet? {
      CellIsTimely(p, k, ttl, delay, a, c);
    }
    TimelyLifts(p, s, a, c, delay);
  }

  lemma RaceIsTimely(p: NamedPair, ttl: Ttl, delay: nat, t: seq<Fleet>)
    requires |t| == 18 && forall k | 0 <= k < |t| :: Matches(t[k], p, CellAt(k, ttl, delay))
    ensures Timely(SlowReader(p, ttl, delay), t, p, delay)
    ensures forall k | 0 <= k < 17 :: !SlowReader(p, ttl, delay)[k].Interrupt?
  {
    var acts := SlowReader(p, ttl, delay);
    forall k | 0 <= k < |acts| && WritesCache(t[k], acts[k], p)
      ensures t[k].stores.now <= t[k].calls[acts[k].id].since + delay
    {
      TimelyStep(p, k, ttl, delay, t[k], acts[k], CellAt(k, ttl, delay));
    }
    forall k | 0 <= k < 17 ensures !acts[k].Interrupt? {
      NothingFails(p, k, ttl, delay);
    }
  }

  // ---------- where it leads ----------

  lemma CurrentInRace(p: NamedPair, k: nat, ttl: Ttl, delay: nat, s: Fleet)
    requires k <= 17 && Matches(s, p, CellAt(k, ttl, delay))
    ensures s.stores.now == NowAt(k, ttl, delay)
    ensures k >= 11 ==> CurrentFlag(s, p) == RowToFlag(p.name, OFF_ROW)
  {
    assert k >= 11 ==> VersionsAt(k)[|VersionsAt(k)| - 1].row == OFF_ROW;
  }

  lemma OldFlagOnlyAtStart(p: NamedPair, ttl: Ttl, delay: nat, t: seq<Fleet>, flag: Flag)
    requires |t| == 18 && forall k | 0 <= k < |t| :: Matches(t[k], p, CellAt(k, ttl, delay))
    requires RowToFlag(p.name, ON_ROW) == Some(flag)
    ensures forall j | 0 <= j <= 17 && CurrentFlag(t[j], p) == Some(flag) :: t[j].stores.now == 0
    ensures CurrentFlag(t[17], p) != Some(flag)
  {
    forall j | 0 <= j <= 17 ensures CurrentFlag(t[j], p) == Some(flag) ==> j < 11 && t[j].stores.now == 0 {
      CurrentInRace(p, j, ttl, delay, t[j]);
    }
  }

  /** What the set has just written is what the slow get writes over. */
  lemma RefreshedBefore(p: NamedPair, ttl: Ttl, delay: nat, s: Fleet)
    requires Matches(s, p, CellAt(13, ttl, delay))
    ensures CurrentFlag(s, p).Some? && CacheKey(p) in s.stores.entries
    ensures s.stores.entries[CacheKey(p)] == Entry(CacheText(CurrentFlag(s, p).value), ttl)
  {
    CurrentInRace(p, 13, ttl, delay, s);
    var c := CellAt(13, ttl, delay);
    assert c.cached == Some(OnePair.Cached(NEW, ttl)) && c.versions[1].row == OFF_ROW;
  }

  lemma LastCell(ttl: Ttl, delay: nat, c: OnePair.Cell)
    requires c == CellAt(17, ttl, delay)
    ensures forall n | n in c.calls :: c.calls[n].pc.Done?
    ensures 3 in c.calls && c.calls[3].begun == delay + ttl - 1 && c.calls[3].pc == Done(Hit(OLD))
    ensures c.Live() && c.cached.value.expiresAt == delay + ttl
    ensures |c.versions| == 2 && c.versions[0].row == ON_ROW
  {
  }

  lemma LastCallOf(p: NamedPair, s: Fleet, c: OnePair.Cell)
    requires Matches(s, p, c) && 3 in c.calls && c.calls[3].pc == Done(Hit(OLD))
    requires |c.versions| == 2 && c.versions[0].row == ON_ROW
    ensures CallId(p, 3) in s.calls && s.calls[CallId(p, 3)].begun == c.calls[3].begun
    ensures var pc := s.calls[CallId(p, 3)].pc;
            pc.Done? && pc.outcome.Hit? && Some(pc.outcome.found) == RowToFlag(p.name, ON_ROW)
  {
    InFlightMatches(s, p, c, 3);
  }

  lemma RaceEnds(p: NamedPair, ttl: Ttl, delay: nat, s: Fleet)
    requires Matches(s, p, CellAt(17, ttl, delay))
    ensures forall n: nat :: !InFlight(s, CallId(p, n))
    ensures CallId(p, 3) in s.calls && s.calls[CallId(p, 3)].begun == delay + ttl - 1
    ensures var pc := s.calls[CallId(p, 3)].pc;
            pc.Done? && pc.outcome.Hit? && Some(pc.outcome.found) == RowToFlag(p.name, ON_ROW)
    ensures s.stores.Live(CacheKey(p)) && s.stores.entries[CacheKey(p)].expiresAt == delay + ttl
  {
    var c := CellAt(17, ttl, delay);
    LastCell(ttl, delay, c);
    LastCallOf(p, s, c);
    forall n: nat ensures !InFlight(s, CallId(p, n)) {
      InFlightMatches(s, p, c, n);
    }
  }

  /** The bound of `BoundedStaleness` is reached, for every TTL and every delay, with
      no store call failing: here a get returns a flag that was current at no instant
      later than (start of the call - delay - TTL) plus one tick. A slow get has put
      that flag over the entry that a set had refreshed, so that, with no call in
      flight any more, the table says off and Redis on, until `delay` + TTL. */
  lemma BoundIsReached(p: NamedPair, ttl: Ttl, delay: nat) returns (t: seq<Fleet>, flag: Flag)
    ensures IsRun(ttl, SlowReader(p, ttl, delay), t) && Timely(SlowReader(p, ttl, delay), t, p, delay)
    ensures forall k | 0 <= k < 17 :: !SlowReader(p, ttl, delay)[k].Interrupt?
    ensures CurrentFlag(t[13], p).Some? && CacheKey(p) in t[13].stores.entries
    ensures t[13].stores.entries[CacheKey(p)] == Entry(CacheText(CurrentFlag(t[13], p).value), ttl)
    ensures CallId(p, 3) in t[17].calls && t[17].calls[CallId(p, 3)].pc == Done(Hit(flag))
    ensures forall j | 0 <= j <= 17 && CurrentFlag(t[j], p) == Some(flag) ::
              t[j].stores.now == t[17].calls[CallId(p, 3)].begun - delay - ttl + 1
    ensures forall n: nat :: !InFlight(t[17], CallId(p, n))
    ensures t[17].stores.Live(CacheKey(p)) && CurrentFlag(t[17], p) != Some(flag)
    ensures t[17].stores.entries[CacheKey(p)].expiresAt == delay + ttl
  {
    t := RaceRuns(p, ttl, delay);
    RaceIsTimely(p, ttl, delay, t);
    RefreshedBefore(p, ttl, delay, t[13]);
    RaceEnds(p, ttl, delay, t[17]);
    flag := t[17].calls[CallId(p, 3)].pc.outcome.found;
    OldFlagOnlyAtStart(p, ttl, delay, t, flag);
  }
}
