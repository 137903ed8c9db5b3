/** Two overlapping sets whose updates send only changed columns: the cache gets a
    flag that was never in the table. */
module ColumnRace {
  import opened Prelude
  import opened FeatureFlags
  import opened Program
  import opened Storage
  import opened Interleaving
  import opened Staleness
  import ColumnWrites

  const NOON: Timestamp := RawTimestamp(2026, 1, 15, 12, 0, 0, 0)

  /** A stored row and two overlapping sets of the pair `p`: `kept` sets the flag to
      what it is, `turned` sets it to the other value. */
  datatype RawScript = RawScript(p: Pair, stored: Row, kept: Row, turned: Row) {
    predicate Valid() {
      p.name != "" && kept != stored && kept.value == stored.value && turned.value != stored.value
    }

    function Merged(): Row {
      ColumnWrites.Merge(turned, stored, kept)
    }
  }

  type Script = r: RawScript | r.Valid()
    witness RawScript(Pair("tenant-a", "dark_mode"), Row(true, NOON, "user-1"), Row(true, NOON, "user-2"), Row(false, NOON, "user-3"))

  function SetOf(row: Row): Op {
    Set(row.value, row.updatedBy, row.updatedAt)
  }

  function FlagOf(r: Script, row: Row): Flag {
    Flag(r.p.name, row.value, row.updatedAt, row.updatedBy)
  }

  /** Call 0 has stored a flag. Calls 1 and 2 both load it; call 2 commits it turned;
      then call 1, which keeps its value, commits, and refreshes Redis. */
  function ActionAt(r: Script, k: nat): Action
    requires k < 10
  {
    match k
    case 0 => Begin(CallId(r.p, 0), SetOf(r.stored))
    case 1 => Resume(CallId(r.p, 0))
    case 2 => Resume(CallId(r.p, 0))
    case 3 => Begin(CallId(r.p, 1), SetOf(r.kept))
    case 4 => Resume(CallId(r.p, 1))
    case 5 => Begin(CallId(r.p, 2), SetOf(r.turned))
    case 6 => Resume(CallId(r.p, 2))
    case 7 => Resume(CallId(r.p, 2))
    case 8 => Resume(CallId(r.p, 1))
    case _ => Resume(CallId(r.p, 1))
  }

  function OverlappingSets(r: Script): seq<Action> {
    seq(10, k requires 0 <= k < 10 => ActionAt(r, k))
  }

  function RowsAt(r: Script, k: nat): map<Pair, Row> {
    if k < 3 then map[] else map[r.p := if k < 8 then r.stored else if k < 9 then r.turned else r.Merged()]
  }

  function FirstAt(r: Script, k: nat): Pc<Flag> {
    if k < 2 then AtRowRead else if k < 3 then AtCommit(false, r.stored) else AtRedisSet(FlagOf(r, r.stored))
  }

  function KeptOnAt(r: Script, k: nat): Pc<Flag> {
    if k < 5 then AtRowRead else if k < 9 then AtCommit(true, r.kept)
    else AtRedisSet(FlagOf(r, r.kept))
  }

  function OffAt(r: Script, k: nat): Pc<Flag> {
    if k < 7 then AtRowRead else if k < 8 then AtCommit(true, r.turned) else AtRedisSet(FlagOf(r, r.turned))
  }

  function CallsAt(r: Script, k: nat): map<CallId, Call<Flag>> {
    (if k < 1 then map[] else map[CallId(r.p, 0) := Call(SetOf(r.stored), 0, 0, FirstAt(r, k))]) +
    (if k < 4 then map[] else map[CallId(r.p, 1) := Call(SetOf(r.kept), 0, 0, KeptOnAt(r, k))]) +
    (if k < 6 then map[] else map[CallId(r.p, 2) := Call(SetOf(r.turned), 0, 0, OffAt(r, k))])
  }

  function LoadedAt(r: Script, k: nat): map<CallId, Row> {
    (if k < 5 then map[] else map[CallId(r.p, 1) := r.stored]) +
    (if k < 7 then map[] else map[CallId(r.p, 2) := r.stored])
  }

  /** The first ten states; the last action then writes Redis. */
  function StateAt(r: Script, k: nat): ColumnWrites.State {
    ColumnWrites.State(Fleet(Stores(0, RowsAt(r, k), map[]), CallsAt(r, k), 0, 0), LoadedAt(r, k))
  }

  ghost predicate StepsAt(r: Script, k: nat, ttl: Ttl)
    requires k < 9
  {
    StateAt(r, k + 1) == ColumnWrites.Next(ttl, StateAt(r, k), ActionAt(r, k))
  }

  // ---------- the steps of a set, in any state ----------

  /** The call of a set after a stretch of it that took no time. */
  function MovedCall(s: Fleet, id: CallId, pc: Pc<Flag>): map<CallId, Call<Flag>>
    requires id in s.calls
  {
    s.calls[id := s.calls[id].(pc := pc, since := s.stores.now)]
  }

  lemma Loads(ttl: Ttl, s: ColumnWrites.State, id: CallId)
    requires id in s.fleet.calls && s.fleet.calls[id].op.Set? && s.fleet.calls[id].pc == AtRowRead
    requires id.pair in s.fleet.stores.rows
    ensures ColumnWrites.Next(ttl, s, Resume(id)) ==
            s.(fleet := s.fleet.(calls := MovedCall(s.fleet, id, AtCommit(true, RowOf(s.fleet.calls[id].op)))),
               loaded := s.loaded[id := s.fleet.stores.rows[id.pair]])
  {
    assert !RowReply(s.fleet.stores, id.pair).Absent?;
  }

  lemma Commits(ttl: Ttl, s: ColumnWrites.State, id: CallId, row: Row, flag: Flag)
    requires id in s.fleet.calls && s.fleet.calls[id].op.Set? && s.fleet.calls[id].pc == AtCommit(true, row)
    requires id.pair in s.fleet.stores.rows && id in s.loaded && RowToFlag(id.pair.name, row) == Some(flag)
    ensures var rows := s.fleet.stores.rows;
            ColumnWrites.Next(ttl, s, Resume(id)) ==
            s.(fleet := s.fleet.(
                 stores := s.fleet.stores.Commit(id.pair, ColumnWrites.Merge(rows[id.pair], s.loaded[id], row)),
                 calls := MovedCall(s.fleet, id, AtRedisSet(flag))))
  {
    var rows := s.fleet.stores.rows;
    assert ColumnWrites.Updates(s, Resume(id));
    assert rows[id.pair := row][id.pair := ColumnWrites.Merge(rows[id.pair], s.loaded[id], row)] ==
           rows[id.pair := ColumnWrites.Merge(rows[id.pair], s.loaded[id], row)];
  }

  /** The state `s'` is the one that the commit leads to. */
  lemma CommitLeadsTo(ttl: Ttl, s: ColumnWrites.State, id: CallId, row: Row, flag: Flag, s': ColumnWrites.State)
    requires id in s.fleet.calls && s.fleet.calls[id].op.Set? && s.fleet.calls[id].pc == AtCommit(true, row)
    requires id.pair in s.fleet.stores.rows && id in s.loaded && RowToFlag(id.pair.name, row) == Some(flag)
    requires var rows := s.fleet.stores.rows;
             s'.fleet.stores == s.fleet.stores.Commit(id.pair, ColumnWrites.Merge(rows[id.pair], s.loaded[id], row))
    requires s'.fleet.calls == MovedCall(s.fleet, id, AtRedisSet(flag)) && s'.loaded == s.loaded
    requires s'.fleet.readsTotal == s.fleet.readsTotal && s'.fleet.writesTotal == s.fleet.writesTotal
    ensures ColumnWrites.Next(ttl, s, Resume(id)) == s'
  {
    Commits(ttl, s, id, row, flag);
  }

  lemma SetEnds(ttl: Ttl, s: ColumnWrites.State, id: CallId, flag: Flag)
    requires id in s.fleet.calls && s.fleet.calls[id].op.Set? && s.fleet.calls[id].pc == AtRedisSet(flag)
    ensures var s' := ColumnWrites.Next(ttl, s, Resume(id));
            && id in s'.fleet.calls && s'.fleet.calls[id].pc == Done(Written(flag))
            && s'.fleet.stores.GetString(CacheKey(id.pair)) == Some(CacheText(flag))
            && s'.fleet.stores.rows == s.fleet.stores.rows
  {
  }

  // ---------- the run ----------

  lemma FirstSet(r: Script, ttl: Ttl)
    ensures StepsAt(r, 0, ttl) && StepsAt(r, 1, ttl)
  {
  }

  lemma FirstCommit(r: Script, ttl: Ttl)
    ensures StepsAt(r, 2, ttl)
  {
  }

  lemma SecondBegins(r: Script, ttl: Ttl)
    ensures StepsAt(r, 3, ttl)
  {
  }

  lemma SecondLoads(r: Script, ttl: Ttl)
    ensures StepsAt(r, 4, ttl)
  {
    Loads(ttl, StateAt(r, 4), CallId(r.p, 1));
    assert CallsAt(r, 5) == MovedCall(StateAt(r, 4).fleet, CallId(r.p, 1), AtCommit(true, r.kept));
  }

  lemma ThirdBegins(r: Script, ttl: Ttl)
    ensures StepsAt(r, 5, ttl)
  {
  }

  lemma ThirdLoads(r: Script, ttl: Ttl)
    ensures StepsAt(r, 6, ttl)
  {
    Loads(ttl, StateAt(r, 6), CallId(r.p, 2));
    assert CallsAt(r, 7) == MovedCall(StateAt(r, 6).fleet, CallId(r.p, 2), AtCommit(true, r.turned));
  }

  lemma ThirdMoves(r: Script)
    ensures CallsAt(r, 8) == CallsAt(r, 7)[CallId(r.p, 2) := Call(SetOf(r.turned), 0, 0, AtRedisSet(FlagOf(r, r.turned)))]
  {
  }

  lemma ThirdAtCommit(r: Script)
    ensures var s, id := StateAt(r, 7), CallId(r.p, 2);
            && id in s.fleet.calls && s.fleet.calls[id] == Call(SetOf(r.turned), 0, 0, AtCommit(true, r.turned))
            && id in s.loaded && s.loaded[id] == r.stored && s.loaded == LoadedAt(r, 8)
            && s.fleet.stores == Stores(0, map[r.p := r.stored], map[])
  {
  }

  lemma ThirdCommits(r: Script, ttl: Ttl)
    ensures StepsAt(r, 7, ttl)
  {
    ThirdAtCommit(r);
    ThirdMoves(r);
    Commits(ttl, StateAt(r, 7), CallId(r.p, 2), r.turned, FlagOf(r, r.turned));
    assert ColumnWrites.Merge(r.stored, r.stored, r.turned) == r.turned;
    assert RowsAt(r, 8) == map[r.p := r.stored][r.p := r.turned];
  }

  lemma SecondMoves(r: Script)
    ensures CallsAt(r, 9) == CallsAt(r, 8)[CallId(r.p, 1) := Call(SetOf(r.kept), 0, 0, AtRedisSet(FlagOf(r, r.kept)))]
  {
  }

  lemma SecondAtCommit(r: Script)
    ensures var s, id := StateAt(r, 8), CallId(r.p, 1);
            && id in s.fleet.calls && s.fleet.calls[id] == Call(SetOf(r.kept), 0, 0, AtCommit(true, r.kept))
            && id in s.loaded && s.loaded[id] == r.stored && s.loaded == LoadedAt(r, 9)
            && s.fleet.stores == Stores(0, map[r.p := r.turned], map[])
  {
  }

  lemma AfterSecondCommit(r: Script)
    ensures StateAt(r, 9).loaded == StateAt(r, 8).loaded
    ensures StateAt(r, 9).fleet.calls == MovedCall(StateAt(r, 8).fleet, CallId(r.p, 1), AtRedisSet(FlagOf(r, r.kept)))
    ensures StateAt(r, 9).fleet.stores == StateAt(r, 8).fleet.stores.Commit(r.p, r.Merged())
  {
    SecondAtCommit(r);
    SecondMoves(r);
    assert RowsAt(r, 9) == map[r.p := r.turned][r.p := r.Merged()];
  }

  lemma SecondCommits(r: Script, ttl: Ttl)
    ensures StepsAt(r, 8, ttl)
  {
    SecondAtCommit(r);
    AfterSecondCommit(r);
    CommitLeadsTo(ttl, StateAt(r, 8), CallId(r.p, 1), r.kept, FlagOf(r, r.kept), StateAt(r, 9));
  }

  lemma EveryStep(r: Script, k: nat, ttl: Ttl)
    requires k < 9
    ensures StepsAt(r, k, ttl)
  {
    if k < 3 {
      FirstSet(r, ttl);
      FirstCommit(r, ttl);
    } else if k < 7 {
      SecondBegins(r, ttl);
      SecondLoads(r, ttl);
      ThirdBegins(r, ttl);
      ThirdLoads(r, ttl);
    } else {
      ThirdCommits(r, ttl);
      SecondCommits(r, ttl);
    }
  }

  lemma NeverInTable(r: Script, k: nat)
    requires k <= 9
    ensures CurrentFlag(StateAt(r, k).fleet, r.p) != Some(FlagOf(r, r.kept))
    ensures k == 9 ==> CurrentFlag(StateAt(r, k).fleet, r.p) == Some(FlagOf(r, r.Merged()))
  {
  }

  function RaceStates(r: Script, ttl: Ttl): seq<ColumnWrites.State> {
    seq(11, k requires 0 <= k < 11 => if k < 10 then StateAt(r, k) else ColumnWrites.Next(ttl, StateAt(r, 9), ActionAt(r, 9)))
  }

  lemma RaceRuns(r: Script, ttl: Ttl)
    ensures ColumnWrites.IsRun(ttl, OverlappingSets(r), RaceStates(r, ttl))
  {
    var t, acts := RaceStates(r, ttl), OverlappingSets(r);
    assert t[0] == ColumnWrites.Init();
    forall k | 0 <= k < 10 ensures t[k + 1] == ColumnWrites.Next(ttl, t[k], acts[k]) {
      if k < 9 {
        EveryStep(r, k, ttl);
        assert StepsAt(r, k, ttl);
      }
    }
  }

  lemma BeforeItsSet(r: Script)
    ensures var s := StateAt(r, 9).fleet;
            && CallId(r.p, 1) in s.calls && s.calls[CallId(r.p, 1)].op.Set?
            && s.calls[CallId(r.p, 1)].pc == AtRedisSet(FlagOf(r, r.kept))
  {
  }

  lemma RaceEnds(r: Script, ttl: Ttl)
    ensures var flag, s := FlagOf(r, r.kept), ColumnWrites.Next(ttl, StateAt(r, 9), Resume(CallId(r.p, 1)));
            && s.fleet.stores.GetString(CacheKey(r.p)) == Some(CacheText(flag))
            && CallId(r.p, 1) in s.fleet.calls && s.fleet.calls[CallId(r.p, 1)].pc == Done(Written(flag))
            && CurrentFlag(s.fleet, r.p) == Some(FlagOf(r, r.Merged())) && r.Merged().value != flag.enabled
  {
    BeforeItsSet(r);
    SetEnds(ttl, StateAt(r, 9), CallId(r.p, 1), FlagOf(r, r.kept));
    NeverInTable(r, 9);
  }

  lemma RaceHides(r: Script, ttl: Ttl, k: nat)
    requires k < 10
    ensures CurrentFlag(RaceStates(r, ttl)[k].fleet, r.p) != Some(FlagOf(r, r.kept))
  {
    NeverInTable(r, k);
    assert RaceStates(r, ttl)[k] == StateAt(r, k);
  }

  /** With column-wise updates, overlapping sets break provenance: the table ends
      with the flag turned, Redis with a flag of the other value that no state of the
      run has in its table, and the set that put it there has returned it. */
  lemma NeverStoredButCached(r: Script, ttl: Ttl) returns (t: seq<ColumnWrites.State>, flag: Flag)
    ensures ColumnWrites.IsRun(ttl, OverlappingSets(r), t)
    ensures forall k | 0 <= k <= 10 :: CurrentFlag(t[k].fleet, r.p) != Some(flag)
    ensures t[10].fleet.stores.GetString(CacheKey(r.p)) == Some(CacheText(flag))
    ensures CallId(r.p, 1) in t[10].fleet.calls && t[10].fleet.calls[CallId(r.p, 1)].pc == Done(Written(flag))
    ensures CurrentFlag(t[10].fleet, r.p) == Some(FlagOf(r, r.Merged())) && flag.enabled != r.Merged().value
  {
    t, flag := RaceStates(r, ttl), FlagOf(r, r.kept);
    RaceRuns(r, ttl);
    RaceEnds(r, ttl);
    forall k | 0 <= k < 10 ensures CurrentFlag(t[k].fleet, r.p) != Some(flag) {
      RaceHides(r, ttl, k);
    }
  }
}
