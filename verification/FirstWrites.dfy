/** Racing first writes, and rows that never disappear. */
module FirstWrites {
  import opened Prelude
  import opened FeatureFlags
  import opened Program
  import opened Storage
  import opened Interleaving
  import opened Independence
  import opened Convergence

  /** The action inserts the row of `p`: its call had read no row. */
  predicate InsertsInto(s: Fleet, a: Action, p: Pair) {
    CommitsTo(s, a, p) && !s.calls[a.id].pc.rowFound
  }

  lemma {:induction false} RowsStay(ttl: Ttl, acts: seq<Action>, t: seq<Fleet>, j: nat, k: nat)
    requires IsRun(ttl, acts, t) && j <= k < |t|
    ensures t[j].stores.rows.Keys <= t[k].stores.rows.Keys
    decreases k - j
  {
    if j == k {
    } else {
      RowsStay(ttl, acts, t, j, k - 1);
      assert t[k] == Next(ttl, t[k - 1], acts[k - 1]);
    }
  }

  /** In every run, at most one insert per pair commits. */
  lemma OneInsertPerPair(ttl: Ttl, acts: seq<Action>, t: seq<Fleet>, p: Pair, j: nat, k: nat)
    requires IsRun(ttl, acts, t) && j < |acts| && k < |acts|
    requires InsertsInto(t[j], acts[j], p) && InsertsInto(t[k], acts[k], p)
    ensures j == k
  {
    assert t[j + 1] == Next(ttl, t[j], acts[j]) && t[k + 1] == Next(ttl, t[k], acts[k]);
    if j < k {
      RowsStay(ttl, acts, t, j + 1, k);
    } else if k < j {
      RowsStay(ttl, acts, t, k + 1, j);
    }
  }

  /** The call fails at its await; table, cache, clock, counters and all other
      calls are as before. */
  function FailedOnly(s: Fleet, id: CallId): Fleet
    requires id in s.calls
  {
    s.(calls := s.calls[id := s.calls[id].(pc := Done(Failed), since := s.stores.now)])
  }

  /** A call that read no row and reaches its commit when there is one. */
  lemma LosingInsertFails(ttl: Ttl, s: Fleet, a: Action)
    requires (a.Resume? || a.Interrupt?) && InFlight(s, a.id) && a.id.pair in s.stores.rows
    requires s.calls[a.id].pc.AtCommit? && !s.calls[a.id].pc.rowFound
    ensures Next(ttl, s, a) == FailedOnly(s, a.id)
  {
  }

  /** Once one call has inserted the row, every other call that also read no row
      fails at its commit, and does nothing else. */
  lemma OtherFirstWritesFail(ttl: Ttl, acts: seq<Action>, t: seq<Fleet>, p: Pair, j: nat, k: nat)
    requires IsRun(ttl, acts, t) && j < k < |acts| && InsertsInto(t[j], acts[j], p)
    requires (acts[k].Resume? || acts[k].Interrupt?) && acts[k].id.pair == p && InFlight(t[k], acts[k].id)
    requires t[k].calls[acts[k].id].pc.AtCommit? && !t[k].calls[acts[k].id].pc.rowFound
    ensures t[k + 1] == FailedOnly(t[k], acts[k].id)
  {
    assert t[j + 1] == Next(ttl, t[j], acts[j]) && t[k + 1] == Next(ttl, t[k], acts[k]);
    RowsStay(ttl, acts, t, j + 1, k);
    LosingInsertFails(ttl, t[k], acts[k]);
  }

  /** Missing flags are never cached: an entry, live or not, implies a stored row. */
  lemma EntryImpliesRow(ttl: Ttl, acts: seq<Action>, t: seq<Fleet>, k: nat, p: Pair)
    requires IsRun(ttl, acts, t) && k < |t| && CacheKey(p) in t[k].stores.entries
    ensures p in t[k].stores.rows
  {
    var cs := PairsAreIndependent(ttl, acts, t, p);
    assert Matches(t[k], p, cs[k]);
  }

  /** The call, if it has begun, has not ended as not found. */
  predicate NotMissed(s: Fleet, id: CallId) {
    id in s.calls ==> s.calls[id].pc != Done(NotFound)
  }

  lemma NextNotMissed(ttl: Ttl, s: Fleet, a: Action, id: CallId)
    requires id.pair in s.stores.rows && NotMissed(s, id)
    ensures NotMissed(Next(ttl, s, a), id)
  {
    assert !RowReply(s.stores, id.pair).Absent?;
  }

  /** Once a set of the pair has committed, a get begun afterwards never ends with
      `FeatureFlagNotFoundError`, whatever else runs meanwhile. */
  lemma {:induction false} NeverDisappears(ttl: Ttl, acts: seq<Action>, t: seq<Fleet>, i: nat, k: nat, id: CallId)
    requires IsRun(ttl, acts, t) && i <= k < |t|
    requires id.pair in t[i].stores.rows && id !in t[i].calls
    ensures id in t[k].calls ==> t[k].calls[id].pc != Done(NotFound)
    decreases k - i
  {
    if i == k {
    } else {
      NeverDisappears(ttl, acts, t, i, k - 1, id);
      RowsStay(ttl, acts, t, i, k - 1);
      assert t[k] == Next(ttl, t[k - 1], acts[k - 1]);
      NextNotMissed(ttl, t[k - 1], acts[k - 1], id);
    }
  }
}
