/** After the last commit to a pair, the cache comes to agree with the table
    without any assumption on how long calls take. */
module Convergence {
  import opened Prelude
  import opened FeatureFlags
  import opened Program
  import opened Storage
  import opened Interleaving
  import opened Independence
  import opened Staleness
  import OnePair
  import PairInvariants
  import FlagJson

  // ---------- in the pair's own machine ----------

  /** Seen from a state `start` with as many versions: calls begun since then carry
      the current version; and, once the calls begun before are over, so does
      every entry written since, while older entries expire by `deadline`. */
  ghost predicate Settling(c: OnePair.Cell, start: OnePair.Cell) {
    && c.versions == start.versions
    && (forall n | n in start.calls :: n in c.calls)
    && (forall n | n in start.calls && start.calls[n].pc.Done? :: c.calls[n].pc.Done?)
    && (forall n | n in c.calls && c.calls[n].pc.AtRedisSet? && n !in start.calls ::
          c.calls[n].pc.flag.version == |c.versions| - 1)
  }

  /** No call that was in flight in `start` is still in flight. */
  predicate Drained(c: OnePair.Cell, start: OnePair.Cell) {
    forall n | n in start.calls && OnePair.InFlight(start, n) :: n in c.calls && c.calls[n].pc.Done?
  }

  predicate Settled(c: OnePair.Cell, deadline: nat) {
    c.cached.Some? ==> c.cached.value.expiresAt <= deadline || c.cached.value.sample.version == |c.versions| - 1
  }

  lemma NextSettles(cfg: OnePair.Config, c: OnePair.Cell, a: OnePair.Action, start: OnePair.Cell)
    requires Settling(c, start)
    requires OnePair.Next(cfg, c, a).versions == c.versions
    ensures Settling(OnePair.Next(cfg, c, a), start)
  {
    if (a.Resume? || a.Interrupt?) && OnePair.InFlight(c, a.serial) && c.calls[a.serial].pc.AtCommit? {
      assert |c.versions + [OnePair.Version(c.calls[a.serial].pc.row, c.now, c.versions == [])]| != |c.versions|;
    }
  }

  lemma NextStaysSettled(cfg: OnePair.Config, c: OnePair.Cell, a: OnePair.Action, start: OnePair.Cell, deadline: nat)
    requires Settling(c, start) && Drained(c, start) && Settled(c, deadline)
    requires OnePair.Next(cfg, c, a).versions == c.versions
    ensures Settled(OnePair.Next(cfg, c, a), deadline)
    ensures Drained(OnePair.Next(cfg, c, a), start)
  {
  }

  lemma {:induction false} SettlingAt(cfg: OnePair.Config, acts: seq<OnePair.Action>, t: seq<OnePair.Cell>, i: nat, k: nat)
    requires OnePair.IsRun(cfg, acts, t) && i <= k < |t| && t[k].versions == t[i].versions
    ensures Settling(t[k], t[i])
    decreases k - i
  {
    if i == k {
    } else {
      PairInvariants.Grows(cfg, acts, t, i, k - 1);
      PairInvariants.Grows(cfg, acts, t, k - 1, k);
      SettlingAt(cfg, acts, t, i, k - 1);
      assert t[k] == OnePair.Next(cfg, t[k - 1], acts[k - 1]);
      NextSettles(cfg, t[k - 1], acts[k - 1], t[i]);
    }
  }

  lemma {:induction false} SettledAt(cfg: OnePair.Config, acts: seq<OnePair.Action>, t: seq<OnePair.Cell>, i: nat, j: nat, k: nat)
    requires OnePair.IsRun(cfg, acts, t) && i <= j <= k < |t|
    requires t[k].versions == t[i].versions && Drained(t[j], t[i])
    ensures Settled(t[k], t[j].now + cfg.ttl) && Drained(t[k], t[i])
    decreases k - j
  {
    if j == k {
      PairInvariants.InvAt(cfg, acts, t, j);
    } else {
      PairInvariants.Grows(cfg, acts, t, i, k - 1);
      PairInvariants.Grows(cfg, acts, t, k - 1, k);
      SettledAt(cfg, acts, t, i, j, k - 1);
      SettlingAt(cfg, acts, t, i, k - 1);
      assert t[k] == OnePair.Next(cfg, t[k - 1], acts[k - 1]);
      NextStaysSettled(cfg, t[k - 1], acts[k - 1], t[i], t[j].now + cfg.ttl);
    }
  }

  predicate GotVersion(call: Call<OnePair.Sample>) {
    call.pc.Done? && (call.pc.outcome.Hit? || call.pc.outcome.Loaded?)
  }

  /** The gets that are new since `start` and have returned a flag, returned the latest. */
  ghost predicate NewGetsCurrent(c: OnePair.Cell, start: OnePair.Cell) {
    forall n | n in c.calls && n !in start.calls && GotVersion(c.calls[n]) ::
      c.calls[n].pc.outcome.found.version == |c.versions| - 1
  }

  lemma NextGetsCurrent(cfg: OnePair.Config, c: OnePair.Cell, a: OnePair.Action, start: OnePair.Cell, deadline: nat)
    requires Settling(c, start) && Settled(c, deadline) && c.now >= deadline
    requires NewGetsCurrent(c, start) && OnePair.Next(cfg, c, a).versions == c.versions
    ensures NewGetsCurrent(OnePair.Next(cfg, c, a), start)
  {
  }

  lemma {:induction false} NewGetsCurrentAt(cfg: OnePair.Config, acts: seq<OnePair.Action>, t: seq<OnePair.Cell>,
                                            i: nat, j: nat, b: nat, k: nat)
    requires OnePair.IsRun(cfg, acts, t) && i <= j <= b <= k < |t|
    requires t[k].versions == t[i].versions && Drained(t[j], t[i]) && t[b].now >= t[j].now + cfg.ttl
    ensures NewGetsCurrent(t[k], t[b])
    decreases k - b
  {
    if k == b {
    } else {
      var m := k - 1;
      PairInvariants.Grows(cfg, acts, t, i, b);
      PairInvariants.Grows(cfg, acts, t, b, m);
      PairInvariants.Grows(cfg, acts, t, m, k);
      NewGetsCurrentAt(cfg, acts, t, i, j, b, m);
      SettledAt(cfg, acts, t, i, j, m);
      SettlingAt(cfg, acts, t, b, m);
      assert t[k] == OnePair.Next(cfg, t[m], acts[m]);
      NextGetsCurrent(cfg, t[m], acts[m], t[b], t[j].now + cfg.ttl);
    }
  }

  // ---------- in the fleet ----------

  /** The action commits a row of `p`, whether the call learns of it or not. */
  predicate CommitsTo(s: Fleet, a: Action, p: Pair) {
    && (a.Resume? || (a.Interrupt? && a.applied))
    && a.id.pair == p && InFlight(s, a.id) && s.calls[a.id].pc.AtCommit?
    && s.stores.CommitAccepted(p, s.calls[a.id].pc.rowFound)
  }

  ghost predicate NoCommit(acts: seq<Action>, t: seq<Fleet>, p: Pair, i: nat, k: nat)
    requires |t| == |acts| + 1 && i <= k < |t|
  {
    forall m | i <= m < k :: !CommitsTo(t[m], acts[m], p)
  }

  predicate PairCommits(c: OnePair.Cell, a: OnePair.Action) {
    && (a.Resume? || (a.Interrupt? && a.applied))
    && OnePair.InFlight(c, a.serial) && c.calls[a.serial].pc.AtCommit?
    && OnePair.CommitAccepted(c, c.calls[a.serial].pc.rowFound)
  }

  lemma SameVersions(cfg: OnePair.Config, c: OnePair.Cell, a: OnePair.Action)
    requires !PairCommits(c, a)
    ensures OnePair.Next(cfg, c, a).versions == c.versions
  {
  }

  lemma {:induction false} NoNewVersions(ttl: Ttl, acts: seq<Action>, t: seq<Fleet>, p: Pair, cs: seq<OnePair.Cell>, i: nat, k: nat)
    requires IsRun(ttl, acts, t) && OnePair.IsRun(ConfigOf(ttl, p), Project(acts, p), cs)
    requires i <= k < |t| && NoCommit(acts, t, p, i, k)
    ensures cs[k].versions == cs[i].versions
    decreases k - i
  {
    if i == k {
    } else {
      var m := k - 1;
      NoNewVersions(ttl, acts, t, p, cs, i, m);
      MatchesAt(ttl, acts, t, p, cs, m);
      var a := Project(acts, p)[m];
      assert a == ProjectAction(acts[m], p);
      assert cs[k] == OnePair.Next(ConfigOf(ttl, p), cs[m], a);
      assert !CommitsTo(t[m], acts[m], p);
      if a.Resume? || a.Interrupt? {
        InFlightMatches(t[m], p, cs[m], a.serial);
        assert acts[m].id == CallId(p, a.serial);
      }
      SameVersions(ConfigOf(ttl, p), cs[m], a);
    }
  }

  /** Every call of `p` in flight in `t[i]` has finished in `t[j]`. */
  ghost predicate Finished(s: Fleet, later: Fleet, p: Pair) {
    forall n: nat | InFlight(s, CallId(p, n)) :: CallId(p, n) in later.calls && !InFlight(later, CallId(p, n))
  }

  lemma FinishedDrains(s: Fleet, later: Fleet, p: Pair, c: OnePair.Cell, c': OnePair.Cell)
    requires Matches(s, p, c) && Matches(later, p, c') && Finished(s, later, p)
    ensures Drained(c', c)
  {
    forall n | n in c.calls && OnePair.InFlight(c, n) ensures n in c'.calls && c'.calls[n].pc.Done? {
      InFlightMatches(s, p, c, n);
      InFlightMatches(later, p, c', n);
    }
  }

  lemma SettledVersion(s: Fleet, p: Pair, c: OnePair.Cell, deadline: nat)
    requires Matches(s, p, c) && Settled(c, deadline)
    requires s.stores.now >= deadline && s.stores.Live(CacheKey(p))
    ensures c.cached.Some? && c.versions != [] && c.cached.value.sample.version == |c.versions| - 1
    ensures CurrentFlag(s, p) == RowToFlag(p.name, c.versions[|c.versions| - 1].row)
  {
  }

  /** A live entry past the deadline is the text of the current row. */
  lemma SettledText(s: Fleet, p: Pair, c: OnePair.Cell, deadline: nat)
    requires Matches(s, p, c) && Settled(c, deadline)
    requires s.stores.now >= deadline && s.stores.Live(CacheKey(p))
    ensures CurrentFlag(s, p).Some? && s.stores.GetString(CacheKey(p)) == Some(CacheText(CurrentFlag(s, p).value))
  {
    SettledVersion(s, p, c, deadline);
    var flag := RowToFlag(p.name, c.versions[c.cached.value.sample.version].row);
    assert s.stores.entries[CacheKey(p)].text == CacheText(flag.value);
  }

  /** Convergence. If nothing commits to `p` from position `i` to `k`, and every
      call of `p` in flight at `i` has finished by `j`, then TTL seconds after `j`
      every live cache entry of `p` is the text of the current row, even though
      calls begun after `i` keep running and may have hit stale entries. */
  lemma {:induction false} CacheConverges(ttl: Ttl, acts: seq<Action>, t: seq<Fleet>, p: Pair, i: nat, j: nat, k: nat)
    requires IsRun(ttl, acts, t) && i <= j <= k < |t|
    requires NoCommit(acts, t, p, i, k)
    requires Finished(t[i], t[j], p)
    requires t[k].stores.now >= t[j].stores.now + ttl
    ensures t[k].stores.Live(CacheKey(p)) ==>
              && CurrentFlag(t[k], p).Some?
              && t[k].stores.GetString(CacheKey(p)) == Some(CacheText(CurrentFlag(t[k], p).value))
  {
    var cfg, ps := ConfigOf(ttl, p), Project(acts, p);
    var cs := PairsAreIndependent(ttl, acts, t, p);
    FinishedDrains(t[i], t[j], p, cs[i], cs[j]);
    NoNewVersions(ttl, acts, t, p, cs, i, k);
    SettledAt(cfg, ps, cs, i, j, k);
    assert Matches(t[k], p, cs[k]) && Matches(t[j], p, cs[j]);
    if t[k].stores.Live(CacheKey(p)) {
      SettledText(t[k], p, cs[k], cs[j].now + ttl);
    }
  }

  /** From then on a `get_flag` that finds the pair in Redis returns the current flag. */
  lemma {:induction false} HitsConverge(ttl: Ttl, acts: seq<Action>, t: seq<Fleet>, p: Pair, i: nat, j: nat, k: nat)
    requires IsRun(ttl, acts, t) && i <= j <= k < |t|
    requires NoCommit(acts, t, p, i, k)
    requires Finished(t[i], t[j], p)
    requires t[k].stores.now >= t[j].stores.now + ttl && t[k].stores.Live(CacheKey(p))
    ensures CurrentFlag(t[k], p).Some?
    ensures Resumed(ttl, t[k].stores, p, Get, AtRedisGet).pc == Done(Hit(CurrentFlag(t[k], p).value))
  {
    CacheConverges(ttl, acts, t, p, i, j, k);
    FlagJson.DecodeEncode(CurrentFlag(t[k], p).value);
  }

  /** And every get begun from then on returns the current flag, hit or loaded, if
      it returns one. */
  lemma {:induction false} GetsConverge(ttl: Ttl, acts: seq<Action>, t: seq<Fleet>,
                                        i: nat, j: nat, b: nat, k: nat, id: CallId)
    requires IsRun(ttl, acts, t) && i <= j <= b <= k < |t|
    requires NoCommit(acts, t, id.pair, i, k) && Finished(t[i], t[j], id.pair)
    requires t[b].stores.now >= t[j].stores.now + ttl && id !in t[b].calls
    requires id in t[k].calls && GetReturned(t[k].calls[id].pc)
    ensures CurrentFlag(t[k], id.pair) == Some(t[k].calls[id].pc.outcome.found)
  {
    var p, n := id.pair, id.serial;
    var cs := PairsAreIndependent(ttl, acts, t, p);
    FinishedDrains(t[i], t[j], p, cs[i], cs[j]);
    NoNewVersions(ttl, acts, t, p, cs, i, k);
    assert Matches(t[j], p, cs[j]) && Matches(t[b], p, cs[b]) && Matches(t[k], p, cs[k]);
    NewGetsCurrentAt(ConfigOf(ttl, p), Project(acts, p), cs, i, j, b, k);
    InFlightMatches(t[b], p, cs[b], n);
    InFlightMatches(t[k], p, cs[k], n);
    assert id == CallId(p, n);
  }
}
