/** Runs in which the calls of a pair do not overlap, with a failure allowed at
    every await. */
module SerialRuns {
  import opened Prelude
  import opened FeatureFlags
  import opened Program
  import opened Storage
  import opened Interleaving
  import opened Independence
  import opened Staleness
  import opened Convergence
  import OnePair
  import PairInvariants

  // ---------- in the pair's own machine ----------

  ghost predicate PairSerial(acts: seq<OnePair.Action>, t: seq<OnePair.Cell>)
    requires |t| == |acts| + 1
  {
    forall k | 0 <= k < |acts| && acts[k].Begin? :: forall n | n in t[k].calls :: t[k].calls[n].pc.Done?
  }

  /** One call at a time, and it carries the latest version. */
  ghost predicate OneCarriesLatest(c: OnePair.Cell) {
    && (forall m, n | OnePair.InFlight(c, m) && OnePair.InFlight(c, n) :: m == n)
    && (forall n | n in c.calls && c.calls[n].pc.AtRedisSet? :: c.calls[n].pc.flag.version == |c.versions| - 1)
  }

  /** An entry that has been overtaken expires a TTL after the overtaking commit. */
  predicate OvertakenExpires(cfg: OnePair.Config, c: OnePair.Cell) {
    c.cached.Some? ==>
      var v := c.cached.value.sample.version;
      v < |c.versions| - 1 ==> c.cached.value.expiresAt <= c.versions[v + 1].at + cfg.ttl
  }

  /** No entry is older than what a get has returned. */
  ghost predicate EntryNotOlder(c: OnePair.Cell) {
    forall n | n in c.calls && GotVersion(c.calls[n]) && c.cached.Some? ::
      c.calls[n].pc.outcome.found.version <= c.cached.value.sample.version
  }

  ghost predicate SerialInv(cfg: OnePair.Config, c: OnePair.Cell) {
    OneCarriesLatest(c) && OvertakenExpires(cfg, c) && EntryNotOlder(c)
  }

  lemma OthersDone(c: OnePair.Cell, id: nat)
    requires OneCarriesLatest(c) && OnePair.InFlight(c, id)
    ensures forall n | n in c.calls && n != id :: c.calls[n].pc.Done?
  {
    forall n | n in c.calls && n != id ensures c.calls[n].pc.Done? {
      assert OnePair.InFlight(c, n) ==> n == id;
    }
  }

  lemma NextKeepsOne(cfg: OnePair.Config, c: OnePair.Cell, a: OnePair.Action)
    requires OneCarriesLatest(c)
    requires a.Begin? ==> forall n | n in c.calls :: c.calls[n].pc.Done?
    ensures OneCarriesLatest(OnePair.Next(cfg, c, a))
  {
    var c' := OnePair.Next(cfg, c, a);
    if (a.Resume? || a.Interrupt?) && OnePair.InFlight(c, a.serial) {
      OthersDone(c, a.serial);
    }
    if c'.calls == c.calls {
      assert forall n :: OnePair.InFlight(c', n) <==> OnePair.InFlight(c, n);
    } else {
      assert forall n | n in c'.calls && n != a.serial :: c'.calls[n].pc.Done?;
    }
  }

  lemma NextKeepsEntry(cfg: OnePair.Config, c: OnePair.Cell, a: OnePair.Action)
    requires PairInvariants.Inv(cfg, c) && SerialInv(cfg, c)
    ensures OvertakenExpires(cfg, OnePair.Next(cfg, c, a))
  {
    if (a.Resume? || a.Interrupt?) && OnePair.InFlight(c, a.serial) {
      assert PairInvariants.CallInv(c, c.calls[a.serial]);
    }
  }

  lemma NextKeepsNotOlder(cfg: OnePair.Config, c: OnePair.Cell, a: OnePair.Action)
    requires PairInvariants.Inv(cfg, c) && SerialInv(cfg, c)
    ensures EntryNotOlder(OnePair.Next(cfg, c, a))
  {
    var c' := OnePair.Next(cfg, c, a);
    forall n | n in c'.calls && GotVersion(c'.calls[n]) && c'.cached.Some?
      ensures c'.calls[n].pc.outcome.found.version <= c'.cached.value.sample.version
    {
      if n in c.calls {
        assert PairInvariants.CallInv(c, c.calls[n]);
      }
    }
  }

  lemma NextKeepsSerial(cfg: OnePair.Config, c: OnePair.Cell, a: OnePair.Action)
    requires PairInvariants.Inv(cfg, c) && SerialInv(cfg, c)
    requires a.Begin? ==> forall n | n in c.calls :: c.calls[n].pc.Done?
    ensures SerialInv(cfg, OnePair.Next(cfg, c, a))
  {
    NextKeepsOne(cfg, c, a);
    NextKeepsEntry(cfg, c, a);
    NextKeepsNotOlder(cfg, c, a);
  }

  lemma {:induction false} SerialAt(cfg: OnePair.Config, acts: seq<OnePair.Action>, t: seq<OnePair.Cell>, k: nat)
    requires OnePair.IsRun(cfg, acts, t) && PairSerial(acts, t) && k < |t|
    ensures SerialInv(cfg, t[k])
  {
    if k == 0 {
    } else {
      SerialAt(cfg, acts, t, k - 1);
      PairInvariants.InvAt(cfg, acts, t, k - 1);
      assert t[k] == OnePair.Next(cfg, t[k - 1], acts[k - 1]);
      NextKeepsSerial(cfg, t[k - 1], acts[k - 1]);
    }
  }

  /** What call `n` will return, or has returned as a get, is no older than `version`. */
  predicate NotOlder(c: OnePair.Cell, n: nat, version: nat) {
    n in c.calls ==>
      && (GotVersion(c.calls[n]) ==> version <= c.calls[n].pc.outcome.found.version)
      && (c.calls[n].pc.AtRedisSet? ==> version <= c.calls[n].pc.flag.version)
  }

  lemma NextNotOlder(cfg: OnePair.Config, c: OnePair.Cell, a: OnePair.Action, g: nat, n: nat)
    requires PairInvariants.Inv(cfg, c) && SerialInv(cfg, c)
    requires g in c.calls && GotVersion(c.calls[g])
    requires NotOlder(c, n, c.calls[g].pc.outcome.found.version)
    ensures NotOlder(OnePair.Next(cfg, c, a), n, c.calls[g].pc.outcome.found.version)
    ensures g in OnePair.Next(cfg, c, a).calls && OnePair.Next(cfg, c, a).calls[g] == c.calls[g]
  {
    assert PairInvariants.CallInv(c, c.calls[g]);
  }

  lemma {:induction false} NotOlderAt(cfg: OnePair.Config, acts: seq<OnePair.Action>, t: seq<OnePair.Cell>, g: nat, n: nat, i: nat, k: nat)
    requires OnePair.IsRun(cfg, acts, t) && PairSerial(acts, t) && i <= k < |t|
    requires g in t[i].calls && GotVersion(t[i].calls[g]) && n !in t[i].calls
    ensures NotOlder(t[k], n, t[i].calls[g].pc.outcome.found.version)
    ensures g in t[k].calls && t[k].calls[g] == t[i].calls[g]
    decreases k - i
  {
    if i == k {
    } else {
      NotOlderAt(cfg, acts, t, g, n, i, k - 1);
      PairInvariants.InvAt(cfg, acts, t, k - 1);
      SerialAt(cfg, acts, t, k - 1);
      assert t[k] == OnePair.Next(cfg, t[k - 1], acts[k - 1]);
      NextNotOlder(cfg, t[k - 1], acts[k - 1], g, n);
    }
  }

  /** The position of the commit that made version `v`. */
  lemma {:induction false} CommitOf(cfg: OnePair.Config, acts: seq<OnePair.Action>, t: seq<OnePair.Cell>, k: nat, v: nat)
      returns (j: nat)
    requires OnePair.IsRun(cfg, acts, t) && k < |t| && v < |t[k].versions|
    ensures j < k && |t[j].versions| == v && |t[j + 1].versions| == v + 1
    ensures t[j].now == t[k].versions[v].at && t[j].versions <= t[k].versions
    decreases k
  {
    assert t[k] == OnePair.Next(cfg, t[k - 1], acts[k - 1]);
    if v < |t[k - 1].versions| {
      j := CommitOf(cfg, acts, t, k - 1, v);
      PairInvariants.Grows(cfg, acts, t, k - 1, k);
    } else {
      j := k - 1;
    }
  }

  // ---------- in the fleet ----------

  /** No call of `p` begins while another call of `p` is in flight. */
  ghost predicate Serial(acts: seq<Action>, t: seq<Fleet>, p: Pair)
    requires |t| == |acts| + 1
  {
    forall k | 0 <= k < |acts| && acts[k].Begin? && acts[k].id.pair == p ::
      forall n: nat :: !InFlight(t[k], CallId(p, n))
  }

  lemma SerialProjects(ttl: Ttl, acts: seq<Action>, t: seq<Fleet>, p: Pair, cs: seq<OnePair.Cell>)
    requires IsRun(ttl, acts, t) && OnePair.IsRun(ConfigOf(ttl, p), Project(acts, p), cs)
    requires Serial(acts, t, p)
    ensures PairSerial(Project(acts, p), cs)
  {
    var ps := Project(acts, p);
    forall k, n | 0 <= k < |ps| && ps[k].Begin? && n in cs[k].calls ensures cs[k].calls[n].pc.Done? {
      MatchesAt(ttl, acts, t, p, cs, k);
      InFlightMatches(t[k], p, cs[k], n);
      assert ps[k] == ProjectAction(acts[k], p);
      assert !InFlight(t[k], CallId(p, n));
    }
  }

  lemma CommitLifts(ttl: Ttl, acts: seq<Action>, t: seq<Fleet>, p: Pair, cs: seq<OnePair.Cell>, j: nat)
    requires IsRun(ttl, acts, t) && OnePair.IsRun(ConfigOf(ttl, p), Project(acts, p), cs)
    requires j < |acts| && cs[j + 1].versions != cs[j].versions
    ensures CommitsTo(t[j], acts[j], p)
  {
    var a := Project(acts, p)[j];
    assert cs[j + 1] == OnePair.Next(ConfigOf(ttl, p), cs[j], a);
    MatchesAt(ttl, acts, t, p, cs, j);
    if !PairCommits(cs[j], a) {
      SameVersions(ConfigOf(ttl, p), cs[j], a);
      assert false;
    }
    InFlightMatches(t[j], p, cs[j], a.serial);
    assert a == ProjectAction(acts[j], p);
    assert acts[j].id == CallId(p, a.serial);
  }

  predicate IsStale(s: Fleet, p: Pair) {
    && CacheKey(p) in s.stores.entries
    && (CurrentFlag(s, p).None? || s.stores.entries[CacheKey(p)].text != CacheText(CurrentFlag(s, p).value))
  }

  /** A stale entry has, in the pair's machine, a version `v` that was overtaken. */
  lemma StaleVersion(ttl: Ttl, s: Fleet, p: Pair, c: OnePair.Cell) returns (v: nat)
    requires Matches(s, p, c) && SerialInv(ConfigOf(ttl, p), c) && IsStale(s, p)
    ensures v < |c.versions| - 1
    ensures s.stores.entries[CacheKey(p)].expiresAt <= c.versions[v + 1].at + ttl
    ensures var flag := RowToFlag(p.name, c.versions[v].row);
            flag.Some? && s.stores.entries[CacheKey(p)].text == CacheText(flag.value)
  {
    v := c.cached.value.sample.version;
  }

  lemma CurrentVersion(s: Fleet, p: Pair, c: OnePair.Cell)
    requires Matches(s, p, c) && c.versions != []
    ensures CurrentFlag(s, p) == RowToFlag(p.name, c.versions[|c.versions| - 1].row)
  {
  }

  /** The commit that overtook version `v`, in the fleet. */
  lemma OvertakenBy(ttl: Ttl, acts: seq<Action>, t: seq<Fleet>, p: Pair, cs: seq<OnePair.Cell>, k: nat, v: nat)
      returns (j: nat)
    requires IsRun(ttl, acts, t) && OnePair.IsRun(ConfigOf(ttl, p), Project(acts, p), cs)
    requires k < |t| && v + 1 < |cs[k].versions|
    ensures j < k && CommitsTo(t[j], acts[j], p)
    ensures CurrentFlag(t[j], p) == RowToFlag(p.name, cs[k].versions[v].row)
    ensures t[j].stores.now == cs[k].versions[v + 1].at
  {
    j := CommitOf(ConfigOf(ttl, p), Project(acts, p), cs, k, v + 1);
    CommitLifts(ttl, acts, t, p, cs, j);
    MatchesAt(ttl, acts, t, p, cs, j);
    CurrentVersion(t[j], p, cs[j]);
    assert cs[j].versions[v] == cs[k].versions[v];
  }

  lemma SerialSeen(ttl: Ttl, acts: seq<Action>, t: seq<Fleet>, p: Pair, k: nat) returns (cs: seq<OnePair.Cell>)
    requires IsRun(ttl, acts, t) && Serial(acts, t, p) && k < |t|
    ensures OnePair.IsRun(ConfigOf(ttl, p), Project(acts, p), cs) && |cs| == |t|
    ensures Matches(t[k], p, cs[k]) && SerialInv(ConfigOf(ttl, p), cs[k])
  {
    cs := PairsAreIndependent(ttl, acts, t, p);
    SerialProjects(ttl, acts, t, p, cs);
    SerialAt(ConfigOf(ttl, p), Project(acts, p), cs, k);
  }

  /** A cache entry that differs from its row is the flag that some commit has
      overwritten, and it expires no later than TTL after that commit. */
  lemma {:induction false} StaleEntryExpires(ttl: Ttl, acts: seq<Action>, t: seq<Fleet>, p: Pair, k: nat) returns (j: nat)
    requires IsRun(ttl, acts, t) && Serial(acts, t, p) && k < |t| && IsStale(t[k], p)
    ensures j < k && CommitsTo(t[j], acts[j], p)
    ensures CurrentFlag(t[j], p).Some? &&
            t[k].stores.entries[CacheKey(p)].text == CacheText(CurrentFlag(t[j], p).value)
    ensures t[k].stores.entries[CacheKey(p)].expiresAt <= t[j].stores.now + ttl
  {
    var cs := SerialSeen(ttl, acts, t, p, k);
    var v := StaleVersion(ttl, t[k], p, cs[k]);
    j := OvertakenBy(ttl, acts, t, p, cs, k, v);
  }

  /** The gets ended one after the other: each had ended, at its position, before
      the next one began. */
  ghost predicate Successive(t: seq<Fleet>, p: Pair, gets: seq<CallId>, ended: seq<nat>) {
    && |gets| == |ended|
    && (forall m | 0 <= m < |gets| :: gets[m].pair == p && ended[m] < |t| &&
                                      gets[m] in t[ended[m]].calls && GetReturned(t[ended[m]].calls[gets[m]].pc))
    && (forall m | 0 < m < |gets| :: ended[m - 1] <= ended[m] && gets[m] !in t[ended[m - 1]].calls)
  }

  /** Position `j` shows the flag that the get `g`, ended at `k`, returned. */
  ghost predicate Shows(t: seq<Fleet>, p: Pair, cs: seq<OnePair.Cell>, g: CallId, k: nat, j: nat) {
    && j <= k < |t| == |cs| && g.pair == p
    && g in t[k].calls && GetReturned(t[k].calls[g].pc)
    && CurrentFlag(t[j], p) == Some(t[k].calls[g].pc.outcome.found)
    && g.serial in cs[k].calls && GotVersion(cs[k].calls[g.serial])
    && |cs[j].versions| == cs[k].calls[g.serial].pc.outcome.found.version + 1
  }

  /** Where the flag of one get was current. */
  lemma SeenAt(ttl: Ttl, acts: seq<Action>, t: seq<Fleet>, p: Pair, cs: seq<OnePair.Cell>, g: CallId, k: nat) returns (j: nat)
    requires IsRun(ttl, acts, t) && OnePair.IsRun(ConfigOf(ttl, p), Project(acts, p), cs)
    requires k < |t| && g.pair == p && g in t[k].calls && GetReturned(t[k].calls[g].pc)
    ensures Shows(t, p, cs, g, k, j)
  {
    MatchesAt(ttl, acts, t, p, cs, k);
    InFlightMatches(t[k], p, cs[k], g.serial);
    PairInvariants.WitnessedAt(ConfigOf(ttl, p), Project(acts, p), cs, k);
    var sample := cs[k].calls[g.serial].pc.outcome.found;
    assert PairInvariants.Held(cs[k].calls[g.serial].pc) == Some(sample);
    var i :| 0 <= i <= k && |cs[i].versions| == sample.version + 1 && cs[i].now == sample.at;
    j := i;
    MatchesAt(ttl, acts, t, p, cs, j);
    PairInvariants.Grows(ConfigOf(ttl, p), Project(acts, p), cs, j, k);
    assert cs[j].versions[sample.version] == cs[k].versions[sample.version];
  }

  /** Of two positions with the same current version, take the first one given if
      it is the later. */
  lemma Later(ttl: Ttl, acts: seq<Action>, t: seq<Fleet>, p: Pair, cs: seq<OnePair.Cell>, i: nat, j: nat) returns (l: nat)
    requires IsRun(ttl, acts, t) && OnePair.IsRun(ConfigOf(ttl, p), Project(acts, p), cs)
    requires i < |t| && j < |t| && |cs[i].versions| <= |cs[j].versions|
    ensures i <= l && (l == i || l == j)
    ensures |cs[l].versions| == |cs[j].versions| && CurrentFlag(t[l], p) == CurrentFlag(t[j], p)
  {
    l := if i <= j then j else i;
    if j < i {
      PairInvariants.Grows(ConfigOf(ttl, p), Project(acts, p), cs, j, i);
      MatchesAt(ttl, acts, t, p, cs, i);
      MatchesAt(ttl, acts, t, p, cs, j);
    }
  }

  lemma NextSeen(ttl: Ttl, acts: seq<Action>, t: seq<Fleet>, p: Pair, cs: seq<OnePair.Cell>,
                 g: CallId, k: nat, j: nat, g': CallId, k': nat) returns (j': nat)
    requires IsRun(ttl, acts, t) && OnePair.IsRun(ConfigOf(ttl, p), Project(acts, p), cs)
    requires Serial(acts, t, p) && Shows(t, p, cs, g, k, j)
    requires g'.pair == p && k <= k' < |t| && g' !in t[k].calls
    requires g' in t[k'].calls && GetReturned(t[k'].calls[g'].pc)
    ensures Shows(t, p, cs, g', k', j') && j <= j'
  {
    SerialProjects(ttl, acts, t, p, cs);
    var i := SeenAt(ttl, acts, t, p, cs, g', k');
    MatchesAt(ttl, acts, t, p, cs, k);
    InFlightMatches(t[k], p, cs[k], g'.serial);
    NotOlderAt(ConfigOf(ttl, p), Project(acts, p), cs, g.serial, g'.serial, k, k');
    j' := Later(ttl, acts, t, p, cs, j, i);
  }

  ghost predicate AllShown(t: seq<Fleet>, p: Pair, cs: seq<OnePair.Cell>, gets: seq<CallId>, ended: seq<nat>, seen: seq<nat>)
    requires |gets| == |ended|
  {
    && |seen| <= |gets|
    && (forall i | 0 <= i < |seen| :: Shows(t, p, cs, gets[i], ended[i], seen[i]))
    && (forall i | 0 < i < |seen| :: seen[i - 1] <= seen[i])
  }

  lemma AllShownAppend(t: seq<Fleet>, p: Pair, cs: seq<OnePair.Cell>, gets: seq<CallId>, ended: seq<nat>, seen: seq<nat>, j: nat)
    requires |gets| == |ended| && AllShown(t, p, cs, gets, ended, seen) && |seen| < |gets|
    requires Shows(t, p, cs, gets[|seen|], ended[|seen|], j)
    requires seen != [] ==> seen[|seen| - 1] <= j
    ensures AllShown(t, p, cs, gets, ended, seen + [j])
  {
  }

  lemma SeenNext(ttl: Ttl, acts: seq<Action>, t: seq<Fleet>, p: Pair, cs: seq<OnePair.Cell>,
                 gets: seq<CallId>, ended: seq<nat>, before: seq<nat>) returns (j: nat)
    requires IsRun(ttl, acts, t) && OnePair.IsRun(ConfigOf(ttl, p), Project(acts, p), cs)
    requires Serial(acts, t, p) && Successive(t, p, gets, ended)
    requires AllShown(t, p, cs, gets, ended, before) && |before| < |gets|
    ensures Shows(t, p, cs, gets[|before|], ended[|before|], j)
    ensures before != [] ==> before[|before| - 1] <= j
  {
    var m := |before|;
    if m == 0 {
      j := SeenAt(ttl, acts, t, p, cs, gets[0], ended[0]);
    } else {
      assert Shows(t, p, cs, gets[m - 1], ended[m - 1], before[m - 1]);
      j := NextSeen(ttl, acts, t, p, cs, gets[m - 1], ended[m - 1], before[m - 1], gets[m], ended[m]);
    }
  }

  lemma {:induction false} SeenUpTo(ttl: Ttl, acts: seq<Action>, t: seq<Fleet>, p: Pair, cs: seq<OnePair.Cell>,
                                    gets: seq<CallId>, ended: seq<nat>, m: nat) returns (seen: seq<nat>)
    requires IsRun(ttl, acts, t) && OnePair.IsRun(ConfigOf(ttl, p), Project(acts, p), cs)
    requires Serial(acts, t, p) && Successive(t, p, gets, ended) && m <= |gets|
    ensures |seen| == m && AllShown(t, p, cs, gets, ended, seen)
    decreases m
  {
    if m == 0 {
      seen := [];
    } else {
      var before := SeenUpTo(ttl, acts, t, p, cs, gets, ended, m - 1);
      var j := SeenNext(ttl, acts, t, p, cs, gets, ended, before);
      AllShownAppend(t, p, cs, gets, ended, before, j);
      seen := before + [j];
    }
  }

  /** Row versions seen by successive gets never go backwards: the flags they
      return were current at positions of the run that only move forward. */
  lemma GetsNeverGoBack(ttl: Ttl, acts: seq<Action>, t: seq<Fleet>, p: Pair, gets: seq<CallId>, ended: seq<nat>)
      returns (seen: seq<nat>)
    requires IsRun(ttl, acts, t) && Serial(acts, t, p) && Successive(t, p, gets, ended)
    ensures |seen| == |gets|
    ensures forall m | 0 <= m < |gets| ::
              seen[m] <= ended[m] && CurrentFlag(t[seen[m]], p) == Some(t[ended[m]].calls[gets[m]].pc.outcome.found)
    ensures forall m | 0 < m < |gets| :: seen[m - 1] <= seen[m]
  {
    var cs := PairsAreIndependent(ttl, acts, t, p);
    seen := SeenUpTo(ttl, acts, t, p, cs, gets, ended, |gets|);
    forall m | 0 <= m < |gets|
      ensures seen[m] <= ended[m] && CurrentFlag(t[seen[m]], p) == Some(t[ended[m]].calls[gets[m]].pc.outcome.found)
    {
      assert Shows(t, p, cs, gets[m], ended[m], seen[m]);
    }
  }
}
