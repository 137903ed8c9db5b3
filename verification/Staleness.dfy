/** Where the flags in Redis and the flags returned come from, and how old they
    can be, for every interleaving of any number of calls. */
module Staleness {
  import opened Prelude
  import opened FeatureFlags
  import opened Program
  import opened Storage
  import opened Interleaving
  import opened Independence
  import OnePair
  import PairInvariants

  /** The flag a plain reading of the table gives for the pair. */
  function CurrentFlag(s: Fleet, p: Pair): Option<Flag> {
    if p in s.stores.rows then RowToFlag(p.name, s.stores.rows[p]) else None
  }

  /** The flag an in-flight call is about to write to Redis, or a call returned. */
  function HeldFlag(pc: Pc<Flag>): Option<Flag> {
    match pc
    case AtRedisSet(flag) => Some(flag)
    case Done(Hit(flag)) => Some(flag)
    case Done(Loaded(flag)) => Some(flag)
    case Done(Written(flag)) => Some(flag)
    case _ => None
  }

  /** `flag` was the current flag of `p` in a state up to the `k`-th. */
  ghost predicate WasCurrent(t: seq<Fleet>, k: nat, p: Pair, flag: Flag)
    requires k < |t|
  {
    exists j | 0 <= j <= k :: CurrentFlag(t[j], p) == Some(flag)
  }

  /** A sample of the pair's machine stands for a flag that was current, in the
      fleet, at the sampled time. */
  lemma WitnessLifts(ttl: Ttl, acts: seq<Action>, t: seq<Fleet>, p: Pair, cs: seq<OnePair.Cell>,
                     k: nat, flag: Flag, sample: OnePair.Sample) returns (j: nat)
    requires IsRun(ttl, acts, t) && OnePair.IsRun(ConfigOf(ttl, p), Project(acts, p), cs)
    requires k < |t| && FlagIs(p.name, cs[k].versions, flag, sample)
    requires PairInvariants.Witnessed(cs, k, sample)
    ensures j <= k && CurrentFlag(t[j], p) == Some(flag) && t[j].stores.now == sample.at
  {
    var i :| 0 <= i <= k && |cs[i].versions| == sample.version + 1 && cs[i].now == sample.at;
    j := i;
    MatchesAt(ttl, acts, t, p, cs, j);
    PairInvariants.Grows(ConfigOf(ttl, p), Project(acts, p), cs, j, k);
    assert cs[j].versions[sample.version] == cs[k].versions[sample.version];
  }

  /** Every entry of the cache lies under the key of some pair. */
  ghost predicate KeysArePairs(s: Fleet) {
    forall key | key in s.stores.entries :: exists p :: key == CacheKey(p)
  }

  lemma NextKeysArePairs(ttl: Ttl, s: Fleet, a: Action)
    requires KeysArePairs(s)
    ensures KeysArePairs(Next(ttl, s, a))
  {
    var s' := Next(ttl, s, a);
    forall key | key in s'.stores.entries ensures exists p :: key == CacheKey(p) {
      assert key in s.stores.entries || ((a.Resume? || a.Interrupt?) && key == CacheKey(a.id.pair));
    }
  }

  lemma {:induction false} KeysArePairsAt(ttl: Ttl, acts: seq<Action>, t: seq<Fleet>, k: nat)
    requires IsRun(ttl, acts, t) && k < |t|
    ensures KeysArePairs(t[k])
  {
    if k == 0 {
    } else {
      KeysArePairsAt(ttl, acts, t, k - 1);
      assert t[k] == Next(ttl, t[k - 1], acts[k - 1]);
      NextKeysArePairs(ttl, t[k - 1], acts[k - 1]);
    }
  }

  lemma EntryProvenance(ttl: Ttl, acts: seq<Action>, t: seq<Fleet>, k: nat, p: Pair) returns (flag: Flag)
    requires IsRun(ttl, acts, t) && k < |t| && CacheKey(p) in t[k].stores.entries
    ensures t[k].stores.entries[CacheKey(p)].text == CacheText(flag) && WasCurrent(t, k, p, flag)
  {
    var cs := PairsAreIndependent(ttl, acts, t, p);
    PairInvariants.WitnessedAt(ConfigOf(ttl, p), Project(acts, p), cs, k);
    var sample := cs[k].cached.value.sample;
    flag := RowToFlag(p.name, cs[k].versions[sample.version].row).value;
    var j := WitnessLifts(ttl, acts, t, p, cs, k, flag, sample);
  }

  /** The call as the pair's machine has it. */
  lemma CallOf(ttl: Ttl, acts: seq<Action>, t: seq<Fleet>, k: nat, id: CallId)
      returns (cs: seq<OnePair.Cell>, call: Call<OnePair.Sample>)
    requires IsRun(ttl, acts, t) && k < |t| && id in t[k].calls
    ensures OnePair.IsRun(ConfigOf(ttl, id.pair), Project(acts, id.pair), cs) && |cs| == |t|
    ensures id.serial in cs[k].calls && call == cs[k].calls[id.serial]
    ensures CallIs(id.pair.name, cs[k].versions, t[k].calls[id], call)
  {
    cs := PairsAreIndependent(ttl, acts, t, id.pair);
    InFlightMatches(t[k], id.pair, cs[k], id.serial);
    call := cs[k].calls[id.serial];
  }

  lemma CallProvenance(ttl: Ttl, acts: seq<Action>, t: seq<Fleet>, k: nat, id: CallId)
    requires IsRun(ttl, acts, t) && k < |t| && id in t[k].calls && HeldFlag(t[k].calls[id].pc).Some?
    ensures WasCurrent(t, k, id.pair, HeldFlag(t[k].calls[id].pc).value)
  {
    var cs, call := CallOf(ttl, acts, t, k, id);
    PairInvariants.WitnessedAt(ConfigOf(ttl, id.pair), Project(acts, id.pair), cs, k);
    var j := WitnessLifts(ttl, acts, t, id.pair, cs, k, HeldFlag(t[k].calls[id].pc).value,
                          PairInvariants.Held(call.pc).value);
  }

  /** Provenance and tenant separation. In every reachable state, every cache
      entry is the text of a flag that was once current for exactly the pair whose
      key it lies under, and every flag held or returned by a call was once
      current for exactly the pair of that call. */
  lemma Provenance(ttl: Ttl, acts: seq<Action>, t: seq<Fleet>, k: nat)
    requires IsRun(ttl, acts, t) && k < |t|
    ensures forall key | key in t[k].stores.entries ::
              exists p, flag :: key == CacheKey(p) && t[k].stores.entries[key].text == CacheText(flag) &&
                                WasCurrent(t, k, p, flag)
    ensures forall id | id in t[k].calls && HeldFlag(t[k].calls[id].pc).Some? ::
              WasCurrent(t, k, id.pair, HeldFlag(t[k].calls[id].pc).value)
  {
    KeysArePairsAt(ttl, acts, t, k);
    forall key | key in t[k].stores.entries
      ensures exists p, flag :: key == CacheKey(p) && t[k].stores.entries[key].text == CacheText(flag) &&
                                WasCurrent(t, k, p, flag)
    {
      var p :| key == CacheKey(p);
      var flag := EntryProvenance(ttl, acts, t, k, p);
    }
    forall id | id in t[k].calls && HeldFlag(t[k].calls[id].pc).Some?
      ensures WasCurrent(t, k, id.pair, HeldFlag(t[k].calls[id].pc).value)
    {
      CallProvenance(ttl, acts, t, k, id);
    }
  }

  /** The action makes a SET for a call of `p` take place. */
  predicate WritesCache(s: Fleet, a: Action, p: Pair) {
    && (a.Resume? || (a.Interrupt? && a.applied))
    && a.id.pair == p && InFlight(s, a.id) && s.calls[a.id].pc.AtRedisSet?
  }

  /** No call of `p` takes more than `delay` from its row read or commit to its SET. */
  ghost predicate Timely(acts: seq<Action>, t: seq<Fleet>, p: Pair, delay: nat)
    requires |t| == |acts| + 1
  {
    forall k | 0 <= k < |acts| ::
      WritesCache(t[k], acts[k], p) ==> t[k].stores.now <= t[k].calls[acts[k].id].since + delay
  }

  lemma TimelyProjects(ttl: Ttl, acts: seq<Action>, t: seq<Fleet>, p: Pair, delay: nat, cs: seq<OnePair.Cell>)
    requires IsRun(ttl, acts, t) && OnePair.IsRun(ConfigOf(ttl, p), Project(acts, p), cs)
    requires Timely(acts, t, p, delay)
    ensures PairInvariants.Timely(Project(acts, p), cs, delay)
  {
    var ps := Project(acts, p);
    forall k | 0 <= k < |ps| && PairInvariants.WritesCache(cs[k], ps[k])
      ensures cs[k].now <= cs[k].calls[ps[k].serial].since + delay
    {
      MatchesAt(ttl, acts, t, p, cs, k);
      InFlightMatches(t[k], p, cs[k], ps[k].serial);
      assert ps[k] == ProjectAction(acts[k], p);
      assert acts[k].id == CallId(p, ps[k].serial);
      assert WritesCache(t[k], acts[k], p);
    }
  }

  predicate GetReturned(pc: Pc<Flag>) {
    pc.Done? && (pc.outcome.Hit? || pc.outcome.Loaded?)
  }

  /** Bounded staleness: a flag returned by `get_flag` was the current row at an
      instant later than (start of the call - delay - TTL). */
  lemma BoundedStaleness(ttl: Ttl, acts: seq<Action>, t: seq<Fleet>, delay: nat, k: nat, id: CallId) returns (j: nat)
    requires IsRun(ttl, acts, t) && k < |t|
    requires Timely(acts, t, id.pair, delay)
    requires id in t[k].calls && GetReturned(t[k].calls[id].pc)
    ensures j <= k && CurrentFlag(t[j], id.pair) == Some(t[k].calls[id].pc.outcome.found)
    ensures t[j].stores.now > t[k].calls[id].begun - delay - ttl
  {
    var cs, call := CallOf(ttl, acts, t, k, id);
    var cfg, ps := ConfigOf(ttl, id.pair), Project(acts, id.pair);
    TimelyProjects(ttl, acts, t, id.pair, delay, cs);
    PairInvariants.WitnessedAt(cfg, ps, cs, k);
    PairInvariants.FreshAt(cfg, ps, cs, delay, k);
    PairInvariants.InvAt(cfg, ps, cs, k);
    assert PairInvariants.CallInv(cs[k], call);
    j := WitnessLifts(ttl, acts, t, id.pair, cs, k, t[k].calls[id].pc.outcome.found, call.pc.outcome.found);
  }

  /** A get that loaded its row needs no such delay: its flag was the current row
      at an instant at which the call was in flight. */
  lemma LoadedIsCurrent(ttl: Ttl, acts: seq<Action>, t: seq<Fleet>, k: nat, id: CallId) returns (j: nat)
    requires IsRun(ttl, acts, t) && k < |t|
    requires id in t[k].calls && t[k].calls[id].pc.Done? && t[k].calls[id].pc.outcome.Loaded?
    ensures j <= k && InFlight(t[j], id)
    ensures CurrentFlag(t[j], id.pair) == Some(t[k].calls[id].pc.outcome.found)
  {
    var cs, call := CallOf(ttl, acts, t, k, id);
    var cfg, ps, n := ConfigOf(ttl, id.pair), Project(acts, id.pair), id.serial;
    PairInvariants.RowsReadInCallAt(cfg, ps, cs, k);
    var version := call.pc.outcome.found.version;
    assert PairInvariants.ReadWhileCurrent(cs, k, n, version);
    j :| 0 <= j <= k && n in cs[j].calls && cs[j].calls[n].pc.AtRowRead? && |cs[j].versions| == version + 1;
    MatchesAt(ttl, acts, t, id.pair, cs, j);
    InFlightMatches(t[j], id.pair, cs[j], n);
    PairInvariants.Grows(cfg, ps, cs, j, k);
    assert cs[j].versions[version] == cs[k].versions[version];
  }
}
