/** What every step of one pair's machine keeps, and what every sample in a
    reachable state goes back to. */
module PairInvariants {
  import opened Prelude
  import opened Program
  import opened OnePair

  /** The sample an await or an outcome holds. */
  function Held(pc: Pc<Sample>): Option<Sample> {
    match pc
    case AtRedisSet(sample) => Some(sample)
    case Done(Hit(sample)) => Some(sample)
    case Done(Loaded(sample)) => Some(sample)
    case Done(Written(sample)) => Some(sample)
    case _ => None
  }

  predicate Known(c: Cell, sample: Sample) {
    sample.version < |c.versions| && sample.at <= c.now
  }

  predicate CallInv(c: Cell, call: Call<Sample>) {
    && call.begun <= call.since <= c.now
    && (Held(call.pc).Some? ==> Known(c, Held(call.pc).value))
    && (call.pc.AtRedisSet? ==> call.pc.flag.at == call.since)
    && (call.pc.AtCommit? && call.pc.rowFound ==> c.versions != [])
    && (call.pc.Done? && call.pc.outcome.Loaded? ==> call.begun <= call.pc.outcome.found.at)
  }

  predicate CachedInv(cfg: Config, c: Cell) {
    c.cached.Some? ==>
      && Known(c, c.cached.value.sample)
      && c.cached.value.sample.at + cfg.ttl <= c.cached.value.expiresAt <= c.now + cfg.ttl
  }

  predicate VersionsInv(c: Cell) {
    forall i | 0 <= i < |c.versions| ::
      c.versions[i].at <= c.now && (c.versions[i].inserted <==> i == 0)
  }

  ghost predicate Inv(cfg: Config, c: Cell) {
    && VersionsInv(c)
    && CachedInv(cfg, c)
    && forall n | n in c.calls :: CallInv(c, c.calls[n])
  }

  lemma MovedKeeps(cfg: Config, c: Cell, n: nat, p: Progress)
    requires Inv(cfg, c) && n in c.calls && InFlight(c, n)
    requires p == Resumed(cfg, c, c.calls[n].op, c.calls[n].pc) ||
             exists applied :: p == Interrupted(cfg, c, c.calls[n].op, c.calls[n].pc, applied)
    ensures Inv(cfg, Moved(c, n, p))
  {
    var c' := Moved(c, n, p);
    assert CallInv(c, c.calls[n]);
    assert CallInv(c', c'.calls[n]);
    forall m | m in c'.calls && m != n ensures CallInv(c', c'.calls[m]) {
      assert CallInv(c, c.calls[m]);
    }
  }

  lemma NextKeeps(cfg: Config, c: Cell, a: Action)
    requires Inv(cfg, c)
    ensures Inv(cfg, Next(cfg, c, a))
    ensures c.versions <= Next(cfg, c, a).versions && c.now <= Next(cfg, c, a).now
  {
    var c' := Next(cfg, c, a);
    if a.Resume? && InFlight(c, a.serial) {
      MovedKeeps(cfg, c, a.serial, Resumed(cfg, c, c.calls[a.serial].op, c.calls[a.serial].pc));
    } else if a.Interrupt? && InFlight(c, a.serial) {
      MovedKeeps(cfg, c, a.serial, Interrupted(cfg, c, c.calls[a.serial].op, c.calls[a.serial].pc, a.applied));
    } else {
      forall m | m in c'.calls ensures CallInv(c', c'.calls[m]) {
        if m in c.calls {
          assert CallInv(c, c.calls[m]);
        }
      }
    }
  }

  lemma {:induction false} InvAt(cfg: Config, acts: seq<Action>, t: seq<Cell>, k: nat)
    requires IsRun(cfg, acts, t) && k < |t|
    ensures Inv(cfg, t[k])
  {
    if k == 0 {
    } else {
      InvAt(cfg, acts, t, k - 1);
      NextKeeps(cfg, t[k - 1], acts[k - 1]);
      assert t[k] == Next(cfg, t[k - 1], acts[k - 1]);
    }
  }

  /** Commits only add versions, and the clock only goes forward. */
  lemma {:induction false} Grows(cfg: Config, acts: seq<Action>, t: seq<Cell>, j: nat, k: nat)
    requires IsRun(cfg, acts, t) && j <= k < |t|
    ensures t[j].versions <= t[k].versions && t[j].now <= t[k].now
    decreases k - j
  {
    if j == k {
    } else {
      Grows(cfg, acts, t, j, k - 1);
      InvAt(cfg, acts, t, k - 1);
      NextKeeps(cfg, t[k - 1], acts[k - 1]);
      assert t[k] == Next(cfg, t[k - 1], acts[k - 1]);
    }
  }

  /** At some position up to `k`, the sampled version was the current row, at the
      sampled time. */
  ghost predicate Witnessed(t: seq<Cell>, k: nat, sample: Sample)
    requires k < |t|
  {
    exists j | 0 <= j <= k :: |t[j].versions| == sample.version + 1 && t[j].now == sample.at
  }

  ghost predicate AllWitnessed(t: seq<Cell>, k: nat)
    requires k < |t|
  {
    && (t[k].cached.Some? ==> Witnessed(t, k, t[k].cached.value.sample))
    && forall n | n in t[k].calls && Held(t[k].calls[n].pc).Some? :: Witnessed(t, k, Held(t[k].calls[n].pc).value)
  }

  lemma StillWitnessed(t: seq<Cell>, k: nat, sample: Sample)
    requires k + 1 < |t| && Witnessed(t, k, sample)
    ensures Witnessed(t, k + 1, sample)
  {
    var j :| 0 <= j <= k && |t[j].versions| == sample.version + 1 && t[j].now == sample.at;
    assert 0 <= j <= k + 1;
  }

  /** A sample is carried over from the state before, or taken now. */
  lemma SampleOrigin(cfg: Config, c: Cell, a: Action, n: nat)
    requires Inv(cfg, c)
    requires n in Next(cfg, c, a).calls && Held(Next(cfg, c, a).calls[n].pc).Some?
    ensures var c' := Next(cfg, c, a);
            var sample := Held(c'.calls[n].pc).value;
            || (n in c.calls && Held(c.calls[n].pc) == Some(sample))
            || (c.cached.Some? && c.cached.value.sample == sample)
            || sample == Sample(|c'.versions| - 1, c'.now)
  {
  }

  lemma CachedOrigin(cfg: Config, c: Cell, a: Action)
    requires Next(cfg, c, a).cached.Some?
    ensures var c' := Next(cfg, c, a);
            c'.cached == c.cached ||
            exists n :: n in c.calls && Held(c.calls[n].pc) == Some(c'.cached.value.sample)
  {
    if Next(cfg, c, a).cached != c.cached {
      assert Held(c.calls[a.serial].pc) == Some(Next(cfg, c, a).cached.value.sample);
    }
  }

  lemma NextWitnessesHeld(cfg: Config, t: seq<Cell>, k: nat, a: Action, n: nat)
    requires k + 1 < |t| && t[k + 1] == Next(cfg, t[k], a) && Inv(cfg, t[k]) && AllWitnessed(t, k)
    requires n in t[k + 1].calls && Held(t[k + 1].calls[n].pc).Some?
    requires Held(t[k + 1].calls[n].pc).value.version < |t[k + 1].versions|
    ensures Witnessed(t, k + 1, Held(t[k + 1].calls[n].pc).value)
  {
    var c', sample := t[k + 1], Held(t[k + 1].calls[n].pc).value;
    SampleOrigin(cfg, t[k], a, n);
    if sample == Sample(|c'.versions| - 1, c'.now) {
      assert |t[k + 1].versions| == sample.version + 1;
    } else {
      StillWitnessed(t, k, sample);
    }
  }

  lemma NextWitnessesCached(cfg: Config, t: seq<Cell>, k: nat, a: Action)
    requires k + 1 < |t| && t[k + 1] == Next(cfg, t[k], a) && AllWitnessed(t, k)
    requires t[k + 1].cached.Some?
    ensures Witnessed(t, k + 1, t[k + 1].cached.value.sample)
  {
    CachedOrigin(cfg, t[k], a);
    StillWitnessed(t, k, t[k + 1].cached.value.sample);
  }

  lemma {:induction false} WitnessedAt(cfg: Config, acts: seq<Action>, t: seq<Cell>, k: nat)
    requires IsRun(cfg, acts, t) && k < |t|
    ensures AllWitnessed(t, k)
  {
    if k == 0 {
    } else {
      var m := k - 1;
      WitnessedAt(cfg, acts, t, m);
      InvAt(cfg, acts, t, m);
      InvAt(cfg, acts, t, k);
      assert t[m + 1] == Next(cfg, t[m], acts[m]);
      forall n | n in t[k].calls && Held(t[k].calls[n].pc).Some?
        ensures Witnessed(t, k, Held(t[k].calls[n].pc).value)
      {
        assert CallInv(t[k], t[k].calls[n]);
        NextWitnessesHeld(cfg, t, m, acts[m], n);
      }
      if t[k].cached.Some? {
        NextWitnessesCached(cfg, t, m, acts[m]);
      }
    }
  }

  // ---------- loaded rows ----------

  /** A get that has the row it read, on its way to Redis or returned. */
  predicate HasRow(call: Call<Sample>) {
    call.op.Get? && (call.pc.AtRedisSet? || (call.pc.Done? && call.pc.outcome.Loaded?))
  }

  /** The call was at its row read when the version was current. */
  ghost predicate ReadWhileCurrent(t: seq<Cell>, k: nat, n: nat, version: nat)
    requires k < |t|
  {
    exists j | 0 <= j <= k :: n in t[j].calls && t[j].calls[n].pc.AtRowRead? && |t[j].versions| == version + 1
  }

  ghost predicate RowsReadInCall(t: seq<Cell>, k: nat)
    requires k < |t|
  {
    forall n | n in t[k].calls ::
      && (t[k].calls[n].op.Get? ==> !t[k].calls[n].pc.AtCommit?)
      && (t[k].calls[n].pc.Done? && t[k].calls[n].pc.outcome.Loaded? ==> t[k].calls[n].op.Get?)
      && (HasRow(t[k].calls[n]) ==> ReadWhileCurrent(t, k, n, Held(t[k].calls[n].pc).value.version))
  }

  lemma RowOrigin(cfg: Config, c: Cell, a: Action, n: nat)
    requires n in c.calls ==> c.calls[n].op.Get? ==> !c.calls[n].pc.AtCommit?
    requires n in c.calls ==> c.calls[n].pc.Done? && c.calls[n].pc.outcome.Loaded? ==> c.calls[n].op.Get?
    requires n in Next(cfg, c, a).calls
    ensures var call := Next(cfg, c, a).calls[n];
            && (call.op.Get? ==> !call.pc.AtCommit?)
            && (call.pc.Done? && call.pc.outcome.Loaded? ==> call.op.Get?)
            && (HasRow(call) ==>
                  n in c.calls &&
                  ((HasRow(c.calls[n]) && Held(c.calls[n].pc) == Held(call.pc)) ||
                   (c.calls[n].pc.AtRowRead? && |c.versions| == Held(call.pc).value.version + 1)))
  {
  }

  lemma {:induction false} RowsReadInCallAt(cfg: Config, acts: seq<Action>, t: seq<Cell>, k: nat)
    requires IsRun(cfg, acts, t) && k < |t|
    ensures RowsReadInCall(t, k)
  {
    if k == 0 {
    } else {
      RowsReadInCallAt(cfg, acts, t, k - 1);
      assert t[k] == Next(cfg, t[k - 1], acts[k - 1]);
      forall n | n in t[k].calls
        ensures t[k].calls[n].op.Get? ==> !t[k].calls[n].pc.AtCommit?
        ensures t[k].calls[n].pc.Done? && t[k].calls[n].pc.outcome.Loaded? ==> t[k].calls[n].op.Get?
        ensures HasRow(t[k].calls[n]) ==> ReadWhileCurrent(t, k, n, Held(t[k].calls[n].pc).value.version)
      {
        RowOrigin(cfg, t[k - 1], acts[k - 1], n);
        if HasRow(t[k].calls[n]) && HasRow(t[k - 1].calls[n]) {
          assert ReadWhileCurrent(t, k - 1, n, Held(t[k].calls[n].pc).value.version);
        }
      }
    }
  }

  // ---------- runs whose cache writes are not too late ----------

  /** The action writes the cache on behalf of a call. */
  predicate WritesCache(c: Cell, a: Action) {
    && (a.Resume? || (a.Interrupt? && a.applied))
    && InFlight(c, a.serial) && c.calls[a.serial].pc.AtRedisSet?
  }

  /** No call takes more than `delay` from its row read or commit to its SET. */
  ghost predicate Timely(acts: seq<Action>, t: seq<Cell>, delay: nat)
    requires |t| == |acts| + 1
  {
    forall k | 0 <= k < |acts| ::
      WritesCache(t[k], acts[k]) ==> t[k].now <= t[k].calls[acts[k].serial].since + delay
  }

  ghost predicate Fresh(cfg: Config, c: Cell, delay: nat) {
    && (c.cached.Some? ==> c.cached.value.expiresAt <= c.cached.value.sample.at + delay + cfg.ttl)
    && forall n | n in c.calls && c.calls[n].pc.Done? && c.calls[n].pc.outcome.Hit? ::
         c.calls[n].begun < c.calls[n].pc.outcome.found.at + delay + cfg.ttl
  }

  lemma NextKeepsFresh(cfg: Config, c: Cell, a: Action, delay: nat)
    requires Inv(cfg, c) && Fresh(cfg, c, delay)
    requires WritesCache(c, a) ==> c.now <= c.calls[a.serial].since + delay
    ensures Fresh(cfg, Next(cfg, c, a), delay)
  {
    var c' := Next(cfg, c, a);
    assert (a.Resume? || a.Interrupt?) && a.serial in c.calls ==> CallInv(c, c.calls[a.serial]);
    assert c'.cached.Some? ==> c'.cached.value.expiresAt <= c'.cached.value.sample.at + delay + cfg.ttl;
  }

  lemma {:induction false} FreshAt(cfg: Config, acts: seq<Action>, t: seq<Cell>, delay: nat, k: nat)
    requires IsRun(cfg, acts, t) && Timely(acts, t, delay) && k < |t|
    ensures Fresh(cfg, t[k], delay)
  {
    if k == 0 {
    } else {
      FreshAt(cfg, acts, t, delay, k - 1);
      InvAt(cfg, acts, t, k - 1);
      NextKeepsFresh(cfg, t[k - 1], acts[k - 1], delay);
      assert t[k] == Next(cfg, t[k - 1], acts[k - 1]);
    }
  }
}
