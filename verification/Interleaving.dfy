/** Any number of calls, on any number of processes, interleaving at every await
    over the shared stores. */
module Interleaving {
  import opened Prelude
  import opened FeatureFlags
  import opened Program
  import opened Storage

  datatype CallId = CallId(pair: Pair, serial: nat)

  /** The counters are summed over the processes. */
  datatype Fleet = Fleet(stores: Stores, calls: map<CallId, Call<Flag>>, readsTotal: nat, writesTotal: nat)

  /** Time passes, Redis evicts, a call starts, and a suspended call goes on or has
      its awaited operation fail. An action that is not possible changes nothing,
      so every list of actions is an interleaving. */
  datatype Action =
    | Tick(seconds: nat) | Evict(key: string) | Begin(id: CallId, op: Op)
    | Resume(id: CallId) | Interrupt(id: CallId, applied: bool)

  function Init(): Fleet {
    Fleet(Stores(0, map[], map[]), map[], 0, 0)
  }

  predicate InFlight(s: Fleet, id: CallId) {
    id in s.calls && !s.calls[id].pc.Done?
  }

  function Moved(s: Fleet, id: CallId, p: Progress): Fleet
    requires id in s.calls
  {
    s.(stores := p.stores,
       calls := s.calls[id := s.calls[id].(pc := p.pc, since := s.stores.now)],
       writesTotal := s.writesTotal + if p.pc.Done? && p.pc.outcome.Written? then 1 else 0)
  }

  function Next(ttl: Ttl, s: Fleet, a: Action): Fleet {
    match a
    case Tick(seconds) => s.(stores := s.stores.(now := s.stores.now + seconds))
    case Evict(key) => s.(stores := s.stores.(entries := s.stores.entries - {key}))
    case Begin(id, op) =>
      if id in s.calls then s else
        s.(calls := s.calls[id := Call(op, s.stores.now, s.stores.now, FirstAwait(op))],
           readsTotal := s.readsTotal + if op.Get? then 1 else 0)
    case Resume(id) =>
      if !InFlight(s, id) then s else
        Moved(s, id, Resumed(ttl, s.stores, id.pair, s.calls[id].op, s.calls[id].pc))
    case Interrupt(id, applied) =>
      if !InFlight(s, id) then s else
        Moved(s, id, Interrupted(ttl, s.stores, id.pair, s.calls[id].op, s.calls[id].pc, applied))
  }

  /** `t` is the run of `acts`: `t[k]` is the state after the first `k` actions. */
  ghost predicate IsRun(ttl: Ttl, acts: seq<Action>, t: seq<Fleet>) {
    && |t| == |acts| + 1 && t[0] == Init()
    && forall k | 0 <= k < |acts| :: t[k + 1] == Next(ttl, t[k], acts[k])
  }

  /** Every list of actions has a run. */
  function Run(ttl: Ttl, acts: seq<Action>): (t: seq<Fleet>)
    ensures IsRun(ttl, acts, t)
  {
    if acts == [] then [Init()] else
      var n := |acts| - 1;
      var before := Run(ttl, acts[..n]);
      before + [Next(ttl, before[n], acts[n])]
  }
}
