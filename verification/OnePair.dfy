/** The service as one `(tenant, name)` pair sees it: no keys, no texts, no other
    pair. Rows are numbered by commit, and flags stand as version numbers, so
    that a cached or carried flag remembers which commit it came from. */
module OnePair {
  import opened Prelude
  import opened FeatureFlags
  import opened Program
  import Storage

  /** A committed row, the time of its commit, and whether that was the insert. */
  datatype Version = Version(row: Row, at: nat, inserted: bool)

  /** A version number, and a time at which that version was the current row. */
  datatype Sample = Sample(version: nat, at: nat)

  datatype Cached = Cached(sample: Sample, expiresAt: nat)

  datatype Cell = Cell(now: nat, versions: seq<Version>, cached: Option<Cached>, calls: map<nat, Call<Sample>>) {
    predicate Live() {
      cached.Some? && now < cached.value.expiresAt
    }
  }

  /** `named` is false for the empty name, whose flag does not validate. */
  datatype Config = Config(ttl: Storage.Ttl, named: bool)

  datatype Action =
    | Skip | Tick(seconds: nat) | Evict | Begin(serial: nat, op: Op)
    | Resume(serial: nat) | Interrupt(serial: nat, applied: bool)

  function Init(): Cell {
    Cell(0, [], None, map[])
  }

  predicate InFlight(c: Cell, n: nat) {
    n in c.calls && !c.calls[n].pc.Done?
  }

  function Reply(cfg: Config, sample: Sample): Reply<Sample> {
    if cfg.named then Present(sample) else Invalid
  }

  predicate CommitAccepted(c: Cell, rowFound: bool) {
    rowFound <==> c.versions != []
  }

  function Commit(c: Cell, row: Row): Cell {
    c.(versions := c.versions + [Version(row, c.now, c.versions == [])])
  }

  function SetCached(cfg: Config, c: Cell, sample: Sample): Cell {
    c.(cached := Some(Cached(sample, c.now + cfg.ttl)))
  }

  /** The cell before the call is moved, and where the call gets to. */
  datatype Progress = Progress(cell: Cell, pc: Pc<Sample>)

  function Resumed(cfg: Config, c: Cell, op: Op, pc: Pc<Sample>): Progress
    requires !pc.Done?
  {
    match pc
    case AtRedisGet => Progress(c, AfterRedisGet(if c.Live() then Present(c.cached.value.sample) else Absent))
    case AtRowRead =>
      Progress(c, AfterRowRead(op, if c.versions == [] then Absent else Reply(cfg, Sample(|c.versions| - 1, c.now))))
    case AtCommit(rowFound, row) =>
      if CommitAccepted(c, rowFound) then
        Progress(Commit(c, row), AfterCommit(Reply(cfg, Sample(|c.versions|, c.now))))
      else
        Progress(c, AfterFailure(op, false))
    case AtRedisSet(sample) => Progress(SetCached(cfg, c, sample), AfterRedisSet(op, sample))
  }

  function Interrupted(cfg: Config, c: Cell, op: Op, pc: Pc<Sample>, applied: bool): Progress
    requires !pc.Done?
  {
    match pc
    case AtCommit(rowFound, row) =>
      var written := applied && CommitAccepted(c, rowFound);
      Progress(if written then Commit(c, row) else c, AfterFailure(op, written))
    case AtRedisSet(sample) =>
      Progress(if applied then SetCached(cfg, c, sample) else c, AfterFailure(op, true))
    case _ => Progress(c, AfterFailure(op, false))
  }

  function Moved(c: Cell, n: nat, p: Progress): Cell
    requires n in c.calls
  {
    p.cell.(calls := c.calls[n := c.calls[n].(pc := p.pc, since := c.now)])
  }

  function Next(cfg: Config, c: Cell, a: Action): Cell {
    match a
    case Skip => c
    case Tick(seconds) => c.(now := c.now + seconds)
    case Evict => c.(cached := None)
    case Begin(n, op) =>
      if n in c.calls then c else c.(calls := c.calls[n := Call(op, c.now, c.now, FirstAwait(op))])
    case Resume(n) =>
      if !InFlight(c, n) then c else Moved(c, n, Resumed(cfg, c, c.calls[n].op, c.calls[n].pc))
    case Interrupt(n, applied) =>
      if !InFlight(c, n) then c else Moved(c, n, Interrupted(cfg, c, c.calls[n].op, c.calls[n].pc, applied))
  }

  ghost predicate IsRun(cfg: Config, acts: seq<Action>, t: seq<Cell>) {
    && |t| == |acts| + 1 && t[0] == Init()
    && forall k | 0 <= k < |acts| :: t[k + 1] == Next(cfg, t[k], acts[k])
  }

  function Run(cfg: Config, acts: seq<Action>): (t: seq<Cell>)
    ensures IsRun(cfg, acts, t)
  {
    if acts == [] then [Init()] else
      var n := |acts| - 1;
      var before := Run(cfg, acts[..n]);
      before + [Next(cfg, before[n], acts[n])]
  }
}
