/** Conservation of `feature_flag_reads_total` and `feature_flag_writes_total`,
    summed over the processes. */
module Counters {
  import opened Prelude
  import opened FeatureFlags
  import opened Program
  import opened Storage
  import opened Interleaving
  import opened Convergence

  datatype Class =
    | GetInFlight | GetHit | GetLoaded | GetNotFound | GetFailed
    | SetBeforeCommit | SetCommitted | SetWritten | SetFailed | SetFailedAfterCommit

  function ClassOf(call: Call<Flag>): Class {
    if call.op.Get? then
      match call.pc
      case Done(Hit(_)) => GetHit
      case Done(Loaded(_)) => GetLoaded
      case Done(NotFound) => GetNotFound
      case Done(_) => GetFailed
      case _ => GetInFlight
    else
      match call.pc
      case AtRedisSet(_) => SetCommitted
      case Done(Written(_)) => SetWritten
      case Done(FailedAfterCommit) => SetFailedAfterCommit
      case Done(_) => SetFailed
      case _ => SetBeforeCommit
  }

  function Classes(calls: map<CallId, Call<Flag>>): map<CallId, Class> {
    map id | id in calls :: ClassOf(calls[id])
  }

  function Members(classes: map<CallId, Class>, class_: Class): set<CallId> {
    set id | id in classes && classes[id] == class_
  }

  function Count(s: Fleet, class_: Class): nat {
    |Members(Classes(s.calls), class_)|
  }

  /** The calls that each class of gets counts, and each committed class of sets. */
  lemma GetClassesMean(s: Fleet)
    ensures var c := Classes(s.calls);
            && Members(c, GetHit) == (set id | id in s.calls && s.calls[id].op.Get? && s.calls[id].pc.Done? && s.calls[id].pc.outcome.Hit?)
            && Members(c, GetLoaded) == (set id | id in s.calls && s.calls[id].op.Get? && s.calls[id].pc.Done? && s.calls[id].pc.outcome.Loaded?)
            && Members(c, GetNotFound) == (set id | id in s.calls && s.calls[id].op.Get? && s.calls[id].pc == Done(NotFound))
            && Members(c, GetFailed) == (set id | id in s.calls && s.calls[id].op.Get? && s.calls[id].pc.Done? &&
                                                  !(s.calls[id].pc.outcome.Hit? || s.calls[id].pc.outcome.Loaded? || s.calls[id].pc.outcome.NotFound?))
            && Members(c, GetInFlight) == (set id | id in s.calls && s.calls[id].op.Get? && !s.calls[id].pc.Done?)
  {
  }

  lemma SetClassesMean(s: Fleet)
    ensures var c := Classes(s.calls);
            && Members(c, SetCommitted) == (set id | id in s.calls && s.calls[id].op.Set? && s.calls[id].pc.AtRedisSet?)
            && Members(c, SetWritten) == (set id | id in s.calls && s.calls[id].op.Set? && s.calls[id].pc.Done? && s.calls[id].pc.outcome.Written?)
            && Members(c, SetFailedAfterCommit) == (set id | id in s.calls && s.calls[id].op.Set? && s.calls[id].pc == Done(FailedAfterCommit))
  {
  }

  function One(b: bool): nat {
    if b then 1 else 0
  }

  lemma Without(ids: set<CallId>, id: CallId)
    ensures |ids| == |ids - {id}| + One(id in ids)
  {
    if id in ids {
      assert ids == (ids - {id}) + {id};
    } else {
      assert ids == ids - {id};
    }
  }

  /** An update changes no membership but that of its own call. */
  lemma OthersStay(classes: map<CallId, Class>, id: CallId, new_: Class, class_: Class)
    ensures Members(classes[id := new_], class_) - {id} == Members(classes, class_) - {id}
    ensures id in Members(classes[id := new_], class_) <==> new_ == class_
  {
  }

  lemma MembersUpdate(classes: map<CallId, Class>, id: CallId, new_: Class, class_: Class)
    ensures |Members(classes[id := new_], class_)| + One(id in classes && classes[id] == class_) ==
            |Members(classes, class_)| + One(new_ == class_)
  {
    OthersStay(classes, id, new_, class_);
    Without(Members(classes, class_), id);
    Without(Members(classes[id := new_], class_), id);
  }

  lemma CountUpdate(s: Fleet, s': Fleet, id: CallId, call: Call<Flag>, class_: Class)
    requires s'.calls == s.calls[id := call]
    ensures Count(s', class_) + One(id in s.calls && ClassOf(s.calls[id]) == class_) ==
            Count(s, class_) + One(ClassOf(call) == class_)
  {
    MembersUpdate(Classes(s.calls), id, ClassOf(call), class_);
    assert Classes(s'.calls) == Classes(s.calls)[id := ClassOf(call)];
  }

  /** A get is never at a commit; a set never reads Redis. */
  predicate WellShaped(call: Call<Flag>) {
    && (call.op.Get? ==> !call.pc.AtCommit? && !(call.pc.Done? && (call.pc.outcome.Written? || call.pc.outcome.FailedAfterCommit?)))
    && (call.op.Set? ==> !call.pc.AtRedisGet? && !(call.pc.Done? && (call.pc.outcome.Hit? || call.pc.outcome.Loaded? || call.pc.outcome.NotFound?)))
  }

  ghost predicate AllWellShaped(s: Fleet) {
    forall id | id in s.calls :: WellShaped(s.calls[id])
  }

  lemma NextKeepsShape(ttl: Ttl, s: Fleet, a: Action)
    requires AllWellShaped(s)
    ensures AllWellShaped(Next(ttl, s, a))
  {
    var s' := Next(ttl, s, a);
    forall id | id in s'.calls ensures WellShaped(s'.calls[id]) {
      if id in s.calls {
        assert WellShaped(s.calls[id]);
      }
    }
  }

  predicate Commits(s: Fleet, a: Action) {
    (a.Resume? || a.Interrupt?) && CommitsTo(s, a, a.id.pair)
  }

  /** How many of the first `k` actions committed a row. */
  function CommitCount(acts: seq<Action>, t: seq<Fleet>, k: nat): nat
    requires |t| == |acts| + 1 && k <= |acts|
  {
    if k == 0 then 0 else CommitCount(acts, t, k - 1) + One(Commits(t[k - 1], acts[k - 1]))
  }

  function Gets(s: Fleet): nat {
    Count(s, GetHit) + Count(s, GetLoaded) + Count(s, GetNotFound) + Count(s, GetFailed) + Count(s, GetInFlight)
  }

  ghost predicate ReadsConserved(s: Fleet) {
    s.readsTotal == Gets(s)
  }

  ghost predicate WritesConserved(s: Fleet, commits: nat) {
    && s.writesTotal == Count(s, SetWritten)
    && commits == s.writesTotal + Count(s, SetCommitted) + Count(s, SetFailedAfterCommit)
  }

  /** However one call changes, only its being a get matters for their number. */
  lemma GetsUpdate(s: Fleet, s': Fleet, id: CallId, call: Call<Flag>)
    requires s'.calls == s.calls[id := call]
    ensures Gets(s') + One(id in s.calls && s.calls[id].op.Get?) == Gets(s) + One(call.op.Get?)
  {
    CountUpdate(s, s', id, call, GetHit);
    CountUpdate(s, s', id, call, GetLoaded);
    CountUpdate(s, s', id, call, GetNotFound);
    CountUpdate(s, s', id, call, GetFailed);
    CountUpdate(s, s', id, call, GetInFlight);
  }

  /** A set that has committed. */
  predicate HasCommitted(call: Call<Flag>) {
    ClassOf(call) in {SetCommitted, SetWritten, SetFailedAfterCommit}
  }

  lemma SetsUpdate(s: Fleet, s': Fleet, id: CallId, call: Call<Flag>)
    requires s'.calls == s.calls[id := call]
    ensures var written, written' := Count(s, SetWritten), Count(s', SetWritten);
            var rest, rest' := Count(s, SetCommitted) + Count(s, SetFailedAfterCommit),
                               Count(s', SetCommitted) + Count(s', SetFailedAfterCommit);
            && written' + One(id in s.calls && ClassOf(s.calls[id]) == SetWritten) == written + One(ClassOf(call) == SetWritten)
            && written' + rest' + One(id in s.calls && HasCommitted(s.calls[id])) == written + rest + One(HasCommitted(call))
  {
    CountUpdate(s, s', id, call, SetWritten);
    CountUpdate(s, s', id, call, SetCommitted);
    CountUpdate(s, s', id, call, SetFailedAfterCommit);
  }

  /** One stretch of a call: it commits exactly when it becomes a committed set,
      and bumps `writes_total` exactly when it becomes a written one. */
  lemma MoveClassified(ttl: Ttl, s: Fleet, a: Action)
    requires (a.Resume? || a.Interrupt?) && InFlight(s, a.id) && WellShaped(s.calls[a.id])
    ensures var s' := Next(ttl, s, a);
            && s'.calls == s.calls[a.id := s'.calls[a.id]] && s'.calls[a.id].op == s.calls[a.id].op
            && One(HasCommitted(s'.calls[a.id])) == One(HasCommitted(s.calls[a.id])) + One(Commits(s, a))
            && s'.readsTotal == s.readsTotal
            && ClassOf(s.calls[a.id]) != SetWritten
            && s'.writesTotal == s.writesTotal + One(ClassOf(s'.calls[a.id]) == SetWritten)
  {
  }

  lemma NextConserves(ttl: Ttl, s: Fleet, a: Action, commits: nat)
    requires AllWellShaped(s) && ReadsConserved(s) && WritesConserved(s, commits)
    ensures ReadsConserved(Next(ttl, s, a))
    ensures WritesConserved(Next(ttl, s, a), commits + One(Commits(s, a)))
  {
    var s' := Next(ttl, s, a);
    if a.Begin? && a.id !in s.calls {
      GetsUpdate(s, s', a.id, s'.calls[a.id]);
      SetsUpdate(s, s', a.id, s'.calls[a.id]);
    } else if (a.Resume? || a.Interrupt?) && InFlight(s, a.id) {
      MoveClassified(ttl, s, a);
      GetsUpdate(s, s', a.id, s'.calls[a.id]);
      SetsUpdate(s, s', a.id, s'.calls[a.id]);
    }
  }

  lemma StartConserves()
    ensures AllWellShaped(Init()) && ReadsConserved(Init()) && WritesConserved(Init(), 0)
  {
    var s := Init();
    assert forall class_ :: Members(Classes(s.calls), class_) == {};
    assert forall class_ :: Count(s, class_) == 0;
  }

  ghost predicate Conserved(s: Fleet, commits: nat) {
    AllWellShaped(s) && ReadsConserved(s) && WritesConserved(s, commits)
  }

  lemma StepConserves(ttl: Ttl, s: Fleet, a: Action, commits: nat, s': Fleet, commits': nat)
    requires Conserved(s, commits)
    requires s' == Next(ttl, s, a) && commits' == commits + One(Commits(s, a))
    ensures Conserved(s', commits')
  {
    NextKeepsShape(ttl, s, a);
    NextConserves(ttl, s, a, commits);
  }

  lemma StepCounts(ttl: Ttl, acts: seq<Action>, t: seq<Fleet>, k: nat)
    requires IsRun(ttl, acts, t) && k < |acts|
    ensures t[k + 1] == Next(ttl, t[k], acts[k])
    ensures CommitCount(acts, t, k + 1) == CommitCount(acts, t, k) + One(Commits(t[k], acts[k]))
  {
  }

  lemma {:induction false} ConservedAt(ttl: Ttl, acts: seq<Action>, t: seq<Fleet>, k: nat)
    requires IsRun(ttl, acts, t) && k < |t|
    ensures Conserved(t[k], CommitCount(acts, t, k))
  {
    if k == 0 {
      StartConserves();
    } else {
      var m := k - 1;
      ConservedAt(ttl, acts, t, m);
      StepCounts(ttl, acts, t, m);
      StepConserves(ttl, t[m], acts[m], CommitCount(acts, t, m), t[k], CommitCount(acts, t, k));
    }
  }

  /** At every step of every interleaving: each started get is a hit, a load, a
      not-found, a failure or still in flight, and `reads_total` counts them; and
      each commit is a counted write, a set on its way to Redis, or a set that
      failed after its commit, so `writes_total` never exceeds the commits. */
  lemma {:induction false} CountersConserved(ttl: Ttl, acts: seq<Action>, t: seq<Fleet>, k: nat)
    requires IsRun(ttl, acts, t) && k < |t|
    ensures ReadsConserved(t[k]) && WritesConserved(t[k], CommitCount(acts, t, k))
    ensures t[k].writesTotal <= CommitCount(acts, t, k)
  {
    ConservedAt(ttl, acts, t, k);
  }
}
