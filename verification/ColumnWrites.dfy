/** An update as the ORM sends it: only the columns that the session has changed.
    The interleaving model commits whole rows; this module says exactly when that is
    the same, that it always is where calls of a pair do not overlap, and what can
    happen where it is not. */
module ColumnWrites {
  import opened Prelude
  import opened FeatureFlags
  import opened Program
  import opened Storage
  import opened Interleaving
  import opened Convergence
  import opened SerialRuns
  import opened Staleness

  /** The columns in which `row` differs from what was `loaded`, written over the
      row that is `stored` by now. */
  function Merge(stored: Row, loaded: Row, row: Row): Row {
    Row(if row.value == loaded.value then stored.value else row.value,
        if row.updatedAt == loaded.updatedAt then stored.updatedAt else row.updatedAt,
        if row.updatedBy == loaded.updatedBy then stored.updatedBy else row.updatedBy)
  }

  /** In `after`, a column that the session has changed has its new value, and any
      other one is as stored. */
  predicate OnlyChanged(stored: Row, loaded: Row, row: Row, after: Row) {
    && after.value == (if row.value != loaded.value then row else stored).value
    && after.updatedAt == (if row.updatedAt != loaded.updatedAt then row else stored).updatedAt
    && after.updatedBy == (if row.updatedBy != loaded.updatedBy then row else stored).updatedBy
  }

  lemma MergeOnlyChanges(stored: Row, loaded: Row, row: Row, after: Row)
    ensures after == Merge(stored, loaded, row) <==> OnlyChanged(stored, loaded, row, after)
  {
  }

  /** No column that the session leaves alone has been changed by others. */
  predicate KeptColumnsCurrent(stored: Row, loaded: Row, row: Row) {
    && (row.value == loaded.value ==> stored.value == loaded.value)
    && (row.updatedAt == loaded.updatedAt ==> stored.updatedAt == loaded.updatedAt)
    && (row.updatedBy == loaded.updatedBy ==> stored.updatedBy == loaded.updatedBy)
  }

  lemma MergeIsWhole(stored: Row, loaded: Row, row: Row)
    ensures Merge(stored, loaded, row) == row <==> KeptColumnsCurrent(stored, loaded, row)
  {
  }

  // ---------- the machine with column-wise updates ----------

  /** The fleet, and the row that each call's session has loaded. */
  datatype State = State(fleet: Fleet, loaded: map<CallId, Row>)

  function Init(): State {
    State(Interleaving.Init(), map[])
  }

  /** The action commits an update of a row that the call's session has loaded. */
  predicate Updates(s: State, a: Action) {
    && (a.Resume? || a.Interrupt?) && CommitsTo(s.fleet, a, a.id.pair)
    && s.fleet.calls[a.id].pc.rowFound && a.id in s.loaded
  }

  predicate Loads(s: State, a: Action) {
    && a.Resume? && InFlight(s.fleet, a.id) && s.fleet.calls[a.id].pc.AtRowRead?
    && a.id.pair in s.fleet.stores.rows
  }

  function WithRow(s: Fleet, p: Pair, row: Row): Fleet {
    s.(stores := s.stores.(rows := s.stores.rows[p := row]))
  }

  function Next(ttl: Ttl, s: State, a: Action): State {
    var fleet := Interleaving.Next(ttl, s.fleet, a);
    if Updates(s, a) then
      var p := a.id.pair;
      s.(fleet := WithRow(fleet, p, Merge(s.fleet.stores.rows[p], s.loaded[a.id], s.fleet.calls[a.id].pc.row)))
    else if Loads(s, a) then
      State(fleet, s.loaded[a.id := s.fleet.stores.rows[a.id.pair]])
    else
      s.(fleet := fleet)
  }

  ghost predicate IsRun(ttl: Ttl, acts: seq<Action>, t: seq<State>) {
    && |t| == |acts| + 1 && t[0] == Init()
    && forall k | 0 <= k < |acts| :: t[k + 1] == Next(ttl, t[k], acts[k])
  }

  function Fleets(t: seq<State>): (fleets: seq<Fleet>)
    ensures |fleets| == |t| && forall k | 0 <= k < |t| :: fleets[k] == t[k].fleet
  {
    seq(|t|, k requires 0 <= k < |t| => t[k].fleet)
  }

  // ---------- when it is the machine with whole rows ----------

  predicate WritesWhole(s: State, a: Action) {
    Updates(s, a) ==>
      KeptColumnsCurrent(s.fleet.stores.rows[a.id.pair], s.loaded[a.id], s.fleet.calls[a.id].pc.row)
  }

  lemma UpdateStores(ttl: Ttl, s: State, a: Action)
    requires Updates(s, a)
    ensures var fleet := Interleaving.Next(ttl, s.fleet, a);
            a.id.pair in fleet.stores.rows && fleet.stores.rows[a.id.pair] == s.fleet.calls[a.id].pc.row
  {
  }

  /** What an update leaves in the table. */
  lemma UpdateOnlyChanges(ttl: Ttl, s: State, a: Action)
    requires Updates(s, a)
    ensures var p, rows := a.id.pair, Next(ttl, s, a).fleet.stores.rows;
            p in rows && OnlyChanged(s.fleet.stores.rows[p], s.loaded[a.id], s.fleet.calls[a.id].pc.row, rows[p])
  {
  }

  lemma SameRow(s: Fleet, p: Pair, row: Row)
    requires p in s.stores.rows
    ensures WithRow(s, p, row) == s <==> s.stores.rows[p] == row
  {
    if s.stores.rows[p] == row {
      assert s.stores.rows[p := row] == s.stores.rows;
    } else {
      assert WithRow(s, p, row).stores.rows[p] == row;
    }
  }

  lemma StepIsWhole(ttl: Ttl, s: State, a: Action)
    ensures Next(ttl, s, a).fleet == Interleaving.Next(ttl, s.fleet, a) <==> WritesWhole(s, a)
  {
    if Updates(s, a) {
      var p, row := a.id.pair, s.fleet.calls[a.id].pc.row;
      UpdateStores(ttl, s, a);
      MergeIsWhole(s.fleet.stores.rows[p], s.loaded[a.id], row);
      SameRow(Interleaving.Next(ttl, s.fleet, a), p, Merge(s.fleet.stores.rows[p], s.loaded[a.id], row));
    }
  }

  /** A run with column-wise updates is a run of the interleaving model, with all
      that is proved of it, exactly when at every update the columns that the call
      does not change are still as its session has loaded them. */
  lemma {:induction false} RunIsWhole(ttl: Ttl, acts: seq<Action>, t: seq<State>)
    requires IsRun(ttl, acts, t)
    ensures Interleaving.IsRun(ttl, acts, Fleets(t)) <==> forall k | 0 <= k < |acts| :: WritesWhole(t[k], acts[k])
  {
    var fleets := Fleets(t);
    assert |fleets| == |acts| + 1 && fleets[0] == Interleaving.Init();
    if Interleaving.IsRun(ttl, acts, fleets) {
      forall k | 0 <= k < |acts| ensures WritesWhole(t[k], acts[k]) {
        assert fleets[k + 1] == Interleaving.Next(ttl, fleets[k], acts[k]);
        StepIsWhole(ttl, t[k], acts[k]);
      }
    }
    if forall k | 0 <= k < |acts| :: WritesWhole(t[k], acts[k]) {
      forall k | 0 <= k < |acts| ensures fleets[k + 1] == Interleaving.Next(ttl, fleets[k], acts[k]) {
        assert WritesWhole(t[k], acts[k]);
        StepIsWhole(ttl, t[k], acts[k]);
      }
    }
  }

  // ---------- calls that do not overlap ----------

  /** No call begins while another call of its pair is in flight. */
  ghost predicate AllSerial(acts: seq<Action>, t: seq<State>)
    requires |t| == |acts| + 1
  {
    forall k | 0 <= k < |acts| && acts[k].Begin? ::
      forall n: nat :: !InFlight(t[k].fleet, CallId(acts[k].id.pair, n))
  }

  ghost predicate OnePerPair(s: Fleet) {
    forall id, other | InFlight(s, id) && InFlight(s, other) && id.pair == other.pair :: id == other
  }

  /** What a session has loaded is still the stored row at its commit. */
  ghost predicate LoadedIsStored(s: State) {
    forall id | InFlight(s.fleet, id) && s.fleet.calls[id].pc.AtCommit? && s.fleet.calls[id].pc.rowFound ::
      id in s.loaded && id.pair in s.fleet.stores.rows && s.loaded[id] == s.fleet.stores.rows[id.pair]
  }

  lemma NextCalls(ttl: Ttl, s: State, a: Action)
    ensures Next(ttl, s, a).fleet.calls == Interleaving.Next(ttl, s.fleet, a).calls
  {
  }

  lemma NextInFlight(ttl: Ttl, s: State, a: Action, id: CallId)
    requires InFlight(Next(ttl, s, a).fleet, id) && !InFlight(s.fleet, id)
    ensures a.Begin? && a.id == id && id !in s.fleet.calls
  {
    NextCalls(ttl, s, a);
  }

  lemma NextKeepsOnePerPair(ttl: Ttl, s: State, a: Action)
    requires OnePerPair(s.fleet)
    requires a.Begin? ==> forall n: nat :: !InFlight(s.fleet, CallId(a.id.pair, n))
    ensures OnePerPair(Next(ttl, s, a).fleet)
  {
    var s' := Next(ttl, s, a);
    forall id, other | InFlight(s'.fleet, id) && InFlight(s'.fleet, other) && id.pair == other.pair
      ensures id == other
    {
      if !InFlight(s.fleet, id) {
        NextInFlight(ttl, s, a, id);
        assert !InFlight(s.fleet, CallId(other.pair, other.serial));
      }
      if !InFlight(s.fleet, other) {
        NextInFlight(ttl, s, a, other);
        assert !InFlight(s.fleet, CallId(id.pair, id.serial));
      }
    }
  }

  /** Only a call of the pair itself changes its row. */
  lemma NextRow(ttl: Ttl, s: State, a: Action, p: Pair)
    requires (a.Resume? || a.Interrupt?) && InFlight(s.fleet, a.id) ==> a.id.pair != p
    ensures var rows, rows' := s.fleet.stores.rows, Next(ttl, s, a).fleet.stores.rows;
            (p in rows <==> p in rows') && (p in rows ==> rows'[p] == rows[p])
  {
  }

  lemma NextAtCommit(ttl: Ttl, s: State, a: Action, id: CallId)
    requires (a.Resume? || a.Interrupt?) && InFlight(s.fleet, a.id) && a.id == id
    requires var call := Next(ttl, s, a).fleet.calls[id];
             InFlight(Next(ttl, s, a).fleet, id) && call.pc.AtCommit? && call.pc.rowFound
    ensures var s' := Next(ttl, s, a);
            id in s'.loaded && id.pair in s'.fleet.stores.rows && s'.loaded[id] == s'.fleet.stores.rows[id.pair]
  {
    assert s.fleet.calls[id].pc.AtRowRead?;
    assert !RowReply(s.fleet.stores, id.pair).Absent?;
  }

  /** A call that the action does not move is as it was, its session included. */
  lemma NextUntouched(ttl: Ttl, s: State, a: Action, id: CallId)
    requires !((a.Resume? || a.Interrupt?) && InFlight(s.fleet, a.id) && a.id == id)
    requires InFlight(Next(ttl, s, a).fleet, id) && Next(ttl, s, a).fleet.calls[id].pc.AtCommit?
    ensures InFlight(s.fleet, id) && s.fleet.calls[id] == Next(ttl, s, a).fleet.calls[id]
    ensures id in s.loaded ==> id in Next(ttl, s, a).loaded && Next(ttl, s, a).loaded[id] == s.loaded[id]
  {
    NextCalls(ttl, s, a);
  }

  lemma NextKeepsLoaded(ttl: Ttl, s: State, a: Action)
    requires OnePerPair(s.fleet) && LoadedIsStored(s)
    ensures LoadedIsStored(Next(ttl, s, a))
  {
    var s' := Next(ttl, s, a);
    forall id | InFlight(s'.fleet, id) && s'.fleet.calls[id].pc.AtCommit? && s'.fleet.calls[id].pc.rowFound
      ensures id in s'.loaded && id.pair in s'.fleet.stores.rows && s'.loaded[id] == s'.fleet.stores.rows[id.pair]
    {
      if (a.Resume? || a.Interrupt?) && InFlight(s.fleet, a.id) && a.id == id {
        NextAtCommit(ttl, s, a, id);
      } else {
        NextUntouched(ttl, s, a, id);
        NextRow(ttl, s, a, id.pair);
      }
    }
  }

  lemma {:induction false} SerialAt(ttl: Ttl, acts: seq<Action>, t: seq<State>, k: nat)
    requires IsRun(ttl, acts, t) && AllSerial(acts, t) && k < |t|
    ensures OnePerPair(t[k].fleet) && LoadedIsStored(t[k])
  {
    if k == 0 {
    } else {
      SerialAt(ttl, acts, t, k - 1);
      assert t[k] == Next(ttl, t[k - 1], acts[k - 1]);
      NextKeepsOnePerPair(ttl, t[k - 1], acts[k - 1]);
      NextKeepsLoaded(ttl, t[k - 1], acts[k - 1]);
    }
  }

  /** Where calls of a pair do not overlap, column-wise updates are whole-row commits,
      whatever fails and however calls of different pairs interleave. */
  lemma {:induction false} SerialRunsAreWhole(ttl: Ttl, acts: seq<Action>, t: seq<State>)
    requires IsRun(ttl, acts, t) && AllSerial(acts, t)
    ensures Interleaving.IsRun(ttl, acts, Fleets(t))
  {
    forall k | 0 <= k < |acts| ensures WritesWhole(t[k], acts[k]) {
      SerialAt(ttl, acts, t, k);
    }
    RunIsWhole(ttl, acts, t);
  }
}
