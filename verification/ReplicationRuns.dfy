/** What holds over every run of the replication protocol. */
module ReplicationRuns {
  import opened Prelude
  import opened StoreModel
  import Prune
  import opened SyncPull
  import opened Replication

  /** New databases, no process running, nothing sent. */
  ghost predicate Initial(s: State) {
    && s.held.Keys == s.stores.Keys
    && (forall l :: l in s.stores ==> s.stores[l] == Store([], 0, map[], map[], s.stores[l].burns) && s.held[l] == {})
    && s.pulls == map[] && s.pushes == map[] && s.copies == map[] && s.net == map[] && s.acks == {}
  }

  ghost predicate Next(t: Topology, s: State, step: Step, s': State) {
    Shape(t, s) && Enabled(t, s, step) && s' == Apply(t, s, step)
  }

  ghost predicate IsRun(t: Topology, states: seq<State>, steps: seq<Step>) {
    && |states| == |steps| + 1
    && Initial(states[0])
    && forall i :: 0 <= i < |steps| ==> Next(t, states[i], steps[i], states[i + 1])
  }

  lemma InitialInv(t: Topology, s: State)
    requires Initial(s)
    ensures Inv(t, s)
  {
    forall l | l in s.stores ensures StoreOk(t, s, l) {
      assert Ids([]) == {};
    }
  }

  /** The invariant holds in every state of every run. */
  lemma {:induction false} RunInv(t: Topology, states: seq<State>, steps: seq<Step>, i: nat)
    requires IsRun(t, states, steps) && i < |states|
    ensures Inv(t, states[i])
  {
    hide Inv, Apply, Enabled, Shape;
    if i == 0 {
      InitialInv(t, states[0]);
    } else {
      RunInv(t, states, steps, i - 1);
      assert Next(t, states[i - 1], steps[i - 1], states[i]);
      StepInv(t, states[i - 1], steps[i - 1]);
    }
  }

  /** The entries a step inserts into store `l`. */
  function ArrivesAt(s: State, step: Step, l: StoreId): seq<Entry> {
    match step
    case Record(k, es) => if k == l then es else []
    case OnPull(run, p) =>
      if p.StorePage? && run in s.pulls && s.pulls[run].local == l && s.pulls[run].phase.Fetched?
      then s.pulls[run].phase.batch.entries else []
    case Deliver(req) => if req in s.net && s.net[req].dst == l then s.net[req].entries else []
    case OnPush(_, _) => []
    case OnCopy(_, _) => []
    case PruneStore(_, _, _, _) => []
  }

  /** Only arrivals add ids to a store's history, and only a prune takes rows away. */
  ghost predicate Arrived(s: State, s': State, l: StoreId, es: seq<Entry>, pruned: bool) {
    && l in s.stores && l in s'.stores && l in s.held && l in s'.held
    && (es == [] ==> s'.held[l] == s.held[l] || s'.held[l] == s.held[l] + Ids(s'.stores[l].rows))
    && (es != [] ==> s'.held[l] == s.held[l] + Ids(s'.stores[l].rows))
    && (!pruned ==> s'.stores[l].rows == Ingest(s.stores[l], es).rows)
  }

  lemma PullArrives(t: Topology, s: State, run: nat, p: PullStep, l: StoreId)
    requires Shape(t, s) && PullEnabled(t, s, run, p) && l in s.stores
    ensures Arrived(s, ApplyPull(t, s, run, p), l, ArrivesAt(s, OnPull(run, p), l), false)
  {
    hide Shape, Valid, Ids, Serve;
    StoreInHeld(t, s, l);
    if p.StorePage? || p.SavePage? {
      PullLocal(t, s, run);
    }
  }

  lemma PushArrives(t: Topology, s: State, run: nat, p: PushStep, l: StoreId)
    requires Shape(t, s) && PushEnabled(t, s, run, p) && l in s.stores
    ensures Arrived(s, ApplyPush(t, s, run, p), l, [], false)
  {
    hide Valid, Ids, Serve;
  }

  lemma CopyArrives(t: Topology, s: State, run: nat, c: CopyStep, l: StoreId)
    requires Shape(t, s) && CopyEnabled(t, s, run, c) && l in s.stores
    ensures Arrived(s, ApplyCopy(t, s, run, c), l, [], false)
  {
    hide Valid, Ids;
  }

  lemma StoreInHeld(t: Topology, s: State, l: StoreId)
    requires Shape(t, s) && l in s.stores
    ensures l in s.held && Valid(s.stores[l])
  {
  }

  lemma PullLocal(t: Topology, s: State, run: nat)
    requires Shape(t, s) && run in s.pulls
    ensures s.pulls[run].local in s.stores && s.pulls[run].local in s.held
  {
  }

  lemma StepArrives(t: Topology, s: State, step: Step, l: StoreId)
    requires Shape(t, s) && Enabled(t, s, step) && l in s.stores
    ensures Arrived(s, Apply(t, s, step), l, ArrivesAt(s, step, l), step.PruneStore?)
  {
    hide Arrived, Shape, Survivors, PullEnabled, PushEnabled, CopyEnabled;
    match step
    case OnPull(run, p) => PullArrives(t, s, run, p, l);
    case OnPush(run, p) => PushArrives(t, s, run, p, l);
    case OnCopy(run, c) => CopyArrives(t, s, run, c, l);
    case Record(_, _) => PlainArrives(t, s, step, l);
    case Deliver(_) => PlainArrives(t, s, step, l);
    case PruneStore(_, _, _, _) => PlainArrives(t, s, step, l);
  }

  lemma PlainArrives(t: Topology, s: State, step: Step, l: StoreId)
    requires Shape(t, s) && Enabled(t, s, step) && l in s.stores
    requires step.Record? || step.Deliver? || step.PruneStore?
    ensures Arrived(s, Apply(t, s, step), l, ArrivesAt(s, step, l), step.PruneStore?)
  {
    hide Valid, Ids, Survivors;
  }

  lemma {:induction false} RunKeys(t: Topology, states: seq<State>, steps: seq<Step>, i: nat)
    requires IsRun(t, states, steps) && i < |states|
    ensures states[i].stores.Keys == states[0].stores.Keys == states[i].held.Keys
  {
    hide Inv, Apply, Enabled, Shape;
    if i > 0 {
      RunKeys(t, states, steps, i - 1);
      RunInv(t, states, steps, i - 1);
      assert Next(t, states[i - 1], steps[i - 1], states[i]);
      StepInv(t, states[i - 1], steps[i - 1]);
    }
  }

  /** `held` is history: an id in it was in the store's table in some earlier state of the run. */
  lemma {:induction false} HeldIsHistory(t: Topology, states: seq<State>, steps: seq<Step>, i: nat, l: StoreId,
                                         id: EntryId)
    requires IsRun(t, states, steps) && i < |states|
    requires l in states[i].held && id in states[i].held[l]
    ensures exists j :: 0 <= j <= i && l in states[j].stores && id in Ids(states[j].stores[l].rows)
  {
    hide Apply, Enabled, Shape, Ids, Inv;
    RunKeys(t, states, steps, i);
    if i > 0 {
      RunKeys(t, states, steps, i - 1);
      assert Next(t, states[i - 1], steps[i - 1], states[i]);
      StepArrives(t, states[i - 1], steps[i - 1], l);
      if id in states[i - 1].held[l] {
        HeldIsHistory(t, states, steps, i - 1, l, id);
      } else {
        assert id in Ids(states[i].stores[l].rows);
      }
    }
  }

  /**
   No gap: in every reachable state, every row a peer still has at or below a store's pull cursor
   for it is an entry that store has had, in that state or before.
   */
  lemma PullCursorsSound(t: Topology, states: seq<State>, steps: seq<Step>, i: nat, l: StoreId, key: Key, r: Row)
    requires IsRun(t, states, steps) && i < |states|
    requires l in states[i].stores && key in states[i].stores[l].pullCursors
    ensures t.owner(key) in states[i].stores
    ensures states[i].stores[l].pullCursors[key] <= states[i].stores[t.owner(key)].counter
    ensures r in states[i].stores[t.owner(key)].rows && r.ingestSeq <= states[i].stores[l].pullCursors[key] ==>
              exists j :: 0 <= j <= i && l in states[j].stores && r.entry.id in Ids(states[j].stores[l].rows)
  {
    RunInv(t, states, steps, i);
    assert StoreOk(t, states[i], l);
    assert CursorOk(t, states[i], l, key, states[i].stores[l].pullCursors[key], false);
    if r in states[i].stores[t.owner(key)].rows && r.ingestSeq <= states[i].stores[l].pullCursors[key] {
      assert r.entry.id in states[i].held[l];
      HeldIsHistory(t, states, steps, i, l, r.entry.id);
    }
  }

  /** Over any stretch of a run: a number handed out at its start still stands for the same row, if for any. */
  lemma {:induction false} RunEvolves(t: Topology, states: seq<State>, steps: seq<Step>, i: nat, j: nat, l: StoreId)
    requires IsRun(t, states, steps) && i <= j < |states|
    requires l in states[i].stores
    ensures l in states[j].stores && states[i].stores[l].counter <= states[j].stores[l].counter
    ensures forall r :: r in states[j].stores[l].rows && r.ingestSeq <= states[i].stores[l].counter
                     ==> r in states[i].stores[l].rows
    decreases j
  {
    hide Inv, Apply, Enabled, Shape;
    if i < j {
      RunEvolves(t, states, steps, i, j - 1, l);
      RunInv(t, states, steps, j - 1);
      assert Next(t, states[j - 1], steps[j - 1], states[j]);
      StepInv(t, states[j - 1], steps[j - 1]);
    }
  }

  /** Step `j` is the delete of a prune whose pushed floor was read in state `i`. */
  ghost predicate FloorReadAt(states: seq<State>, steps: seq<Step>, i: nat, j: nat) {
    && i <= j < |steps| < |states| && steps[j].PruneStore?
    && steps[j].l in states[i].stores && steps[j].l in states[j].stores && steps[j].l in states[j + 1].stores
    && IsPushedFloor(states[i].stores[steps[j].l].pushCursors, steps[j].pushedFloor)
  }

  lemma DeletedBelowFloor(t: Topology, states: seq<State>, steps: seq<Step>, i: nat, j: nat, r: Row, key: Key)
    requires IsRun(t, states, steps) && FloorReadAt(states, steps, i, j)
    requires r in states[j].stores[steps[j].l].rows && r !in states[j + 1].stores[steps[j].l].rows
    requires key in states[i].stores[steps[j].l].pushCursors
    ensures r.ingestSeq <= states[i].stores[steps[j].l].pushCursors[key]
  {
    hide Inv;
    assert Next(t, states[j], steps[j], states[j + 1]);
    var st := states[j].stores[steps[j].l];
    Prune.SurvivorsExact(st.rows, steps[j].cutoff, steps[j].keepFloor, steps[j].pushedFloor);
  }

  /**
   No loss: whenever a prune deletes a row that the store's push filter selects, every peer whose
   push cursor was on record when the prune read its floor had already had that entry then; however
   much happened between the read and the delete.
   */
  lemma PruneLosesNothing(t: Topology, states: seq<State>, steps: seq<Step>, i: nat, j: nat, r: Row, key: Key)
    requires IsRun(t, states, steps) && FloorReadAt(states, steps, i, j)
    requires r in states[j].stores[steps[j].l].rows && r !in states[j + 1].stores[steps[j].l].rows
    requires var own := t.filter(steps[j].l); own.Some? ==> r.entry.device == own.value
    requires key in states[i].stores[steps[j].l].pushCursors
    ensures exists h :: 0 <= h <= i && t.owner(key) in states[h].stores
                     && r.entry.id in Ids(states[h].stores[t.owner(key)].rows)
  {
    hide IsRun, Ids, IsPushedFloor;
    var l := steps[j].l;
    RunInv(t, states, steps, i);
    DeletedBelowFloor(t, states, steps, i, j, r, key);
    assert StoreOk(t, states[i], l);
    assert CursorOk(t, states[i], l, key, states[i].stores[l].pushCursors[key], true);
    RunEvolves(t, states, steps, i, j, l);
    assert r.entry.id in states[i].held[t.owner(key)];
    HeldIsHistory(t, states, steps, i, t.owner(key), r.entry.id);
  }

  /** Step `j` is the delete of a prune both of whose floors were read in state `i`, and one of them was there. */
  ghost predicate FloorsReadAt(states: seq<State>, steps: seq<Step>, keepRecent: U64, i: nat, j: nat) {
    && FloorReadAt(states, steps, i, j)
    && KeepFloor(states[i].stores[steps[j].l].rows, keepRecent) == steps[j].keepFloor
    && (steps[j].keepFloor.Some? || steps[j].pushedFloor.Some?)
  }

  /** Whatever lies below a floor had its number when the floor was read. */
  lemma FloorBelowCounter(t: Topology, states: seq<State>, steps: seq<Step>, keepRecent: U64, i: nat, j: nat, r: Row)
    requires IsRun(t, states, steps) && FloorsReadAt(states, steps, keepRecent, i, j)
    requires Prunable(r, steps[j].cutoff, steps[j].keepFloor, steps[j].pushedFloor)
    ensures r.ingestSeq <= states[i].stores[steps[j].l].counter
  {
    hide IsRun, Ids;
    var l := steps[j].l;
    var st := states[i].stores[l];
    RunInv(t, states, steps, i);
    assert StoreOk(t, states[i], l) && Valid(st);
    if steps[j].pushedFloor.Some? {
      var k :| k in st.pushCursors && st.pushCursors[k] == steps[j].pushedFloor.value;
      assert CursorOk(t, states[i], l, k, st.pushCursors[k], true);
    } else {
      assert exists x :: x in st.rows && x.ingestSeq == steps[j].keepFloor.value;
    }
  }

  /**
   The code counts, then deletes. If any floor was there when the floors were read (state `i`), the
   rows deleted at step `j` are among those counted in any state `c` between, so no more are deleted
   than were matched, whatever was recorded meanwhile; fewer are if another prune came between.
   */
  lemma DeletedWereCounted(t: Topology, states: seq<State>, steps: seq<Step>, keepRecent: U64, i: nat, c: nat, j: nat)
    requires IsRun(t, states, steps) && FloorsReadAt(states, steps, keepRecent, i, j) && i <= c <= j
    ensures steps[j].l in states[c].stores
    ensures var l, cutoff, kf, pf := steps[j].l, steps[j].cutoff, steps[j].keepFloor, steps[j].pushedFloor;
            var counted, now := states[c].stores[l].rows, states[j].stores[l].rows;
            && Prune.Matching(now, cutoff, kf, pf) <= Prune.Matching(counted, cutoff, kf, pf)
            && |now| - |states[j + 1].stores[l].rows| <= |counted| - |Survivors(counted, cutoff, kf, pf)|
  {
    hide Prunable, IsPushedFloor, KeepFloor, Survivors;
    var l, cutoff, kf, pf := steps[j].l, steps[j].cutoff, steps[j].keepFloor, steps[j].pushedFloor;
    RunEvolves(t, states, steps, i, c, l);
    RunEvolves(t, states, steps, c, j, l);
    var counted, now := states[c].stores[l].rows, states[j].stores[l].rows;
    forall r | r in Prune.Matching(now, cutoff, kf, pf)
      ensures r in Prune.Matching(counted, cutoff, kf, pf)
    {
      FloorBelowCounter(t, states, steps, keepRecent, i, j, r);
    }
    RunInv(t, states, steps, c);
    RunInv(t, states, steps, j);
    assert Next(t, states[j], steps[j], states[j + 1]);
    assert Valid(states[c].stores[l]) && Valid(states[j].stores[l]);
    Prune.MatchingCount(counted, cutoff, kf, pf);
    Prune.MatchingCount(now, cutoff, kf, pf);
    Prune.SubsetSize(Prune.Matching(now, cutoff, kf, pf), Prune.Matching(counted, cutoff, kf, pf));
  }

  lemma OneEntryStore(e: Entry)
    ensures var empty := Store([], 0, map[], map[], false);
            var one := empty.(rows := [Row(1, e)], counter := 1);
            && Ingest(empty, [e]) == one
            && Valid(empty) && Valid(one) && Ids(one.rows) == {e.id}
            && KeepFloor(one.rows, 0) == None && IsPushedFloor(one.pushCursors, None)
            && Survivors(one.rows, e.ts + 1, None, None) == []
  {
    var empty := Store([], 0, map[], map[], false);
    var one := empty.(rows := [Row(1, e)], counter := 1);
    assert [e][..0] == [] && one.rows[..0] == [];
    assert Ingest(empty, [e][..0]) == empty;
    IdsAppend([], Row(1, e));
    assert [] + [Row(1, e)] == one.rows;
    assert Survivors(one.rows, e.ts + 1, None, None) == [];
    assert IsPushedFloor(one.pushCursors, None);
  }

  /** Two stores, of which store 0 has these rows and this history and the other nothing. */
  function TwoStores(rows: seq<Row>, counter: int, held: set<EntryId>): State {
    var empty := Store([], 0, map[], map[], false);
    State(map[0 := empty.(rows := rows, counter := counter), 1 := empty], map[0 := held, 1 := {}],
          map[], map[], map[], map[], {})
  }

  lemma RecordsOne(t: Topology, e: Entry)
    ensures Next(t, TwoStores([], 0, {}), Record(0, [e]), TwoStores([Row(1, e)], 1, {e.id}))
  {
    hide Ingest, Ids, Valid, KeepFloor, IsPushedFloor, Survivors;
    OneEntryStore(e);
    var s := TwoStores([], 0, {});
    var s' := TwoStores([Row(1, e)], 1, {e.id});
    assert {} + {e.id} == {e.id};
    assert Apply(t, s, Record(0, [e])).stores == s'.stores;
    assert Apply(t, s, Record(0, [e])).held == s'.held;
  }

  lemma PrunesOne(t: Topology, e: Entry)
    ensures Next(t, TwoStores([Row(1, e)], 1, {e.id}), PruneStore(0, e.ts + 1, None, None), TwoStores([], 1, {e.id}))
  {
    hide Ingest, Ids, Valid, KeepFloor, IsPushedFloor, Survivors;
    OneEntryStore(e);
    var s := TwoStores([Row(1, e)], 1, {e.id});
    assert s.stores[0].(rows := []) == Store([], 1, map[], map[], false);
    assert Apply(t, s, PruneStore(0, e.ts + 1, None, None)).stores == TwoStores([], 1, {e.id}).stores;
  }

  /**
   A peer without a push cursor is not protected: this run records an entry, prunes it under the
   floors of that very moment, and the other store never had it.
   */
  lemma UnlistedPeerLosesOut(t: Topology, e: Entry) returns (states: seq<State>, steps: seq<Step>)
    ensures IsRun(t, states, steps) && |steps| == 2 && FloorReadAt(states, steps, 1, 1) && steps[1].l == 0
    ensures KeepFloor(states[1].stores[0].rows, 0) == steps[1].keepFloor
    ensures Row(1, e) in states[1].stores[0].rows && Row(1, e) !in states[2].stores[0].rows
    ensures forall j :: 0 <= j < |states| ==> 1 in states[j].stores && states[j].stores[1].rows == []
  {
    hide Next;
    RecordsOne(t, e);
    PrunesOne(t, e);
    states := [TwoStores([], 0, {}), TwoStores([Row(1, e)], 1, {e.id}), TwoStores([], 1, {e.id})];
    steps := [Record(0, [e]), PruneStore(0, e.ts + 1, None, None)];
  }

  // ---------- Runs without pruning ----------

  ghost predicate NeverPrunes(steps: seq<Step>) {
    forall i :: 0 <= i < |steps| ==> !steps[i].PruneStore?
  }

  /** Without pruning a store holds everything it ever had. */
  lemma {:induction false} HeldIsPresent(t: Topology, states: seq<State>, steps: seq<Step>, i: nat, l: StoreId)
    requires IsRun(t, states, steps) && NeverPrunes(steps) && i < |states| && l in states[0].stores
    ensures l in states[i].stores && l in states[i].held && states[i].held[l] == Ids(states[i].stores[l].rows)
  {
    hide Inv, Apply, Enabled, Ids, Extends;
    if i == 0 {
      NoIds();
    } else {
      HeldIsPresent(t, states, steps, i - 1, l);
      assert Next(t, states[i - 1], steps[i - 1], states[i]);
      StepArrives(t, states[i - 1], steps[i - 1], l);
      IngestExact(states[i - 1].stores[l], ArrivesAt(states[i - 1], steps[i - 1], l));
    }
  }

  lemma NoIds()
    ensures Ids([]) == {}
  {
  }

  /** So without pruning a pull cursor says what the store holds now. */
  lemma PullCursorsExact(t: Topology, states: seq<State>, steps: seq<Step>, i: nat, l: StoreId, key: Key)
    requires IsRun(t, states, steps) && NeverPrunes(steps) && i < |states|
    requires l in states[i].stores && t.owner(key) in states[i].stores
    ensures forall r :: r in states[i].stores[t.owner(key)].rows
                     && r.ingestSeq <= CursorIn(states[i].stores[l].pullCursors, key)
                     ==> r.entry.id in Ids(states[i].stores[l].rows)
    ensures CursorIn(states[i].stores[l].pullCursors, key) <= states[i].stores[t.owner(key)].counter
  {
    RunInv(t, states, steps, i);
    RunKeys(t, states, steps, i);
    HeldIsPresent(t, states, steps, i, l);
    StoredCursorOk(t, states[i], l, key, false);
  }

  // ---------- The pull loop is a path of the protocol ----------

  ghost predicate Goes(t: Topology, s: State, steps: seq<Step>, s': State)
    decreases |steps|
  {
    if steps == [] then s' == s else
      var n := |steps| - 1;
      exists mid :: Goes(t, s, steps[..n], mid) && Next(t, mid, steps[n], s')
  }

  function StepOf(run: nat, a: PullAct): Step {
    match a
    case Fetch(limit, batch) => OnPull(run, FetchPage(limit))
    case StoreBatch => OnPull(run, StorePage)
    case SaveCursor => OnPull(run, SavePage)
  }

  function StepsOf(run: nat, log: seq<PullAct>): seq<Step> {
    seq(|log|, i requires 0 <= i < |log| => StepOf(run, log[i]))
  }

  /**
   The configuration of one pull run inside the whole state. The run's cursor and the stored one need
   not agree: other runs on the same store may have moved the latter. A key may name the store itself;
   then `peer` is the store as it was, and what is fetched is already there.
   */
  ghost predicate RunAt(t: Topology, s: State, run: nat, l: StoreId, key: Key, c: PullConf, peer: Store) {
    && Inv(t, s)
    && run in s.pulls && s.pulls[run] == PullRun(l, key, c.cursor, c.phase)
    && l in s.stores && s.stores[l] == c.store
    && t.owner(key) in s.stores && s.stores[t.owner(key)].rows == peer.rows
    && (t.owner(key) != l ==> s.stores[t.owner(key)] == peer)
    && (c.phase.Fetched? && t.owner(key) == l ==> EntryIds(c.phase.batch.entries) <= Ids(peer.rows))
  }

  /** Any store can begin to pull under any key, and then stands where the pull loop starts. */
  lemma BeginPullIsNext(t: Topology, s: State, run: nat, l: StoreId, key: Key) returns (s': State)
    requires Inv(t, s) && l in s.stores && t.owner(key) in s.stores
    ensures Next(t, s, OnPull(run, BeginPull(l, key)), s')
    ensures RunAt(t, s', run, l, key, Start(s.stores[l], key), s.stores[t.owner(key)])
  {
    hide StoreOk, PullOk, PushOk, CopyOk, AckOk, Valid, Ids, Serve, Evolves;
    StepInv(t, s, OnPull(run, BeginPull(l, key)));
    s' := Apply(t, s, OnPull(run, BeginPull(l, key)));
  }

  /** What a peer serves here is what its store in the state serves, and in a self-sync all of it is known. */
  lemma ServedInState(t: Topology, s: State, run: nat, l: StoreId, key: Key, c: PullConf, peer: Store, limit: U64)
    requires RunAt(t, s, run, l, key, c, peer) && Valid(peer)
    ensures Valid(s.stores[t.owner(key)])
    ensures Serve(s.stores[t.owner(key)], c.cursor, limit, None) == Serve(peer, c.cursor, limit, None)
    ensures EntryIds(Serve(peer, c.cursor, limit, None).entries) <= Ids(peer.rows)
  {
    hide StoreOk, PullOk, PushOk, CopyOk, AckOk, Valid, Ids, EntryIds, Serve;
    ServeSameRows(s.stores[t.owner(key)], peer, c.cursor, limit, None);
    ServedKnown(peer, c.cursor, limit, None);
  }

  lemma ActIsStep(t: Topology, s: State, run: nat, l: StoreId, key: Key, c: PullConf, peer: Store, a: PullAct)
    requires RunAt(t, s, run, l, key, c, peer) && CanAct(Some(peer), c, a)
    ensures Enabled(t, s, StepOf(run, a))
    ensures RunAt(t, Apply(t, s, StepOf(run, a)), run, l, key, Act(Some(peer), key, c, a), peer)
  {
    hide StoreOk, PullOk, PushOk, CopyOk, AckOk, Valid, Ids, EntryIds, Serve, Evolves, Ingest;
    if a.Fetch? {
      ServedInState(t, s, run, l, key, c, peer, a.limit);
    }
    if a.StoreBatch? && t.owner(key) == l {
      IngestKnown(c.store, c.phase.batch.entries);
    }
    StepInv(t, s, StepOf(run, a));
  }

  /**
   Refinement: what the pull loop of a class `LocalStore` logs against a real peer is, step for
   step, a path of the protocol from any state in which that run has just begun, and it ends with
   the database the loop ends with.
   */
  lemma {:induction false} PullLoopIsPath(t: Topology, s: State, run: nat, l: StoreId, key: Key,
                                          c: PullConf, peer: Store, log: seq<PullAct>, c': PullConf)
    requires RunAt(t, s, run, l, key, c, peer) && Leads(Some(peer), key, c, log, c')
    ensures exists s' :: Goes(t, s, StepsOf(run, log), s') && RunAt(t, s', run, l, key, c', peer)
    decreases |log|
  {
    hide RunAt, Next, Apply, Enabled, Inv, CanAct, Act;
    if log == [] {
      assert Goes(t, s, StepsOf(run, log), s);
    } else {
      var n := |log| - 1;
      var mid :| Leads(Some(peer), key, c, log[..n], mid) && CanAct(Some(peer), mid, log[n])
              && c' == Act(Some(peer), key, mid, log[n]);
      PullLoopIsPath(t, s, run, l, key, c, peer, log[..n], mid);
      var m :| Goes(t, s, StepsOf(run, log[..n]), m) && RunAt(t, m, run, l, key, mid, peer);
      assert StepsOf(run, log)[..n] == StepsOf(run, log[..n]);
      ActIsNext(t, m, run, l, key, mid, peer, log[n]);
    }
  }

  lemma ActIsNext(t: Topology, s: State, run: nat, l: StoreId, key: Key, c: PullConf, peer: Store, a: PullAct)
    requires RunAt(t, s, run, l, key, c, peer) && CanAct(Some(peer), c, a)
    ensures exists s' :: Next(t, s, StepOf(run, a), s') && RunAt(t, s', run, l, key, Act(Some(peer), key, c, a), peer)
  {
    hide StoreOk, PullOk, PushOk, CopyOk, AckOk, Valid, Apply, Enabled;
    ActIsStep(t, s, run, l, key, c, peer, a);
    assert Next(t, s, StepOf(run, a), Apply(t, s, StepOf(run, a)));
  }

  /** The run `run` on store `l`, wherever the stored cursor and the peer are by now. */
  ghost predicate Holding(t: Topology, s: State, run: nat, l: StoreId, key: Key, cursor: int, phase: Phase, st: Store) {
    && Inv(t, s)
    && run in s.pulls && s.pulls[run] == PullRun(l, key, cursor, phase)
    && l in s.stores && s.stores[l] == st
  }

  /**
   The two commits of a round are two steps of the protocol, each from any state in which the run
   holds the batch: anything may have happened before the first and between the two, other runs
   moving the same cursor included.
   */
  lemma StoreCommitIsNext(t: Topology, s: State, run: nat, l: StoreId, key: Key, cursor: int, batch: PullBatch,
                          st: Store)
    returns (s': State)
    requires Holding(t, s, run, l, key, cursor, Fetched(batch), st) && batch.entries != [] && Fits(st, batch.entries)
    ensures Next(t, s, OnPull(run, StorePage), s')
    ensures Holding(t, s', run, l, key, cursor, Stored(batch), Ingest(st, batch.entries))
  {
    hide StoreOk, PullOk, PushOk, CopyOk, AckOk, Valid, Ids, Serve, Evolves;
    StepInv(t, s, OnPull(run, StorePage));
    s' := Apply(t, s, OnPull(run, StorePage));
  }

  lemma SaveCommitIsNext(t: Topology, s: State, run: nat, l: StoreId, key: Key, cursor: int, batch: PullBatch,
                         st: Store)
    returns (s': State)
    requires Holding(t, s, run, l, key, cursor, Stored(batch), st)
    requires batch.nextCursor.Some? && cursor < batch.nextCursor.value
    ensures Next(t, s, OnPull(run, SavePage), s')
    ensures var next := batch.nextCursor.value;
            Holding(t, s', run, l, key, next, Ready, st.(pullCursors := st.pullCursors[key := next]))
  {
    hide StoreOk, PullOk, PushOk, CopyOk, AckOk, Valid, Ids, Serve, Evolves;
    StepInv(t, s, OnPull(run, SavePage));
    s' := Apply(t, s, OnPull(run, SavePage));
  }
}
