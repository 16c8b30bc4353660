/** The single-store operations of a `LocalStore` are steps, or short paths, of the replication protocol. */
module StorePath {
  import opened Prelude
  import opened StoreModel
  import opened LocalStores
  import opened Serving
  import opened Replication
  import opened ReplicationRuns
  import PushPath

  ghost predicate StoreAt(t: Topology, s: State, l: StoreId, st: Store) {
    Inv(t, s) && l in s.stores && s.stores[l] == st
  }

  ghost predicate OthersKept(s: State, s': State, l: StoreId) {
    s'.stores.Keys == s.stores.Keys && forall k :: k in s.stores && k != l ==> s'.stores[k] == s.stores[k]
  }

  /** Recording or importing entries. */
  lemma InsertIsNext(t: Topology, s: State, l: StoreId, st: Store, es: seq<Entry>) returns (s': State)
    requires StoreAt(t, s, l, st) && Fits(st, es)
    ensures Next(t, s, Record(l, es), s') && StoreAt(t, s', l, Ingest(st, es)) && OthersKept(s, s', l)
  {
    hide StoreOk, PullOk, PushOk, CopyOk, AckOk, Valid, Ids, Evolves, Ingest;
    StepInv(t, s, Record(l, es));
    s' := Apply(t, s, Record(l, es));
  }

  /** The class's prune is the step whose floors are those of the same state. */
  lemma PruneIsNext(t: Topology, s: State, l: StoreId, st: Store, cutoff: int, keepRecent: U64, left: Store)
    returns (pushedFloor: Option<int>, s': State)
    requires StoreAt(t, s, l, st) && Pruned(st, cutoff, keepRecent, left)
    ensures IsPushedFloor(st.pushCursors, pushedFloor)
    ensures Next(t, s, PruneStore(l, cutoff, KeepFloor(st.rows, keepRecent), pushedFloor), s')
    ensures StoreAt(t, s', l, left) && OthersKept(s, s', l)
  {
    hide StoreOk, PullOk, PushOk, CopyOk, AckOk, Valid, Ids, Evolves, Survivors, KeepFloor;
    var keepFloor := KeepFloor(st.rows, keepRecent);
    pushedFloor :| IsPushedFloor(st.pushCursors, pushedFloor)
                && left == st.(rows := Survivors(st.rows, cutoff, keepFloor, pushedFloor));
    StepInv(t, s, PruneStore(l, cutoff, keepFloor, pushedFloor));
    s' := Apply(t, s, PruneStore(l, cutoff, keepFloor, pushedFloor));
  }

  /** Storing a pushed batch, and an acknowledgement then on its way. */
  lemma ServedPushIsNext(t: Topology, s: State, req: nat, before: Store, after: Store) returns (s': State)
    requires req in s.net && StoreAt(t, s, s.net[req].dst, before) && Delivers(before, after, s.net[req].entries)
    ensures Next(t, s, Deliver(req), s') && StoreAt(t, s', s.net[req].dst, after) && OthersKept(s, s', s.net[req].dst)
    ensures s'.acks == s.acks + {req}
  {
    hide StoreOk, PullOk, PushOk, CopyOk, AckOk, Valid, Ids, Evolves, Ingest;
    StepInv(t, s, Deliver(req));
    s' := Apply(t, s, Deliver(req));
  }

  /** `st` with one of its two cursor tables migrated. */
  function MigratedStore(st: Store, ofPush: bool, oldKey: Key, newKey: Key): Store {
    if ofPush then st.(pushCursors := Migrated(st.pushCursors, oldKey, newKey))
    else st.(pullCursors := Migrated(st.pullCursors, oldKey, newKey))
  }

  lemma ReadIsNext(t: Topology, s: State, run: nat, l: StoreId, st: Store, ofPush: bool, oldKey: Key, newKey: Key)
    returns (s': State)
    requires StoreAt(t, s, l, st) && t.owner(oldKey) == t.owner(newKey) && t.owner(newKey) in s.stores
    requires oldKey in Table(st, ofPush) && newKey !in Table(st, ofPush)
    ensures Next(t, s, OnCopy(run, ReadLegacy(l, oldKey, newKey, ofPush)), s')
    ensures StoreAt(t, s', l, st) && OthersKept(s, s', l)
    ensures run in s'.copies && s'.copies[run] == Copy(l, newKey, Table(st, ofPush)[oldKey], ofPush)
  {
    hide StoreOk, PullOk, PushOk, CopyOk, AckOk, Valid, Ids, Evolves;
    StepInv(t, s, OnCopy(run, ReadLegacy(l, oldKey, newKey, ofPush)));
    s' := Apply(t, s, OnCopy(run, ReadLegacy(l, oldKey, newKey, ofPush)));
  }

  lemma WriteIsNext(t: Topology, s: State, run: nat, l: StoreId, st: Store, to: Key, value: int, ofPush: bool)
    returns (s': State)
    requires StoreAt(t, s, l, st) && run in s.copies && s.copies[run] == Copy(l, to, value, ofPush)
    ensures Next(t, s, OnCopy(run, WriteCopy), s')
    ensures StoreAt(t, s', l, if ofPush then st.(pushCursors := st.pushCursors[to := value])
                              else st.(pullCursors := st.pullCursors[to := value]))
    ensures OthersKept(s, s', l)
  {
    hide StoreOk, PullOk, PushOk, CopyOk, AckOk, Valid, Ids, Evolves;
    StepInv(t, s, OnCopy(run, WriteCopy));
    s' := Apply(t, s, OnCopy(run, WriteCopy));
  }

  /** The legacy value is there and the new key has none. */
  predicate NeedsCopy(st: Store, ofPush: bool, oldKey: Key, newKey: Key) {
    if ofPush then newKey !in st.pushCursors && oldKey in st.pushCursors
    else newKey !in st.pullCursors && oldKey in st.pullCursors
  }

  /**
   Migrating one table of a legacy key is a read step and a later write step exactly when the legacy
   value is there and the new key has none; otherwise it is no step at all and changes nothing.
   */
  lemma MigrationIsPath(t: Topology, s: State, l: StoreId, st: Store, ofPush: bool, oldKey: Key, newKey: Key)
    returns (steps: seq<Step>, s': State, run: nat)
    requires StoreAt(t, s, l, st) && t.owner(oldKey) == t.owner(newKey) && t.owner(newKey) in s.stores
    ensures Goes(t, s, steps, s') && OthersKept(s, s', l)
    ensures StoreAt(t, s', l, MigratedStore(st, ofPush, oldKey, newKey))
    ensures NeedsCopy(st, ofPush, oldKey, newKey) ==>
              && steps == [OnCopy(run, ReadLegacy(l, oldKey, newKey, ofPush)), OnCopy(run, WriteCopy)]
              && StoreAt(t, s', l, if ofPush then st.(pushCursors := st.pushCursors[newKey := st.pushCursors[oldKey]])
                                   else st.(pullCursors := st.pullCursors[newKey := st.pullCursors[oldKey]]))
    ensures !NeedsCopy(st, ofPush, oldKey, newKey) ==> steps == [] && s' == s
  {
    hide StoreAt, Next;
    assert Goes(t, s, [], s);
    run := PushPath.FreshRequest(s.copies.Keys);
    if NeedsCopy(st, ofPush, oldKey, newKey) {
      hide Goes;
      var mid := ReadIsNext(t, s, run, l, st, ofPush, oldKey, newKey);
      PushPath.GoesOn(t, s, [], s, OnCopy(run, ReadLegacy(l, oldKey, newKey, ofPush)), mid);
      steps := [] + [OnCopy(run, ReadLegacy(l, oldKey, newKey, ofPush))];
      s' := WriteIsNext(t, mid, run, l, st, newKey, Table(st, ofPush)[oldKey], ofPush);
      PushPath.GoesOn(t, s, steps, mid, OnCopy(run, WriteCopy), s');
      steps := steps + [OnCopy(run, WriteCopy)];
    } else {
      steps, s' := [], s;
      assert MigratedStore(st, ofPush, oldKey, newKey) == st;
    }
  }
}
