/** Stores that pull from each other and do not prune end up with the same entries. */
module Convergence {
  import opened Prelude
  import opened StoreModel
  import opened SyncPull
  import RecentList
  import Replication
  import ReplicationRuns

  /** `a`'s cursor for `b` says only what `a` really has. */
  ghost predicate Sound(a: Store, key: Key, b: Store) {
    && CursorIn(a.pullCursors, key) <= b.counter
    && forall r :: r in b.rows && r.ingestSeq <= CursorIn(a.pullCursors, key) ==> r.entry.id in Ids(a.rows)
  }

  /** `b'` is `b` after inserts only. */
  ghost predicate InsertsOnly(b: Store, b': Store) {
    && b.rows <= b'.rows
    && b.counter <= b'.counter
    && (forall r :: r in b'.rows && r.ingestSeq <= b.counter ==> r in b.rows)
  }

  lemma PullAllGrows(a: Store, key: Key, b: Store)
    requires WellFormed(a)
    ensures WellFormed(PullAll(a, key, b)) && InsertsOnly(a, PullAll(a, key, b))
    ensures Ids(PullAll(a, key, b).rows) == Ids(a.rows) + EntryIds(EntriesOf(TailOf(a, key, b)))
    ensures PullAll(a, key, b).pullCursors == SavedAt(a.pullCursors, key, TailOf(a, key, b), |TailOf(a, key, b)|)
  {
    var es := EntriesOf(TailOf(a, key, b));
    assert es[..|es|] == es;
    IngestExact(a, es);
    Replication.IngestRows(a, es);
  }

  lemma TailIds(a: Store, key: Key, b: Store)
    requires WellFormed(b) && Sound(a, key, b)
    ensures Ids(a.rows) + EntryIds(EntriesOf(TailOf(a, key, b))) == Ids(a.rows) + Ids(b.rows)
  {
    hide After, UniqueIds, EntryIds, EntriesOf;
    var tail := TailOf(a, key, b);
    RowsOfEntries(tail);
    AfterExact(b.rows, CursorIn(a.pullCursors, key), None);
    forall id | id in Ids(b.rows)
      ensures id in Ids(a.rows) || id in Ids(tail)
    {
      var r :| r in b.rows && r.entry.id == id;
      assert r in tail || r.ingestSeq <= CursorIn(a.pullCursors, key);
    }
  }

  /** After a pull nothing is left to pull. */
  lemma TailDrained(a: Store, key: Key, b: Store)
    requires WellFormed(b)
    ensures var a' := a.(pullCursors := SavedAt(a.pullCursors, key, TailOf(a, key, b), |TailOf(a, key, b)|));
            && TailOf(a', key, b) == []
            && (CursorIn(a.pullCursors, key) <= b.counter ==> CursorIn(a'.pullCursors, key) <= b.counter)
  {
    var tail := TailOf(a, key, b);
    AfterExact(b.rows, CursorIn(a.pullCursors, key), None);
    if tail != [] {
      AfterPage(b.rows, CursorIn(a.pullCursors, key), None, |tail|);
      assert tail[|tail| - 1] in tail;
    }
  }

  /** A pull brings the union, leaves the cursor sound and leaves nothing to pull. */
  lemma PullUnites(a: Store, key: Key, b: Store)
    requires WellFormed(a) && WellFormed(b) && Sound(a, key, b)
    ensures var a' := PullAll(a, key, b);
            && WellFormed(a') && InsertsOnly(a, a')
            && Ids(a'.rows) == Ids(a.rows) + Ids(b.rows)
            && Sound(a', key, b)
            && TailOf(a', key, b) == []
  {
    hide WellFormed, Ids, EntryIds, PulledPrefix, InsertsOnly;
    PullAllGrows(a, key, b);
    TailIds(a, key, b);
    TailDrained(a, key, b);
    var a' := PullAll(a, key, b);
    forall r | r in b.rows ensures r.entry.id in Ids(a'.rows) {
      RowId(b.rows, r);
    }
  }

  lemma RowId(rows: seq<Row>, r: Row)
    requires r in rows
    ensures r.entry.id in Ids(rows)
  {
  }

  /** A store pulled by someone else stays as sound as it was; a peer that only grows does too. */
  lemma SoundKept(a: Store, a': Store, key: Key, b: Store, b': Store)
    requires Sound(a, key, b) && InsertsOnly(b, b')
    requires Ids(a.rows) <= Ids(a'.rows) && CursorIn(a'.pullCursors, key) == CursorIn(a.pullCursors, key)
    ensures Sound(a', key, b')
  {
  }

  /** Pulling only entries that are already here adds no row. */
  lemma EchoAddsNothing(a: Store, key: Key, b: Store)
    requires WellFormed(b) && Sound(a, key, b) && Ids(b.rows) <= Ids(a.rows)
    ensures PullAll(a, key, b).rows == a.rows
  {
    var es := EntriesOf(TailOf(a, key, b));
    assert es[..|es|] == es;
    TailIds(a, key, b);
    IngestKnown(a, es);
  }

  /** A pull with nothing past the cursor changes nothing at all. */
  lemma NothingToPull(a: Store, key: Key, b: Store)
    requires TailOf(a, key, b) == []
    ensures PullAll(a, key, b) == a
  {
    assert EntriesOf([])[..0] == [];
  }

  /**
   Two stores: after `a` pulls `b` and `b` pulls `a`, both hold the union. One more pull by `a`
   only echoes its own entries and inserts none. From then on both tails are empty.
   */
  lemma TwoStoresConverge(a: Store, kb: Key, b: Store, ka: Key)
    requires WellFormed(a) && WellFormed(b) && Sound(a, kb, b) && Sound(b, ka, a)
    ensures var a1 := PullAll(a, kb, b);
            var b1 := PullAll(b, ka, a1);
            var a2 := PullAll(a1, kb, b1);
            && Ids(a1.rows) == Ids(b1.rows) == Ids(a.rows) + Ids(b.rows)
            && a2.rows == a1.rows
            && TailOf(a2, kb, b1) == [] && TailOf(b1, ka, a2) == []
            && WellFormed(a2) && WellFormed(b1)
  {
    hide WellFormed, Ids, PullAll, InsertsOnly, TailOf;
    PullUnites(a, kb, b);
    var a1 := PullAll(a, kb, b);
    SoundKept(b, b, ka, a, a1);
    PullUnites(b, ka, a1);
    var b1 := PullAll(b, ka, a1);
    assert Ids(b.rows) + (Ids(a.rows) + Ids(b.rows)) == Ids(a.rows) + Ids(b.rows);
    SoundKept(a1, a1, kb, b, b1);
    PullUnites(a1, kb, b1);
    EchoAddsNothing(a1, kb, b1);
    SameRowsSameTail(b1, ka, a1, PullAll(a1, kb, b1));
  }

  lemma SameRowsSameTail(b: Store, key: Key, a: Store, a': Store)
    requires a'.rows == a.rows
    ensures TailOf(b, key, a') == TailOf(b, key, a)
  {
  }

  /** The two stores after a series of pulls; `true` means `a` pulls. */
  function Exchange(a: Store, kb: Key, b: Store, ka: Key, pulls: seq<bool>): (Store, Store) {
    if pulls == [] then (a, b) else
      var n := |pulls| - 1;
      var (a', b') := Exchange(a, kb, b, ka, pulls[..n]);
      if pulls[n] then (PullAll(a', kb, b'), b') else (a', PullAll(b', ka, a'))
  }

  /** Quiescence: once both tails are empty, no series of pulls in any order changes either store. */
  lemma {:induction false} Quiescent(a: Store, kb: Key, b: Store, ka: Key, pulls: seq<bool>)
    requires TailOf(a, kb, b) == [] && TailOf(b, ka, a) == []
    ensures Exchange(a, kb, b, ka, pulls) == (a, b)
  {
    if pulls != [] {
      Quiescent(a, kb, b, ka, pulls[..|pulls| - 1]);
      NothingToPull(a, kb, b);
      NothingToPull(b, ka, a);
    }
  }

  // ---------- The same entries, the same list ----------

  /** An id stands for one entry, wherever it is stored. */
  ghost predicate Agree(a: seq<Entry>, b: seq<Entry>) {
    forall e, f :: e in a && f in b && e.id == f.id ==> e == f
  }

  lemma EntryOfRow(rows: seq<Row>, e: Entry)
    ensures e in EntriesOf(rows) <==> exists r :: r in rows && r.entry == e
  {
    if e in EntriesOf(rows) {
      var i :| 0 <= i < |rows| && EntriesOf(rows)[i] == e;
      assert rows[i] in rows;
    }
    if r :| r in rows && r.entry == e {
      var i :| 0 <= i < |rows| && rows[i] == r;
      assert EntriesOf(rows)[i] == e;
    }
  }

  lemma {:induction false} IngestedFrom(st: Store, es: seq<Entry>, r: Row)
    requires r in Ingest(st, es).rows
    ensures r in st.rows || r.entry in es
  {
    if es != [] {
      var n := |es| - 1;
      if r in Ingest(st, es[..n]).rows {
        IngestedFrom(st, es[..n], r);
      }
    }
  }

  lemma PulledFrom(a: Store, key: Key, b: Store, e: Entry)
    requires WellFormed(b) && e in EntriesOf(PullAll(a, key, b).rows)
    ensures e in EntriesOf(a.rows) || e in EntriesOf(b.rows)
  {
    hide Ingest, After;
    var tail := TailOf(a, key, b);
    var es := EntriesOf(tail);
    assert es[..|es|] == es;
    EntryOfRow(PullAll(a, key, b).rows, e);
    var r :| r in Ingest(a, es).rows && r.entry == e;
    IngestedFrom(a, es, r);
    EntryOfRow(a.rows, e);
    EntryOfRow(b.rows, e);
    EntryOfRow(tail, e);
    AfterExact(b.rows, CursorIn(a.pullCursors, key), None);
  }

  lemma SameIdsSameEntries(x: Store, y: Store, a: Store, b: Store)
    requires Ids(x.rows) == Ids(y.rows)
    requires Agree(EntriesOf(a.rows), EntriesOf(b.rows)) && UniqueIds(a.rows) && UniqueIds(b.rows)
    requires forall e :: e in EntriesOf(x.rows) || e in EntriesOf(y.rows) ==>
                           e in EntriesOf(a.rows) || e in EntriesOf(b.rows)
    ensures RecentList.SameEntries(x, y)
  {
    hide UniqueIds, EntriesOf, Ids, Agree;
    SameIdsSubset(x, y, a, b);
    SameIdsSubset(y, x, a, b);
  }

  lemma SameIdsSubset(x: Store, y: Store, a: Store, b: Store)
    requires Ids(x.rows) <= Ids(y.rows)
    requires Agree(EntriesOf(a.rows), EntriesOf(b.rows)) && UniqueIds(a.rows) && UniqueIds(b.rows)
    requires forall e :: e in EntriesOf(x.rows) || e in EntriesOf(y.rows) ==>
                           e in EntriesOf(a.rows) || e in EntriesOf(b.rows)
    ensures forall e :: e in EntriesOf(x.rows) ==> e in EntriesOf(y.rows)
  {
    hide EntriesOf, UniqueIds, Agree;
    forall e | e in EntriesOf(x.rows) ensures e in EntriesOf(y.rows) {
      EntryOfRow(x.rows, e);
      assert e.id in Ids(y.rows);
      var r :| r in y.rows && r.entry.id == e.id;
      EntryOfRow(y.rows, r.entry);
      OneEntryPerId(a, b, e, r.entry);
    }
  }

  lemma OneEntryPerId(a: Store, b: Store, e: Entry, f: Entry)
    requires UniqueIds(a.rows) && UniqueIds(b.rows) && Agree(EntriesOf(a.rows), EntriesOf(b.rows)) && e.id == f.id
    requires e in EntriesOf(a.rows) || e in EntriesOf(b.rows)
    requires f in EntriesOf(a.rows) || f in EntriesOf(b.rows)
    ensures e == f
  {
    if e in EntriesOf(a.rows) && f in EntriesOf(a.rows) {
      var i :| 0 <= i < |a.rows| && EntriesOf(a.rows)[i] == e;
      var j :| 0 <= j < |a.rows| && EntriesOf(a.rows)[j] == f;
    } else if e in EntriesOf(b.rows) && f in EntriesOf(b.rows) {
      var i :| 0 <= i < |b.rows| && EntriesOf(b.rows)[i] == e;
      var j :| 0 <= j < |b.rows| && EntriesOf(b.rows)[j] == f;
    }
  }

  /** After the exchange both devices show the same history list, for every length. */
  lemma ListsConverge(a: Store, kb: Key, b: Store, ka: Key, limit: U64)
    requires WellFormed(a) && WellFormed(b) && Sound(a, kb, b) && Sound(b, ka, a)
    requires Agree(EntriesOf(a.rows), EntriesOf(b.rows))
    requires var a1 := PullAll(a, kb, b); Valid(a1) && Valid(PullAll(b, ka, a1))
    ensures var a1 := PullAll(a, kb, b);
            RecentList.ListRecent(a1, limit) == RecentList.ListRecent(PullAll(b, ka, a1), limit)
  {
    hide PullAll;
    var a1 := PullAll(a, kb, b);
    var b1 := PullAll(b, ka, a1);
    TwoStoresConverge(a, kb, b, ka);
    forall e | e in EntriesOf(a1.rows) || e in EntriesOf(b1.rows)
      ensures e in EntriesOf(a.rows) || e in EntriesOf(b.rows)
    {
      if e in EntriesOf(b1.rows) {
        PulledFrom(b, ka, a1, e);
      }
      if e in EntriesOf(a1.rows) {
        PulledFrom(a, kb, b, e);
      }
    }
    SameIdsSameEntries(a1, b1, a, b);
    RecentList.ListRecentDependsOnSet(a1, b1, limit);
  }

  // ---------- A hub and its spokes ----------

  function HubAfter(hub: Store, keys: seq<Key>, spokes: seq<Store>, n: nat): Store
    requires n <= |keys| == |spokes|
  {
    if n == 0 then hub else PullAll(HubAfter(hub, keys, spokes, n - 1), keys[n - 1], spokes[n - 1])
  }

  function AllIds(spokes: seq<Store>, n: nat): set<EntryId>
    requires n <= |spokes|
  {
    if n == 0 then {} else AllIds(spokes, n - 1) + Ids(spokes[n - 1].rows)
  }

  lemma PullKeepsOtherCursors(a: Store, key: Key, b: Store, other: Key)
    requires WellFormed(a) && other != key
    ensures CursorIn(PullAll(a, key, b).pullCursors, other) == CursorIn(a.pullCursors, other)
  {
    PullAllGrows(a, key, b);
  }

  lemma {:induction false} HubCollects(hub: Store, keys: seq<Key>, spokes: seq<Store>, n: nat)
    requires n <= |keys| == |spokes|
    requires WellFormed(hub)
    requires forall i :: 0 <= i < |spokes| ==> WellFormed(spokes[i]) && Sound(hub, keys[i], spokes[i])
    requires forall i, j :: 0 <= i < j < |keys| ==> keys[i] != keys[j]
    ensures var h := HubAfter(hub, keys, spokes, n);
            && WellFormed(h) && InsertsOnly(hub, h)
            && Ids(h.rows) == Ids(hub.rows) + AllIds(spokes, n)
            && forall i :: n <= i < |keys| ==> CursorIn(h.pullCursors, keys[i]) == CursorIn(hub.pullCursors, keys[i])
  {
    hide WellFormed, Ids, PullAll, Sound;
    if n == 0 {
      assert InsertsOnly(hub, hub);
    } else {
      HubCollects(hub, keys, spokes, n - 1);
      var h := HubAfter(hub, keys, spokes, n - 1);
      SoundKept(hub, h, keys[n - 1], spokes[n - 1], spokes[n - 1]);
      PullUnites(h, keys[n - 1], spokes[n - 1]);
      GrownChain(hub, h, PullAll(h, keys[n - 1], spokes[n - 1]));
      forall i | n <= i < |keys|
        ensures CursorIn(PullAll(h, keys[n - 1], spokes[n - 1]).pullCursors, keys[i])
             == CursorIn(hub.pullCursors, keys[i])
      {
        PullKeepsOtherCursors(h, keys[n - 1], spokes[n - 1], keys[i]);
      }
    }
  }

  lemma GrownChain(a: Store, b: Store, c: Store)
    requires InsertsOnly(a, b) && InsertsOnly(b, c)
    ensures InsertsOnly(a, c)
  {
  }

  lemma {:induction false} AllIdsCovers(spokes: seq<Store>, n: nat, i: nat)
    requires i < n <= |spokes|
    ensures Ids(spokes[i].rows) <= AllIds(spokes, n)
  {
    if i < n - 1 {
      AllIdsCovers(spokes, n - 1, i);
    }
  }

  /** Any number of stores: the hub pulls every spoke, every spoke pulls the hub, and all hold the union. */
  lemma HubConverges(hub: Store, keys: seq<Key>, spokes: seq<Store>, kh: Key, i: nat)
    requires |keys| == |spokes| && i < |spokes|
    requires WellFormed(hub) && forall j :: 0 <= j < |spokes| ==>
               WellFormed(spokes[j]) && Sound(hub, keys[j], spokes[j]) && Sound(spokes[j], kh, hub)
    requires forall j, k :: 0 <= j < k < |keys| ==> keys[j] != keys[k]
    ensures var h := HubAfter(hub, keys, spokes, |spokes|);
            && Ids(h.rows) == Ids(hub.rows) + AllIds(spokes, |spokes|)
            && Ids(PullAll(spokes[i], kh, h).rows) == Ids(h.rows)
  {
    hide WellFormed, Ids, PullAll, Sound, InsertsOnly;
    HubCollects(hub, keys, spokes, |spokes|);
    var h := HubAfter(hub, keys, spokes, |spokes|);
    SoundKept(spokes[i], spokes[i], kh, hub, h);
    PullUnites(spokes[i], kh, h);
    AllIdsCovers(spokes, |spokes|, i);
  }

  /** The assumption is met by every state a run without pruning reaches. */
  lemma ReachableSound(t: Replication.Topology, states: seq<Replication.State>, steps: seq<Replication.Step>,
                       i: nat, l: Replication.StoreId, key: Key)
    requires ReplicationRuns.IsRun(t, states, steps) && ReplicationRuns.NeverPrunes(steps) && i < |states|
    requires l in states[i].stores && t.owner(key) in states[i].stores
    ensures Sound(states[i].stores[l], key, states[i].stores[t.owner(key)])
    ensures WellFormed(states[i].stores[l]) && WellFormed(states[i].stores[t.owner(key)])
  {
    hide ReplicationRuns.IsRun, Ids;
    ReplicationRuns.PullCursorsExact(t, states, steps, i, l, key);
    ReplicationRuns.RunInv(t, states, steps, i);
  }

  // ---------- Quiet stores, however they got there ----------

  /** A sound store with nothing left to pull from `b` has everything `b` has. */
  lemma QuietCovers(a: Store, key: Key, b: Store)
    requires WellFormed(b) && Sound(a, key, b) && TailOf(a, key, b) == []
    ensures Ids(b.rows) <= Ids(a.rows)
  {
    hide WellFormed, Sound, TailOf, Ids;
    TailIds(a, key, b);
    NoEntryIds(EntriesOf([]));
  }

  /** Two sound stores with nothing to pull from each other hold the same ids, whatever pulls led there. */
  lemma QuietPairAgrees(a: Store, kb: Key, b: Store, ka: Key)
    requires WellFormed(a) && WellFormed(b) && Sound(a, kb, b) && Sound(b, ka, a)
    requires TailOf(a, kb, b) == [] && TailOf(b, ka, a) == []
    ensures Ids(a.rows) == Ids(b.rows)
  {
    QuietCovers(a, kb, b);
    QuietCovers(b, ka, a);
  }

  /** A chain of stores, each with nothing left to pull from the next. */
  ghost predicate QuietChain(t: Replication.Topology, s: Replication.State, hops: seq<Replication.StoreId>,
                             keys: seq<Key>) {
    && |hops| == |keys| + 1
    && (forall l :: l in hops ==> l in s.stores)
    && forall j :: 0 <= j < |keys| ==>
         t.owner(keys[j]) == hops[j + 1] && TailOf(s.stores[hops[j]], keys[j], s.stores[hops[j + 1]]) == []
  }

  /** Along such a chain, in any reachable state, every store has everything the later ones have. */
  lemma {:induction false} QuietChainCovers(
    t: Replication.Topology, states: seq<Replication.State>, steps: seq<Replication.Step>, i: nat,
    hops: seq<Replication.StoreId>, keys: seq<Key>, m: nat, n: nat)
    requires ReplicationRuns.IsRun(t, states, steps) && ReplicationRuns.NeverPrunes(steps) && i < |states|
    requires QuietChain(t, states[i], hops, keys) && m <= n < |hops|
    ensures Ids(states[i].stores[hops[n]].rows) <= Ids(states[i].stores[hops[m]].rows)
    decreases n
  {
    hide ReplicationRuns.IsRun, ReplicationRuns.NeverPrunes, Ids, TailOf, Sound, WellFormed;
    if m < n {
      QuietChainCovers(t, states, steps, i, hops, keys, m, n - 1);
      assert hops[n - 1] in hops && hops[n] in hops && t.owner(keys[n - 1]) == hops[n];
      ReachableSound(t, states, steps, i, hops[n - 1], keys[n - 1]);
      QuietCovers(states[i].stores[hops[n - 1]], keys[n - 1], states[i].stores[hops[n]]);
    }
  }

  /**
   Any number of stores, any order of pulls, records and pushes, no prune: whenever a reachable state
   has a closed round of stores with nothing left to pull along it, all stores on it hold the same ids.
   */
  lemma QuietRoundAgrees(
    t: Replication.Topology, states: seq<Replication.State>, steps: seq<Replication.Step>, i: nat,
    hops: seq<Replication.StoreId>, keys: seq<Key>, m: nat, n: nat)
    requires ReplicationRuns.IsRun(t, states, steps) && ReplicationRuns.NeverPrunes(steps) && i < |states|
    requires QuietChain(t, states[i], hops, keys) && hops[0] == hops[|keys|]
    requires m < |hops| && n < |hops|
    ensures Ids(states[i].stores[hops[m]].rows) == Ids(states[i].stores[hops[n]].rows)
  {
    hide ReplicationRuns.IsRun, ReplicationRuns.NeverPrunes, Ids, TailOf;
    assert hops[m] in hops && hops[n] in hops && hops[0] in hops;
    QuietChainCovers(t, states, steps, i, hops, keys, 0, m);
    QuietChainCovers(t, states, steps, i, hops, keys, m, |keys|);
    QuietChainCovers(t, states, steps, i, hops, keys, 0, n);
    QuietChainCovers(t, states, steps, i, hops, keys, n, |keys|);
  }
}
