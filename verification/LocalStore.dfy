/**
 The local history database as the object its callers see. Each method runs one SQLite statement
 or transaction; writers are serialised by SQLite, so a method is one atomic step.
 */
module LocalStores {
  import opened Prelude
  import opened StoreModel
  import Prune
  import RecentList

  datatype DbError = Fault | RowidsExhausted

  class LocalStore {
    var rows: seq<Row>
    var counter: int
    var pullCursors: map<Key, I64>
    var pushCursors: map<Key, I64>
    const burns: bool
    /** When false, any call may fail with `Fault` and leave the database as it was. */
    const reliable: bool

    ghost function View(): Store
      reads this
    {
      Store(rows, counter, pullCursors, pushCursors, burns)
    }

    constructor (burns: bool, reliable: bool)
      ensures View() == Store([], 0, map[], map[], burns) && Valid(View())
      ensures this.reliable == reliable
    {
      rows, counter := [], 0;
      pullCursors, pushCursors := map[], map[];
      this.burns := burns;
      this.reliable := reliable;
    }

    /** Whether the I/O of the current call fails. */
    method Faults() returns (faulted: bool)
      ensures reliable ==> !faulted
    {
      faulted := false;
      if * {
        faulted := !reliable;
      }
    }

    method InsertEntriesWithStats(entries: seq<Entry>) returns (r: Result<InsertStats, DbError>)
      requires Valid(View())
      modifies this`rows, this`counter
      ensures Valid(View())
      ensures r.Ok? ==> Fits(old(View()), entries) && View() == Ingest(old(View()), entries)
      ensures r.Ok? ==> r.value.inserted == |Accepted(Ids(old(rows)), entries)| == |rows| - |old(rows)|
      ensures r.Ok? ==> r.value.inserted + r.value.ignored == |entries|
      ensures r.Err? ==> View() == old(View())
      ensures reliable && Fits(old(View()), entries) ==> r.Ok?
    {
      if entries == [] {
        IngestExact(View(), entries);
        return Ok(InsertStats(0, 0));
      }
      var faulted := Faults();
      if faulted {
        return Err(Fault);
      }
      ghost var before := View();
      var tx := Store(rows, counter, pullCursors, pushCursors, burns);
      var inserted := 0;
      var i := 0;
      while i < |entries|
        invariant 0 <= i <= |entries|
        invariant View() == before
        invariant tx == Ingest(before, entries[..i]) && tx.counter <= I64_MAX
        invariant inserted == |tx.rows| - |rows|
      {
        IngestStep(before, entries, i);
        var next := InsertOne(tx, entries[i]);
        if next.counter > I64_MAX {
          IngestCounterGrows(before, entries, i + 1);
          return Err(RowidsExhausted);
        }
        inserted := inserted + |next.rows| - |tx.rows|;
        tx := next;
        i := i + 1;
      }
      assert entries[..i] == entries;
      IngestExact(before, entries);
      AcceptedBound(Ids(rows), entries);
      rows, counter := tx.rows, tx.counter;
      r := Ok(InsertStats(inserted, |entries| - inserted));
    }

    /** The query loop of both pull queries: collect the entries and remember the last number. */
    method CollectBatch(q: seq<Row>) returns (batch: PullBatch)
      requires forall r :: r in q ==> 1 <= r.ingestSeq <= I64_MAX
      ensures batch == BatchOf(q)
    {
      var entries: seq<Entry> := [];
      var lastCursor: Option<I64> := None;
      var i := 0;
      while i < |q|
        invariant 0 <= i <= |q|
        invariant entries == EntriesOf(q[..i])
        invariant lastCursor == if i == 0 then None else Some(q[i - 1].ingestSeq)
      {
        assert q[i] in q;
        lastCursor := Some(q[i].ingestSeq);
        entries := entries + [q[i].entry];
        i := i + 1;
      }
      assert q[..|q|] == q;
      batch := PullBatch(entries, lastCursor);
    }

    method PullSinceCursor(cursor: int, limit: U64) returns (r: Result<PullBatch, DbError>)
      requires Valid(View())
      ensures r.Ok? ==> r.value == Serve(View(), cursor, limit, None)
      ensures reliable ==> r.Ok?
    {
      var faulted := Faults();
      if faulted {
        return Err(Fault);
      }
      PageExact(View(), cursor, limit, None);
      var batch := CollectBatch(SqlLimit(After(rows, cursor, None), limit));
      r := Ok(batch);
    }

    method PullSinceCursorForDevice(cursor: int, limit: U64, device: Device) returns (r: Result<PullBatch, DbError>)
      requires Valid(View())
      ensures r.Ok? ==> r.value == Serve(View(), cursor, limit, Some(device))
      ensures r.Ok? ==> forall e :: e in r.value.entries ==> e.device == device
      ensures reliable ==> r.Ok?
    {
      ServedDevice(View(), cursor, limit, device);
      var faulted := Faults();
      if faulted {
        return Err(Fault);
      }
      PageExact(View(), cursor, limit, Some(device));
      var batch := CollectBatch(SqlLimit(After(rows, cursor, Some(device)), limit));
      r := Ok(batch);
    }

    method ListRecent(limit: U64) returns (r: Result<seq<Entry>, DbError>)
      requires Valid(View())
      ensures r.Ok? ==> r.value == RecentList.ListRecent(View(), limit)
      ensures reliable ==> r.Ok?
    {
      var faulted := Faults();
      if faulted {
        return Err(Fault);
      }
      r := Ok(SqlLimit(RecentList.InOrder(EntriesOf(rows)), limit));
    }

    method GetLastCursorOpt(key: Key) returns (r: Result<Option<I64>, DbError>)
      ensures r.Ok? ==> r.value == if key in pullCursors then Some(pullCursors[key]) else None
      ensures reliable ==> r.Ok?
    {
      var faulted := Faults();
      if faulted {
        return Err(Fault);
      }
      r := Ok(if key in pullCursors then Some(pullCursors[key]) else None);
    }

    method GetLastCursor(key: Key) returns (r: Result<I64, DbError>)
      ensures r.Ok? ==> r.value == CursorIn(pullCursors, key)
      ensures reliable ==> r.Ok?
    {
      var got := GetLastCursorOpt(key);
      match got {
        case Ok(v) => r := Ok(if v.Some? then v.value else 0);
        case Err(e) => r := Err(e);
      }
    }

    method SetLastCursor(key: Key, cursor: I64) returns (r: Result<(), DbError>)
      modifies this`pullCursors
      ensures r.Ok? ==> pullCursors == old(pullCursors)[key := cursor]
      ensures r.Err? ==> pullCursors == old(pullCursors)
      ensures reliable ==> r.Ok?
    {
      var faulted := Faults();
      if faulted {
        return Err(Fault);
      }
      pullCursors := pullCursors[key := cursor];
      r := Ok(());
    }

    method GetLastPushedSeqOpt(key: Key) returns (r: Result<Option<I64>, DbError>)
      ensures r.Ok? ==> r.value == if key in pushCursors then Some(pushCursors[key]) else None
      ensures reliable ==> r.Ok?
    {
      var faulted := Faults();
      if faulted {
        return Err(Fault);
      }
      r := Ok(if key in pushCursors then Some(pushCursors[key]) else None);
    }

    method GetLastPushedSeq(key: Key) returns (r: Result<I64, DbError>)
      ensures r.Ok? ==> r.value == CursorIn(pushCursors, key)
      ensures reliable ==> r.Ok?
    {
      var got := GetLastPushedSeqOpt(key);
      match got {
        case Ok(v) => r := Ok(if v.Some? then v.value else 0);
        case Err(e) => r := Err(e);
      }
    }

    method SetLastPushedSeq(key: Key, pushed: I64) returns (r: Result<(), DbError>)
      modifies this`pushCursors
      ensures r.Ok? ==> pushCursors == old(pushCursors)[key := pushed]
      ensures r.Err? ==> pushCursors == old(pushCursors)
      ensures reliable ==> r.Ok?
    {
      var faulted := Faults();
      if faulted {
        return Err(Fault);
      }
      pushCursors := pushCursors[key := pushed];
      r := Ok(());
    }

    method CountPendingPushEntries(key: Key, device: Option<Device>) returns (r: Result<nat, DbError>)
      ensures r.Ok? ==> r.value == Pending(View(), key, device)
      ensures reliable ==> r.Ok?
    {
      var faulted := Faults();
      if faulted {
        return Err(Fault);
      }
      var pushed := GetLastPushedSeq(key);
      match pushed {
        case Ok(seqNo) => r := Ok(|After(rows, seqNo, device)|);
        case Err(e) => r := Err(e);
      }
    }

    method PrunePushedFloorSeq() returns (floor: Option<int>)
      ensures IsPushedFloor(pushCursors, floor)
    {
      floor := None;
      if pushCursors != map[] {
        ghost var f := Prune.PushedFloorExists(pushCursors);
        var k :| k in pushCursors && forall l :: l in pushCursors ==> pushCursors[k] <= pushCursors[l];
        floor := Some(pushCursors[k]);
      }
    }

    /** Counting and deleting use the same predicate; a dry run only counts. */
    method PruneEntriesOlderThan(cutoff: int, keepRecent: U64, dryRun: bool) returns (r: Result<PruneStats, DbError>)
      requires Valid(View())
      modifies this`rows
      ensures Valid(View())
      ensures r.Err? ==> View() == old(View())
      ensures r.Ok? ==>
        exists st' :: && Pruned(old(View()), cutoff, keepRecent, st')
                      && r.value.matched == |old(rows)| - |st'.rows|
                      && View() == (if dryRun then old(View()) else st')
                      && r.value.deleted == (if dryRun then 0 else r.value.matched)
      ensures reliable ==> r.Ok?
    {
      var faulted := Faults();
      if faulted {
        return Err(Fault);
      }
      var keepFloor := KeepFloor(rows, keepRecent);
      var pushedFloor := PrunePushedFloorSeq();
      var left := Survivors(rows, cutoff, keepFloor, pushedFloor);
      Prune.SurvivorsCount(rows, cutoff, keepFloor, pushedFloor);
      ghost var st' := View().(rows := left);
      assert Pruned(View(), cutoff, keepRecent, st');
      Prune.PruneKeepsValid(View(), cutoff, keepRecent, st');
      var matched := |rows| - |left|;
      if dryRun || matched <= 0 {
        return Ok(PruneStats(matched, 0));
      }
      rows := left;
      r := Ok(PruneStats(matched, matched));
    }

    /**
     Manual peers used to be recorded under their address; a cursor found there is copied once
     to the peer's own key, for each of the two tables, and never over an existing value.
     */
    method MigrateKey(oldKey: Key, newKey: Key) returns (r: Result<(), DbError>)
      modifies this`pullCursors, this`pushCursors
      ensures r.Ok? && newKey !in old(pullCursors) && oldKey in old(pullCursors) ==>
                pullCursors == old(pullCursors)[newKey := old(pullCursors)[oldKey]]
      ensures newKey in old(pullCursors) || oldKey !in old(pullCursors) ==> pullCursors == old(pullCursors)
      ensures r.Ok? && newKey !in old(pushCursors) && oldKey in old(pushCursors) ==>
                pushCursors == old(pushCursors)[newKey := old(pushCursors)[oldKey]]
      ensures newKey in old(pushCursors) || oldKey !in old(pushCursors) ==> pushCursors == old(pushCursors)
      ensures pullCursors == old(pullCursors) || pullCursors == Migrated(old(pullCursors), oldKey, newKey)
      ensures pushCursors == old(pushCursors) || pushCursors == Migrated(old(pushCursors), oldKey, newKey)
      ensures reliable ==> r.Ok?
    {
      var pull := GetLastCursorOpt(newKey);
      if pull.Err? { return Err(pull.error); }
      if pull.value.None? {
        var legacy := GetLastCursorOpt(oldKey);
        if legacy.Err? { return Err(legacy.error); }
        if legacy.value.Some? {
          r := SetLastCursor(newKey, legacy.value.value);
          if r.Err? { return; }
        }
      }
      var push := GetLastPushedSeqOpt(newKey);
      if push.Err? { return Err(push.error); }
      if push.value.None? {
        var legacy := GetLastPushedSeqOpt(oldKey);
        if legacy.Err? { return Err(legacy.error); }
        if legacy.value.Some? {
          r := SetLastPushedSeq(newKey, legacy.value.value);
          if r.Err? { return; }
        }
      }
      r := Ok(());
    }
  }

  function Migrated(cursors: map<Key, int>, oldKey: Key, newKey: Key): map<Key, int> {
    if newKey !in cursors && oldKey in cursors then cursors[newKey := cursors[oldKey]] else cursors
  }
}
