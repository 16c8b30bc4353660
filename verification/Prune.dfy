/** What `prune_entries_older_than` deletes and what it must leave alone. */
module Prune {
  import opened Prelude
  import opened StoreModel

  lemma {:induction false} SurvivorsExact(rows: seq<Row>, cutoff: int, keepFloor: Option<int>, pushedFloor: Option<int>)
    requires Sorted(rows)
    ensures forall r :: r in Survivors(rows, cutoff, keepFloor, pushedFloor)
                   <==> r in rows && !Prunable(r, cutoff, keepFloor, pushedFloor)
    ensures Sorted(Survivors(rows, cutoff, keepFloor, pushedFloor))
  {
    if rows != [] {
      var n := |rows| - 1;
      SurvivorsExact(rows[..n], cutoff, keepFloor, pushedFloor);
      SortedInit(rows);
      var rest := Survivors(rows[..n], cutoff, keepFloor, pushedFloor);
      if !Prunable(rows[n], cutoff, keepFloor, pushedFloor) {
        forall i | 0 <= i < |rest| ensures rest[i].ingestSeq < rows[n].ingestSeq {
          assert rest[i] in rest;
          assert rest[i] in rows[..n];
        }
      }
    }
  }

  /** The rows a count query matches are the rows a delete removes. */
  lemma {:induction false} SurvivorsCount(rows: seq<Row>, cutoff: int, keepFloor: Option<int>, pushedFloor: Option<int>)
    ensures |Survivors(rows, cutoff, keepFloor, pushedFloor)| <= |rows|
    ensures |Survivors(rows, cutoff, keepFloor, pushedFloor)| == |rows| ==>
              Survivors(rows, cutoff, keepFloor, pushedFloor) == rows
  {
    if rows != [] {
      SurvivorsCount(rows[..|rows| - 1], cutoff, keepFloor, pushedFloor);
    }
  }

  lemma SurvivorsUniqueIds(rows: seq<Row>, kept: seq<Row>)
    requires Sorted(rows) && UniqueIds(rows) && Sorted(kept)
    requires forall r :: r in kept ==> r in rows
    ensures UniqueIds(kept)
  {
    forall i, j | 0 <= i < j < |kept|
      ensures kept[i].entry.id != kept[j].entry.id
    {
      assert kept[i] in rows && kept[j] in rows;
      var k :| 0 <= k < |rows| && rows[k] == kept[i];
      var l :| 0 <= l < |rows| && rows[l] == kept[j];
      assert k < l;
    }
  }

  /** The slowest push cursor is one number, whichever row it is read from. */
  lemma PushedFloorUnique(cursors: map<Key, int>, f: Option<int>, g: Option<int>)
    requires IsPushedFloor(cursors, f) && IsPushedFloor(cursors, g)
    ensures f == g
  {
    if f.Some? {
      var k :| k in cursors && cursors[k] == f.value;
      assert g.Some?;
    }
  }

  lemma {:induction false} PushedFloorExists(cursors: map<Key, int>) returns (f: Option<int>)
    ensures IsPushedFloor(cursors, f)
    decreases |cursors|
  {
    if cursors == map[] {
      f := None;
    } else {
      var k :| k in cursors;
      var rest := cursors - {k};
      assert k !in rest.Keys && rest.Keys < cursors.Keys;
      assert |rest.Keys| < |cursors.Keys| by {
        assert cursors.Keys == rest.Keys + {k};
      }
      var g := PushedFloorExists(rest);
      f := if g.None? || cursors[k] <= g.value then Some(cursors[k]) else g;
      forall l | l in cursors ensures f.value <= cursors[l] {
        assert l == k || l in rest;
      }
      if g.Some? && f == g {
        var l :| l in rest && rest[l] == g.value;
        assert cursors[l] == f.value;
      }
    }
  }

  /** Whatever the floors are, deleting below them keeps the store valid, and only takes rows away. */
  lemma SurvivorsValid(st: Store, cutoff: int, keepFloor: Option<int>, pushedFloor: Option<int>)
    requires Valid(st)
    ensures var kept := Survivors(st.rows, cutoff, keepFloor, pushedFloor);
            Valid(st.(rows := kept)) && forall r :: r in kept ==> r in st.rows
  {
    SurvivorsExact(st.rows, cutoff, keepFloor, pushedFloor);
    SurvivorsUniqueIds(st.rows, Survivors(st.rows, cutoff, keepFloor, pushedFloor));
  }

  /** A prune keeps the store valid, its counter and both cursor tables. */
  lemma PruneKeepsValid(st: Store, cutoff: int, keepRecent: U64, st': Store)
    requires Valid(st) && Pruned(st, cutoff, keepRecent, st')
    ensures Valid(st')
    ensures forall r :: r in st'.rows ==> r in st.rows
    ensures st' == st.(rows := st'.rows)
  {
    var f :| IsPushedFloor(st.pushCursors, f)
          && st' == st.(rows := Survivors(st.rows, cutoff, KeepFloor(st.rows, keepRecent), f));
    SurvivorsValid(st, cutoff, KeepFloor(st.rows, keepRecent), f);
  }

  lemma KeepFloorExact(rows: seq<Row>, keepRecent: U64, i: nat)
    requires Sorted(rows) && |rows| <= I64_MAX && i < |rows|
    ensures var f := KeepFloor(rows, keepRecent);
            (f.Some? ==> rows[i].ingestSeq < f.value) <==> i + Min(keepRecent, |rows|) < |rows|
  {
    if keepRecent > 0 {
      var kept := Min(keepRecent, |rows|);
      assert KeepFloor(rows, keepRecent) == Some(rows[|rows| - kept].ingestSeq);
    }
  }

  lemma PushedFloorExact(cursors: map<Key, int>, f: Option<int>, x: int)
    requires IsPushedFloor(cursors, f)
    ensures (f.Some? ==> x <= f.value) <==> forall k :: k in cursors ==> x <= cursors[k]
  {
    if f.Some? {
      var k :| k in cursors && cursors[k] == f.value;
    }
  }

  /** Row `i` is older than the cutoff, not among the newest `keepRecent`, and no push cursor is still behind it. */
  predicate Doomed(st: Store, cutoff: int, keepRecent: U64, i: nat)
    requires i < |st.rows|
  {
    && st.rows[i].entry.ts < cutoff
    && i + Min(keepRecent, |st.rows|) < |st.rows|
    && forall k :: k in st.pushCursors ==> st.rows[i].ingestSeq <= st.pushCursors[k]
  }

  /** A row is deleted exactly when all three conditions hold of it. */
  lemma PruneExact(st: Store, cutoff: int, keepRecent: U64, st': Store, i: nat)
    requires Valid(st) && Pruned(st, cutoff, keepRecent, st') && i < |st.rows|
    ensures st.rows[i] !in st'.rows <==> Doomed(st, cutoff, keepRecent, i)
  {
    var f :| IsPushedFloor(st.pushCursors, f)
          && st' == st.(rows := Survivors(st.rows, cutoff, KeepFloor(st.rows, keepRecent), f));
    SurvivorsExact(st.rows, cutoff, KeepFloor(st.rows, keepRecent), f);
    RowCountBound(st.rows, st.counter);
    KeepFloorExact(st.rows, keepRecent, i);
    PushedFloorExact(st.pushCursors, f, st.rows[i].ingestSeq);
    assert st.rows[i] in st.rows;
  }

  lemma {:induction false} SurvivorsSuffix(rows: seq<Row>, cutoff: int, keepFloor: Option<int>,
                                           pushedFloor: Option<int>, k: nat)
    requires k <= |rows|
    requires forall i :: |rows| - k <= i < |rows| ==> !Prunable(rows[i], cutoff, keepFloor, pushedFloor)
    ensures var kept := Survivors(rows, cutoff, keepFloor, pushedFloor);
            k <= |kept| && kept[|kept| - k..] == rows[|rows| - k..]
    decreases k
  {
    if k > 0 {
      var n := |rows| - 1;
      SurvivorsSuffix(rows[..n], cutoff, keepFloor, pushedFloor, k - 1);
      var rest := Survivors(rows[..n], cutoff, keepFloor, pushedFloor);
      var kept := rest + [rows[n]];
      assert kept[|kept| - k..] == rest[|rest| - (k - 1)..] + [rows[n]];
      assert rows[|rows| - k..] == rows[..n][n - (k - 1)..] + [rows[n]];
    }
  }

  lemma RecentSpared(st: Store, cutoff: int, keepRecent: U64, pushedFloor: Option<int>, i: nat)
    requires Valid(st) && i < |st.rows| && |st.rows| - Min(keepRecent, |st.rows|) <= i
    ensures !Prunable(st.rows[i], cutoff, KeepFloor(st.rows, keepRecent), pushedFloor)
  {
    hide UniqueIds, KeepFloor;
    RowCountBound(st.rows, st.counter);
    KeepFloorExact(st.rows, keepRecent, i);
  }

  /** The newest min(keepRecent, row count) rows are still there, in place at the end. */
  lemma PruneKeepsRecent(st: Store, cutoff: int, keepRecent: U64, st': Store)
    requires Valid(st) && Pruned(st, cutoff, keepRecent, st')
    ensures var k := Min(keepRecent, |st.rows|);
            k <= |st'.rows| && st'.rows[|st'.rows| - k..] == st.rows[|st.rows| - k..]
  {
    hide Valid, Prunable, KeepFloor, IsPushedFloor, Survivors;
    var f :| IsPushedFloor(st.pushCursors, f)
          && st' == st.(rows := Survivors(st.rows, cutoff, KeepFloor(st.rows, keepRecent), f));
    var k := Min(keepRecent, |st.rows|);
    forall i | |st.rows| - k <= i < |st.rows|
      ensures !Prunable(st.rows[i], cutoff, KeepFloor(st.rows, keepRecent), f)
    {
      RecentSpared(st, cutoff, keepRecent, f, i);
    }
    SurvivorsSuffix(st.rows, cutoff, KeepFloor(st.rows, keepRecent), f, k);
  }

  /** What a peer with a push cursor on record has still to be sent is untouched, for every device filter. */
  lemma PruneKeepsPending(st: Store, cutoff: int, keepRecent: U64, st': Store, key: Key, device: Option<Device>)
    requires Valid(st) && Pruned(st, cutoff, keepRecent, st') && key in st.pushCursors
    ensures After(st'.rows, st.pushCursors[key], device) == After(st.rows, st.pushCursors[key], device)
    ensures Pending(st', key, device) == Pending(st, key, device)
  {
    var c := st.pushCursors[key];
    PruneKeepsValid(st, cutoff, keepRecent, st');
    AfterExact(st.rows, c, device);
    AfterExact(st'.rows, c, device);
    forall r | r in After(st.rows, c, device)
      ensures r in After(st'.rows, c, device)
    {
      var i :| 0 <= i < |st.rows| && st.rows[i] == r;
      PruneExact(st, cutoff, keepRecent, st', i);
    }
    SortedUnique(After(st.rows, c, device), After(st'.rows, c, device));
  }

  /**
   A peer without a push cursor has no such protection: its pending count is unchanged exactly
   when no row that a first push to it would select meets the three conditions.
   */
  lemma PrunePendingWithoutCursor(st: Store, cutoff: int, keepRecent: U64, st': Store, key: Key, device: Option<Device>)
    requires Valid(st) && Pruned(st, cutoff, keepRecent, st') && key !in st.pushCursors
    ensures Pending(st', key, device) == Pending(st, key, device)
       <==> forall i :: 0 <= i < |st.rows| && Doomed(st, cutoff, keepRecent, i) ==> !Selected(st.rows[i], 0, device)
  {
    PruneKeepsValid(st, cutoff, keepRecent, st');
    var a, b := After(st.rows, 0, device), After(st'.rows, 0, device);
    AfterExact(st.rows, 0, device);
    AfterExact(st'.rows, 0, device);
    forall i | 0 <= i < |st.rows|
      ensures st.rows[i] !in st'.rows <==> Doomed(st, cutoff, keepRecent, i)
    {
      PruneExact(st, cutoff, keepRecent, st', i);
    }
    if i :| 0 <= i < |st.rows| && Doomed(st, cutoff, keepRecent, i) && Selected(st.rows[i], 0, device) {
      assert st.rows[i] in a && st.rows[i] !in b;
      FewerRows(a, b, st.rows[i]);
    } else {
      SortedUnique(a, b);
    }
  }

  lemma FewerRows(a: seq<Row>, b: seq<Row>, missing: Row)
    requires Sorted(a) && Sorted(b)
    requires missing in a && missing !in b && forall r :: r in b ==> r in a
    ensures |b| < |a|
  {
    var sa, sb := set r | r in a, set r | r in b;
    SortedSize(a);
    SortedSize(b);
    assert sb <= sa - {missing};
    SubsetSize(sb, sa - {missing});
  }

  lemma SubsetSize<T>(a: set<T>, b: set<T>)
    requires a <= b
    ensures |a| <= |b|
  {
    assert b == a + (b - a);
  }

  lemma {:induction false} SortedSize(a: seq<Row>)
    requires Sorted(a)
    ensures |set r | r in a| == |a|
  {
    if a != [] {
      var n := |a| - 1;
      SortedInit(a);
      SortedSize(a[..n]);
      assert (set r | r in a) == (set r | r in a[..n]) + {a[n]};
    }
  }

  lemma SameSuffixSamePlace(a: seq<Row>, b: seq<Row>, k: nat, i: nat, j: nat)
    requires Sorted(b) && k <= |a| && k <= |b| && b[|b| - k..] == a[|a| - k..]
    requires i < |b| && j < |a| && b[i] == a[j] && |a| - k <= j
    ensures |b| - k <= i
  {
    var d := j - (|a| - k);
    assert b[|b| - k..][d] == a[|a| - k..][d];
    assert b[|b| - k + d] == b[i];
  }

  lemma SparedStaysSpared(st: Store, cutoff: int, keepRecent: U64, st': Store, i: nat, j: nat)
    requires Sorted(st'.rows) && st'.pushCursors == st.pushCursors
    requires i < |st'.rows| && j < |st.rows| && st'.rows[i] == st.rows[j]
    requires var k := Min(keepRecent, |st.rows|);
             k <= |st'.rows| && st'.rows[|st'.rows| - k..] == st.rows[|st.rows| - k..]
    requires !Doomed(st, cutoff, keepRecent, j)
    ensures !Doomed(st', cutoff, keepRecent, i)
  {
    var k := Min(keepRecent, |st.rows|);
    if |st.rows| - k <= j {
      SameSuffixSamePlace(st.rows, st'.rows, k, i, j);
    }
  }

  /** Pruning again with the same arguments deletes nothing. */
  lemma PruneTwice(st: Store, cutoff: int, keepRecent: U64, st': Store, st'': Store)
    requires Valid(st) && Pruned(st, cutoff, keepRecent, st') && Pruned(st', cutoff, keepRecent, st'')
    ensures st'' == st'
  {
    PruneKeepsValid(st, cutoff, keepRecent, st');
    PruneKeepsValid(st', cutoff, keepRecent, st'');
    PruneKeepsRecent(st, cutoff, keepRecent, st');
    forall r | r in st'.rows
      ensures r in st''.rows
    {
      var i :| 0 <= i < |st'.rows| && st'.rows[i] == r;
      assert r in st.rows;
      var j :| 0 <= j < |st.rows| && st.rows[j] == r;
      PruneExact(st, cutoff, keepRecent, st', j);
      SparedStaysSpared(st, cutoff, keepRecent, st', i, j);
      PruneExact(st', cutoff, keepRecent, st'', i);
    }
    SortedUnique(st''.rows, st'.rows);
  }
  /** What the count query counts: the rows a delete under the same floors would take. */
  ghost function Matching(rows: seq<Row>, cutoff: int, keepFloor: Option<int>, pushedFloor: Option<int>): set<Row> {
    set r | r in rows && Prunable(r, cutoff, keepFloor, pushedFloor)
  }

  lemma MatchingLast(rows: seq<Row>, cutoff: int, keepFloor: Option<int>, pushedFloor: Option<int>)
    requires Sorted(rows) && rows != []
    ensures var n := |rows| - 1;
            var before := Matching(rows[..n], cutoff, keepFloor, pushedFloor);
            && rows[n] !in before
            && Matching(rows, cutoff, keepFloor, pushedFloor)
               == if Prunable(rows[n], cutoff, keepFloor, pushedFloor) then before + {rows[n]} else before
  {
    hide Prunable, Sorted;
    SortedInit(rows);
    assert rows[|rows| - 1] in rows;
  }

  lemma {:induction false} MatchingCount(rows: seq<Row>, cutoff: int, keepFloor: Option<int>, pushedFloor: Option<int>)
    requires Sorted(rows)
    ensures |rows| - |Survivors(rows, cutoff, keepFloor, pushedFloor)|
         == |Matching(rows, cutoff, keepFloor, pushedFloor)|
  {
    hide Prunable;
    if rows != [] {
      hide Matching;
      var n := |rows| - 1;
      MatchingCount(rows[..n], cutoff, keepFloor, pushedFloor);
      MatchingLast(rows, cutoff, keepFloor, pushedFloor);
    }
  }
  /** The rows still to be pushed: those past the push cursor, 0 if there is none, of the device if one is given. */
  ghost function ToPush(st: Store, key: Key, device: Option<Device>): set<Row> {
    set r | && r in st.rows
            && r.ingestSeq > (if key in st.pushCursors then st.pushCursors[key] else 0)
            && (device.Some? ==> r.entry.device == device.value)
  }

  /** The pending count is their number. */
  lemma PendingExact(st: Store, key: Key, device: Option<Device>)
    requires Valid(st)
    ensures Pending(st, key, device) == |ToPush(st, key, device)|
  {
    hide UniqueIds, After;
    var q := After(st.rows, CursorIn(st.pushCursors, key), device);
    AfterExact(st.rows, CursorIn(st.pushCursors, key), device);
    SortedSize(q);
    assert (set r | r in q) == ToPush(st, key, device);
  }
}
