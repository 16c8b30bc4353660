/**
 The value of one device's history database and the meaning of each query on it.
 `LocalStore` is proved against these functions; the replication protocol is built from them.
 */
module StoreModel {
  import opened Prelude

  type EntryId = string
  type Device = string
  type Key = string

  datatype Entry = Entry(
    id: EntryId, device: Device, user: string, ts: int, cmd: string, cwd: string,
    exitCode: int, durationMs: int, shell: string, hostname: string, version: string)

  /** A row of the `entries` table; `ingestSeq` is its AUTOINCREMENT primary key. */
  datatype Row = Row(ingestSeq: int, entry: Entry)

  /**
   `rows` is in primary-key order. `counter` is the AUTOINCREMENT counter: the largest number
   handed out so far, which never falls, not even when the rows that had it are deleted.
   `burns` says whether an ignored insert also uses up a number; everything below holds for both.
   */
  datatype Store = Store(
    rows: seq<Row>, counter: int, pullCursors: map<Key, int>, pushCursors: map<Key, int>, burns: bool)

  datatype PullBatch = PullBatch(entries: seq<Entry>, nextCursor: Option<I64>)

  datatype InsertStats = InsertStats(inserted: nat, ignored: nat)

  datatype PruneStats = PruneStats(matched: nat, deleted: nat)

  // ---------- Invariant ----------

  predicate Sorted(rows: seq<Row>) {
    forall i, j :: 0 <= i < j < |rows| ==> rows[i].ingestSeq < rows[j].ingestSeq
  }

  predicate UniqueIds(rows: seq<Row>) {
    forall i, j :: 0 <= i < j < |rows| ==> rows[i].entry.id != rows[j].entry.id
  }

  predicate WellFormed(st: Store) {
    && Sorted(st.rows)
    && UniqueIds(st.rows)
    && 0 <= st.counter
    && forall r :: r in st.rows ==> 1 <= r.ingestSeq <= st.counter
  }

  /** Every database that exists: the counter fits SQLite's 64-bit rowid. */
  predicate Valid(st: Store) {
    WellFormed(st) && st.counter <= I64_MAX
  }

  function Ids(rows: seq<Row>): set<EntryId> {
    set r | r in rows :: r.entry.id
  }

  function EntryIds(es: seq<Entry>): set<EntryId> {
    set e | e in es :: e.id
  }

  predicate DistinctIds(es: seq<Entry>) {
    forall i, j :: 0 <= i < j < |es| ==> es[i].id != es[j].id
  }

  function EntriesOf(rows: seq<Row>): (es: seq<Entry>)
    ensures |es| == |rows|
    ensures forall i :: 0 <= i < |rows| ==> es[i] == rows[i].entry
  {
    seq(|rows|, i requires 0 <= i < |rows| => rows[i].entry)
  }

  lemma RowsOfEntries(rows: seq<Row>)
    ensures EntryIds(EntriesOf(rows)) == Ids(rows)
  {
    var es := EntriesOf(rows);
    forall id | id in EntryIds(es)
      ensures id in Ids(rows)
    {
      var i :| 0 <= i < |es| && es[i].id == id;
      assert rows[i] in rows;
    }
    forall id | id in Ids(rows)
      ensures id in EntryIds(es)
    {
      var i :| 0 <= i < |rows| && rows[i].entry.id == id;
      assert es[i] in es;
    }
  }

  /** At most one row per number handed out. */
  lemma {:induction false} RowCountBound(rows: seq<Row>, counter: int)
    requires Sorted(rows)
    requires forall r :: r in rows ==> 1 <= r.ingestSeq <= counter
    requires 0 <= counter
    ensures |rows| <= counter
  {
    if rows != [] {
      var last := rows[|rows| - 1];
      assert last in rows;
      forall r | r in rows[..|rows| - 1]
        ensures 1 <= r.ingestSeq <= last.ingestSeq - 1
      {
        var i :| 0 <= i < |rows| - 1 && rows[i] == r;
        assert rows[i] in rows;
      }
      RowCountBound(rows[..|rows| - 1], last.ingestSeq - 1);
    }
  }

  // ---------- INSERT OR IGNORE ----------

  function InsertOne(st: Store, e: Entry): Store {
    if e.id in Ids(st.rows) then
      st.(counter := st.counter + (if st.burns then 1 else 0))
    else
      st.(rows := st.rows + [Row(st.counter + 1, e)], counter := st.counter + 1)
  }

  /** One transaction: the entries in order, each inserted unless its id is already present. */
  function Ingest(st: Store, es: seq<Entry>): Store {
    if es == [] then st else InsertOne(Ingest(st, es[..|es| - 1]), es[|es| - 1])
  }

  /** SQLite refuses a number past the largest rowid, and then the whole transaction rolls back. */
  predicate Fits(st: Store, es: seq<Entry>) {
    Ingest(st, es).counter <= I64_MAX
  }

  /** `es[i]` is new: its id is neither known nor used earlier in the same list. */
  predicate FreshAt(known: set<EntryId>, es: seq<Entry>, i: nat)
    requires i < |es|
  {
    es[i].id !in known && forall j :: 0 <= j < i ==> es[j].id != es[i].id
  }

  /** The new entries of a list, in list order: what a deduplicating insert should add. */
  function Accepted(known: set<EntryId>, es: seq<Entry>): seq<Entry> {
    if es == [] then [] else
      var n := |es| - 1;
      Accepted(known, es[..n]) + (if FreshAt(known, es, n) then [es[n]] else [])
  }

  lemma IdsAppend(rows: seq<Row>, r: Row)
    ensures Ids(rows + [r]) == Ids(rows) + {r.entry.id}
  {
    assert forall x :: x in rows + [r] <==> x in rows || x == r;
    forall id | id in Ids(rows) + {r.entry.id}
      ensures id in Ids(rows + [r])
    {
      if id == r.entry.id {
        assert r in rows + [r];
      } else {
        var x :| x in rows && x.entry.id == id;
        assert x in rows + [r];
      }
    }
  }

  lemma EntryIdsAppend(es: seq<Entry>, fs: seq<Entry>)
    ensures EntryIds(es + fs) == EntryIds(es) + EntryIds(fs)
  {
    forall id | id in EntryIds(es) + EntryIds(fs)
      ensures id in EntryIds(es + fs)
    {
      var e :| (e in es || e in fs) && e.id == id;
      assert e in es + fs;
    }
  }

  lemma LastEntry(known: set<EntryId>, es: seq<Entry>)
    requires es != []
    ensures var n := |es| - 1;
            && EntryIds(es) == EntryIds(es[..n]) + {es[n].id}
            && (FreshAt(known, es, n) <==> es[n].id !in known + EntryIds(es[..n]))
  {
    var n := |es| - 1;
    assert es == es[..n] + [es[n]];
    EntryIdsAppend(es[..n], [es[n]]);
    assert EntryIds([es[n]]) == {es[n].id} by {
      assert es[n] in [es[n]];
    }
    if j :| 0 <= j < n && es[j].id == es[n].id {
      assert es[j] in es[..n];
    }
  }

  /** `st'` is `st` with `added` appended under fresh, increasing numbers, and nothing else changed. */
  predicate Extends(st: Store, st': Store, added: seq<Entry>) {
    && WellFormed(st')
    && st.rows <= st'.rows
    && EntriesOf(st'.rows[|st.rows|..]) == added
    && (forall i :: |st.rows| <= i < |st'.rows| ==> st'.rows[i].ingestSeq > st.counter)
    && st.counter + |added| <= st'.counter
    && st' == st.(rows := st'.rows, counter := st'.counter)
  }

  lemma ExtendsSelf(st: Store)
    requires WellFormed(st)
    ensures Extends(st, st, [])
  {
    assert st.rows[|st.rows|..] == [];
  }

  lemma AppendedEntries(old_: seq<Row>, rows: seq<Row>, r: Row)
    requires old_ <= rows
    ensures EntriesOf((rows + [r])[|old_|..]) == EntriesOf(rows[|old_|..]) + [r.entry]
  {
    assert (rows + [r])[|old_|..] == rows[|old_|..] + [r];
  }

  lemma AppendedWellFormed(mid: Store, e: Entry)
    requires WellFormed(mid) && e.id !in Ids(mid.rows)
    ensures WellFormed(mid.(rows := mid.rows + [Row(mid.counter + 1, e)], counter := mid.counter + 1))
  {
    forall i | 0 <= i < |mid.rows|
      ensures mid.rows[i].entry.id != e.id && mid.rows[i].ingestSeq <= mid.counter
    {
      assert mid.rows[i] in mid.rows;
    }
  }

  lemma InsertOneExtends(st: Store, mid: Store, added: seq<Entry>, e: Entry)
    requires Extends(st, mid, added)
    ensures Extends(st, InsertOne(mid, e), if e.id in Ids(mid.rows) then added else added + [e])
    ensures Ids(InsertOne(mid, e).rows) == Ids(mid.rows) + {e.id}
    ensures mid.counter <= InsertOne(mid, e).counter <= mid.counter + 1
  {
    hide Sorted, UniqueIds;
    if e.id !in Ids(mid.rows) {
      var r := Row(mid.counter + 1, e);
      IdsAppend(mid.rows, r);
      AppendedEntries(st.rows, mid.rows, r);
      AppendedWellFormed(mid, e);
    } else {
      assert Ids(mid.rows) + {e.id} == Ids(mid.rows);
      assert forall x :: x in mid.rows ==> 1 <= x.ingestSeq <= InsertOne(mid, e).counter;
    }
  }

  lemma NoEntryIds(es: seq<Entry>)
    ensures es == [] ==> EntryIds(es) == {}
  {
  }

  /**
   What a deduplicating insert does, said without the fold: old rows keep their places and
   numbers, the new rows are exactly the fresh entries in list order, numbered above everything
   handed out before, and afterwards every id of the list is present.
   */
  lemma {:induction false} IngestExact(st: Store, es: seq<Entry>)
    requires WellFormed(st)
    ensures Extends(st, Ingest(st, es), Accepted(Ids(st.rows), es))
    ensures Ids(Ingest(st, es).rows) == Ids(st.rows) + EntryIds(es)
    ensures st.counter <= Ingest(st, es).counter <= st.counter + |es|
  {
    hide Extends, WellFormed, FreshAt, Ids, EntryIds;
    if es == [] {
      ExtendsSelf(st);
      NoEntryIds(es);
      assert Ingest(st, es) == st && Accepted(Ids(st.rows), es) == [];
    } else {
      var n := |es| - 1;
      var e := es[n];
      IngestExact(st, es[..n]);
      var mid := Ingest(st, es[..n]);
      InsertOneExtends(st, mid, Accepted(Ids(st.rows), es[..n]), e);
      LastEntry(Ids(st.rows), es);
      var added := Accepted(Ids(st.rows), es[..n]);
      assert Accepted(Ids(st.rows), es) == if e.id in Ids(mid.rows) then added else added + [e];
    }
  }

  /** The entries after an insert: those before, then the fresh ones. */
  lemma IngestEntries(st: Store, es: seq<Entry>)
    requires WellFormed(st)
    ensures EntriesOf(Ingest(st, es).rows) == EntriesOf(st.rows) + Accepted(Ids(st.rows), es)
  {
    hide Ingest, Accepted, WellFormed, Ids;
    IngestExact(st, es);
    var after := Ingest(st, es);
    assert after.rows == st.rows + after.rows[|st.rows|..];
  }

  lemma {:induction false} AcceptedBound(known: set<EntryId>, es: seq<Entry>)
    ensures |Accepted(known, es)| <= |es|
  {
    if es != [] {
      AcceptedBound(known, es[..|es| - 1]);
    }
  }

  lemma IngestStep(st: Store, es: seq<Entry>, i: nat)
    requires i < |es|
    ensures Ingest(st, es[..i + 1]) == InsertOne(Ingest(st, es[..i]), es[i])
  {
    assert es[..i + 1][..i] == es[..i];
  }

  /** Splitting a list into consecutive transactions does not change the outcome. */
  lemma {:induction false} IngestAppend(st: Store, es: seq<Entry>, fs: seq<Entry>)
    ensures Ingest(st, es + fs) == Ingest(Ingest(st, es), fs)
  {
    if fs == [] {
      assert es + fs == es;
    } else {
      var n := |fs| - 1;
      IngestAppend(st, es, fs[..n]);
      assert (es + fs)[..|es + fs| - 1] == es + fs[..n];
    }
  }

  /** The counter never falls while a list is inserted. */
  lemma {:induction false} IngestCounterGrows(st: Store, es: seq<Entry>, k: nat)
    requires k <= |es|
    ensures Ingest(st, es[..k]).counter <= Ingest(st, es).counter
    decreases |es|
  {
    if k < |es| {
      var n := |es| - 1;
      assert es[..n][..k] == es[..k];
      IngestCounterGrows(st, es[..n], k);
    } else {
      assert es[..k] == es;
    }
  }

  /** Inserting only known ids adds no row. */
  lemma {:induction false} IngestKnown(st: Store, es: seq<Entry>)
    requires EntryIds(es) <= Ids(st.rows)
    ensures Ingest(st, es).rows == st.rows
  {
    if es != [] {
      var n := |es| - 1;
      assert es == es[..n] + [es[n]];
      EntryIdsAppend(es[..n], [es[n]]);
      assert es[n] in es;
      assert es[n].id in EntryIds(es);
      IngestKnown(st, es[..n]);
    }
  }

  /** All it can do is use up numbers. */
  lemma {:induction false} IngestKnownExact(st: Store, es: seq<Entry>)
    requires EntryIds(es) <= Ids(st.rows)
    ensures Ingest(st, es) == st.(counter := st.counter + if st.burns then |es| else 0)
  {
    hide Ids, EntryIds;
    if es != [] {
      var n := |es| - 1;
      LastEntry({}, es);
      IngestKnownExact(st, es[..n]);
    }
  }

  /** Cursor tables play no part in an insert. */
  lemma {:induction false} IngestIgnoresCursors(st: Store, es: seq<Entry>, pulls: map<Key, int>, pushes: map<Key, int>)
    ensures Ingest(st.(pullCursors := pulls, pushCursors := pushes), es)
         == Ingest(st, es).(pullCursors := pulls, pushCursors := pushes)
  {
    if es != [] {
      IngestIgnoresCursors(st, es[..|es| - 1], pulls, pushes);
    }
  }

  // ---------- SELECT ... WHERE ingest_seq > cursor [AND device_id = ?] ORDER BY ingest_seq ----------

  /** No filter means every device. */
  predicate OfDevice(r: Row, device: Option<Device>) {
    device.None? || r.entry.device == device.value
  }

  predicate Selected(r: Row, cursor: int, device: Option<Device>) {
    r.ingestSeq > cursor && OfDevice(r, device)
  }

  function After(rows: seq<Row>, cursor: int, device: Option<Device>): seq<Row> {
    if rows == [] then [] else
      var n := |rows| - 1;
      After(rows[..n], cursor, device) + (if Selected(rows[n], cursor, device) then [rows[n]] else [])
  }

  lemma {:induction false} AfterExact(rows: seq<Row>, cursor: int, device: Option<Device>)
    requires Sorted(rows)
    ensures forall r :: r in After(rows, cursor, device) <==> r in rows && Selected(r, cursor, device)
    ensures Sorted(After(rows, cursor, device))
    ensures |After(rows, cursor, device)| <= |rows|
  {
    if rows != [] {
      var n := |rows| - 1;
      AfterExact(rows[..n], cursor, device);
      var rest := After(rows[..n], cursor, device);
      assert rows == rows[..n] + [rows[n]];
      if Selected(rows[n], cursor, device) {
        forall i | 0 <= i < |rest| ensures rest[i].ingestSeq < rows[n].ingestSeq {
          assert rest[i] in rest;
          var j :| 0 <= j < n && rows[j] == rest[i];
        }
      }
    }
  }

  /** The query for one device, spelled out: its own rows past the cursor, and no others. */
  lemma AfterForDevice(st: Store, cursor: int, device: Device)
    requires Valid(st)
    ensures forall r :: r in After(st.rows, cursor, Some(device))
                   <==> r in st.rows && r.ingestSeq > cursor && r.entry.device == device
  {
    AfterExact(st.rows, cursor, Some(device));
  }

  lemma AfterForAll(st: Store, cursor: int)
    requires Valid(st)
    ensures forall r :: r in After(st.rows, cursor, None) <==> r in st.rows && r.ingestSeq > cursor
  {
    AfterExact(st.rows, cursor, None);
  }

  /** What is served for a device is that device's. */
  lemma ServedDevice(st: Store, cursor: int, limit: U64, device: Device)
    requires Valid(st)
    ensures forall e :: e in Serve(st, cursor, limit, Some(device)).entries ==> e.device == device
  {
    hide Serve, Valid, Selected;
    forall e | e in Serve(st, cursor, limit, Some(device)).entries
      ensures e.device == device
    {
      ServeGenuine(st, cursor, limit, Some(device), e);
      var r :| r in st.rows && Selected(r, cursor, Some(device)) && r.entry == e;
      SelectedDevice(r, cursor, device);
    }
  }

  lemma SelectedDevice(r: Row, cursor: int, device: Device)
    ensures Selected(r, cursor, Some(device)) <==> r.ingestSeq > cursor && r.entry.device == device
  {
  }

  lemma SortedInit(s: seq<Row>)
    requires Sorted(s) && s != []
    ensures forall r :: r in s[..|s| - 1] <==> r in s && r != s[|s| - 1]
    ensures forall r :: r in s ==> r.ingestSeq <= s[|s| - 1].ingestSeq
    ensures forall r :: r in s && r.ingestSeq == s[|s| - 1].ingestSeq ==> r == s[|s| - 1]
  {
    var n := |s| - 1;
    assert s == s[..n] + [s[n]];
    forall r | r in s[..n]
      ensures r.ingestSeq < s[n].ingestSeq
    {
      var i :| 0 <= i < n && s[i] == r;
    }
  }

  ghost predicate SameRows(a: seq<Row>, b: seq<Row>) {
    forall r :: r in a <==> r in b
  }

  lemma SameRowsInit(a: seq<Row>, b: seq<Row>)
    requires Sorted(a) && Sorted(b) && SameRows(a, b) && a != [] && b != []
    ensures a[|a| - 1] == b[|b| - 1]
    ensures SameRows(a[..|a| - 1], b[..|b| - 1])
  {
    hide Sorted;
    SortedInit(a);
    SortedInit(b);
    var x, y := a[|a| - 1], b[|b| - 1];
    assert x in a && y in b;
    assert x in b && y in a;
    assert x == y;
    var a', b' := a[..|a| - 1], b[..|b| - 1];
    forall r | r in a'
      ensures r in b'
    {
      assert r in a && r in b;
    }
    forall r | r in b'
      ensures r in a'
    {
      assert r in a && r in b;
    }
  }

  /** Two ordered row lists with the same members are the same list. */
  lemma {:induction false} SortedUnique(a: seq<Row>, b: seq<Row>)
    requires Sorted(a) && Sorted(b) && SameRows(a, b)
    ensures a == b
  {
    assert a != [] ==> a[0] in b;
    assert b != [] ==> b[0] in a;
    if a != [] {
      SameRowsInit(a, b);
      SortedUnique(a[..|a| - 1], b[..|b| - 1]);
      assert a == a[..|a| - 1] + [a[|a| - 1]] && b == b[..|b| - 1] + [b[|b| - 1]];
    }
  }

  /** Paging: what follows the last row of a page is the rest of the result. */
  lemma AfterPage(rows: seq<Row>, cursor: int, device: Option<Device>, k: nat)
    requires Sorted(rows)
    requires 0 < k <= |After(rows, cursor, device)|
    ensures After(rows, After(rows, cursor, device)[k - 1].ingestSeq, device) == After(rows, cursor, device)[k..]
    ensures After(rows, cursor, device)[k - 1].ingestSeq > cursor
  {
    var q := After(rows, cursor, device);
    var c := q[k - 1].ingestSeq;
    AfterExact(rows, cursor, device);
    AfterExact(rows, c, device);
    assert q[k - 1] in q;
    forall r | r in q[k..] ensures r in After(rows, c, device) {
      var i :| k <= i < |q| && q[i] == r;
      assert r in q;
    }
    forall r | r in After(rows, c, device) ensures r in q[k..] {
      assert r in q;
      var i :| 0 <= i < |q| && q[i] == r;
    }
    SortedUnique(After(rows, c, device), q[k..]);
  }

  /** The answer built from a query result: the entries, and the number of the last row. */
  function BatchOf(q: seq<Row>): PullBatch
    requires forall r :: r in q ==> 1 <= r.ingestSeq <= I64_MAX
  {
    PullBatch(EntriesOf(q), if q == [] then None else assert q[|q| - 1] in q; Some(q[|q| - 1].ingestSeq))
  }

  function Page(st: Store, cursor: int, limit: U64, device: Option<Device>): seq<Row> {
    SqlLimit(After(st.rows, cursor, device), limit)
  }

  lemma PageExact(st: Store, cursor: int, limit: U64, device: Option<Device>)
    requires Valid(st)
    ensures Page(st, cursor, limit, device) <= After(st.rows, cursor, device)
    ensures |Page(st, cursor, limit, device)| == Min(limit, |After(st.rows, cursor, device)|)
    ensures forall r :: r in Page(st, cursor, limit, device) ==> r in st.rows && 1 <= r.ingestSeq <= I64_MAX
  {
    AfterExact(st.rows, cursor, device);
    RowCountBound(st.rows, st.counter);
    forall r | r in Page(st, cursor, limit, device) ensures r in st.rows {
      assert r in After(st.rows, cursor, device);
    }
  }

  /** The answer a store gives to a pull request. */
  function Serve(st: Store, cursor: int, limit: U64, device: Option<Device>): PullBatch
    requires Valid(st)
  {
    PageExact(st, cursor, limit, device);
    BatchOf(Page(st, cursor, limit, device))
  }

  /** Every entry of a served batch is a selected row's entry. */
  lemma ServeGenuine(st: Store, cursor: int, limit: U64, device: Option<Device>, e: Entry)
    requires Valid(st) && e in Serve(st, cursor, limit, device).entries
    ensures exists r :: r in st.rows && Selected(r, cursor, device) && r.entry == e
  {
    var p := Page(st, cursor, limit, device);
    AfterExact(st.rows, cursor, device);
    PageExact(st, cursor, limit, device);
    var i :| 0 <= i < |p| && EntriesOf(p)[i] == e;
    assert p[i] in After(st.rows, cursor, device);
  }

  /** So every id in it is the store's own. */
  lemma ServedKnown(st: Store, cursor: int, limit: U64, device: Option<Device>)
    requires Valid(st)
    ensures EntryIds(Serve(st, cursor, limit, device).entries) <= Ids(st.rows)
  {
    hide Serve, Valid;
    var es := Serve(st, cursor, limit, device).entries;
    forall id | id in EntryIds(es)
      ensures id in Ids(st.rows)
    {
      var e :| e in es && e.id == id;
      ServeGenuine(st, cursor, limit, device, e);
    }
  }

  /** What a store serves depends on its rows only. */
  lemma ServeSameRows(a: Store, b: Store, cursor: int, limit: U64, device: Option<Device>)
    requires Valid(a) && Valid(b) && a.rows == b.rows
    ensures Serve(a, cursor, limit, device) == Serve(b, cursor, limit, device)
  {
  }

  lemma PageCovers(st: Store, cursor: int, limit: U64, device: Option<Device>, r: Row)
    requires Valid(st) && Page(st, cursor, limit, device) != []
    requires r in st.rows && Selected(r, cursor, device)
    requires r.ingestSeq <= Page(st, cursor, limit, device)[|Page(st, cursor, limit, device)| - 1].ingestSeq
    ensures r.entry in EntriesOf(Page(st, cursor, limit, device))
  {
    var q := After(st.rows, cursor, device);
    var p := Page(st, cursor, limit, device);
    AfterExact(st.rows, cursor, device);
    PageExact(st, cursor, limit, device);
    assert r in q;
    var i :| 0 <= i < |q| && q[i] == r;
    assert p[|p| - 1] == q[|p| - 1];
    assert i < |p| && EntriesOf(p)[i] == r.entry;
  }

  /**
   A served batch leaves no hole: with a limit of at least 1, an empty answer means no selected
   row lies past the cursor; otherwise the cursor moves forward, stays within the numbers handed
   out, and every selected row between the two cursors is in the batch.
   */
  lemma ServeNoGap(st: Store, cursor: int, limit: U64, device: Option<Device>)
    requires Valid(st)
    ensures var b := Serve(st, cursor, limit, device);
            && (b.entries == [] <==> b.nextCursor.None?)
            && (b.entries == [] && limit >= 1 ==> forall r :: r in st.rows ==> !Selected(r, cursor, device))
            && (b.nextCursor.Some? ==>
                  && cursor < b.nextCursor.value <= st.counter
                  && (forall r :: r in st.rows && Selected(r, cursor, device) && r.ingestSeq <= b.nextCursor.value
                        ==> r.entry in b.entries))
  {
    var p := Page(st, cursor, limit, device);
    AfterExact(st.rows, cursor, device);
    PageExact(st, cursor, limit, device);
    if p != [] {
      assert p[|p| - 1] in p && p[|p| - 1] == After(st.rows, cursor, device)[|p| - 1];
      forall r | r in st.rows && Selected(r, cursor, device) && r.ingestSeq <= p[|p| - 1].ingestSeq
        ensures r.entry in EntriesOf(p)
      {
        PageCovers(st, cursor, limit, device, r);
      }
    }
  }

  // ---------- Cursor tables ----------

  function CursorIn(cursors: map<Key, int>, key: Key): int {
    if key in cursors then cursors[key] else 0
  }

  function Pending(st: Store, key: Key, device: Option<Device>): nat {
    |After(st.rows, CursorIn(st.pushCursors, key), device)|
  }

  /** The cursor table once the first `saved` rows of `tail` are acknowledged. */
  function SavedAt(cursors: map<Key, int>, key: Key, tail: seq<Row>, saved: nat): map<Key, int>
    requires saved <= |tail|
  {
    if saved == 0 then cursors else cursors[key := tail[saved - 1].ingestSeq]
  }

  /** A page served past row `saved` of the tail is the next stretch of the tail. */
  lemma ServedStretch(st: Store, cursor: int, device: Option<Device>, tail: seq<Row>, saved: nat, limit: U64)
    requires Valid(st) && saved <= |tail| && limit >= 1
    requires After(st.rows, cursor, device) == tail[saved..]
    ensures var n := Min(limit, |tail| - saved);
            var b := Serve(st, cursor, limit, device);
            && b.entries == EntriesOf(tail)[saved..saved + n]
            && (n > 0 ==> b.nextCursor == Some(tail[saved + n - 1].ingestSeq))
  {
    hide WellFormed, After;
    PageExact(st, cursor, limit, device);
    var n := Min(limit, |tail| - saved);
    assert Page(st, cursor, limit, device) == tail[saved..saved + n];
  }

  lemma ServedRest(st: Store, cursor: int, device: Option<Device>, tail: seq<Row>, saved: nat, n: nat)
    requires Valid(st) && saved + n <= |tail| && n > 0
    requires After(st.rows, cursor, device) == tail[saved..]
    ensures After(st.rows, tail[saved + n - 1].ingestSeq, device) == tail[saved + n..]
    ensures cursor < tail[saved + n - 1].ingestSeq
  {
    AfterPage(st.rows, cursor, device, n);
    assert tail[saved..][n..] == tail[saved + n..];
  }

  // ---------- Prune ----------

  /** `SELECT MIN(ingest_seq)` over the newest `keepRecent` rows. */
  function KeepFloor(rows: seq<Row>, keepRecent: U64): Option<int> {
    var n := AsI64(keepRecent);
    var kept := if n < 0 then |rows| else Min(n, |rows|);
    if keepRecent == 0 || rows == [] then None else Some(rows[|rows| - kept].ingestSeq)
  }

  /** `floor` is `SELECT MIN(last_pushed_seq)`: the slowest push cursor on record. */
  ghost predicate IsPushedFloor(cursors: map<Key, int>, floor: Option<int>) {
    match floor
    case None => cursors == map[]
    case Some(f) => (exists k :: k in cursors && cursors[k] == f) && forall k :: k in cursors ==> f <= cursors[k]
  }

  predicate Prunable(r: Row, cutoff: int, keepFloor: Option<int>, pushedFloor: Option<int>) {
    && r.entry.ts < cutoff
    && (keepFloor.Some? ==> r.ingestSeq < keepFloor.value)
    && (pushedFloor.Some? ==> r.ingestSeq <= pushedFloor.value)
  }

  function Survivors(rows: seq<Row>, cutoff: int, keepFloor: Option<int>, pushedFloor: Option<int>): seq<Row> {
    if rows == [] then [] else
      var n := |rows| - 1;
      Survivors(rows[..n], cutoff, keepFloor, pushedFloor)
      + (if Prunable(rows[n], cutoff, keepFloor, pushedFloor) then [] else [rows[n]])
  }

  /** `st'` is `st` after a prune with these arguments. */
  ghost predicate Pruned(st: Store, cutoff: int, keepRecent: U64, st': Store) {
    exists f :: IsPushedFloor(st.pushCursors, f)
             && st' == st.(rows := Survivors(st.rows, cutoff, KeepFloor(st.rows, keepRecent), f))
  }
}
