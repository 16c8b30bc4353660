/**
 The pull loop: catch up with a peer in batches, halving the batch when the answer is too large.
 The transport is any function of the call number, the cursor and the limit, so it may answer
 differently every time, fail, or lie.
 */
module SyncPull {
  import opened Prelude
  import opened StoreModel
  import opened LocalStores

  datatype PullOutcome = Answer(batch: PullBatch) | TooLarge | Failed

  datatype SyncError = Database(error: DbError) | TooLargeAtOne | Transport | NoNextCursor | CursorStuck

  datatype PullStats = PullStats(received: nat, inserted: nat, ignored: nat)

  type Remote = (nat, int, U64) -> PullOutcome

  /** The remote may fail at will, but what it answers is what `peer` holds. */
  ghost predicate ServedBy(remote: Remote, peer: Store)
    requires Valid(peer)
  {
    forall i: nat, c: int, l: U64 :: remote(i, c, l).Answer? ==> remote(i, c, l).batch == Serve(peer, c, l, None)
  }

  /** The remote answers every request, except that it may find a limit above 1 too large. */
  ghost predicate Responsive(remote: Remote) {
    forall i: nat, c: int, l: U64 :: remote(i, c, l).Answer? || (remote(i, c, l).TooLarge? && l > 1)
  }

  // ---------- The steps one run takes, as the replication protocol sees them ----------

  datatype Phase = Ready | Fetched(batch: PullBatch) | Stored(batch: PullBatch)

  datatype PullConf = PullConf(store: Store, cursor: int, phase: Phase)

  datatype PullAct = Fetch(limit: U64, batch: PullBatch) | StoreBatch | SaveCursor

  /** With `peer` given, only answers that peer would give can be fetched. */
  predicate CanAct(peer: Option<Store>, c: PullConf, a: PullAct) {
    match a
    case Fetch(limit, batch) =>
      && c.phase.Ready?
      && limit >= 1
      && (peer.Some? ==> Valid(peer.value) && batch == Serve(peer.value, c.cursor, limit, None))
    case StoreBatch => c.phase.Fetched? && c.phase.batch.entries != [] && Fits(c.store, c.phase.batch.entries)
    case SaveCursor =>
      && c.phase.Stored?
      && c.phase.batch.nextCursor.Some?
      && c.cursor < c.phase.batch.nextCursor.value
  }

  function Act(peer: Option<Store>, key: Key, c: PullConf, a: PullAct): PullConf
    requires CanAct(peer, c, a)
  {
    match a
    case Fetch(limit, batch) => c.(phase := Fetched(batch))
    case StoreBatch =>
      PullConf(Ingest(c.store, c.phase.batch.entries), c.cursor, Stored(c.phase.batch))
    case SaveCursor =>
      var next := c.phase.batch.nextCursor.value;
      PullConf(c.store.(pullCursors := c.store.pullCursors[key := next]), next, Ready)
  }

  /** `log` leads from `c` to `c'`. */
  ghost predicate Leads(peer: Option<Store>, key: Key, c: PullConf, log: seq<PullAct>, c': PullConf)
    decreases |log|
  {
    if log == [] then c' == c else
      var n := |log| - 1;
      exists mid :: Leads(peer, key, c, log[..n], mid) && CanAct(peer, mid, log[n]) && c' == Act(peer, key, mid, log[n])
  }

  ghost predicate Reaches(peer: Option<Store>, key: Key, c: PullConf, log: seq<PullAct>, st: Store) {
    exists c' :: Leads(peer, key, c, log, c') && c'.store == st
  }

  lemma LeadsStep(peer: Option<Store>, key: Key, c: PullConf, log: seq<PullAct>, mid: PullConf, a: PullAct)
    requires Leads(peer, key, c, log, mid) && CanAct(peer, mid, a)
    ensures Leads(peer, key, c, log + [a], Act(peer, key, mid, a))
  {
    assert (log + [a])[..|log|] == log;
  }

  lemma LeadsStored(peer: Option<Store>, key: Key, c: PullConf, log: seq<PullAct>, mid: PullConf, limit: U64,
                    batch: PullBatch)
    requires Leads(peer, key, c, log, mid) && CanAct(peer, mid, Fetch(limit, batch))
    requires batch.entries != [] && Fits(mid.store, batch.entries)
    ensures Leads(peer, key, c, log + [Fetch(limit, batch), StoreBatch],
                  PullConf(Ingest(mid.store, batch.entries), mid.cursor, Stored(batch)))
  {
    LeadsStep(peer, key, c, log, mid, Fetch(limit, batch));
    LeadsStep(peer, key, c, log + [Fetch(limit, batch)], mid.(phase := Fetched(batch)), StoreBatch);
    assert log + [Fetch(limit, batch)] + [StoreBatch] == log + [Fetch(limit, batch), StoreBatch];
  }

  lemma LeadsSaved(peer: Option<Store>, key: Key, c: PullConf, log: seq<PullAct>, mid: PullConf, limit: U64,
                   batch: PullBatch)
    requires Leads(peer, key, c, log, mid) && CanAct(peer, mid, Fetch(limit, batch))
    requires batch.entries != [] && Fits(mid.store, batch.entries)
    requires batch.nextCursor.Some? && mid.cursor < batch.nextCursor.value
    ensures var st := Ingest(mid.store, batch.entries);
            Leads(peer, key, c, log + [Fetch(limit, batch), StoreBatch, SaveCursor],
                  PullConf(st.(pullCursors := st.pullCursors[key := batch.nextCursor.value]),
                           batch.nextCursor.value, Ready))
  {
    LeadsStored(peer, key, c, log, mid, limit, batch);
    LeadsStep(peer, key, c, log + [Fetch(limit, batch), StoreBatch],
              PullConf(Ingest(mid.store, batch.entries), mid.cursor, Stored(batch)), SaveCursor);
    assert log + [Fetch(limit, batch), StoreBatch] + [SaveCursor]
        == log + [Fetch(limit, batch), StoreBatch, SaveCursor];
  }

  // ---------- What a run against a real store amounts to ----------

  /** `stored` rows of the peer's tail have been inserted, and the cursor covers the first `saved`. */
  function PulledPrefix(st: Store, key: Key, tail: seq<Row>, stored: nat, saved: nat): Store
    requires saved <= stored <= |tail|
  {
    Ingest(st, EntriesOf(tail)[..stored]).(pullCursors := SavedAt(st.pullCursors, key, tail, saved))
  }

  /** A batch inserted and acknowledged. */
  function Saved(st: Store, key: Key, batch: PullBatch): Store
    requires batch.nextCursor.Some?
  {
    Ingest(st, batch.entries).(pullCursors := st.pullCursors[key := batch.nextCursor.value])
  }

  /** What the peer holds past this store's cursor for it. */
  function TailOf(st: Store, key: Key, peer: Store): seq<Row> {
    After(peer.rows, CursorIn(st.pullCursors, key), None)
  }

  /** One insert of everything the peer has past the cursor, and the cursor moved to the end of it. */
  function PullAll(st: Store, key: Key, peer: Store): Store {
    var tail := TailOf(st, key, peer);
    PulledPrefix(st, key, tail, |tail|, |tail|)
  }

  lemma PulledMore(st: Store, key: Key, tail: seq<Row>, saved: nat, n: nat)
    requires saved + n <= |tail| && n > 0
    ensures Ingest(PulledPrefix(st, key, tail, saved, saved), EntriesOf(tail)[saved..saved + n])
         == PulledPrefix(st, key, tail, saved + n, saved)
  {
    var es := EntriesOf(tail);
    var now := PulledPrefix(st, key, tail, saved, saved);
    var base := Ingest(st, es[..saved]);
    IngestIgnoresCursors(base, es[saved..saved + n], now.pullCursors, now.pushCursors);
    IngestAppend(st, es[..saved], es[saved..saved + n]);
    assert es[..saved] + es[saved..saved + n] == es[..saved + n];
    IngestKeepsTables(base, es[saved..saved + n]);
  }

  lemma {:induction false} IngestKeepsTables(st: Store, es: seq<Entry>)
    ensures Ingest(st, es).pullCursors == st.pullCursors && Ingest(st, es).pushCursors == st.pushCursors
  {
    if es != [] {
      IngestKeepsTables(st, es[..|es| - 1]);
    }
  }

  // ---------- The loop ----------

  /** No local row lost or renumbered, ids still unique, other cursors untouched. */
  ghost predicate RowsKept(before: Store, after: Store, key: Key) {
    && Valid(after)
    && before.rows <= after.rows
    && before.counter <= after.counter
    && after.pushCursors == before.pushCursors
    && (forall k :: k != key ==> CursorIn(after.pullCursors, k) == CursorIn(before.pullCursors, k))
  }

  /** And this cursor not lowered. */
  ghost predicate NothingLost(before: Store, after: Store, key: Key) {
    RowsKept(before, after, key) && CursorIn(before.pullCursors, key) <= CursorIn(after.pullCursors, key)
  }

  lemma RowsKeptByInsert(before: Store, es: seq<Entry>, key: Key)
    requires Valid(before) && Fits(before, es)
    ensures RowsKept(before, Ingest(before, es), key)
    ensures Ingest(before, es).pullCursors == before.pullCursors
  {
    IngestExact(before, es);
    IngestKeepsTables(before, es);
  }

  /** The state of a run against a real store: `saved` rows of the tail are in and the cursor is behind the last. */
  ghost predicate AtRow(before: Store, key: Key, peer: Store, now: Store, cursor: int, saved: nat)
  {
    var tail := TailOf(before, key, peer);
    && saved <= |tail|
    && After(peer.rows, cursor, None) == tail[saved..]
    && now == PulledPrefix(before, key, tail, saved, saved)
  }

  lemma SavedMore(st: Store, key: Key, tail: seq<Row>, saved: nat, n: nat)
    requires saved + n <= |tail| && n > 0
    ensures PulledPrefix(st, key, tail, saved + n, saved).(
              pullCursors := SavedAt(st.pullCursors, key, tail, saved)[key := tail[saved + n - 1].ingestSeq])
         == PulledPrefix(st, key, tail, saved + n, saved + n)
  {
    assert SavedAt(st.pullCursors, key, tail, saved)[key := tail[saved + n - 1].ingestSeq]
        == SavedAt(st.pullCursors, key, tail, saved + n);
  }

  /** The effect of the next `n` rows of the tail arriving as the batch `b`. */
  ghost predicate MovesTo(before: Store, key: Key, peer: Store, now: Store, cursor: int, saved: nat, b: PullBatch) {
    var n := |b.entries|;
    && saved + n <= |TailOf(before, key, peer)|
    && (n == 0 ==> saved == |TailOf(before, key, peer)|)
    && (n > 0 ==>
         && b.nextCursor.Some? && cursor < b.nextCursor.value
         && Ingest(now, b.entries) == PulledPrefix(before, key, TailOf(before, key, peer), saved + n, saved)
         && AtRow(before, key, peer, Saved(now, key, b), b.nextCursor.value, saved + n))
  }

  lemma StretchMoves(before: Store, key: Key, peer: Store, now: Store, cursor: int, saved: nat, b: PullBatch, n: nat)
    requires Valid(peer) && AtRow(before, key, peer, now, cursor, saved)
    requires 0 < n && saved + n <= |TailOf(before, key, peer)|
    requires b.entries == EntriesOf(TailOf(before, key, peer))[saved..saved + n]
    requires b.nextCursor == Some(TailOf(before, key, peer)[saved + n - 1].ingestSeq)
    ensures MovesTo(before, key, peer, now, cursor, saved, b)
  {
    var tail := TailOf(before, key, peer);
    PulledMore(before, key, tail, saved, n);
    ServedRest(peer, cursor, None, tail, saved, n);
    SavedMore(before, key, tail, saved, n);
  }

  /** One accepted batch takes the run from row `saved` to row `saved + n`. */
  lemma NextRow(before: Store, key: Key, peer: Store, now: Store, cursor: int, saved: nat, limit: U64, b: PullBatch)
    requires Valid(peer) && AtRow(before, key, peer, now, cursor, saved) && limit >= 1
    requires b == Serve(peer, cursor, limit, None)
    ensures MovesTo(before, key, peer, now, cursor, saved, b)
  {
    var tail := TailOf(before, key, peer);
    ServedStretch(peer, cursor, None, tail, saved, limit);
    var n := Min(limit, |tail| - saved);
    if n > 0 {
      StretchMoves(before, key, peer, now, cursor, saved, b, n);
    }
  }

  /**
   Store a batch, then move the cursor: two separate commits, so a failure can fall between them.
   `cursor` is what this run read or wrote last; another run may have overwritten the stored one since,
   and is then overwritten in turn.
   */
  method CommitBatch(local: LocalStore, key: Key, cursor: int, batch: PullBatch)
    returns (r: Result<InsertStats, SyncError>, ghost wrote: bool)
    requires Valid(local.View())
    modifies local`rows, local`counter, local`pullCursors
    ensures RowsKept(old(local.View()), local.View(), key)
    ensures CursorIn(old(local.pullCursors), key) <= cursor ==> NothingLost(old(local.View()), local.View(), key)
    ensures wrote ==> Fits(old(local.View()), batch.entries)
    ensures r.Ok? ==>
              && wrote
              && batch.nextCursor.Some? && cursor < batch.nextCursor.value
              && local.View() == Saved(old(local.View()), key, batch)
              && r.value.inserted == |local.rows| - |old(local.rows)|
              && r.value.inserted + r.value.ignored == |batch.entries|
    ensures r.Err? && wrote ==> local.View() == Ingest(old(local.View()), batch.entries)
    ensures r.Err? && !wrote ==> local.View() == old(local.View())
    ensures r.Err? && r.error == NoNextCursor ==> batch.nextCursor.None?
    ensures r.Err? && r.error == CursorStuck ==> batch.nextCursor.Some? && batch.nextCursor.value <= cursor
    ensures (&& local.reliable && Fits(old(local.View()), batch.entries)
             && batch.nextCursor.Some? && cursor < batch.nextCursor.value) ==> r.Ok?
  {
    ghost var before := local.View();
    var ins := local.InsertEntriesWithStats(batch.entries);
    if ins.Err? {
      return Err(Database(ins.error)), false;
    }
    RowsKeptByInsert(before, batch.entries, key);
    if batch.nextCursor.None? {
      return Err(NoNextCursor), true;
    }
    if batch.nextCursor.value <= cursor {
      return Err(CursorStuck), true;
    }
    var saved := local.SetLastCursor(key, batch.nextCursor.value);
    if saved.Err? {
      return Err(Database(saved.error)), true;
    }
    IngestKeepsTables(before, batch.entries);
    r, wrote := Ok(ins.value), true;
  }

  function Start(st: Store, key: Key): PullConf {
    PullConf(st, CursorIn(st.pullCursors, key), Ready)
  }

  function Source(genuine: bool, peer: Store): Option<Store> {
    if genuine then Some(peer) else None
  }

  /** The remote answered `batch`; if it is genuine, that is what `peer` serves. */
  predicate Offered(genuine: bool, peer: Store, cursor: int, limit: U64, batch: PullBatch) {
    limit >= 1 && (genuine ==> Valid(peer) && batch == Serve(peer, cursor, limit, None))
  }

  /**
   How a run accounts for the database `now`: by a log of protocol steps and, against a real
   store, as `stored` rows of its tail inserted with the cursor behind the first `saved`.
   */
  ghost predicate Accounted(genuine: bool, peer: Store, before: Store, key: Key, now: Store,
                            log: seq<PullAct>, stored: nat, saved: nat) {
    && Reaches(Source(genuine, peer), key, Start(before, key), log, now)
    && (genuine ==>
          && saved <= stored <= |TailOf(before, key, peer)|
          && now == PulledPrefix(before, key, TailOf(before, key, peer), stored, saved))
  }

  /** The state between two rounds of the loop. */
  ghost predicate Between(genuine: bool, peer: Store, before: Store, key: Key, now: Store, cursor: int,
                          log: seq<PullAct>, saved: nat) {
    && NothingLost(before, now, key)
    && cursor == CursorIn(now.pullCursors, key)
    && Leads(Source(genuine, peer), key, Start(before, key), log, PullConf(now, cursor, Ready))
    && (genuine ==> AtRow(before, key, peer, now, cursor, saved))
  }

  lemma BetweenAccounted(genuine: bool, peer: Store, before: Store, key: Key, now: Store, cursor: int,
                         log: seq<PullAct>, saved: nat)
    requires Between(genuine, peer, before, key, now, cursor, log, saved)
    ensures Accounted(genuine, peer, before, key, now, log, saved, saved)
  {
    assert PullConf(now, cursor, Ready).store == now;
  }

  lemma NothingLostChain(a: Store, b: Store, c: Store, key: Key)
    requires NothingLost(a, b, key) && NothingLost(b, c, key)
    ensures NothingLost(a, c, key)
  {
    assert forall k :: k != key ==> CursorIn(c.pullCursors, k) == CursorIn(a.pullCursors, k);
  }

  /** A round whose insert was committed but whose cursor was not. */
  lemma RoundCut(genuine: bool, peer: Store, before: Store, key: Key, was: Store, cursor: int,
                 log: seq<PullAct>, saved: nat, limit: U64, batch: PullBatch, now: Store)
    requires Between(genuine, peer, before, key, was, cursor, log, saved)
    requires Offered(genuine, peer, cursor, limit, batch)
    requires batch.entries != [] && Fits(was, batch.entries) && now == Ingest(was, batch.entries)
    ensures Accounted(genuine, peer, before, key, now,
                      log + [Fetch(limit, batch), StoreBatch], saved + |batch.entries|, saved)
  {
    LeadsStored(Source(genuine, peer), key, Start(before, key), log, PullConf(was, cursor, Ready), limit, batch);
    if genuine {
      NextRow(before, key, peer, was, cursor, saved, limit, batch);
    }
  }

  /** A round that went through. */
  lemma RoundDone(genuine: bool, peer: Store, before: Store, key: Key, was: Store, cursor: int,
                  log: seq<PullAct>, saved: nat, limit: U64, batch: PullBatch, now: Store)
    requires Between(genuine, peer, before, key, was, cursor, log, saved)
    requires Offered(genuine, peer, cursor, limit, batch)
    requires batch.entries != [] && Fits(was, batch.entries)
    requires batch.nextCursor.Some? && cursor < batch.nextCursor.value
    requires now == Saved(was, key, batch)
    requires NothingLost(was, now, key)
    ensures Between(genuine, peer, before, key, now, batch.nextCursor.value,
                    log + [Fetch(limit, batch), StoreBatch, SaveCursor], saved + |batch.entries|)
  {
    var next := batch.nextCursor.value;
    var log' := log + [Fetch(limit, batch), StoreBatch, SaveCursor];
    assert NothingLost(before, now, key) by {
      NothingLostChain(before, was, now, key);
    }
    assert Leads(Source(genuine, peer), key, Start(before, key), log', PullConf(now, next, Ready)) by {
      LeadsSaved(Source(genuine, peer), key, Start(before, key), log, PullConf(was, cursor, Ready), limit, batch);
      IngestKeepsTables(was, batch.entries);
    }
    if genuine {
      NextRow(before, key, peer, was, cursor, saved, limit, batch);
      assert AtRow(before, key, peer, now, next, saved + |batch.entries|);
    }
  }

  /** If the whole tail fits, so does the next batch. */
  lemma NextFits(before: Store, key: Key, peer: Store, now: Store, cursor: int, saved: nat, b: PullBatch)
    requires MovesTo(before, key, peer, now, cursor, saved, b) && b.entries != []
    requires Fits(before, EntriesOf(TailOf(before, key, peer)))
    ensures Fits(now, b.entries)
  {
    hide AtRow, TailOf;
    IngestCounterGrows(before, EntriesOf(TailOf(before, key, peer)), saved + |b.entries|);
  }

  /** A genuine answer moves the cursor, and fits if the whole tail does. */
  lemma RoundWillDo(genuine: bool, peer: Store, before: Store, key: Key, was: Store, cursor: int,
                    log: seq<PullAct>, saved: nat, limit: U64, batch: PullBatch)
    requires Between(genuine, peer, before, key, was, cursor, log, saved)
    requires Offered(genuine, peer, cursor, limit, batch) && batch.entries != []
    ensures genuine ==>
              && batch.nextCursor.Some? && cursor < batch.nextCursor.value
              && (Fits(before, EntriesOf(TailOf(before, key, peer))) ==> Fits(was, batch.entries))
  {
    if genuine {
      NextRow(before, key, peer, was, cursor, saved, limit, batch);
      if Fits(before, EntriesOf(TailOf(before, key, peer))) {
        NextFits(before, key, peer, was, cursor, saved, batch);
      }
    }
  }

  /** One non-empty answer of the remote, in the terms of the whole run. */
  method PullRound(local: LocalStore, key: Key, cursor: int, limit: U64, batch: PullBatch,
                   ghost genuine: bool, ghost peer: Store, ghost before: Store, ghost log: seq<PullAct>,
                   ghost saved: nat)
    returns (r: Result<InsertStats, SyncError>, ghost log': seq<PullAct>, ghost stored': nat, ghost saved': nat)
    requires Between(genuine, peer, before, key, local.View(), cursor, log, saved)
    requires Offered(genuine, peer, cursor, limit, batch)
    requires batch.entries != []
    modifies local`rows, local`counter, local`pullCursors
    ensures NothingLost(before, local.View(), key)
    ensures Accounted(genuine, peer, before, key, local.View(), log', stored', saved')
    ensures r.Ok? ==>
              && batch.nextCursor.Some? && cursor < batch.nextCursor.value
              && stored' == saved' == saved + |batch.entries|
              && Between(genuine, peer, before, key, local.View(), batch.nextCursor.value, log', stored')
              && r.value.inserted == |local.rows| - |old(local.rows)|
              && r.value.inserted + r.value.ignored == |batch.entries|
    ensures genuine && r.Err? ==> r.error != NoNextCursor && r.error != CursorStuck
    ensures genuine && local.reliable && Fits(before, EntriesOf(TailOf(before, key, peer))) ==> r.Ok?
  {
    hide Leads, Reaches, AtRow, WellFormed, After, TailOf, PulledPrefix, Ingest, Serve, Saved, Accounted,
      EntriesOf, MovesTo;
    ghost var was := local.View();
    BetweenAccounted(genuine, peer, before, key, was, cursor, log, saved);
    RoundWillDo(genuine, peer, before, key, was, cursor, log, saved, limit, batch);
    ghost var wrote;
    r, wrote := CommitBatch(local, key, cursor, batch);
    ghost var now := local.View();
    NothingLostChain(before, was, now, key);
    if r.Ok? {
      RoundDone(genuine, peer, before, key, was, cursor, log, saved, limit, batch, now);
      log' := log + [Fetch(limit, batch), StoreBatch, SaveCursor];
      stored', saved' := saved + |batch.entries|, saved + |batch.entries|;
      BetweenAccounted(genuine, peer, before, key, now, batch.nextCursor.value, log', stored');
    } else if !wrote {
      log', stored', saved' := log, saved, saved;
    } else {
      log', stored', saved' := log + [Fetch(limit, batch), StoreBatch], saved + |batch.entries|, saved;
      RoundCut(genuine, peer, before, key, was, cursor, log, saved, limit, batch, now);
    }
    assert Accounted(genuine, peer, before, key, now, log', stored', saved');
  }

  lemma RunStarts(genuine: bool, peer: Store, before: Store, key: Key)
    requires Valid(before)
    ensures Between(genuine, peer, before, key, before, CursorIn(before.pullCursors, key), [], 0)
  {
    var tail := TailOf(before, key, peer);
    assert tail[0..] == tail;
    assert EntriesOf(tail)[..0] == [];
  }

  /** Between rounds with nothing left of the tail, the database is the one-shot pull. */
  lemma RunEnds(peer: Store, before: Store, key: Key, now: Store, cursor: int, log: seq<PullAct>, saved: nat)
    requires Between(true, peer, before, key, now, cursor, log, saved)
    requires saved == |TailOf(before, key, peer)|
    ensures now == PullAll(before, key, peer)
  {
  }

  /**
   Whatever the remote does, the loop ends (the cursor only rises, and between rises the limit
   only falls) and nothing local is lost. If the remote serves a real store, the run equals one
   insert of that store's tail; stopped early, it equals an insert of a prefix of the tail with
   the cursor at or behind it.
   */
  method SyncPullFromPeer(local: LocalStore, key: Key, limit: U64, remote: Remote, ghost peer: Store)
    returns (r: Result<PullStats, SyncError>, ghost calls: seq<(int, U64)>, ghost log: seq<PullAct>,
             ghost stored: nat, ghost saved: nat)
    requires Valid(local.View()) && Valid(peer)
    modifies local`rows, local`counter, local`pullCursors
    // Against any remote.
    ensures Valid(local.View())
    ensures NothingLost(old(local.View()), local.View(), key)
    ensures r.Ok? ==> r.value.inserted + r.value.ignored == r.value.received
    ensures r.Ok? ==> r.value.inserted == |local.rows| - |old(local.rows)|
    ensures Accounted(ServedBy(remote, peer), peer, old(local.View()), key, local.View(), log, stored, saved)
    // A real store is never blamed for an invalid batch.
    ensures ServedBy(remote, peer) && r.Err? ==> r.error != NoNextCursor && r.error != CursorStuck
    // The adaptive run equals the one-shot pull.
    ensures ServedBy(remote, peer) && r.Ok? && limit >= 1 ==>
              && local.View() == PullAll(old(local.View()), key, peer)
              && r.value.received == |TailOf(old(local.View()), key, peer)|
    // Work bound.
    ensures ServedBy(remote, peer) ==>
              |calls| <= |TailOf(old(local.View()), key, peer)| + 1 + Log2(limit)
    // It succeeds whenever it can.
    ensures (&& ServedBy(remote, peer) && Responsive(remote) && local.reliable
             && Fits(old(local.View()), EntriesOf(TailOf(old(local.View()), key, peer)))) ==> r.Ok?
  {
    ghost var before := local.View();
    ghost var genuine := ServedBy(remote, peer);
    calls, log, stored, saved := [], [], 0, 0;
    RunStarts(genuine, peer, before, key);
    BetweenAccounted(genuine, peer, before, key, before, CursorIn(before.pullCursors, key), [], 0);
    if limit == 0 {
      return Ok(PullStats(0, 0, 0)), calls, log, stored, saved;
    }
    var got := local.GetLastCursor(key);
    if got.Err? {
      return Err(Database(got.error)), calls, log, stored, saved;
    }
    var cursor := got.value;
    var received: nat, inserted: nat, ignored: nat := 0, 0, 0;
    var batchLimit := limit;
    var callNo := 0;
    while true
      invariant Between(genuine, peer, before, key, local.View(), cursor, log, saved)
      invariant 1 <= batchLimit <= limit && callNo == |calls|
      invariant inserted + ignored == received && inserted == |local.rows| - |before.rows|
      invariant stored == saved
      invariant genuine ==>
                  && received == saved <= |TailOf(before, key, peer)|
                  && callNo + Log2(batchLimit) <= saved + Log2(limit)
      decreases I64_MAX - cursor, batchLimit
    {
      BetweenAccounted(genuine, peer, before, key, local.View(), cursor, log, saved);
      var outcome := remote(callNo, cursor, batchLimit);
      callNo, calls := callNo + 1, calls + [(cursor, batchLimit)];
      match outcome
      case TooLarge =>
        if batchLimit <= 1 {
          return Err(TooLargeAtOne), calls, log, stored, saved;
        }
        Log2Half(batchLimit);
        batchLimit := Max(batchLimit / 2, 1);
      case Failed =>
        return Err(Transport), calls, log, stored, saved;
      case Answer(batch) =>
        if genuine {
          NextRow(before, key, peer, local.View(), cursor, saved, batchLimit, batch);
        }
        if batch.entries == [] {
          if genuine {
            RunEnds(peer, before, key, local.View(), cursor, log, saved);
          }
          break;
        }
        var round;
        round, log, stored, saved :=
          PullRound(local, key, cursor, batchLimit, batch, genuine, peer, before, log, saved);
        if round.Err? {
          return Err(round.error), calls, log, stored, saved;
        }
        received := received + |batch.entries|;
        inserted := inserted + round.value.inserted;
        ignored := ignored + round.value.ignored;
        cursor := batch.nextCursor.value;
    }
    r := Ok(PullStats(received, inserted, ignored));
  }
}
