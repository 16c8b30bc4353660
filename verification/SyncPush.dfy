/**
 The push loop: send what the peer has not acknowledged, in batches, halving the batch when it is
 too large. `Failed` covers every other failure, also a batch that arrived but whose
 acknowledgement was lost.
 */
module SyncPush {
  import opened Prelude
  import opened StoreModel
  import opened LocalStores
  import opened SyncPull

  datatype PushOutcome = Acknowledged | Oversized | Unconfirmed

  type Receiver = (nat, seq<Entry>) -> PushOutcome

  /** Every one-entry batch is accepted, and no batch is refused but for its size. */
  ghost predicate Accommodating(push: Receiver) {
    forall i: nat, es: seq<Entry> :: push(i, es).Acknowledged? || (push(i, es).Oversized? && |es| > 1)
  }

  /** The entries of the calls the peer acknowledged, in the order of the calls. */
  ghost function Delivered(push: Receiver, calls: seq<seq<Entry>>): seq<Entry> {
    if calls == [] then [] else
      var n := |calls| - 1;
      Delivered(push, calls[..n]) + (if push(n, calls[n]).Acknowledged? then calls[n] else [])
  }

  lemma DeliveredStep(push: Receiver, calls: seq<seq<Entry>>, es: seq<Entry>)
    ensures Delivered(push, calls + [es])
         == Delivered(push, calls) + (if push(|calls|, es).Acknowledged? then es else [])
  {
    assert (calls + [es])[..|calls|] == calls;
  }

  /** The rows still to be sent to the peer. */
  function Backlog(st: Store, key: Key, device: Option<Device>): seq<Row> {
    After(st.rows, CursorIn(st.pushCursors, key), device)
  }

  function PushedPrefix(st: Store, key: Key, device: Option<Device>, saved: nat): Store
    requires saved <= |Backlog(st, key, device)|
  {
    st.(pushCursors := SavedAt(st.pushCursors, key, Backlog(st, key, device), saved))
  }

  ghost predicate Pushing(before: Store, key: Key, device: Option<Device>, now: Store, cursor: int, saved: nat) {
    && Valid(before)
    && saved <= |Backlog(before, key, device)|
    && now == PushedPrefix(before, key, device, saved)
    && cursor == CursorIn(now.pushCursors, key)
    && After(before.rows, cursor, device) == Backlog(before, key, device)[saved..]
  }

  lemma PushStarts(before: Store, key: Key, device: Option<Device>)
    requires Valid(before)
    ensures Pushing(before, key, device, before, CursorIn(before.pushCursors, key), 0)
  {
    assert Backlog(before, key, device)[0..] == Backlog(before, key, device);
  }

  /** Push cursors play no part in what a store serves. */
  lemma ServeIgnoresPushCursors(a: Store, b: Store, cursor: int, limit: U64, device: Option<Device>)
    requires Valid(a) && b == a.(pushCursors := b.pushCursors)
    ensures Valid(b) && Serve(b, cursor, limit, device) == Serve(a, cursor, limit, device)
  {
    hide Serve;
    ServeSameRows(a, b, cursor, limit, device);
  }

  /** The next batch is the next stretch of the backlog. */
  lemma NextBatch(before: Store, key: Key, device: Option<Device>, now: Store, cursor: int, saved: nat, limit: U64)
    requires Pushing(before, key, device, now, cursor, saved) && limit >= 1
    ensures Valid(now)
    ensures var n := Min(limit, |Backlog(before, key, device)| - saved);
            var b := Serve(now, cursor, limit, device);
            && b.entries == EntriesOf(Backlog(before, key, device))[saved..saved + n]
            && (n > 0 ==> b.nextCursor.Some? && cursor < b.nextCursor.value
                          && b.nextCursor.value == Backlog(before, key, device)[saved + n - 1].ingestSeq)
  {
    hide After, SavedAt, Serve, Valid;
    var backlog := Backlog(before, key, device);
    ServeIgnoresPushCursors(before, now, cursor, limit, device);
    ServedStretch(before, cursor, device, backlog, saved, limit);
    var n := Min(limit, |backlog| - saved);
    if n > 0 {
      ServedRest(before, cursor, device, backlog, saved, n);
    }
  }

  lemma BatchSaved(before: Store, key: Key, device: Option<Device>, was: Store, cursor: int, saved: nat, n: nat,
                   now: Store)
    requires Pushing(before, key, device, was, cursor, saved)
    requires n > 0 && saved + n <= |Backlog(before, key, device)|
    requires now == was.(pushCursors := was.pushCursors[key := Backlog(before, key, device)[saved + n - 1].ingestSeq])
    ensures Pushing(before, key, device, now, Backlog(before, key, device)[saved + n - 1].ingestSeq, saved + n)
  {
    var backlog := Backlog(before, key, device);
    ServedRest(before, cursor, device, backlog, saved, n);
    assert now.pushCursors == SavedAt(before.pushCursors, key, backlog, saved + n);
  }

  lemma PendingLeft(before: Store, key: Key, device: Option<Device>, now: Store, cursor: int, saved: nat)
    requires Pushing(before, key, device, now, cursor, saved)
    ensures Pending(now, key, device) == |Backlog(before, key, device)| - saved
    ensures saved <= |Backlog(before, key, device)|
    ensures now == PushedPrefix(before, key, device, saved)
    ensures cursor == CursorIn(now.pushCursors, key) && Valid(now)
  {
  }

  /** Every call carried the next stretch of the backlog after what was acknowledged before it. */
  ghost predicate Attempts(backlog: seq<Entry>, push: Receiver, calls: seq<seq<Entry>>) {
    forall k :: 0 <= k < |calls| ==>
      && var done := |Delivered(push, calls[..k])|;
      && calls[k] != []
      && done + |calls[k]| <= |backlog|
      && calls[k] == backlog[done..done + |calls[k]|]
  }

  /** What the peer has acknowledged after these calls is the first `sent` rows of the backlog. */
  ghost predicate Sent(before: Store, key: Key, device: Option<Device>, push: Receiver, calls: seq<seq<Entry>>,
                       sent: nat) {
    && sent <= |Backlog(before, key, device)|
    && Delivered(push, calls) == EntriesOf(Backlog(before, key, device))[..sent]
    && Attempts(EntriesOf(Backlog(before, key, device)), push, calls)
  }

  lemma SentNothing(before: Store, key: Key, device: Option<Device>, push: Receiver)
    ensures Sent(before, key, device, push, [], 0)
  {
    assert EntriesOf(Backlog(before, key, device))[..0] == [];
  }

  /** Nothing but the given device's entries. */
  ghost predicate OnlyOf(device: Option<Device>, es: seq<Entry>) {
    device.Some? ==> forall e :: e in es ==> e.device == device.value
  }

  ghost predicate OnlyOwnCalls(device: Option<Device>, calls: seq<seq<Entry>>) {
    device.Some? ==> forall k, e :: 0 <= k < |calls| && e in calls[k] ==> e.device == device.value
  }

  lemma OnlyOwnMore(device: Option<Device>, calls: seq<seq<Entry>>, es: seq<Entry>)
    requires OnlyOwnCalls(device, calls) && OnlyOf(device, es)
    ensures OnlyOwnCalls(device, calls + [es])
  {
  }

  lemma OnlyOwnNone(device: Option<Device>)
    ensures OnlyOwnCalls(device, [])
  {
  }

  /** One more call, acknowledged or not. */
  lemma SentMore(before: Store, key: Key, device: Option<Device>, push: Receiver, calls: seq<seq<Entry>>,
                 sent: nat, es: seq<Entry>)
    requires Sent(before, key, device, push, calls, sent)
    requires es != [] && sent + |es| <= |Backlog(before, key, device)|
    requires es == EntriesOf(Backlog(before, key, device))[sent..sent + |es|]
    ensures Sent(before, key, device, push, calls + [es], if push(|calls|, es).Acknowledged? then sent + |es| else sent)
    ensures |Delivered(push, (calls + [es])[..|calls|])| == sent
  {
    hide Backlog, Delivered;
    DeliveredStep(push, calls, es);
    var all := EntriesOf(Backlog(before, key, device));
    assert all[..sent] + es == all[..sent + |es|];
    forall k | 0 <= k <= |calls|
      ensures (calls + [es])[..k] == calls[..k]
    {
    }
    assert calls[..|calls|] == calls;
  }

  method SelectBatch(local: LocalStore, cursor: int, limit: U64, device: Option<Device>)
    returns (r: Result<PullBatch, DbError>)
    requires Valid(local.View())
    ensures r.Ok? ==> r.value == Serve(local.View(), cursor, limit, device)
    ensures r.Ok? ==> OnlyOf(device, r.value.entries)
    ensures local.reliable ==> r.Ok?
  {
    hide Serve, Valid;
    match device {
      case Some(d) => r := local.PullSinceCursorForDevice(cursor, limit, d);
      case None => r := local.PullSinceCursor(cursor, limit);
    }
  }

  /**
   The peer has acknowledged exactly the first `sent` rows of the backlog, in order, and the
   stored cursor stands behind the first `saved` of them; nothing else in the database changes.
   */
  method SyncPushToPeer(local: LocalStore, key: Key, limit: U64, device: Option<Device>, push: Receiver)
    returns (r: Result<nat, SyncError>, ghost calls: seq<seq<Entry>>, ghost sent: nat, ghost saved: nat)
    requires Valid(local.View())
    modifies local`pushCursors
    ensures Valid(local.View())
    ensures Sent(old(local.View()), key, device, push, calls, sent) && saved <= sent
    // With a device given, nothing of another device is ever sent.
    ensures OnlyOwnCalls(device, calls)
    // At most the last acknowledged batch is not yet saved.
    ensures saved == sent || (calls != [] && saved == |Delivered(push, calls[..|calls| - 1])|)
    ensures local.View() == PushedPrefix(old(local.View()), key, device, saved)
    ensures Pending(local.View(), key, device) == old(Pending(local.View(), key, device)) - saved
    // Success means the backlog is empty.
    ensures r.Ok? && limit >= 1 ==>
              && saved == sent == r.value == old(Pending(local.View(), key, device))
              && Pending(local.View(), key, device) == 0
    // A batch of one that is too large is exactly the next pending row, and everything before it was delivered.
    ensures r == Err(TooLargeAtOne) ==>
              && saved == sent < |old(Backlog(local.View(), key, device))|
              && calls != []
              && calls[|calls| - 1] == [old(Backlog(local.View(), key, device))[saved].entry]
              && push(|calls| - 1, calls[|calls| - 1]).Oversized?
    // The two "invalid local push batch" exits cannot be taken.
    ensures r != Err(NoNextCursor) && r != Err(CursorStuck)
    // Progress.
    ensures local.reliable && Accommodating(push) ==> r.Ok?
    // Work bound.
    ensures |calls| <= old(Pending(local.View(), key, device)) + Log2(limit)
  {
    hide WellFormed, After, Delivered, Attempts, Pushing, Sent, PushedPrefix, Serve, Valid, Backlog, Pending, SavedAt,
      Log2, OnlyOf, OnlyOwnCalls;
    ghost var before := local.View();
    calls, sent, saved := [], 0, 0;
    PushStarts(before, key, device);
    PendingLeft(before, key, device, before, CursorIn(before.pushCursors, key), 0);
    SentNothing(before, key, device, push);
    OnlyOwnNone(device);
    if limit == 0 {
      return Ok(0), calls, sent, saved;
    }
    var got := local.GetLastPushedSeq(key);
    if got.Err? {
      return Err(Database(got.error)), calls, sent, saved;
    }
    var cursor := got.value;
    var pushed: nat, batchLimit := 0, limit;
    var callNo := 0;
    while true
      invariant Pushing(before, key, device, local.View(), cursor, saved)
      invariant Sent(before, key, device, push, calls, sent)
      invariant OnlyOwnCalls(device, calls)
      invariant 1 <= batchLimit <= limit && callNo == |calls|
      invariant pushed == saved == sent
      invariant |calls| + Log2(batchLimit) <= saved + Log2(limit)
      decreases I64_MAX - cursor, batchLimit
    {
      PendingLeft(before, key, device, local.View(), cursor, saved);
      NextBatch(before, key, device, local.View(), cursor, saved, batchLimit);
      var page := SelectBatch(local, cursor, batchLimit, device);
      if page.Err? {
        return Err(Database(page.error)), calls, sent, saved;
      }
      var batch := page.value;
      if batch.entries == [] {
        break;
      }
      ghost var n := |batch.entries|;
      var outcome := push(callNo, batch.entries);
      SentMore(before, key, device, push, calls, sent, batch.entries);
      OnlyOwnMore(device, calls, batch.entries);
      callNo, calls := callNo + 1, calls + [batch.entries];
      match outcome
      case Oversized =>
        if batchLimit <= 1 {
          return Err(TooLargeAtOne), calls, sent, saved;
        }
        Log2Half(batchLimit);
        batchLimit := Max(batchLimit / 2, 1);
      case Unconfirmed =>
        return Err(Transport), calls, sent, saved;
      case Acknowledged =>
        sent := sent + n;
        pushed := pushed + |batch.entries|;
        if batch.nextCursor.None? {
          return Err(NoNextCursor), calls, sent, saved;
        }
        if batch.nextCursor.value <= cursor {
          return Err(CursorStuck), calls, sent, saved;
        }
        ghost var was := local.View();
        var done := local.SetLastPushedSeq(key, batch.nextCursor.value);
        if done.Err? {
          return Err(Database(done.error)), calls, sent, saved;
        }
        BatchSaved(before, key, device, was, cursor, saved, n, local.View());
        cursor := batch.nextCursor.value;
        saved := saved + n;
    }
    r := Ok(pushed);
  }
}
