/**
 One sync run over a list of peers, over HTTP or peer to peer: pull each, push to each, and decide
 whether the run succeeded.
 */
module Driver {
  import opened Prelude
  import opened StoreModel
  import opened LocalStores
  import opened SyncPull
  import opened SyncPush

  class SyncRunProgress {
    var pullOk: bool
    const pushRequested: bool
    var pushNeeded: bool
    var pushOk: bool

    constructor (pushRequested: bool)
      ensures !pullOk && !pushNeeded && !pushOk && this.pushRequested == pushRequested
    {
      this.pushRequested := pushRequested;
      pullOk, pushNeeded, pushOk := false, false, false;
    }

    method MarkPullOk()
      modifies this`pullOk
      ensures pullOk
    {
      pullOk := true;
    }

    method NotePushNeeded(needed: bool)
      modifies this`pushNeeded
      ensures pushNeeded == (old(pushNeeded) || needed)
    {
      pushNeeded := pushNeeded || needed;
    }

    method MarkPushOk(needed: bool)
      modifies this`pushOk
      ensures pushOk == (old(pushOk) || needed)
    {
      if needed {
        pushOk := true;
      }
    }

    predicate IsSuccess()
      reads this
    {
      pullOk && (!pushRequested || !pushNeeded || pushOk)
    }
  }

  /** A peer to sync with. `usable` is false if no client could be set up for it. */
  datatype Peer = Peer(key: Key, usable: bool, pull: Remote, push: Receiver)

  datatype DriverError = NoPeers | NoDevice | SyncFailed

  /**
   What happened to one peer: whether the pull went through, the pending count the preflight read
   (if it ran), whether the push went through, and the database when the peer's turn began, at
   the preflight, and when its turn ended.
   */
  datatype Outcome = Outcome(pulled: bool, preflight: Option<nat>, pushed: bool, start: Store, checked: Store,
                             end: Store)

  ghost predicate AnyPulled(log: seq<Outcome>) {
    exists i :: 0 <= i < |log| && log[i].pulled
  }

  ghost predicate AnyPending(log: seq<Outcome>) {
    exists i :: 0 <= i < |log| && log[i].preflight.Some? && log[i].preflight.value > 0
  }

  ghost predicate AnyPushed(log: seq<Outcome>) {
    exists i :: 0 <= i < |log| && log[i].preflight.Some? && log[i].preflight.value > 0 && log[i].pushed
  }

  lemma AnyStep(log: seq<Outcome>, o: Outcome)
    ensures AnyPulled(log + [o]) <==> AnyPulled(log) || o.pulled
    ensures AnyPending(log + [o]) <==> AnyPending(log) || (o.preflight.Some? && o.preflight.value > 0)
    ensures AnyPushed(log + [o]) <==> AnyPushed(log) || (o.preflight.Some? && o.preflight.value > 0 && o.pushed)
  {
    assert (log + [o])[|log|] == o;
    assert forall i :: 0 <= i < |log| ==> (log + [o])[i] == log[i];
  }

  /**
   The pull half of a turn: against the real store `peer` it is the one-shot pull, and it goes through
   whenever it can.
   */
  ghost predicate PullHalf(p: Peer, peer: Store, reliable: bool, o: Outcome) {
    && Valid(peer) && Valid(o.start)
    && NothingLost(o.start, o.checked, p.key)
    && (o.pulled ==> p.usable)
    && (ServedBy(p.pull, peer) && o.pulled ==> o.checked == PullAll(o.start, p.key, peer))
    && ((&& p.usable && reliable && ServedBy(p.pull, peer) && Responsive(p.pull)
         && Fits(o.start, EntriesOf(TailOf(o.start, p.key, peer)))) ==> o.pulled)
  }

  /**
   The push half: it moves this peer's push cursor at most, drains the backlog if it goes through, and
   goes through whenever it can.
   */
  ghost predicate PushHalf(p: Peer, push: bool, device: Option<Device>, reliable: bool, o: Outcome) {
    && Valid(o.end)
    && (exists saved :: && 0 <= saved <= |Backlog(o.checked, p.key, device)|
                        && o.end == PushedPrefix(o.checked, p.key, device, saved))
    && (o.preflight.Some? ==> push && p.usable && o.preflight.value == Pending(o.checked, p.key, device))
    && (o.preflight.None? ==> !o.pushed)
    && (o.pushed ==> Pending(o.end, p.key, device) == 0)
    && (reliable && push && p.usable ==> o.preflight.Some?)
    && (reliable && o.preflight.Some? && Accommodating(p.push) ==> o.pushed)
  }

  ghost predicate Turn(p: Peer, peer: Store, push: bool, device: Option<Device>, reliable: bool, o: Outcome) {
    PullHalf(p, peer, reliable, o) && PushHalf(p, push, device, reliable, o)
  }

  lemma NoPush(p: Peer, push: bool, device: Option<Device>, reliable: bool, o: Outcome)
    requires Valid(o.end) && o.end == o.checked && o.preflight.None? && !o.pushed
    requires reliable && push ==> !p.usable
    ensures PushHalf(p, push, device, reliable, o)
  {
    assert PushedPrefix(o.checked, p.key, device, 0) == o.checked;
  }

  lemma NoPull(p: Peer, peer: Store, reliable: bool, o: Outcome)
    requires Valid(peer) && Valid(o.start) && o.checked == o.start && !o.pulled && !p.usable
    ensures PullHalf(p, peer, reliable, o)
  {
  }

  /** The turns follow one another: each begins with the database the one before left. */
  ghost predicate Chained(first: Store, log: seq<Outcome>, last: Store)
    decreases |log|
  {
    if log == [] then last == first else
      var n := |log| - 1;
      log[n].end == last && Chained(first, log[..n], log[n].start)
  }

  lemma PulledHalf(p: Peer, peer: Store, reliable: bool, o: Outcome)
    requires Valid(peer) && Valid(o.start) && p.usable && NothingLost(o.start, o.checked, p.key)
    requires ServedBy(p.pull, peer) && o.pulled ==> o.checked == PullAll(o.start, p.key, peer)
    requires (&& ServedBy(p.pull, peer) && Responsive(p.pull) && reliable
              && Fits(o.start, EntriesOf(TailOf(o.start, p.key, peer)))) ==> o.pulled
    ensures PullHalf(p, peer, reliable, o)
  {
  }

  lemma SamePullHalf(p: Peer, peer: Store, reliable: bool, o: Outcome, o': Outcome)
    requires PullHalf(p, peer, reliable, o)
    requires o'.pulled == o.pulled && o'.start == o.start && o'.checked == o.checked
    ensures PullHalf(p, peer, reliable, o')
  {
  }

  lemma SavedInBacklog(st: Store, key: Key, device: Option<Device>, push: Receiver, calls: seq<seq<Entry>>, sent: nat)
    requires Sent(st, key, device, push, calls, sent)
    ensures sent <= |Backlog(st, key, device)|
  {
  }

  lemma PushedHalf(p: Peer, push: bool, device: Option<Device>, reliable: bool, o: Outcome, saved: nat)
    requires Valid(o.end) && push && p.usable && o.preflight == Some(Pending(o.checked, p.key, device))
    requires saved <= |Backlog(o.checked, p.key, device)| && o.end == PushedPrefix(o.checked, p.key, device, saved)
    requires o.pushed ==> Pending(o.end, p.key, device) == 0
    requires reliable && Accommodating(p.push) ==> o.pushed
    ensures PushHalf(p, push, device, reliable, o)
  {
  }

  /** The push part of a turn: the preflight, then the push even if nothing is pending. */
  method PushTurn(local: LocalStore, p: Peer, limit: U64, device: Option<Device>, progress: SyncRunProgress,
                  ghost o0: Outcome)
    returns (ghost o: Outcome)
    requires Valid(local.View()) && limit >= 1 && p.usable
    requires o0.checked == local.View() && o0.end == local.View() && o0.preflight.None? && !o0.pushed
    modifies local`pushCursors, progress`pushNeeded, progress`pushOk
    ensures Valid(local.View()) && o.end == local.View()
    ensures o == o0.(preflight := o.preflight, pushed := o.pushed, end := o.end)
    ensures PushHalf(p, true, device, local.reliable, o)
    ensures progress.pushNeeded == (old(progress.pushNeeded) || (o.preflight.Some? && o.preflight.value > 0))
    ensures progress.pushOk == (old(progress.pushOk) || (o.preflight.Some? && o.preflight.value > 0 && o.pushed))
  {
    hide Valid, Serve, After, PushedPrefix, Sent, Delivered, Accommodating, Backlog, Pending, PushHalf;
    o := o0;
    ghost var checked := local.View();
    var pending := local.CountPendingPushEntries(p.key, device);
    if pending.Err? {
      NoPush(p, true, device, local.reliable, o);
      return;
    }
    var needed := pending.value > 0;
    progress.NotePushNeeded(needed);
    var pushed;
    ghost var calls, sent, saved;
    pushed, calls, sent, saved := SyncPushToPeer(local, p.key, limit, device, p.push);
    if pushed.Ok? {
      progress.MarkPushOk(needed);
    }
    SavedInBacklog(checked, p.key, device, p.push, calls, sent);
    o := o.(preflight := Some(pending.value), pushed := pushed.Ok?, end := local.View());
    PushedHalf(p, true, device, local.reliable, o, saved);
  }

  method SyncOnePeer(local: LocalStore, p: Peer, limit: U64, push: bool, device: Option<Device>,
                     progress: SyncRunProgress,
                     ghost peer: Store)
    returns (ghost o: Outcome)
    requires Valid(local.View()) && limit >= 1 && Valid(peer)
    modifies local`rows, local`counter, local`pullCursors, local`pushCursors
    modifies progress`pullOk, progress`pushNeeded, progress`pushOk
    ensures Valid(local.View())
    ensures o.start == old(local.View()) && o.end == local.View()
    ensures Turn(p, peer, push, device, local.reliable, o)
    ensures progress.pullOk == (old(progress.pullOk) || o.pulled)
    ensures progress.pushNeeded == (old(progress.pushNeeded) || (o.preflight.Some? && o.preflight.value > 0))
    ensures progress.pushOk == (old(progress.pushOk) || (o.preflight.Some? && o.preflight.value > 0 && o.pushed))
  {
    hide Valid, Serve, After, ServedBy, Accounted, PulledPrefix, PushedPrefix, Sent, Delivered, Responsive,
      Accommodating, NothingLost, PullAll,
      TailOf, Fits, Backlog, Pending, PullHalf, PushHalf;
    ghost var start := local.View();
    o := Outcome(false, None, false, start, start, start);
    if !p.usable {
      NoPull(p, peer, local.reliable, o);
      NoPush(p, push, device, local.reliable, o);
      return;
    }
    var pulled;
    ghost var calls, log, stored, saved;
    pulled, calls, log, stored, saved := SyncPullFromPeer(local, p.key, limit, p.pull, peer);
    if pulled.Ok? {
      progress.MarkPullOk();
    }
    ghost var checked := local.View();
    o := Outcome(pulled.Ok?, None, false, start, checked, checked);
    PulledHalf(p, peer, local.reliable, o);
    if push {
      ghost var half := o;
      o := PushTurn(local, p, limit, device, progress, o);
      SamePullHalf(p, peer, local.reliable, half, o);
    } else {
      NoPush(p, push, device, local.reliable, o);
    }
  }

  /**
   The run succeeds exactly when some pull went through and either nothing was to be pushed (push
   off, or no preflight found pending rows) or some peer with pending rows was pushed to; and for
   such a peer the pending count went from positive to zero by the time its push returned.
   */
  method SyncPeers(local: LocalStore, peers: seq<Peer>, limit: U64, push: bool, device: Option<Device>,
                   ghost stores: seq<Store>)
    returns (r: Result<(), DriverError>, ghost log: seq<Outcome>)
    requires Valid(local.View())
    requires |stores| == |peers| && forall i :: 0 <= i < |stores| ==> Valid(stores[i])
    modifies local`rows, local`counter, local`pullCursors, local`pushCursors
    ensures Valid(local.View())
    ensures old(local.rows) <= local.rows
    ensures limit == 0 ==> r == Ok(()) && local.View() == old(local.View())
    ensures limit > 0 && peers == [] ==> r == Err(NoPeers) && local.View() == old(local.View())
    ensures limit > 0 && peers != [] && push && device.None? ==> r == Err(NoDevice) && local.View() == old(local.View())
    ensures limit > 0 && peers != [] && (push ==> device.Some?) ==>
              && |log| == |peers|
              && (forall i :: 0 <= i < |log| ==> Turn(peers[i], stores[i], push, device, local.reliable, log[i]))
              && Chained(old(local.View()), log, local.View())
              && (r.Ok? <==> AnyPulled(log) && (!push || !AnyPending(log) || AnyPushed(log)))
              && (r.Err? ==> r.error == SyncFailed)
  {
    hide WellFormed, Turn, AnyPulled, AnyPending, AnyPushed;
    ghost var before := local.View();
    log := [];
    if limit == 0 {
      return Ok(()), log;
    }
    if peers == [] {
      return Err(NoPeers), log;
    }
    if push && device.None? {
      return Err(NoDevice), log;
    }
    var progress := new SyncRunProgress(push);
    NoneYet();
    for n := 0 to |peers|
      invariant Valid(local.View()) && old(local.rows) <= local.rows
      invariant |log| == n
      invariant forall i :: 0 <= i < n ==> Turn(peers[i], stores[i], push, device, local.reliable, log[i])
      invariant Chained(before, log, local.View())
      invariant progress.pullOk == AnyPulled(log)
      invariant progress.pushNeeded == AnyPending(log)
      invariant progress.pushOk == AnyPushed(log)
    {
      ghost var o := SyncOnePeer(local, peers[n], limit, push, device, progress, stores[n]);
      AnyStep(log, o);
      assert (log + [o])[..n] == log;
      TurnKeepsRows(peers[n], stores[n], push, device, local.reliable, o);
      log := log + [o];
    }
    r := if progress.IsSuccess() then Ok(()) else Err(SyncFailed);
  }

  lemma NoneYet()
    ensures !AnyPulled([]) && !AnyPending([]) && !AnyPushed([])
  {
  }

  lemma TurnKeepsRows(p: Peer, peer: Store, push: bool, device: Option<Device>, reliable: bool, o: Outcome)
    requires Turn(p, peer, push, device, reliable, o)
    ensures o.start.rows <= o.end.rows
  {
    hide WellFormed, ServedBy, PullAll, TailOf, Responsive, Accommodating;
  }
}
