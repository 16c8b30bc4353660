/** The push loop of a `LocalStore` is a path of the replication protocol. */
module PushPath {
  import opened Prelude
  import opened StoreModel
  import opened SyncPush
  import opened Replication
  import opened ReplicationRuns

  /** The sender's store in the state: a store that pushes to itself also shows what it received. */
  function Sender(t: Topology, l: StoreId, key: Key, st: Store, peer: Store): Store {
    if t.owner(key) == l then st.(counter := peer.counter) else st
  }

  /**
   One push run inside the whole state: the sender's store, how far it got, and the receiver's store.
   A key may name the store itself; then what is pushed is already there.
   */
  ghost predicate PushAt(t: Topology, s: State, run: nat, l: StoreId, key: Key,
                         cursor: int, phase: PushPhase, st: Store, peer: Store) {
    && Inv(t, s)
    && run in s.pushes && s.pushes[run] == PushRun(l, key, cursor, phase)
    && l in s.stores && s.stores[l] == Sender(t, l, key, st, peer)
    && t.owner(key) in s.stores
    && (t.owner(key) != l ==> s.stores[t.owner(key)] == peer)
    && (t.owner(key) == l ==> peer.rows == st.rows && peer.burns == st.burns)
    && (t.owner(key) == l && phase.Waiting? ==> EntryIds(phase.entries) <= Ids(st.rows))
  }

  lemma {:induction false} FreshRequest(taken: set<nat>) returns (req: nat)
    ensures req !in taken
    ensures forall n :: n in taken ==> n < req
    decreases taken
  {
    if taken == {} {
      req := 0;
    } else {
      var n :| n in taken;
      var other := FreshRequest(taken - {n});
      req := Max(other, n + 1);
      assert forall m :: m in taken ==> m == n || m in taken - {n};
    }
  }

  lemma GoesOn(t: Topology, s: State, steps: seq<Step>, mid: State, step: Step, s': State)
    requires Goes(t, s, steps, mid) && Next(t, mid, step, s')
    ensures Goes(t, s, steps + [step], s')
  {
    hide Next;
    assert (steps + [step])[..|steps|] == steps;
  }

  /** Any store can begin to push under any key, and then stands where the push loop starts. */
  lemma BeginPushIsNext(t: Topology, s: State, run: nat, l: StoreId, key: Key) returns (s': State)
    requires Inv(t, s) && l in s.stores && t.owner(key) in s.stores
    ensures Next(t, s, OnPush(run, BeginPush(l, key)), s')
    ensures var st := s.stores[l];
            Valid(st) && PushAt(t, s', run, l, key, CursorIn(st.pushCursors, key), Idle, st, s.stores[t.owner(key)])
  {
    hide StoreOk, PullOk, PushOk, CopyOk, AckOk, Valid, Serve, Evolves;
    StepInv(t, s, OnPush(run, BeginPush(l, key)));
    s' := Apply(t, s, OnPush(run, BeginPush(l, key)));
  }

  /** What the sender selects in the state is what it would select by itself. */
  lemma SelectedInState(t: Topology, s: State, run: nat, l: StoreId, key: Key, cursor: int, phase: PushPhase,
                        st: Store, peer: Store, limit: U64)
    requires PushAt(t, s, run, l, key, cursor, phase, st, peer) && Valid(st)
    ensures Valid(s.stores[l])
    ensures Serve(s.stores[l], cursor, limit, t.filter(l)) == Serve(st, cursor, limit, t.filter(l))
    ensures EntryIds(Serve(st, cursor, limit, t.filter(l)).entries) <= Ids(st.rows)
  {
    hide StoreOk, PullOk, PushOk, CopyOk, AckOk, Valid, Ids, EntryIds, Serve;
    ServeSameRows(s.stores[l], st, cursor, limit, t.filter(l));
    ServedKnown(st, cursor, limit, t.filter(l));
  }

  lemma SendIsNext(t: Topology, s: State, run: nat, l: StoreId, key: Key, cursor: int, st: Store, peer: Store,
                   limit: U64, es: seq<Entry>, next: I64) returns (step: Step, s': State, req: nat)
    requires PushAt(t, s, run, l, key, cursor, Idle, st, peer) && Valid(st)
    requires Serve(st, cursor, limit, t.filter(l)) == PullBatch(es, Some(next))
    ensures Next(t, s, step, s')
    ensures PushAt(t, s', run, l, key, cursor, Waiting(req, es, next), st, peer)
  {
    hide StoreOk, PullOk, PushOk, CopyOk, AckOk, Valid, Serve, Evolves, Ids, EntryIds;
    SelectedInState(t, s, run, l, key, cursor, Idle, st, peer, limit);
    req := FreshRequest(s.net.Keys);
    step := OnPush(run, Send(req, limit));
    StepInv(t, s, step);
    s' := Apply(t, s, step);
  }

  /** A retry after the request went unanswered. */
  lemma ResendIsNext(t: Topology, s: State, run: nat, l: StoreId, key: Key, cursor: int, phase: PushPhase,
                     st: Store, peer: Store) returns (step: Step, s': State, req: nat)
    requires PushAt(t, s, run, l, key, cursor, phase, st, peer) && phase.Waiting?
    ensures Next(t, s, step, s') && PushAt(t, s', run, l, key, cursor, phase.(req := req), st, peer)
  {
    hide StoreOk, PullOk, PushOk, CopyOk, AckOk, Valid, Serve, Evolves, Ids, EntryIds;
    req := FreshRequest(s.net.Keys);
    step := OnPush(run, Resend(req));
    StepInv(t, s, step);
    s' := Apply(t, s, step);
  }

  lemma ShrinkIsNext(t: Topology, s: State, run: nat, l: StoreId, key: Key, cursor: int, phase: PushPhase,
                     st: Store, peer: Store)
    returns (step: Step, s': State)
    requires PushAt(t, s, run, l, key, cursor, phase, st, peer) && phase.Waiting?
    ensures Next(t, s, step, s') && PushAt(t, s', run, l, key, cursor, Idle, st, peer)
  {
    hide StoreOk, PullOk, PushOk, CopyOk, AckOk, Valid, Serve, Evolves, Ids, EntryIds;
    step := OnPush(run, Shrink);
    StepInv(t, s, step);
    s' := Apply(t, s, step);
  }

  lemma WaitingInNet(t: Topology, s: State, run: nat, l: StoreId, key: Key, cursor: int, phase: PushPhase,
                     st: Store, peer: Store)
    requires PushAt(t, s, run, l, key, cursor, phase, st, peer) && phase.Waiting?
    ensures phase.req in s.net && s.net[phase.req] == Msg(t.owner(key), phase.entries)
  {
    hide StoreOk, PullOk, CopyOk, AckOk, Valid, Covers, Shape, Ids, EntryIds;
    assert PushOk(t, s, s.pushes[run]);
  }

  /** A store that receives its own entries only uses up numbers. */
  lemma OwnArrival(st: Store, peer: Store, es: seq<Entry>)
    requires peer.rows == st.rows && peer.burns == st.burns && EntryIds(es) <= Ids(st.rows)
    ensures var own := st.(counter := peer.counter);
            && Ingest(own, es) == st.(counter := Ingest(peer, es).counter)
            && Ingest(peer, es).rows == st.rows && Ingest(peer, es).burns == st.burns
  {
    hide Ingest, Ids, EntryIds;
    IngestKnownExact(peer, es);
    IngestKnownExact(st.(counter := peer.counter), es);
  }

  /** The receiver stores the batch and its acknowledgement is on its way. */
  lemma DeliverIsNext(t: Topology, s: State, run: nat, l: StoreId, key: Key, cursor: int, phase: PushPhase,
                      st: Store, peer: Store)
    returns (step: Step, s': State)
    requires PushAt(t, s, run, l, key, cursor, phase, st, peer) && phase.Waiting? && Fits(peer, phase.entries)
    ensures Next(t, s, step, s') && PushAt(t, s', run, l, key, cursor, phase, st, Ingest(peer, phase.entries))
    ensures phase.req in s'.acks
  {
    hide StoreOk, PullOk, PushOk, CopyOk, AckOk, Valid, Serve, Evolves, Ingest, Ids, EntryIds;
    WaitingInNet(t, s, run, l, key, cursor, phase, st, peer);
    if t.owner(key) == l {
      OwnArrival(st, peer, phase.entries);
    }
    step := Deliver(phase.req);
    StepInv(t, s, step);
    s' := Apply(t, s, step);
  }

  lemma TakeAckIsNext(t: Topology, s: State, run: nat, l: StoreId, key: Key, cursor: int, phase: PushPhase,
                      st: Store, peer: Store)
    returns (step: Step, s': State)
    requires PushAt(t, s, run, l, key, cursor, phase, st, peer) && phase.Waiting? && phase.req in s.acks
    ensures Next(t, s, step, s') && PushAt(t, s', run, l, key, cursor, Acked(phase.next), st, peer)
  {
    hide StoreOk, PullOk, PushOk, CopyOk, AckOk, Valid, Serve, Evolves, Ids, EntryIds;
    step := OnPush(run, TakeAck);
    StepInv(t, s, step);
    s' := Apply(t, s, step);
  }

  lemma SaveAckIsNext(t: Topology, s: State, run: nat, l: StoreId, key: Key, cursor: int, next: int, st: Store,
                      peer: Store)
    returns (step: Step, s': State)
    requires PushAt(t, s, run, l, key, cursor, Acked(next), st, peer)
    ensures Next(t, s, step, s')
    ensures PushAt(t, s', run, l, key, next, Idle, st.(pushCursors := st.pushCursors[key := next]), peer)
  {
    hide StoreOk, PullOk, PushOk, CopyOk, AckOk, Valid, Serve, Evolves, Ids, EntryIds;
    step := OnPush(run, SaveAck);
    StepInv(t, s, step);
    s' := Apply(t, s, step);
  }

  // ---------- One call and its retries ----------

  /**
   The receiver after the attempts of one call; `tries[k]` says whether attempt `k` arrived. It may
   arrive although its acknowledgement is lost, and then again with a retry.
   */
  function Landed(peer: Store, es: seq<Entry>, tries: seq<bool>): Store {
    if tries == [] then peer else
      var n := |tries| - 1;
      var before := Landed(peer, es, tries[..n]);
      if tries[n] then Ingest(before, es) else before
  }

  /** The receiver after all calls with all their attempts. */
  function Received(peer: Store, calls: seq<seq<Entry>>, tries: seq<seq<bool>>): Store
    requires |tries| == |calls|
  {
    if calls == [] then peer else
      var n := |calls| - 1;
      Landed(Received(peer, calls[..n], tries[..n]), calls[n], tries[n])
  }

  /** What answers an acknowledged call is its last attempt. */
  ghost predicate Attempted(push: Receiver, calls: seq<seq<Entry>>, tries: seq<seq<bool>>) {
    && |tries| == |calls|
    && forall k :: 0 <= k < |calls| && push(k, calls[k]).Acknowledged? ==> tries[k] != [] && tries[k][|tries[k]| - 1]
  }

  lemma IngestNeverLowers(st: Store, es: seq<Entry>)
    ensures st.counter <= Ingest(st, es).counter
  {
    IngestCounterGrows(st, es, 0);
    assert es[..0] == [];
  }

  lemma {:induction false} LandedGrows(peer: Store, es: seq<Entry>, tries: seq<bool>)
    ensures peer.counter <= Landed(peer, es, tries).counter
    ensures tries != [] ==> Landed(peer, es, tries[..|tries| - 1]).counter <= Landed(peer, es, tries).counter
  {
    hide Ingest;
    if tries != [] {
      var n := |tries| - 1;
      LandedGrows(peer, es, tries[..n]);
      IngestNeverLowers(Landed(peer, es, tries[..n]), es);
    }
  }

  /** A sent request, its retries and what arrives of them. */
  lemma {:induction false} TriesArePath(
    t: Topology, s0: State, steps: seq<Step>, s: State, run: nat, l: StoreId, key: Key, cursor: int,
    st: Store, peer: Store, es: seq<Entry>, next: I64, req: nat, tries: seq<bool>)
    returns (steps': seq<Step>, s': State, req': nat)
    requires Goes(t, s0, steps, s) && PushAt(t, s, run, l, key, cursor, Waiting(req, es, next), st, peer)
    requires tries != [] && Landed(peer, es, tries).counter <= I64_MAX
    ensures Goes(t, s0, steps', s')
    ensures PushAt(t, s', run, l, key, cursor, Waiting(req', es, next), st, Landed(peer, es, tries))
    ensures tries[|tries| - 1] ==> req' in s'.acks
    decreases |tries|
  {
    hide PushAt, Goes, Next, Ingest;
    var n := |tries| - 1;
    LandedGrows(peer, es, tries);
    var step, mid;
    steps', mid, req' := steps, s, req;
    if n > 0 {
      steps', mid, req' := TriesArePath(t, s0, steps, s, run, l, key, cursor, st, peer, es, next, req, tries[..n]);
      var before := mid;
      step, mid, req' :=
        ResendIsNext(t, before, run, l, key, cursor, Waiting(req', es, next), st, Landed(peer, es, tries[..n]));
      GoesOn(t, s0, steps', before, step, mid);
      steps' := steps' + [step];
    } else {
      assert tries[..n] == [];
    }
    s' := mid;
    if tries[n] {
      step, s' :=
        DeliverIsNext(t, mid, run, l, key, cursor, Waiting(req', es, next), st, Landed(peer, es, tries[..n]));
      GoesOn(t, s0, steps', mid, step, s');
      steps' := steps' + [step];
    }
  }

  /** One call of the push loop with its retries: not acknowledged, acknowledged but not yet saved, or saved. */
  lemma OneCall(t: Topology, s0: State, steps: seq<Step>, s: State, run: nat, l: StoreId, key: Key, cursor: int,
                st: Store, peer: Store, es: seq<Entry>, next: I64, tries: seq<bool>, acked: bool, saved: bool)
    returns (steps': seq<Step>, s': State)
    requires Goes(t, s0, steps, s) && PushAt(t, s, run, l, key, cursor, Idle, st, peer) && Valid(st)
    requires |es| < U64_RANGE && Serve(st, cursor, |es|, t.filter(l)) == PullBatch(es, Some(next))
    requires Landed(peer, es, tries).counter <= I64_MAX
    requires acked ==> tries != [] && tries[|tries| - 1]
    ensures Goes(t, s0, steps', s')
    ensures !acked ==> PushAt(t, s', run, l, key, cursor, Idle, st, Landed(peer, es, tries))
    ensures acked && !saved ==> PushAt(t, s', run, l, key, cursor, Acked(next), st, Landed(peer, es, tries))
    ensures acked && saved ==>
              PushAt(t, s', run, l, key, next, Idle, st.(pushCursors := st.pushCursors[key := next]),
                     Landed(peer, es, tries))
  {
    hide PushAt, Goes, Next, Valid, Serve, Ingest;
    steps', s' := steps, s;
    if tries != [] {
      hide Landed;
      var landed := Landed(peer, es, tries);
      var step, mid, req;
      step, mid, req := SendIsNext(t, s, run, l, key, cursor, st, peer, |es|, es, next);
      GoesOn(t, s0, steps, s, step, mid);
      steps' := steps + [step];
      steps', mid, req := TriesArePath(t, s0, steps', mid, run, l, key, cursor, st, peer, es, next, req, tries);
      if acked {
        step, s' := TakeAckIsNext(t, mid, run, l, key, cursor, Waiting(req, es, next), st, landed);
        GoesOn(t, s0, steps', mid, step, s');
        steps', mid := steps' + [step], s';
        if saved {
          step, s' := SaveAckIsNext(t, mid, run, l, key, cursor, next, st, landed);
          GoesOn(t, s0, steps', mid, step, s');
          steps' := steps' + [step];
        }
      } else {
        step, s' := ShrinkIsNext(t, mid, run, l, key, cursor, Waiting(req, es, next), st, landed);
        GoesOn(t, s0, steps', mid, step, s');
        steps' := steps' + [step];
      }
    }
  }

  lemma BacklogBound(st: Store, key: Key, device: Option<Device>)
    requires Valid(st)
    ensures |Backlog(st, key, device)| < U64_RANGE
  {
    hide Sorted, UniqueIds, After;
    AfterExact(st.rows, CursorIn(st.pushCursors, key), device);
    RowCountBound(st.rows, st.counter);
  }

  lemma PushingValid(before: Store, key: Key, device: Option<Device>, now: Store, cursor: int, sent: nat)
    requires Pushing(before, key, device, now, cursor, sent)
    ensures Valid(before)
  {
  }

  /** The batch of a call, as the sender's store serves it. */
  lemma CallIsServed(before: Store, key: Key, device: Option<Device>, now: Store, cursor: int, sent: nat,
                     es: seq<Entry>)
    returns (next: I64)
    requires Pushing(before, key, device, now, cursor, sent)
    requires es != [] && sent + |es| <= |Backlog(before, key, device)|
    requires es == EntriesOf(Backlog(before, key, device))[sent..sent + |es|]
    ensures Valid(now) && |es| < U64_RANGE && Serve(now, cursor, |es|, device) == PullBatch(es, Some(next))
    ensures Pushing(before, key, device, now.(pushCursors := now.pushCursors[key := next]), next, sent + |es|)
  {
    hide Valid, Serve, After, SavedAt, Backlog, Pushing;
    PushingValid(before, key, device, now, cursor, sent);
    BacklogBound(before, key, device);
    NextBatch(before, key, device, now, cursor, sent, |es|);
    next := Serve(now, cursor, |es|, device).nextCursor.value;
    BatchSaved(before, key, device, now, cursor, sent, |es|, now.(pushCursors := now.pushCursors[key := next]));
  }

  // ---------- The whole loop ----------

  lemma DeliveredLast(push: Receiver, calls: seq<seq<Entry>>)
    requires calls != []
    ensures var n := |calls| - 1;
            Delivered(push, calls)
            == Delivered(push, calls[..n]) + (if push(n, calls[n]).Acknowledged? then calls[n] else [])
  {
  }

  /** All but the last call, and the last one. */
  lemma CallsPrefix(backlog: seq<Entry>, push: Receiver, calls: seq<seq<Entry>>, tries: seq<seq<bool>>, peer: Store)
    requires calls != [] && Attempts(backlog, push, calls) && Attempted(push, calls, tries)
    ensures var n := |calls| - 1;
            && Attempts(backlog, push, calls[..n]) && Attempted(push, calls[..n], tries[..n])
            && Received(peer, calls, tries) == Landed(Received(peer, calls[..n], tries[..n]), calls[n], tries[n])
            && Received(peer, calls[..n], tries[..n]).counter <= Received(peer, calls, tries).counter
  {
    hide Delivered, Landed;
    var n := |calls| - 1;
    forall k | 0 <= k < n
      ensures calls[..n][..k] == calls[..k]
    {
    }
    LandedGrows(Received(peer, calls[..n], tries[..n]), calls[n], tries[n]);
  }

  /** A path from `s` to an idle run, with `sent` rows acknowledged and saved and the receiver at `got`. */
  ghost predicate PathTo(t: Topology, s: State, run: nat, l: StoreId, key: Key, before: Store, sent: nat, got: Store,
                         steps: seq<Step>, s': State, cursor: int, now: Store) {
    && Goes(t, s, steps, s')
    && Pushing(before, key, t.filter(l), now, cursor, sent)
    && PushAt(t, s', run, l, key, cursor, Idle, now, got)
  }

  lemma NextCall(t: Topology, s: State, run: nat, l: StoreId, key: Key, before: Store, sent: nat, got: Store,
                 steps: seq<Step>, s': State, cursor: int, now: Store, es: seq<Entry>, tries: seq<bool>, acked: bool)
    returns (steps1: seq<Step>, s1: State, cursor1: int, now1: Store)
    requires PathTo(t, s, run, l, key, before, sent, got, steps, s', cursor, now)
    requires es != [] && sent + |es| <= |Backlog(before, key, t.filter(l))|
    requires es == EntriesOf(Backlog(before, key, t.filter(l)))[sent..sent + |es|]
    requires Landed(got, es, tries).counter <= I64_MAX
    requires acked ==> tries != [] && tries[|tries| - 1]
    ensures PathTo(t, s, run, l, key, before, if acked then sent + |es| else sent, Landed(got, es, tries),
                   steps1, s1, cursor1, now1)
  {
    hide PushAt, Next, Valid, Serve, Pushing, Backlog, Goes, Ingest, Landed;
    var next := CallIsServed(before, key, t.filter(l), now, cursor, sent, es);
    steps1, s1 := OneCall(t, s, steps, s', run, l, key, cursor, now, got, es, next, tries, acked, true);
    cursor1 := if acked then next else cursor;
    now1 := if acked then now.(pushCursors := now.pushCursors[key := next]) else now;
  }

  lemma PathStarts(t: Topology, s: State, run: nat, l: StoreId, key: Key, before: Store, peer: Store)
    requires PushAt(t, s, run, l, key, CursorIn(before.pushCursors, key), Idle, before, peer) && Valid(before)
    ensures PathTo(t, s, run, l, key, before, 0, peer, [], s, CursorIn(before.pushCursors, key), before)
  {
    hide PushAt, Pushing;
    PushStarts(before, key, t.filter(l));
  }

  /** Calls all of whose acknowledgements were saved. */
  lemma {:induction false} CallsArePath(t: Topology, s: State, run: nat, l: StoreId, key: Key, before: Store,
                                        peer: Store, push: Receiver, calls: seq<seq<Entry>>, tries: seq<seq<bool>>)
    returns (steps: seq<Step>, s': State, cursor: int, now: Store)
    requires PushAt(t, s, run, l, key, CursorIn(before.pushCursors, key), Idle, before, peer) && Valid(before)
    requires Attempts(EntriesOf(Backlog(before, key, t.filter(l))), push, calls) && Attempted(push, calls, tries)
    requires Received(peer, calls, tries).counter <= I64_MAX
    ensures PathTo(t, s, run, l, key, before, |Delivered(push, calls)|, Received(peer, calls, tries),
                   steps, s', cursor, now)
    decreases |calls|
  {
    hide PathTo, PushAt, Backlog, Valid, Landed, Ingest;
    if calls == [] {
      steps, s', cursor, now := [], s, CursorIn(before.pushCursors, key), before;
      PathStarts(t, s, run, l, key, before, peer);
    } else {
      hide Delivered, Received;
      var n := |calls| - 1;
      var es, acked := calls[n], push(n, calls[n]).Acknowledged?;
      DeliveredLast(push, calls);
      CallsPrefix(EntriesOf(Backlog(before, key, t.filter(l))), push, calls, tries, peer);
      steps, s', cursor, now := CallsArePath(t, s, run, l, key, before, peer, push, calls[..n], tries[..n]);
      steps, s', cursor, now :=
        NextCall(t, s, run, l, key, before, |Delivered(push, calls[..n])|, Received(peer, calls[..n], tries[..n]),
                 steps, s', cursor, now, es, tries[n], acked);
    }
  }

  /**
   Refinement: from any state in which a push run has just begun, what the push loop sent, saved
   and got acknowledged is a path of the protocol, for every number of attempts of each call and
   whichever of them arrived; and it ends with the two databases the loop ends with. Included are a
   last batch acknowledged but not saved, batches stored although their acknowledgement was lost,
   batches stored again by a retry, and a store that pushes to itself. The receiver is taken to
   store only batches it has room for.
   */
  lemma PushLoopIsPath(t: Topology, s: State, run: nat, l: StoreId, key: Key, before: Store, peer: Store,
                       push: Receiver, calls: seq<seq<Entry>>, sent: nat, saved: nat, tries: seq<seq<bool>>)
    returns (steps: seq<Step>, s': State, cursor: int, phase: PushPhase)
    requires PushAt(t, s, run, l, key, CursorIn(before.pushCursors, key), Idle, before, peer) && Valid(before)
    requires Sent(before, key, t.filter(l), push, calls, sent) && saved <= sent
    requires saved == sent || (calls != [] && saved == |Delivered(push, calls[..|calls| - 1])|)
    requires Attempted(push, calls, tries) && Received(peer, calls, tries).counter <= I64_MAX
    ensures Goes(t, s, steps, s')
    ensures PushAt(t, s', run, l, key, cursor, phase, PushedPrefix(before, key, t.filter(l), saved),
                   Received(peer, calls, tries))
  {
    hide PushAt, Next, Valid, Serve, Goes, Ingest, Landed, Received, Delivered, Backlog, PushedPrefix;
    var now;
    if saved == sent {
      steps, s', cursor, now := CallsArePath(t, s, run, l, key, before, peer, push, calls, tries);
      phase := Idle;
    } else {
      var n := |calls| - 1;
      DeliveredLast(push, calls);
      CallsPrefix(EntriesOf(Backlog(before, key, t.filter(l))), push, calls, tries, peer);
      steps, s', cursor, now := CallsArePath(t, s, run, l, key, before, peer, push, calls[..n], tries[..n]);
      var next := CallIsServed(before, key, t.filter(l), now, cursor, saved, calls[n]);
      steps, s' := OneCall(t, s, steps, s', run, l, key, cursor, now, Received(peer, calls[..n], tries[..n]),
                           calls[n], next, tries[n], true, false);
      phase := Acked(next);
    }
  }

  // ---------- What the receiver ends with ----------

  /** The calls that arrived at all. */
  function Arrivals(calls: seq<seq<Entry>>, tries: seq<seq<bool>>): seq<Entry>
    requires |tries| == |calls|
  {
    if calls == [] then [] else
      var n := |calls| - 1;
      Arrivals(calls[..n], tries[..n]) + (if true in tries[n] then calls[n] else [])
  }

  /** The same entries in the same order; and the same store unless ignored inserts use up numbers. */
  ghost predicate SameHistory(a: Store, b: Store) {
    && WellFormed(a) && WellFormed(b) && a.burns == b.burns
    && EntriesOf(a.rows) == EntriesOf(b.rows)
    && (!a.burns ==> a == b)
  }

  /** Arriving again adds nothing. */
  lemma {:induction false} LandedExact(peer: Store, es: seq<Entry>, tries: seq<bool>)
    requires WellFormed(peer)
    ensures SameHistory(Landed(peer, es, tries), if true in tries then Ingest(peer, es) else peer)
    ensures true in tries ==> EntryIds(es) <= Ids(Landed(peer, es, tries).rows)
  {
    hide Ids, EntryIds, WellFormed, Ingest;
    IngestExact(peer, es);
    if tries != [] {
      var n := |tries| - 1;
      var before := Landed(peer, es, tries[..n]);
      LandedExact(peer, es, tries[..n]);
      assert tries == tries[..n] + [tries[n]];
      assert true in tries <==> true in tries[..n] || tries[n];
      IngestExact(before, es);
      if tries[n] && true in tries[..n] {
        IngestKnownExact(before, es);
      } else if tries[n] {
        SameIngest(before, peer, es);
      }
    }
  }

  /** Equal histories stay equal under the same insert. */
  lemma SameIngest(a: Store, b: Store, es: seq<Entry>)
    requires SameHistory(a, b)
    ensures SameHistory(Ingest(a, es), Ingest(b, es))
  {
    hide Ids, EntryIds, WellFormed, Ingest, Accepted, EntriesOf;
    IngestExact(a, es);
    IngestExact(b, es);
    IngestEntries(a, es);
    IngestEntries(b, es);
    RowsOfEntries(a.rows);
    RowsOfEntries(b.rows);
  }

  lemma SameHistoryChain(a: Store, b: Store, c: Store)
    requires SameHistory(a, b) && SameHistory(b, c)
    ensures SameHistory(a, c)
  {
  }

  /** However often each call arrived, the receiver ends as if every call that arrived had arrived once. */
  lemma {:induction false} ReceivedIsArrivals(peer: Store, calls: seq<seq<Entry>>, tries: seq<seq<bool>>)
    requires WellFormed(peer) && |tries| == |calls|
    ensures SameHistory(Received(peer, calls, tries), Ingest(peer, Arrivals(calls, tries)))
    decreases |calls|
  {
    hide WellFormed, Landed, SameHistory;
    if calls == [] {
      assert SameHistory(peer, peer) by {
        SameAsItself(peer);
      }
    } else {
      hide Ingest;
      var n := |calls| - 1;
      var got, had := Received(peer, calls[..n], tries[..n]), Ingest(peer, Arrivals(calls[..n], tries[..n]));
      ReceivedIsArrivals(peer, calls[..n], tries[..n]);
      HistoryWellFormed(got, had);
      LandedExact(got, calls[n], tries[n]);
      if true in tries[n] {
        SameIngest(got, had, calls[n]);
        SameHistoryChain(Received(peer, calls, tries), Ingest(got, calls[n]), Ingest(had, calls[n]));
        IngestAppend(peer, Arrivals(calls[..n], tries[..n]), calls[n]);
      } else {
        SameHistoryChain(Received(peer, calls, tries), got, had);
        assert Arrivals(calls, tries) == Arrivals(calls[..n], tries[..n]);
      }
    }
  }

  lemma SameAsItself(a: Store)
    requires WellFormed(a)
    ensures SameHistory(a, a)
  {
  }

  lemma HistoryWellFormed(a: Store, b: Store)
    requires SameHistory(a, b)
    ensures WellFormed(a) && WellFormed(b)
  {
  }

  /** What a lost acknowledgement of the last call leaves at the receiver beyond the acknowledged calls. */
  function Leftover(calls: seq<seq<Entry>>, lostAck: bool): seq<Entry> {
    if lostAck && calls != [] then calls[|calls| - 1] else []
  }

  /** A call arrived if it was acknowledged, or if it was the last and only its acknowledgement was lost. */
  ghost predicate OnlyLastLost(push: Receiver, calls: seq<seq<Entry>>, tries: seq<seq<bool>>, lostAck: bool) {
    && Attempted(push, calls, tries)
    && (lostAck ==> calls != [] && !push(|calls| - 1, calls[|calls| - 1]).Acknowledged?)
    && forall k :: 0 <= k < |calls| && !push(k, calls[k]).Acknowledged? ==>
         (true in tries[k] <==> lostAck && k == |calls| - 1)
  }

  lemma {:induction false} ArrivalsExact(push: Receiver, calls: seq<seq<Entry>>, tries: seq<seq<bool>>, lostAck: bool)
    requires OnlyLastLost(push, calls, tries, lostAck)
    ensures Arrivals(calls, tries) == Delivered(push, calls) + Leftover(calls, lostAck)
    decreases |calls|
  {
    if calls != [] {
      var n := |calls| - 1;
      assert tries[n] != [] ==> tries[n][|tries[n]| - 1] in tries[n];
      ArrivalsExact(push, calls[..n], tries[..n], false);
    }
  }

  lemma LeftoverStretch(all: seq<Entry>, push: Receiver, calls: seq<seq<Entry>>, sent: nat, lostAck: bool)
    requires Attempts(all, push, calls) && sent <= |all| && Delivered(push, calls) == all[..sent]
    requires lostAck ==> calls != [] && !push(|calls| - 1, calls[|calls| - 1]).Acknowledged?
    ensures sent + |Leftover(calls, lostAck)| <= |all|
    ensures Delivered(push, calls) + Leftover(calls, lostAck) == all[..sent + |Leftover(calls, lostAck)|]
  {
    hide Delivered;
    if lostAck {
      var n := |calls| - 1;
      DeliveredLast(push, calls);
      assert |Delivered(push, calls[..n])| == sent;
      assert calls[n] == all[sent..sent + |calls[n]|];
    }
  }

  /**
   So after a run the receiver holds what it held and the first `sent` rows of the backlog, plus the
   last batch if only its acknowledgement was lost, as one insert would have left it.
   */
  lemma ReceivedExact(before: Store, key: Key, device: Option<Device>, peer: Store, push: Receiver,
                      calls: seq<seq<Entry>>, sent: nat, tries: seq<seq<bool>>, lostAck: bool)
    requires WellFormed(peer) && Sent(before, key, device, push, calls, sent)
    requires OnlyLastLost(push, calls, tries, lostAck)
    ensures var all, extra := EntriesOf(Backlog(before, key, device)), |Leftover(calls, lostAck)|;
            && sent + extra <= |all|
            && SameHistory(Received(peer, calls, tries), Ingest(peer, all[..sent + extra]))
  {
    hide SameHistory, Ingest, Received, Arrivals, Delivered, Attempts, Backlog, WellFormed, Leftover, EntriesOf;
    ArrivalsExact(push, calls, tries, lostAck);
    ReceivedIsArrivals(peer, calls, tries);
    LeftoverStretch(EntriesOf(Backlog(before, key, device)), push, calls, sent, lostAck);
  }
}
