/**
 The replication protocol as a transition system over any number of stores. Every step is one
 atomic action of one process: recording, serving a pull, storing a batch, moving a cursor,
 sending, delivering or acknowledging a push, copying a legacy cursor, pruning, or dying. Runs of
 the same store interleave freely and overwrite each other's cursors; requests may be delivered
 late, more than once or never, and acknowledgements may be lost.
 */
module Replication {
  import opened Prelude
  import opened StoreModel
  import Prune
  import opened SyncPull

  type StoreId = nat

  /** `owner(k)` is the one store a cursor key names; `filter(l)` is the push filter of store `l`. */
  datatype Topology = Topology(owner: Key -> StoreId, filter: StoreId -> Option<Device>)

  datatype PullRun = PullRun(local: StoreId, key: Key, cursor: int, phase: Phase)

  datatype PushPhase = Idle | Waiting(req: nat, entries: seq<Entry>, next: int) | Acked(next: int)

  datatype PushRun = PushRun(local: StoreId, key: Key, cursor: int, phase: PushPhase)

  /** A legacy cursor value read from one key and about to be written under another. */
  datatype Copy = Copy(local: StoreId, to: Key, value: int, ofPush: bool)

  datatype Msg = Msg(dst: StoreId, entries: seq<Entry>)

  /** `held[l]` is the set of all entry ids store `l` has had so far. */
  datatype State = State(
    stores: map<StoreId, Store>, held: map<StoreId, set<EntryId>>,
    pulls: map<nat, PullRun>, pushes: map<nat, PushRun>, copies: map<nat, Copy>,
    net: map<nat, Msg>, acks: set<nat>)

  datatype PullStep = BeginPull(l: StoreId, key: Key) | FetchPage(limit: U64) | StorePage | SavePage | EndPull

  datatype PushStep =
    | BeginPush(l: StoreId, key: Key)
    | Send(req: nat, limit: U64)
    | Resend(req: nat)
    | TakeAck
    | Shrink
    | SaveAck
    | EndPush

  datatype CopyStep = ReadLegacy(l: StoreId, fromKey: Key, toKey: Key, ofPush: bool) | WriteCopy | EndCopy

  /**
   `EndPull`, `EndPush` and `EndCopy` are a normal end, an error exit or a crash, at any point of the
   run. `PruneStore` is the delete of a prune; its two floors were read earlier, and by now may be stale.
   */
  datatype Step =
    | Record(l: StoreId, entries: seq<Entry>)
    | OnPull(run: nat, pull: PullStep)
    | OnPush(run: nat, push: PushStep)
    | Deliver(req: nat)
    | OnCopy(run: nat, copy: CopyStep)
    | PruneStore(l: StoreId, cutoff: int, keepFloor: Option<int>, pushedFloor: Option<int>)

  /** The parts of the state refer to stores that exist, and every store is a valid database. */
  ghost predicate Shape(t: Topology, s: State) {
    && s.held.Keys == s.stores.Keys
    && (forall l :: l in s.stores ==> Valid(s.stores[l]))
    && (forall run :: run in s.pulls ==> s.pulls[run].local in s.stores && t.owner(s.pulls[run].key) in s.stores)
    && (forall run :: run in s.pushes ==> s.pushes[run].local in s.stores && t.owner(s.pushes[run].key) in s.stores)
    && (forall run :: run in s.copies ==> s.copies[run].local in s.stores && t.owner(s.copies[run].to) in s.stores)
    && (forall req :: req in s.net ==> s.net[req].dst in s.stores)
  }

  // ---------- Which steps can happen, and what they do ----------

  function Insert(s: State, l: StoreId, es: seq<Entry>): State
    requires l in s.stores && l in s.held
  {
    var st := Ingest(s.stores[l], es);
    s.(stores := s.stores[l := st], held := s.held[l := s.held[l] + Ids(st.rows)])
  }

  function Table(st: Store, ofPush: bool): map<Key, int> {
    if ofPush then st.pushCursors else st.pullCursors
  }

  function SetCursor(s: State, l: StoreId, ofPush: bool, key: Key, value: int): State
    requires l in s.stores
  {
    var st := s.stores[l];
    s.(stores := s.stores[l := if ofPush then st.(pushCursors := st.pushCursors[key := value])
                               else st.(pullCursors := st.pullCursors[key := value])])
  }

  predicate PullEnabled(t: Topology, s: State, run: nat, step: PullStep) {
    match step
    case BeginPull(l, key) => l in s.stores && t.owner(key) in s.stores
    case FetchPage(limit) => run in s.pulls && s.pulls[run].phase.Ready?
    case StorePage =>
      && run in s.pulls && s.pulls[run].phase.Fetched?
      && s.pulls[run].phase.batch.entries != []
      && s.pulls[run].local in s.stores && Fits(s.stores[s.pulls[run].local], s.pulls[run].phase.batch.entries)
    case SavePage =>
      && run in s.pulls && s.pulls[run].phase.Stored?
      && s.pulls[run].phase.batch.nextCursor.Some?
      && s.pulls[run].cursor < s.pulls[run].phase.batch.nextCursor.value
    case EndPull => run in s.pulls
  }

  function ApplyPull(t: Topology, s: State, run: nat, step: PullStep): State
    requires Shape(t, s) && PullEnabled(t, s, run, step)
  {
    match step
    case BeginPull(l, key) =>
      s.(pulls := s.pulls[run := PullRun(l, key, CursorIn(s.stores[l].pullCursors, key), Ready)])
    case FetchPage(limit) =>
      var p := s.pulls[run];
      s.(pulls := s.pulls[run := p.(phase := Fetched(Serve(s.stores[t.owner(p.key)], p.cursor, limit, None)))])
    case StorePage =>
      var p := s.pulls[run];
      Insert(s, p.local, p.phase.batch.entries).(pulls := s.pulls[run := p.(phase := Stored(p.phase.batch))])
    case SavePage =>
      var p := s.pulls[run];
      var next := p.phase.batch.nextCursor.value;
      SetCursor(s, p.local, false, p.key, next).(pulls := s.pulls[run := p.(cursor := next, phase := Ready)])
    case EndPull => s.(pulls := s.pulls - {run})
  }

  predicate PushEnabled(t: Topology, s: State, run: nat, step: PushStep) {
    match step
    case BeginPush(l, key) => l in s.stores && t.owner(key) in s.stores
    case Send(req, limit) =>
      && run in s.pushes && s.pushes[run].phase.Idle? && req !in s.net
      && s.pushes[run].local in s.stores && Valid(s.stores[s.pushes[run].local])
      && var p := s.pushes[run];
         Serve(s.stores[p.local], p.cursor, limit, t.filter(p.local)).nextCursor.Some?
    case Resend(req) => run in s.pushes && s.pushes[run].phase.Waiting? && req !in s.net
    case TakeAck => run in s.pushes && s.pushes[run].phase.Waiting? && s.pushes[run].phase.req in s.acks
    case Shrink => run in s.pushes && s.pushes[run].phase.Waiting?
    case SaveAck => run in s.pushes && s.pushes[run].phase.Acked?
    case EndPush => run in s.pushes
  }

  function ApplyPush(t: Topology, s: State, run: nat, step: PushStep): State
    requires Shape(t, s) && PushEnabled(t, s, run, step)
  {
    match step
    case BeginPush(l, key) =>
      s.(pushes := s.pushes[run := PushRun(l, key, CursorIn(s.stores[l].pushCursors, key), Idle)])
    case Send(req, limit) =>
      var p := s.pushes[run];
      var b := Serve(s.stores[p.local], p.cursor, limit, t.filter(p.local));
      s.(pushes := s.pushes[run := p.(phase := Waiting(req, b.entries, b.nextCursor.value))],
         net := s.net[req := Msg(t.owner(p.key), b.entries)])
    case Resend(req) =>
      var p := s.pushes[run];
      s.(pushes := s.pushes[run := p.(phase := p.phase.(req := req))],
         net := s.net[req := Msg(t.owner(p.key), p.phase.entries)])
    case TakeAck =>
      var p := s.pushes[run];
      s.(pushes := s.pushes[run := p.(phase := Acked(p.phase.next))])
    case Shrink => s.(pushes := s.pushes[run := s.pushes[run].(phase := Idle)])
    case SaveAck =>
      var p := s.pushes[run];
      SetCursor(s, p.local, true, p.key, p.phase.next).(
        pushes := s.pushes[run := p.(cursor := p.phase.next, phase := Idle)])
    case EndPush => s.(pushes := s.pushes - {run})
  }

  predicate CopyEnabled(t: Topology, s: State, run: nat, step: CopyStep) {
    match step
    case ReadLegacy(l, fromKey, toKey, ofPush) =>
      && l in s.stores && t.owner(fromKey) == t.owner(toKey) && t.owner(toKey) in s.stores
      && fromKey in Table(s.stores[l], ofPush) && toKey !in Table(s.stores[l], ofPush)
    case WriteCopy => run in s.copies
    case EndCopy => run in s.copies
  }

  function ApplyCopy(t: Topology, s: State, run: nat, step: CopyStep): State
    requires Shape(t, s) && CopyEnabled(t, s, run, step)
  {
    match step
    case ReadLegacy(l, fromKey, toKey, ofPush) =>
      s.(copies := s.copies[run := Copy(l, toKey, Table(s.stores[l], ofPush)[fromKey], ofPush)])
    case WriteCopy =>
      var c := s.copies[run];
      SetCursor(s, c.local, c.ofPush, c.to, c.value).(copies := s.copies - {run})
    case EndCopy => s.(copies := s.copies - {run})
  }

  ghost predicate Enabled(t: Topology, s: State, step: Step) {
    match step
    case Record(l, es) => l in s.stores && Fits(s.stores[l], es)
    case OnPull(run, p) => PullEnabled(t, s, run, p)
    case OnPush(run, p) => PushEnabled(t, s, run, p)
    case Deliver(req) =>
      req in s.net && s.net[req].dst in s.stores && Fits(s.stores[s.net[req].dst], s.net[req].entries)
    case OnCopy(run, c) => CopyEnabled(t, s, run, c)
    case PruneStore(l, cutoff, keepFloor, pushedFloor) => l in s.stores
  }

  ghost function Apply(t: Topology, s: State, step: Step): State
    requires Shape(t, s) && Enabled(t, s, step)
  {
    match step
    case Record(l, es) => Insert(s, l, es)
    case OnPull(run, p) => ApplyPull(t, s, run, p)
    case OnPush(run, p) => ApplyPush(t, s, run, p)
    case Deliver(req) => Insert(s, s.net[req].dst, s.net[req].entries).(acks := s.acks + {req})
    case OnCopy(run, c) => ApplyCopy(t, s, run, c)
    case PruneStore(l, cutoff, keepFloor, pushedFloor) =>
      s.(stores := s.stores[l := s.stores[l].(rows := Survivors(s.stores[l].rows, cutoff, keepFloor, pushedFloor))])
  }

  // ---------- The invariant ----------

  /**
   Everything `src` still has up to number `c` that passes the filter, `dst` has had at some time
   or is in `extra`; and `c` is a number `src` has handed out.
   */
  ghost predicate Covers(s: State, src: StoreId, dst: StoreId, filter: Option<Device>, c: int, extra: set<EntryId>) {
    && src in s.stores && dst in s.held
    && c <= s.stores[src].counter
    && forall r :: r in s.stores[src].rows && r.ingestSeq <= c && OfDevice(r, filter)
          ==> r.entry.id in s.held[dst] || r.entry.id in extra
  }

  ghost predicate PullOk(t: Topology, s: State, p: PullRun) {
    var src := t.owner(p.key);
    && Covers(s, src, p.local, None, p.cursor, {})
    && match p.phase
       case Ready => true
       case Fetched(b) =>
         b.entries != [] ==>
           b.nextCursor.Some? && Covers(s, src, p.local, None, b.nextCursor.value, EntryIds(b.entries))
       case Stored(b) => b.nextCursor.Some? ==> Covers(s, src, p.local, None, b.nextCursor.value, {})
  }

  ghost predicate PushOk(t: Topology, s: State, p: PushRun) {
    var dst := t.owner(p.key);
    && Covers(s, p.local, dst, t.filter(p.local), p.cursor, {})
    && match p.phase
       case Idle => true
       case Waiting(req, entries, next) =>
         && req in s.net && s.net[req] == Msg(dst, entries)
         && Covers(s, p.local, dst, t.filter(p.local), next, EntryIds(entries))
       case Acked(next) => Covers(s, p.local, dst, t.filter(p.local), next, {})
  }

  /** What a cursor value may be written under a key of store `l`'s pull or push table. */
  ghost predicate CursorOk(t: Topology, s: State, l: StoreId, key: Key, value: int, ofPush: bool) {
    if ofPush then Covers(s, l, t.owner(key), t.filter(l), value, {})
    else Covers(s, t.owner(key), l, None, value, {})
  }

  ghost predicate CopyOk(t: Topology, s: State, c: Copy) {
    CursorOk(t, s, c.local, c.to, c.value, c.ofPush)
  }

  ghost predicate StoreOk(t: Topology, s: State, l: StoreId)
    requires l in s.stores && l in s.held
  {
    && Ids(s.stores[l].rows) <= s.held[l]
    && (forall k :: k in s.stores[l].pullCursors ==> CursorOk(t, s, l, k, s.stores[l].pullCursors[k], false))
    && (forall k :: k in s.stores[l].pushCursors ==> CursorOk(t, s, l, k, s.stores[l].pushCursors[k], true))
  }

  ghost predicate AckOk(s: State, req: nat) {
    && req in s.net && s.net[req].dst in s.held
    && EntryIds(s.net[req].entries) <= s.held[s.net[req].dst]
  }

  ghost predicate Inv(t: Topology, s: State) {
    && Shape(t, s)
    && (forall l :: l in s.stores ==> StoreOk(t, s, l))
    && (forall run :: run in s.pulls ==> PullOk(t, s, s.pulls[run]))
    && (forall run :: run in s.pushes ==> PushOk(t, s, s.pushes[run]))
    && (forall run :: run in s.copies ==> CopyOk(t, s, s.copies[run]))
    && (forall req :: req in s.acks ==> AckOk(s, req))
  }

  /** How a step may change the stores: numbers are never reused and nothing held is forgotten. */
  ghost predicate Evolves(s: State, s': State) {
    && s'.stores.Keys == s.stores.Keys && s'.held.Keys == s.held.Keys
    && (forall l :: l in s.stores ==>
          && s.stores[l].counter <= s'.stores[l].counter
          && (forall r :: r in s'.stores[l].rows && r.ingestSeq <= s.stores[l].counter ==> r in s.stores[l].rows))
    && (forall l :: l in s.held ==> s.held[l] <= s'.held[l])
    && (forall req :: req in s.net ==> req in s'.net && s'.net[req] == s.net[req])
  }

  lemma CoversGrows(s: State, s': State, src: StoreId, dst: StoreId, filter: Option<Device>, c: int,
                    extra: set<EntryId>)
    requires Evolves(s, s') && Covers(s, src, dst, filter, c, extra)
    ensures Covers(s', src, dst, filter, c, extra)
  {
  }

  lemma PullOkGrows(t: Topology, s: State, s': State, p: PullRun)
    requires Evolves(s, s') && PullOk(t, s, p)
    ensures PullOk(t, s', p)
  {
    hide Covers, Evolves;
    var src := t.owner(p.key);
    CoversGrows(s, s', src, p.local, None, p.cursor, {});
    if p.phase.Fetched? && p.phase.batch.entries != [] {
      CoversGrows(s, s', src, p.local, None, p.phase.batch.nextCursor.value, EntryIds(p.phase.batch.entries));
    }
    if p.phase.Stored? && p.phase.batch.nextCursor.Some? {
      CoversGrows(s, s', src, p.local, None, p.phase.batch.nextCursor.value, {});
    }
  }

  lemma PushOkGrows(t: Topology, s: State, s': State, p: PushRun)
    requires Evolves(s, s') && PushOk(t, s, p)
    ensures PushOk(t, s', p)
  {
    hide Covers;
    var dst := t.owner(p.key);
    CoversGrows(s, s', p.local, dst, t.filter(p.local), p.cursor, {});
    match p.phase
    case Idle =>
    case Waiting(req, entries, next) => CoversGrows(s, s', p.local, dst, t.filter(p.local), next, EntryIds(entries));
    case Acked(next) => CoversGrows(s, s', p.local, dst, t.filter(p.local), next, {});
  }

  lemma CursorOkGrows(t: Topology, s: State, s': State, l: StoreId, key: Key, value: int, ofPush: bool)
    requires Evolves(s, s') && CursorOk(t, s, l, key, value, ofPush)
    ensures CursorOk(t, s', l, key, value, ofPush)
  {
    if ofPush {
      CoversGrows(s, s', l, t.owner(key), t.filter(l), value, {});
    } else {
      CoversGrows(s, s', t.owner(key), l, None, value, {});
    }
  }

  /** A cursor value read from a table, or 0 if there is none, is as good as the table. */
  lemma StoredCursorOk(t: Topology, s: State, l: StoreId, key: Key, ofPush: bool)
    requires Inv(t, s) && l in s.stores && t.owner(key) in s.stores
    ensures CursorOk(t, s, l, key, CursorIn(Table(s.stores[l], ofPush), key), ofPush)
  {
    assert StoreOk(t, s, l);
    var src := if ofPush then l else t.owner(key);
    assert Valid(s.stores[src]);
  }

  // What is left to show for a step: every cursor, run, copy and acknowledgement is either one
  // that was there before or sound in the new state.

  ghost predicate StoreKept(t: Topology, s: State, s': State, l: StoreId)
    requires l in s.stores && l in s'.stores && l in s'.held
  {
    && Ids(s'.stores[l].rows) <= s'.held[l]
    && forall k, ofPush :: k in Table(s'.stores[l], ofPush) ==>
         || (k in Table(s.stores[l], ofPush) && Table(s'.stores[l], ofPush)[k] == Table(s.stores[l], ofPush)[k])
         || CursorOk(t, s', l, k, Table(s'.stores[l], ofPush)[k], ofPush)
  }

  ghost predicate StoresKept(t: Topology, s: State, s': State) {
    && s'.stores.Keys == s.stores.Keys == s'.held.Keys == s.held.Keys
    && forall l :: l in s'.stores ==> StoreKept(t, s, s', l)
  }

  ghost predicate PullsKept(t: Topology, s: State, s': State) {
    forall run :: run in s'.pulls ==> (run in s.pulls && s'.pulls[run] == s.pulls[run]) || PullOk(t, s', s'.pulls[run])
  }

  ghost predicate PushesKept(t: Topology, s: State, s': State) {
    forall run :: run in s'.pushes ==>
      (run in s.pushes && s'.pushes[run] == s.pushes[run]) || PushOk(t, s', s'.pushes[run])
  }

  ghost predicate CopiesKept(t: Topology, s: State, s': State) {
    forall run :: run in s'.copies ==>
      (run in s.copies && s'.copies[run] == s.copies[run]) || CopyOk(t, s', s'.copies[run])
  }

  ghost predicate AcksKept(s: State, s': State) {
    forall req :: req in s'.acks ==> req in s.acks || AckOk(s', req)
  }

  lemma StoreOkKept(t: Topology, s: State, s': State, l: StoreId)
    requires Evolves(s, s') && l in s.stores && l in s.held && StoreOk(t, s, l) && StoreKept(t, s, s', l)
    ensures StoreOk(t, s', l)
  {
    hide CursorOk;
    forall k, ofPush | k in Table(s'.stores[l], ofPush)
      ensures CursorOk(t, s', l, k, Table(s'.stores[l], ofPush)[k], ofPush)
    {
      if k in Table(s.stores[l], ofPush) && Table(s'.stores[l], ofPush)[k] == Table(s.stores[l], ofPush)[k] {
        CursorOkGrows(t, s, s', l, k, Table(s.stores[l], ofPush)[k], ofPush);
      }
    }
    forall k | k in s'.stores[l].pullCursors
      ensures CursorOk(t, s', l, k, s'.stores[l].pullCursors[k], false)
    {
      assert k in Table(s'.stores[l], false);
    }
    forall k | k in s'.stores[l].pushCursors
      ensures CursorOk(t, s', l, k, s'.stores[l].pushCursors[k], true)
    {
      assert k in Table(s'.stores[l], true);
    }
  }

  lemma InvKept(t: Topology, s: State, s': State)
    requires Inv(t, s) && Shape(t, s') && Evolves(s, s')
    requires StoresKept(t, s, s') && PullsKept(t, s, s') && PushesKept(t, s, s')
    requires CopiesKept(t, s, s') && AcksKept(s, s')
    ensures Inv(t, s')
  {
    hide PullOk, PushOk, CopyOk, StoreOk, StoreKept, Evolves, Shape;
    forall l | l in s'.stores ensures l in s'.held && StoreOk(t, s', l) {
      assert l in s.stores && l in s.held;
      StoreOkKept(t, s, s', l);
    }
    forall run | run in s'.pulls ensures PullOk(t, s', s'.pulls[run]) {
      if run in s.pulls && s'.pulls[run] == s.pulls[run] {
        PullOkGrows(t, s, s', s.pulls[run]);
      }
    }
    forall run | run in s'.pushes ensures PushOk(t, s', s'.pushes[run]) {
      if run in s.pushes && s'.pushes[run] == s.pushes[run] {
        PushOkGrows(t, s, s', s.pushes[run]);
      }
    }
    forall run | run in s'.copies ensures CopyOk(t, s', s'.copies[run]) {
      if run in s.copies && s'.copies[run] == s.copies[run] {
        CopyOkGrows(t, s, s', s.copies[run]);
      }
    }
    forall req | req in s'.acks ensures AckOk(s', req) {
      if req in s.acks {
        AckOkGrows(s, s', req);
      }
    }
  }

  lemma CopyOkGrows(t: Topology, s: State, s': State, c: Copy)
    requires Evolves(s, s') && CopyOk(t, s, c)
    ensures CopyOk(t, s', c)
  {
    CursorOkGrows(t, s, s', c.local, c.to, c.value, c.ofPush);
  }

  lemma AckOkGrows(s: State, s': State, req: nat)
    requires Evolves(s, s') && AckOk(s, req)
    ensures AckOk(s', req)
  {
  }

  // ---------- Each kind of step ----------

  /** Serving a page past a sound cursor leaves no hole up to the page's last number. */
  lemma PageCoversMore(s: State, src: StoreId, dst: StoreId, filter: Option<Device>, cursor: int, limit: U64,
                       b: PullBatch)
    requires Covers(s, src, dst, filter, cursor, {}) && Valid(s.stores[src])
    requires b == Serve(s.stores[src], cursor, limit, filter)
    ensures b.entries != [] <==> b.nextCursor.Some?
    ensures b.nextCursor.Some? ==> Covers(s, src, dst, filter, b.nextCursor.value, EntryIds(b.entries))
  {
    ServeNoGap(s.stores[src], cursor, limit, filter);
    if b.nextCursor.Some? {
      forall r | r in s.stores[src].rows && r.ingestSeq <= b.nextCursor.value && OfDevice(r, filter)
        ensures r.entry.id in s.held[dst] || r.entry.id in EntryIds(b.entries)
      {
        if r.ingestSeq > cursor {
          assert Selected(r, cursor, filter);
          assert r.entry in b.entries;
        }
      }
    }
  }

  lemma ExtraArrived(s: State, src: StoreId, dst: StoreId, filter: Option<Device>, c: int, extra: set<EntryId>)
    requires Covers(s, src, dst, filter, c, extra) && extra <= s.held[dst]
    ensures Covers(s, src, dst, filter, c, {})
  {
  }

  lemma SameStores(t: Topology, s: State, s': State)
    requires Inv(t, s) && s'.stores == s.stores && s'.held == s.held
    requires forall req :: req in s.net ==> req in s'.net && s'.net[req] == s.net[req]
    ensures Evolves(s, s') && StoresKept(t, s, s')
  {
    forall l | l in s'.stores ensures StoreKept(t, s, s', l) {
      assert StoreOk(t, s, l);
    }
  }

  /** One store gets new rows or loses old ones; its cursor tables stay. */
  lemma OneStoreEvolves(s: State, l: StoreId, st: Store, h: set<EntryId>, s': State)
    requires l in s.stores && l in s.held && s.held[l] <= h
    requires s'.stores == s.stores[l := st] && s'.held == s.held[l := h] && s'.net == s.net
    requires s.stores[l].counter <= st.counter
    requires forall r :: r in st.rows && r.ingestSeq <= s.stores[l].counter ==> r in s.stores[l].rows
    ensures Evolves(s, s')
  {
  }

  lemma OneStoreKept(t: Topology, s: State, l: StoreId, st: Store, h: set<EntryId>, s': State)
    requires Inv(t, s) && l in s.stores
    requires s'.stores == s.stores[l := st] && s'.held == s.held[l := h]
    requires Ids(st.rows) <= h
    requires st.pullCursors == s.stores[l].pullCursors && st.pushCursors == s.stores[l].pushCursors
    ensures StoresKept(t, s, s')
  {
    hide CursorOk, StoreOk, Valid, Ids;
    forall k | k in s'.stores ensures StoreKept(t, s, s', k) {
      StoreIdsHeld(t, s, k);
    }
  }

  lemma InsertKeeps(t: Topology, s: State, l: StoreId, es: seq<Entry>, s': State)
    requires Inv(t, s) && l in s.stores && Fits(s.stores[l], es)
    requires s'.stores == Insert(s, l, es).stores && s'.held == Insert(s, l, es).held && s'.net == s.net
    ensures Evolves(s, s') && StoresKept(t, s, s')
    ensures forall k :: k in s'.stores ==> Valid(s'.stores[k])
    ensures EntryIds(es) <= s'.held[l]
  {
    hide StoreOk, StoreKept, StoresKept, Evolves, WellFormed, Extends, PullOk, PushOk, CopyOk, AckOk;
    var st := Ingest(s.stores[l], es);
    var h := s.held[l] + Ids(st.rows);
    IngestExact(s.stores[l], es);
    IngestRows(s.stores[l], es);
    OneStoreEvolves(s, l, st, h, s');
    OneStoreKept(t, s, l, st, h, s');
  }

  lemma StoreIdsHeld(t: Topology, s: State, l: StoreId)
    requires Inv(t, s) && l in s.stores
    ensures l in s.held && Ids(s.stores[l].rows) <= s.held[l]
  {
    assert StoreOk(t, s, l);
  }

  lemma IngestRows(st: Store, es: seq<Entry>)
    requires WellFormed(st)
    ensures WellFormed(Ingest(st, es))
    ensures forall r :: r in Ingest(st, es).rows && r.ingestSeq <= st.counter ==> r in st.rows
    ensures Ingest(st, es) == st.(rows := Ingest(st, es).rows, counter := Ingest(st, es).counter)
  {
    IngestExact(st, es);
    forall r | r in Ingest(st, es).rows && r.ingestSeq <= st.counter ensures r in st.rows {
      var i :| 0 <= i < |Ingest(st, es).rows| && Ingest(st, es).rows[i] == r;
      assert st.rows[i] == r;
    }
  }

  lemma SetCursorEvolves(t: Topology, s: State, l: StoreId, ofPush: bool, key: Key, value: int, s': State)
    requires Shape(t, s) && l in s.stores
    requires s'.stores == SetCursor(s, l, ofPush, key, value).stores && s'.held == s.held && s'.net == s.net
    ensures Evolves(s, s')
    ensures forall k :: k in s'.stores ==> Valid(s'.stores[k])
  {
  }

  lemma SetCursorKeeps(t: Topology, s: State, l: StoreId, ofPush: bool, key: Key, value: int, s': State)
    requires Inv(t, s) && l in s.stores && CursorOk(t, s, l, key, value, ofPush)
    requires s'.stores == SetCursor(s, l, ofPush, key, value).stores && s'.held == s.held && s'.net == s.net
    ensures Evolves(s, s') && StoresKept(t, s, s')
    ensures forall k :: k in s'.stores ==> Valid(s'.stores[k])
  {
    hide CursorOk, StoreOk, Evolves, Valid, Ids;
    SetCursorEvolves(t, s, l, ofPush, key, value, s');
    CursorOkGrows(t, s, s', l, key, value, ofPush);
    forall k | k in s'.stores ensures StoreKept(t, s, s', k) {
      StoreIdsHeld(t, s, k);
    }
  }

  lemma PruneKeeps(t: Topology, s: State, l: StoreId, cutoff: int, keepFloor: Option<int>,
                   pushedFloor: Option<int>, s': State)
    requires Inv(t, s) && l in s.stores
    requires var left := s.stores[l].(rows := Survivors(s.stores[l].rows, cutoff, keepFloor, pushedFloor));
             s'.stores == s.stores[l := left] && s'.held == s.held && s'.net == s.net
    ensures Evolves(s, s') && StoresKept(t, s, s')
    ensures forall k :: k in s'.stores ==> Valid(s'.stores[k])
  {
    hide StoreOk, StoreKept, StoresKept, Evolves, WellFormed, Survivors, PullOk, PushOk, CopyOk, AckOk;
    var left := s.stores[l].(rows := Survivors(s.stores[l].rows, cutoff, keepFloor, pushedFloor));
    Prune.SurvivorsValid(s.stores[l], cutoff, keepFloor, pushedFloor);
    StoreIdsHeld(t, s, l);
    assert s.held[l := s.held[l]] == s.held;
    OneStoreEvolves(s, l, left, s.held[l], s');
    OneStoreKept(t, s, l, left, s.held[l], s');
  }

  lemma PullRunOk(t: Topology, s: State, run: nat)
    requires Inv(t, s) && run in s.pulls
    ensures PullOk(t, s, s.pulls[run]) && s.pulls[run].local in s.stores && t.owner(s.pulls[run].key) in s.stores
  {
  }

  lemma FetchedOk(t: Topology, s: State, p: PullRun, limit: U64)
    requires PullOk(t, s, p) && t.owner(p.key) in s.stores && Valid(s.stores[t.owner(p.key)])
    ensures PullOk(t, s, p.(phase := Fetched(Serve(s.stores[t.owner(p.key)], p.cursor, limit, None))))
  {
    hide Covers;
    var b := Serve(s.stores[t.owner(p.key)], p.cursor, limit, None);
    assert t.owner(p.key) in s.stores;
    CoversReads(s, t.owner(p.key), p.local, None, p.cursor, {});
    PageCoversMore(s, t.owner(p.key), p.local, None, p.cursor, limit, b);
  }

  lemma CoversReads(s: State, src: StoreId, dst: StoreId, filter: Option<Device>, c: int, extra: set<EntryId>)
    requires Covers(s, src, dst, filter, c, extra)
    ensures src in s.stores && dst in s.held && c <= s.stores[src].counter
  {
  }

  lemma StoredOk(t: Topology, s: State, s': State, p: PullRun)
    requires Evolves(s, s') && PullOk(t, s, p) && p.phase.Fetched? && p.phase.batch.entries != []
    requires p.local in s'.held && EntryIds(p.phase.batch.entries) <= s'.held[p.local]
    ensures PullOk(t, s', p.(phase := Stored(p.phase.batch)))
  {
    hide Covers, Evolves;
    PullOkGrows(t, s, s', p);
    ExtraArrived(s', t.owner(p.key), p.local, None, p.phase.batch.nextCursor.value, EntryIds(p.phase.batch.entries));
  }

  lemma ShapeKept(t: Topology, s: State, s': State)
    requires Inv(t, s) && Evolves(s, s')
    requires forall k :: k in s'.stores ==> Valid(s'.stores[k])
    requires forall run :: run in s'.pulls ==>
               || (run in s.pulls && s'.pulls[run] == s.pulls[run])
               || (s'.pulls[run].local in s.stores && t.owner(s'.pulls[run].key) in s.stores)
    requires forall run :: run in s'.pushes ==>
               || (run in s.pushes && s'.pushes[run] == s.pushes[run])
               || (s'.pushes[run].local in s.stores && t.owner(s'.pushes[run].key) in s.stores)
    requires forall run :: run in s'.copies ==> run in s.copies && s'.copies[run] == s.copies[run]
    requires s'.net == s.net || forall req :: req in s'.net ==> s'.net[req].dst in s.stores
    ensures Shape(t, s')
  {
    hide StoreOk, PullOk, PushOk, CopyOk, AckOk, Valid;
  }

  /** A step that changes the stores soundly and at most one pull run. */
  lemma PullUpdated(t: Topology, s: State, s': State, run: nat, p: PullRun)
    requires Inv(t, s) && Evolves(s, s') && StoresKept(t, s, s')
    requires forall k :: k in s'.stores ==> Valid(s'.stores[k])
    requires s' == s.(stores := s'.stores, held := s'.held, pulls := s.pulls[run := p])
    requires p.local in s.stores && t.owner(p.key) in s.stores && PullOk(t, s', p)
    ensures Inv(t, s')
  {
    hide Inv, StoreOk, PullOk, PushOk, CopyOk, AckOk, Shape, Evolves, StoresKept, Valid;
    ShapeKept(t, s, s');
    InvKept(t, s, s');
  }

  lemma PushUpdated(t: Topology, s: State, s': State, run: nat, p: PushRun)
    requires Inv(t, s) && Evolves(s, s') && StoresKept(t, s, s')
    requires forall k :: k in s'.stores ==> Valid(s'.stores[k])
    requires s' == s.(stores := s'.stores, held := s'.held, pushes := s.pushes[run := p], net := s'.net)
    requires forall req :: req in s'.net ==> s'.net[req].dst in s.stores
    requires p.local in s.stores && t.owner(p.key) in s.stores && PushOk(t, s', p)
    ensures Inv(t, s')
  {
    hide Inv, StoreOk, PullOk, PushOk, CopyOk, AckOk, Shape, Evolves, StoresKept, Valid;
    ShapeKept(t, s, s');
    InvKept(t, s, s');
  }

  lemma ValidStores(t: Topology, s: State)
    requires Inv(t, s)
    ensures forall k :: k in s.stores ==> Valid(s.stores[k])
    ensures forall req :: req in s.net ==> s.net[req].dst in s.stores
  {
  }

  lemma PullReadInv(t: Topology, s: State, run: nat, step: PullStep)
    requires Inv(t, s) && PullEnabled(t, s, run, step) && (step.BeginPull? || step.FetchPage?)
    ensures Evolves(s, ApplyPull(t, s, run, step)) && Inv(t, ApplyPull(t, s, run, step))
  {
    hide Covers, StoreOk, PushOk, CopyOk, AckOk, Evolves, StoresKept, Valid, Serve, Shape;
    var s' := ApplyPull(t, s, run, step);
    SameStores(t, s, s');
    ValidStores(t, s);
    match step {
      case BeginPull(l, key) =>
        StoredCursorOk(t, s, l, key, false);
        CursorOkGrows(t, s, s', l, key, CursorIn(Table(s.stores[l], false), key), false);
      case FetchPage(limit) =>
        PullRunOk(t, s, run);
        FetchedOk(t, s, s.pulls[run], limit);
        PullOkGrows(t, s, s', s'.pulls[run]);
    }
    PullUpdated(t, s, s', run, s'.pulls[run]);
  }

  lemma EndInv(t: Topology, s: State, s': State)
    requires Inv(t, s)
    requires s'.pulls.Keys <= s.pulls.Keys && forall run :: run in s'.pulls ==> s'.pulls[run] == s.pulls[run]
    requires s'.pushes.Keys <= s.pushes.Keys && forall run :: run in s'.pushes ==> s'.pushes[run] == s.pushes[run]
    requires s'.copies.Keys <= s.copies.Keys && forall run :: run in s'.copies ==> s'.copies[run] == s.copies[run]
    requires s' == s.(pulls := s'.pulls, pushes := s'.pushes, copies := s'.copies)
    ensures Evolves(s, s') && Inv(t, s')
  {
    hide Inv, StoreOk, PullOk, PushOk, CopyOk, AckOk, Shape, Evolves, StoresKept, Valid;
    SameStores(t, s, s');
    ValidStores(t, s);
    ShapeKept(t, s, s');
    InvKept(t, s, s');
  }

  lemma StorePageInv(t: Topology, s: State, run: nat)
    requires Inv(t, s) && PullEnabled(t, s, run, StorePage)
    ensures Evolves(s, ApplyPull(t, s, run, StorePage)) && Inv(t, ApplyPull(t, s, run, StorePage))
  {
    hide Covers, PullOk, StoreOk, PushOk, CopyOk, AckOk, Evolves, StoresKept, Valid, Shape;
    var s' := ApplyPull(t, s, run, StorePage);
    var p := s.pulls[run];
    PullRunOk(t, s, run);
    InsertKeeps(t, s, p.local, p.phase.batch.entries, s');
    StoredOk(t, s, s', p);
    PullUpdated(t, s, s', run, s'.pulls[run]);
  }

  lemma SavePageInv(t: Topology, s: State, run: nat)
    requires Inv(t, s) && PullEnabled(t, s, run, SavePage)
    ensures Evolves(s, ApplyPull(t, s, run, SavePage)) && Inv(t, ApplyPull(t, s, run, SavePage))
  {
    hide Covers, StoreOk, PushOk, CopyOk, AckOk, Evolves, StoresKept, Valid, Shape;
    var s' := ApplyPull(t, s, run, SavePage);
    var p := s.pulls[run];
    PullRunOk(t, s, run);
    SetCursorKeeps(t, s, p.local, false, p.key, p.phase.batch.nextCursor.value, s');
    CursorOkGrows(t, s, s', p.local, p.key, p.phase.batch.nextCursor.value, false);
    PullUpdated(t, s, s', run, s'.pulls[run]);
  }

  lemma PullInv(t: Topology, s: State, run: nat, step: PullStep)
    requires Inv(t, s) && PullEnabled(t, s, run, step)
    ensures Evolves(s, ApplyPull(t, s, run, step)) && Inv(t, ApplyPull(t, s, run, step))
  {
    if step.StorePage? {
      StorePageInv(t, s, run);
    } else if step.SavePage? {
      SavePageInv(t, s, run);
    } else if step.EndPull? {
      EndInv(t, s, ApplyPull(t, s, run, step));
    } else {
      PullReadInv(t, s, run, step);
    }
  }

  // The push side.

  lemma PushRunOk(t: Topology, s: State, run: nat)
    requires Inv(t, s) && run in s.pushes
    ensures PushOk(t, s, s.pushes[run]) && s.pushes[run].local in s.stores && t.owner(s.pushes[run].key) in s.stores
  {
  }

  lemma SentOk(t: Topology, s: State, s': State, p: PushRun, req: nat, limit: U64)
    requires Evolves(s, s') && PushOk(t, s, p) && p.local in s.stores && Valid(s.stores[p.local])
    requires var b := Serve(s.stores[p.local], p.cursor, limit, t.filter(p.local));
             b.nextCursor.Some? && req in s'.net && s'.net[req] == Msg(t.owner(p.key), b.entries)
    ensures var b := Serve(s.stores[p.local], p.cursor, limit, t.filter(p.local));
            PushOk(t, s', p.(phase := Waiting(req, b.entries, b.nextCursor.value)))
  {
    hide Covers, Evolves, Serve;
    var b := Serve(s.stores[p.local], p.cursor, limit, t.filter(p.local));
    var dst := t.owner(p.key);
    PageCoversMore(s, p.local, dst, t.filter(p.local), p.cursor, limit, b);
    CoversGrows(s, s', p.local, dst, t.filter(p.local), p.cursor, {});
    CoversGrows(s, s', p.local, dst, t.filter(p.local), b.nextCursor.value, EntryIds(b.entries));
  }

  lemma ResentOk(t: Topology, s: State, s': State, p: PushRun, req: nat)
    requires Evolves(s, s') && PushOk(t, s, p) && p.phase.Waiting?
    requires req in s'.net && s'.net[req] == Msg(t.owner(p.key), p.phase.entries)
    ensures PushOk(t, s', p.(phase := p.phase.(req := req)))
  {
    hide Covers, Evolves;
    PushOkGrows(t, s, s', p);
  }

  lemma AckedOk(t: Topology, s: State, s': State, p: PushRun)
    requires Evolves(s, s') && PushOk(t, s, p) && p.phase.Waiting? && AckOk(s, p.phase.req)
    ensures PushOk(t, s', p.(phase := Acked(p.phase.next)))
  {
    hide Covers, Evolves;
    ExtraArrived(s, p.local, t.owner(p.key), t.filter(p.local), p.phase.next, EntryIds(p.phase.entries));
    CoversGrows(s, s', p.local, t.owner(p.key), t.filter(p.local), p.phase.next, {});
    CoversGrows(s, s', p.local, t.owner(p.key), t.filter(p.local), p.cursor, {});
  }

  lemma PushSendInv(t: Topology, s: State, run: nat, step: PushStep)
    requires Inv(t, s) && PushEnabled(t, s, run, step) && (step.Send? || step.Resend?)
    ensures Evolves(s, ApplyPush(t, s, run, step)) && Inv(t, ApplyPush(t, s, run, step))
  {
    hide Covers, StoreOk, PullOk, PushOk, CopyOk, AckOk, Evolves, StoresKept, Valid, Serve, Shape;
    var s' := ApplyPush(t, s, run, step);
    PushRunOk(t, s, run);
    SameStores(t, s, s');
    ValidStores(t, s);
    match step {
      case Send(req, limit) => SentOk(t, s, s', s.pushes[run], req, limit);
      case Resend(req) => ResentOk(t, s, s', s.pushes[run], req);
    }
    PushUpdated(t, s, s', run, s'.pushes[run]);
  }

  lemma PushLocalInv(t: Topology, s: State, run: nat, step: PushStep)
    requires Inv(t, s) && PushEnabled(t, s, run, step)
    requires step.BeginPush? || step.TakeAck? || step.Shrink?
    ensures Evolves(s, ApplyPush(t, s, run, step)) && Inv(t, ApplyPush(t, s, run, step))
  {
    hide Covers, StoreOk, CopyOk, AckOk, Evolves, StoresKept, Valid, Shape;
    var s' := ApplyPush(t, s, run, step);
    SameStores(t, s, s');
    ValidStores(t, s);
    match step {
      case BeginPush(l, key) =>
        StoredCursorOk(t, s, l, key, true);
        CursorOkGrows(t, s, s', l, key, CursorIn(Table(s.stores[l], true), key), true);
      case TakeAck =>
        PushRunOk(t, s, run);
        AckedOk(t, s, s', s.pushes[run]);
      case Shrink =>
        PushRunOk(t, s, run);
        PushOkGrows(t, s, s', s.pushes[run]);
    }
    PushUpdated(t, s, s', run, s'.pushes[run]);
  }

  lemma SaveAckInv(t: Topology, s: State, run: nat)
    requires Inv(t, s) && PushEnabled(t, s, run, SaveAck)
    ensures Evolves(s, ApplyPush(t, s, run, SaveAck)) && Inv(t, ApplyPush(t, s, run, SaveAck))
  {
    hide Covers, StoreOk, PullOk, CopyOk, AckOk, Evolves, StoresKept, Valid, Shape;
    var s' := ApplyPush(t, s, run, SaveAck);
    var p := s.pushes[run];
    PushRunOk(t, s, run);
    SetCursorKeeps(t, s, p.local, true, p.key, p.phase.next, s');
    CursorOkGrows(t, s, s', p.local, p.key, p.phase.next, true);
    ValidStores(t, s);
    PushUpdated(t, s, s', run, s'.pushes[run]);
  }

  lemma PushInv(t: Topology, s: State, run: nat, step: PushStep)
    requires Inv(t, s) && PushEnabled(t, s, run, step)
    ensures Evolves(s, ApplyPush(t, s, run, step)) && Inv(t, ApplyPush(t, s, run, step))
  {
    if step.Send? || step.Resend? {
      PushSendInv(t, s, run, step);
    } else if step.SaveAck? {
      SaveAckInv(t, s, run);
    } else if step.EndPush? {
      EndInv(t, s, ApplyPush(t, s, run, step));
    } else {
      PushLocalInv(t, s, run, step);
    }
  }

  lemma DeliverInv(t: Topology, s: State, req: nat)
    requires Inv(t, s) && Enabled(t, s, Deliver(req))
    ensures Evolves(s, Apply(t, s, Deliver(req))) && Inv(t, Apply(t, s, Deliver(req)))
  {
    hide Covers, StoreOk, PullOk, PushOk, CopyOk, Evolves, StoresKept, Valid;
    var s' := Apply(t, s, Deliver(req));
    InsertKeeps(t, s, s.net[req].dst, s.net[req].entries, s');
    InvKept(t, s, s');
  }

  lemma LegacyOk(t: Topology, s: State, l: StoreId, fromKey: Key, toKey: Key, ofPush: bool)
    requires Inv(t, s) && l in s.stores && fromKey in Table(s.stores[l], ofPush)
    requires t.owner(fromKey) == t.owner(toKey) && t.owner(toKey) in s.stores
    ensures CopyOk(t, s, Copy(l, toKey, Table(s.stores[l], ofPush)[fromKey], ofPush))
  {
    StoredCursorOk(t, s, l, fromKey, ofPush);
  }

  lemma ReadLegacyInv(t: Topology, s: State, run: nat, step: CopyStep)
    requires Inv(t, s) && CopyEnabled(t, s, run, step) && step.ReadLegacy?
    ensures Evolves(s, ApplyCopy(t, s, run, step)) && Inv(t, ApplyCopy(t, s, run, step))
  {
    hide Covers, StoreOk, PullOk, PushOk, CopyOk, AckOk, Evolves, StoresKept, Valid;
    var s' := ApplyCopy(t, s, run, step);
    SameStores(t, s, s');
    LegacyOk(t, s, step.l, step.fromKey, step.toKey, step.ofPush);
    CopyOkGrows(t, s, s', s'.copies[run]);
    InvKept(t, s, s');
  }

  lemma WriteCopyInv(t: Topology, s: State, run: nat)
    requires Inv(t, s) && CopyEnabled(t, s, run, WriteCopy)
    ensures Evolves(s, ApplyCopy(t, s, run, WriteCopy)) && Inv(t, ApplyCopy(t, s, run, WriteCopy))
  {
    hide Covers, StoreOk, PullOk, PushOk, AckOk, Evolves, StoresKept, Valid;
    var s' := ApplyCopy(t, s, run, WriteCopy);
    var c := s.copies[run];
    assert CopyOk(t, s, c);
    SetCursorKeeps(t, s, c.local, c.ofPush, c.to, c.value, s');
    InvKept(t, s, s');
  }

  /** Copying a legacy cursor is sound because both keys name the same store. */
  lemma CopyInv(t: Topology, s: State, run: nat, step: CopyStep)
    requires Inv(t, s) && CopyEnabled(t, s, run, step)
    ensures Evolves(s, ApplyCopy(t, s, run, step)) && Inv(t, ApplyCopy(t, s, run, step))
  {
    if step.ReadLegacy? {
      ReadLegacyInv(t, s, run, step);
    } else if step.WriteCopy? {
      WriteCopyInv(t, s, run);
    } else {
      EndInv(t, s, ApplyCopy(t, s, run, step));
    }
  }

  lemma RecordInv(t: Topology, s: State, l: StoreId, es: seq<Entry>)
    requires Inv(t, s) && Enabled(t, s, Record(l, es))
    ensures Evolves(s, Apply(t, s, Record(l, es))) && Inv(t, Apply(t, s, Record(l, es)))
  {
    hide Covers, StoreOk, PullOk, PushOk, CopyOk, AckOk, Evolves, StoresKept, Valid;
    var s' := Apply(t, s, Record(l, es));
    InsertKeeps(t, s, l, es, s');
    InvKept(t, s, s');
  }

  lemma PruneInv(t: Topology, s: State, l: StoreId, cutoff: int, keepFloor: Option<int>, pushedFloor: Option<int>)
    requires Inv(t, s) && l in s.stores
    ensures Evolves(s, Apply(t, s, PruneStore(l, cutoff, keepFloor, pushedFloor)))
    ensures Inv(t, Apply(t, s, PruneStore(l, cutoff, keepFloor, pushedFloor)))
  {
    hide Covers, StoreOk, PullOk, PushOk, CopyOk, AckOk, Evolves, StoresKept, Valid, Survivors;
    var s' := Apply(t, s, PruneStore(l, cutoff, keepFloor, pushedFloor));
    PruneKeeps(t, s, l, cutoff, keepFloor, pushedFloor, s');
    InvKept(t, s, s');
  }

  /** Every step keeps the invariant. */
  lemma StepInv(t: Topology, s: State, step: Step)
    requires Inv(t, s) && Enabled(t, s, step)
    ensures Evolves(s, Apply(t, s, step)) && Inv(t, Apply(t, s, step))
  {
    hide Shape, StoreOk, PullOk, PushOk, CopyOk, AckOk, Evolves;
    match step
    case Record(l, es) => RecordInv(t, s, l, es);
    case OnPull(run, p) => PullInv(t, s, run, p);
    case OnPush(run, p) => PushInv(t, s, run, p);
    case Deliver(req) => DeliverInv(t, s, req);
    case OnCopy(run, c) => CopyInv(t, s, run, c);
    case PruneStore(l, cutoff, keepFloor, pushedFloor) => PruneInv(t, s, l, cutoff, keepFloor, pushedFloor);
  }
}
