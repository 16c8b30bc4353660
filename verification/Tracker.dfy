/** The tracker's table of peers: eager expiry on every request, against expiry computed on demand from the history. */
module Tracker {
  import opened Prelude
  import opened Text

  type PeerId = string

  datatype Meta = Meta(device: Option<string>, hostname: Option<string>, user: Option<string>, version: Option<string>)

  datatype PeerRecord = PeerRecord(addrs: seq<string>, meta: Option<Meta>, lastSeen: int)

  datatype RegisterReply = Registered(ttl: U64) | PeerIdRequired | InvalidPeerId

  /** What `prune_expired` keeps. The ttl is cast to i64, so one past `i64::MAX` turns negative. */
  function Unexpired(peers: map<PeerId, PeerRecord>, now: int, ttl: U64): map<PeerId, PeerRecord> {
    if ttl == 0 then map[] else map p | p in peers && now - peers[p].lastSeen <= AsI64(ttl) :: peers[p]
  }

  predicate ForUser(r: PeerRecord, user: Option<string>) {
    user.None? || (r.meta.Some? && r.meta.value.user == user)
  }

  function Matching(peers: map<PeerId, PeerRecord>, user: Option<string>): map<PeerId, PeerRecord> {
    map p | p in peers && ForUser(peers[p], user) :: peers[p]
  }

  /** Addresses without surrounding white space, empty ones dropped. */
  function CleanAddrs(addrs: seq<string>): seq<string> {
    if addrs == [] then [] else
      var a := Trim(addrs[0]);
      (if a == [] then [] else [a]) + CleanAddrs(addrs[1..])
  }

  lemma CleanAddrsCons(addr: string, addrs: seq<string>)
    ensures CleanAddrs([addr] + addrs) == (if Trim(addr) == "" then [] else [Trim(addr)]) + CleanAddrs(addrs)
  {
    hide Trim;
    assert ([addr] + addrs)[1..] == addrs;
  }

  /** The stored addresses keep their order. */
  lemma {:induction false} CleanAddrsExact(addrs: seq<string>, more: seq<string>)
    ensures CleanAddrs(addrs + more) == CleanAddrs(addrs) + CleanAddrs(more)
  {
    if addrs == [] {
      assert addrs + more == more;
    } else {
      hide *;
      var head := if Trim(addrs[0]) == "" then [] else [Trim(addrs[0])];
      CleanAddrsExact(addrs[1..], more);
      CleanAddrsCons(addrs[0], addrs[1..]);
      CleanAddrsCons(addrs[0], addrs[1..] + more);
      assert addrs == [addrs[0]] + addrs[1..];
      Reassociate([addrs[0]], addrs[1..], more);
      Reassociate(head, CleanAddrs(addrs[1..]), CleanAddrs(more));
    }
  }

  /** Each address is trimmed, and left out if nothing remains. */
  lemma OneAddr(addr: string)
    ensures CleanAddrs([addr]) == if Trim(addr) == "" then [] else [Trim(addr)]
  {
    hide Trim;
    CleanAddrsCons(addr, []);
    assert [addr] + [] == [addr];
  }

  /** And no others. */
  lemma {:induction false} CleanAddrsMembers(addrs: seq<string>, a: string)
    ensures a in CleanAddrs(addrs) <==> a != "" && exists i :: 0 <= i < |addrs| && Trim(addrs[i]) == a
  {
    hide Trim;
    if addrs != [] {
      CleanAddrsMembers(addrs[1..], a);
      assert forall i :: 0 < i < |addrs| ==> addrs[1..][i - 1] == addrs[i];
      assert forall i :: 0 <= i < |addrs[1..]| ==> addrs[i + 1] == addrs[1..][i];
    }
  }

  class TrackerState {
    var peers: map<PeerId, PeerRecord>

    constructor ()
      ensures peers == map[]
    {
      peers := map[];
    }

    method PruneExpired(now: int, ttl: U64)
      modifies this
      ensures peers == Unexpired(old(peers), now, ttl)
    {
      if ttl == 0 {
        peers := map[];
        return;
      }
      var ttlSec := AsI64(ttl);
      peers := map p | p in peers && now - peers[p].lastSeen <= ttlSec :: peers[p];
    }

    /** `parse` turns the request's text into a peer id, or fails. */
    method Register(now: int, ttl: U64, peerId: string, parse: string -> Option<PeerId>, addrs: seq<string>,
                    meta: Option<Meta>)
      returns (reply: RegisterReply)
      modifies this
      ensures reply == (if Trim(peerId) == [] then PeerIdRequired
                        else if parse(Trim(peerId)).None? then InvalidPeerId else Registered(ttl))
      ensures reply.Registered? ==>
                var record := PeerRecord(CleanAddrs(addrs), meta, now);
                peers == Applied(old(peers), ttl, Joined(now, parse(Trim(peerId)).value, record))
      ensures !reply.Registered? ==> peers == old(peers)
    {
      var trimmed := Trim(peerId);
      if trimmed == [] {
        return PeerIdRequired;
      }
      var id := parse(trimmed);
      if id.None? {
        return InvalidPeerId;
      }
      PruneExpired(now, ttl);
      peers := peers[id.value := PeerRecord(CleanAddrs(addrs), meta, now)];
      reply := Registered(ttl);
    }

    method List(now: int, ttl: U64, user: Option<string>) returns (found: map<PeerId, PeerRecord>)
      modifies this
      ensures peers == Applied(old(peers), ttl, Queried(now))
      ensures found == Matching(Unexpired(old(peers), now, ttl), user)
      ensures user.None? ==> found == Unexpired(old(peers), now, ttl)
      ensures user.Some? ==>
                forall p :: p in found <==> var all := Unexpired(old(peers), now, ttl);
                  p in all && all[p].meta.Some? && all[p].meta.value.user == Some(user.value)
    {
      PruneExpired(now, ttl);
      found := map p | p in peers && ForUser(peers[p], user) :: peers[p];
    }
  }

  // ---------- Histories ----------

  datatype Event = Joined(now: int, peer: PeerId, record: PeerRecord) | Queried(now: int)

  function Applied(peers: map<PeerId, PeerRecord>, ttl: U64, e: Event): map<PeerId, PeerRecord> {
    match e
    case Joined(now, peer, record) => Unexpired(peers, now, ttl)[peer := record]
    case Queried(now) => Unexpired(peers, now, ttl)
  }

  /** The table after a history of requests. */
  function Eager(ttl: U64, history: seq<Event>): map<PeerId, PeerRecord> {
    if history == [] then map[] else
      var n := |history| - 1;
      Applied(Eager(ttl, history[..n]), ttl, history[n])
  }

  /** What a list request at `now` answers. */
  function EagerAnswer(ttl: U64, history: seq<Event>, now: int, user: Option<string>): map<PeerId, PeerRecord> {
    Matching(Unexpired(Eager(ttl, history), now, ttl), user)
  }

  /** Each peer's latest registration, with no expiry at all. */
  function Latest(history: seq<Event>): map<PeerId, PeerRecord> {
    if history == [] then map[] else
      var n := |history| - 1;
      match history[n]
      case Joined(_, peer, record) => Latest(history[..n])[peer := record]
      case Queried(_) => Latest(history[..n])
  }

  /** The answer computed from the whole history: latest registrations of age at most ttl. */
  function LazyAnswer(ttl: U64, history: seq<Event>, now: int, user: Option<string>): map<PeerId, PeerRecord> {
    var all := Latest(history);
    map p | p in all && now - all[p].lastSeen <= ttl && ForUser(all[p], user) :: all[p]
  }

  /** The clock never runs backwards, and a registration is stamped with its own time. */
  predicate Clocked(history: seq<Event>, now: int) {
    && (forall i, j :: 0 <= i < j < |history| ==> history[i].now <= history[j].now)
    && (forall i :: 0 <= i < |history| ==> history[i].now <= now)
    && (forall i :: 0 <= i < |history| && history[i].Joined? ==> history[i].record.lastSeen == history[i].now)
  }

  lemma {:induction false} LatestInPast(history: seq<Event>, now: int)
    requires Clocked(history, now)
    ensures forall p :: p in Latest(history) ==> Latest(history)[p].lastSeen <= now
  {
    if history != [] {
      var n := |history| - 1;
      LatestInPast(history[..n], now);
    }
  }

  /** The table holds exactly the latest registrations that were not expired at the last request. */
  lemma {:induction false} EagerExact(ttl: U64, history: seq<Event>, p: PeerId)
    requires 1 <= ttl <= I64_MAX && history != []
    requires Clocked(history, history[|history| - 1].now)
    ensures var last := history[|history| - 1].now;
            && (p in Eager(ttl, history) <==> p in Latest(history) && last - Latest(history)[p].lastSeen <= ttl)
            && (p in Eager(ttl, history) ==> Eager(ttl, history)[p] == Latest(history)[p])
  {
    var n := |history| - 1;
    var before := history[..n];
    if n > 0 {
      assert before[n - 1] == history[n - 1];
      EagerExact(ttl, before, p);
    }
  }

  /** Expiring early loses nothing a later list would have shown. */
  lemma EagerRefinesLazy(ttl: U64, history: seq<Event>, now: int, user: Option<string>)
    requires 1 <= ttl <= I64_MAX && Clocked(history, now)
    ensures EagerAnswer(ttl, history, now, user) == LazyAnswer(ttl, history, now, user)
  {
    forall p
      ensures p in EagerAnswer(ttl, history, now, user) <==> p in LazyAnswer(ttl, history, now, user)
      ensures p in EagerAnswer(ttl, history, now, user) ==>
                EagerAnswer(ttl, history, now, user)[p] == LazyAnswer(ttl, history, now, user)[p]
    {
      if history != [] {
        EagerExact(ttl, history, p);
      }
    }
  }

  /** With ttl 0, and with a ttl that does not fit an i64, every list is empty. */
  lemma UnusableTtl(ttl: U64, history: seq<Event>, now: int, user: Option<string>)
    requires (ttl == 0 || ttl > I64_MAX) && Clocked(history, now)
    ensures EagerAnswer(ttl, history, now, user) == map[]
  {
    if ttl > I64_MAX {
      EagerInPast(ttl, history, now);
    }
  }

  lemma {:induction false} EagerInPast(ttl: U64, history: seq<Event>, now: int)
    requires Clocked(history, now)
    ensures forall p :: p in Eager(ttl, history) ==> Eager(ttl, history)[p].lastSeen <= now
  {
    if history != [] {
      EagerInPast(ttl, history[..|history| - 1], now);
    }
  }

  /** Every list answer, for every history, clock and filter, is the one the history calls for. */
  ghost predicate Faithful(ttl: U64) {
    forall history, now, user :: Clocked(history, now) ==>
      EagerAnswer(ttl, history, now, user) == LazyAnswer(ttl, history, now, user)
  }

  /** A peer that registers and is asked for at once is not shown if the ttl is unusable. */
  lemma JustJoinedIsHidden(ttl: U64)
    requires ttl == 0 || ttl > I64_MAX
    ensures !Faithful(ttl)
  {
    var history := [Joined(0, "p", PeerRecord([], None, 0))];
    UnusableTtl(ttl, history, 0, None);
    assert Latest(history[..0]) == map[];
    assert "p" in LazyAnswer(ttl, history, 0, None);
  }

  /** So early expiry is invisible exactly when the ttl is positive and fits an i64. */
  lemma EagerMeetsLazyIff(ttl: U64)
    ensures Faithful(ttl) <==> 1 <= ttl <= I64_MAX
  {
    if 1 <= ttl <= I64_MAX {
      forall history, now, user | Clocked(history, now)
        ensures EagerAnswer(ttl, history, now, user) == LazyAnswer(ttl, history, now, user)
      {
        EagerRefinesLazy(ttl, history, now, user);
      }
    } else {
      JustJoinedIsHidden(ttl);
    }
  }
}
