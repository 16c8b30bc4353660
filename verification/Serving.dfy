/** The serving side of a push, over both transports. */
module Serving {
  import opened Prelude
  import opened StoreModel
  import opened LocalStores
  import opened SyncPush

  /** The peer-to-peer reply; the counts are absent when the insert failed. */
  datatype PushAck = PushAck(ok: bool, inserted: Option<nat>, ignored: Option<nat>)

  datatype HttpReply = Stored(stats: InsertStats) | PayloadTooLarge | ServerError

  /** What a batch has become at the receiver. */
  ghost predicate Delivers(before: Store, after: Store, entries: seq<Entry>) {
    Fits(before, entries) && after == Ingest(before, entries)
  }

  /** How the pushing side reads a reply, if one arrives at all. */
  function AckOutcome(reply: Option<PushAck>): PushOutcome {
    if reply.Some? && reply.value.ok then Acknowledged else Unconfirmed
  }

  function HttpOutcome(reply: Option<HttpReply>): PushOutcome {
    match reply
    case Some(Stored(_)) => Acknowledged
    case Some(PayloadTooLarge) => Oversized
    case _ => Unconfirmed
  }

  /** The pusher moves on exactly at an `ok` reply that arrives. */
  lemma AckRead(reply: Option<PushAck>)
    ensures AckOutcome(reply).Acknowledged? <==> reply.Some? && reply.value.ok
    ensures !AckOutcome(reply).Oversized?
  {
  }

  lemma HttpRead(reply: Option<HttpReply>)
    ensures HttpOutcome(reply).Acknowledged? <==> reply.Some? && reply.value.Stored?
    ensures HttpOutcome(reply).Oversized? <==> reply == Some(PayloadTooLarge)
  {
  }

  /** An acknowledgement is sent only for a batch that is stored, and its counts account for the whole batch. */
  method AnswerPush(store: LocalStore, entries: seq<Entry>) returns (ack: PushAck)
    requires Valid(store.View())
    modifies store`rows, store`counter
    ensures Valid(store.View())
    ensures ack.ok ==> Delivers(old(store.View()), store.View(), entries)
    ensures ack.ok ==> ack.inserted.Some? && ack.ignored.Some? && ack.inserted.value + ack.ignored.value == |entries|
    ensures ack.ok ==> ack.inserted.value == |store.rows| - |old(store.rows)|
    ensures !ack.ok ==> store.View() == old(store.View()) && ack == PushAck(false, None, None)
    ensures store.reliable && Fits(old(store.View()), entries) ==> ack.ok
  {
    var r := store.InsertEntriesWithStats(entries);
    match r
    case Ok(stats) => ack := PushAck(true, Some(stats.inserted), Some(stats.ignored));
    case Err(_) => ack := PushAck(false, None, None);
  }

  /**
   The HTTP route: a body over the limit is refused before it is read as JSON (413, section 15.5.14
   of RFC 9110); `parsed` is the body's entries, if it can be read.
   */
  method PostEntries(store: LocalStore, bodyLength: nat, maxLength: nat, parsed: Option<seq<Entry>>)
    returns (reply: HttpReply)
    requires Valid(store.View())
    modifies store`rows, store`counter
    ensures Valid(store.View())
    ensures reply.Stored? ==> parsed.Some? && Delivers(old(store.View()), store.View(), parsed.value)
    ensures reply == PayloadTooLarge <==> bodyLength > maxLength
    ensures !reply.Stored? ==> store.View() == old(store.View())
    ensures reply.Stored? ==> reply.stats.inserted + reply.stats.ignored == |parsed.value|
    ensures (&& store.reliable && bodyLength <= maxLength && parsed.Some? && Fits(old(store.View()), parsed.value))
            ==> reply.Stored?
  {
    if bodyLength > maxLength {
      return PayloadTooLarge;
    }
    if parsed.None? {
      return ServerError;
    }
    var r := store.InsertEntriesWithStats(parsed.value);
    match r
    case Ok(stats) => reply := Stored(stats);
    case Err(_) => reply := ServerError;
  }
}
