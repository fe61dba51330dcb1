/** The send queue of one destination: `src/ieee802154/mac/devicequeue.rs`. */
module DeviceQueues {
  import opened Prelude
  import opened Addresses
  import opened Frames
  import opened Pibs
  import opened PendingTables

  datatype DataRequest = DataRequest(
    key: Key, destination: Destination, sourceMode: AddressingMode,
    acknowledgeRequest: bool, indirect: bool, content: FrameType)

  datatype QueueEntry = QueueEntry(data: DataRequest, retriesLeft: nat)

  datatype QueueError = TransactionExpired | SendFailure | NoAck

  type SendResult = Result<seq<byte>, QueueError>

  datatype State =
    | Idle(dataRequest: bool)
    | Sending(sendKey: Key, ackRequested: Option<byte>, ackPayload: seq<byte>)
    | WaitingForAck(awaited: byte)
    | HaveResult(result: SendResult)

  datatype Queue = Queue(state: State, lastPendingReported: Option<bool>, entries: seq<QueueEntry>)

  datatype Action =
    | Empty                                   // the queue should be discarded
    | SetPending(pending: bool)
    | SendFrame(key: Key, frame: Frame)
    | ReportResult(entryKey: Key, result: SendResult)

  /** Which timers have run out when the queue is polled. */
  datatype Timers = Timers(ack: bool, transactions: set<Key>)

  // ----- Operations

  function NewQueue(): Queue {
    Queue(Idle(false), None, [])
  }

  /** The first position from `start` on with the key. */
  function PositionOf(entries: seq<QueueEntry>, keys: set<Key>, start: nat): (r: Option<nat>)
    ensures r.Some? ==> start <= r.value < |entries| && entries[r.value].data.key in keys &&
                        forall i | start <= i < r.value :: entries[i].data.key !in keys
    ensures r.None? ==> forall i | start <= i < |entries| :: entries[i].data.key !in keys
    decreases |entries| - start
  {
    if start >= |entries| then None
    else if entries[start].data.key in keys then Some(start)
    else PositionOf(entries, keys, start + 1)
  }

  predicate Contains(q: Queue, key: Key) {
    PositionOf(q.entries, {key}, 0).Some?
  }

  function Insert(q: Queue, request: DataRequest, retries: nat): Queue {
    if Contains(q, request.key) then q else q.(entries := q.entries + [QueueEntry(request, retries)])
  }

  /** `retain` of the entries with another key. */
  function Retained(entries: seq<QueueEntry>, key: Key): seq<QueueEntry> {
    if entries == [] then []
    else (if entries[0].data.key == key then [] else [entries[0]]) + Retained(entries[1..], key)
  }

  function Remove(q: Queue, key: Key): Queue {
    var first := q.entries != [] && q.entries[0].data.key == key;
    q.(entries := Retained(q.entries, key), state := if first then Idle(false) else q.state)
  }

  function DataRequestSeen(q: Queue): Queue {
    if q.state.Idle? then q.(state := Idle(true)) else q
  }

  function SendReported(q: Queue, key: Key, success: bool): Queue {
    if !q.state.Sending? || q.state.sendKey != key then q
    else if success then
      (match q.state.ackRequested
       case Some(seqNr) => q.(state := WaitingForAck(seqNr))
       case None => q.(state := HaveResult(Ok(q.state.ackPayload))))
    else if q.entries == [] then q.(state := Idle(false))
    else
      var front := q.entries[0];
      if front.data.indirect then q.(state := Idle(false))
      else if front.retriesLeft > 0 then q.(state := Idle(false), entries := Lowered(q.entries))
      else q.(state := HaveResult(Err(SendFailure)))
  }

  function Acknowledged(q: Queue, seqNr: Option<byte>, payload: seq<byte>): Queue {
    match q.state
    case WaitingForAck(awaited) => if seqNr == Some(awaited) then q.(state := HaveResult(Ok(payload))) else q
    case Sending(key, requested, _) =>
      if requested.Some? && requested == seqNr then q.(state := Sending(key, None, payload)) else q
    case _ => q
  }

  function CreateFrame(request: DataRequest, pib: Pib, morePending: bool): Frame {
    Frame(morePending, request.acknowledgeRequest, Some(pib.macDsn), request.destination,
          (match request.sourceMode
           case NoAddress => None
           case ReservedMode => None
           case ShortMode => Some(FullShortAddress(pib))
           case ExtendedMode => Some(FullExtendedAddress(pib))),
          request.content)
  }

  predicate ShouldBePending(q: Queue) {
    q.entries != [] && q.entries[0].data.indirect
  }

  /** The first entry whose transaction has expired is dropped and reported. */
  function Expire(q: Queue, expired: set<Key>): (Queue, Option<Action>) {
    match PositionOf(q.entries, expired, 0)
    case None => (q, None)
    case Some(i) =>
      (q.(entries := q.entries[..i] + q.entries[i + 1..], state := if i == 0 then Idle(false) else q.state),
       Some(ReportResult(q.entries[i].data.key, Err(TransactionExpired))))
  }

  function PopFront(q: Queue, result: SendResult): (Queue, Option<Action>)
    requires q.entries != []
  {
    (q.(state := Idle(false), entries := q.entries[1..]), Some(ReportResult(q.entries[0].data.key, result)))
  }

  /** An idle queue sends its front entry, if that is direct or was asked for. */
  predicate MaySend(q: Queue) {
    q.entries != [] && q.state.Idle? && (!q.entries[0].data.indirect || q.state.dataRequest)
  }

  function Sent(q: Queue, pib: Pib, sendKey: Key): (Queue, Option<Action>)
    requires q.entries != []
  {
    var front := q.entries[0].data;
    var morePending := |q.entries| > 1 && q.entries[1].data.indirect;
    (q.(state := Sending(sendKey, if front.acknowledgeRequest then Some(pib.macDsn) else None, [])),
     Some(SendFrame(sendKey, CreateFrame(front, pib, morePending))))
  }

  /** The result that is due for the front entry. */
  function DueResult(q: Queue, ackTimeout: bool): Option<SendResult>
    requires q.entries != []
  {
    match q.state
    case HaveResult(result) => Some(result)
    case WaitingForAck(_) =>
      if ackTimeout && !q.entries[0].data.indirect && q.entries[0].retriesLeft == 0 then Some(Err(NoAck)) else None
    case _ => None
  }

  function Lowered(entries: seq<QueueEntry>): seq<QueueEntry>
    requires entries != [] && entries[0].retriesLeft > 0
  {
    entries[0 := entries[0].(retriesLeft := entries[0].retriesLeft - 1)]
  }

  /** The queue that waits on: after an acknowledgement timed out it is idle and a direct entry has a retry less. */
  function Settled(q: Queue, ackTimeout: bool): Queue
    requires q.entries != [] && DueResult(q, ackTimeout).None?
  {
    match q.state
    case Idle(_) => q.(state := Idle(false))
    case WaitingForAck(_) =>
      if !ackTimeout then q
      else if q.entries[0].data.indirect then q.(state := Idle(false))
      else q.(state := Idle(false), entries := Lowered(q.entries))
    case Sending(_, _, _) => q
    case HaveResult(_) => q
  }

  /** `poll_next_action`; the key is the fresh one for a frame, should one be sent. */
  function Poll(q: Queue, pib: Pib, sendKey: Key, timers: Timers): (Queue, Option<Action>) {
    if q.lastPendingReported != Some(ShouldBePending(q)) then
      (q.(lastPendingReported := Some(ShouldBePending(q))), Some(SetPending(ShouldBePending(q))))
    else if q.entries == [] then (q.(state := Idle(false)), Some(Empty))
    else if MaySend(q) then Sent(q, pib, sendKey)
    else match DueResult(q, timers.ack)
      case Some(result) => PopFront(q, result)
      case None => Expire(Settled(q, timers.ack), timers.transactions)
  }

  /** Sending a frame uses up a sequence number. */
  function PibAfter(pib: Pib, action: Option<Action>): Pib {
    match action
    case Some(SendFrame(_, _)) => pib.(macDsn := NextSequenceNumber(pib.macDsn))
    case _ => pib
  }

  lemma {:induction false} RetainedAt(entries: seq<QueueEntry>, i: nat)
    requires i < |entries| && forall j | 0 <= j < |entries| && j != i :: entries[j].data.key != entries[i].data.key
    ensures Retained(entries, entries[i].data.key) == entries[..i] + entries[i + 1..]
  {
    if i == 0 {
      RetainedAll(entries[1..], entries[0].data.key);
    } else {
      RetainedAt(entries[1..], i - 1);
      assert entries[..i] == [entries[0]] + entries[1..][..i - 1];
      assert entries[1..][i..] == entries[i + 1..];
    }
  }

  lemma {:induction false} RetainedAll(entries: seq<QueueEntry>, key: Key)
    requires forall j | 0 <= j < |entries| :: entries[j].data.key != key
    ensures Retained(entries, key) == entries
  {
    if entries != [] {
      RetainedAll(entries[1..], key);
    }
  }

  // ----- Implementation

  class DeviceQueue {
    var state: State
    var lastPendingReported: Option<bool>
    var entries: seq<QueueEntry>

    ghost function View(): Queue
      reads this
    {
      Queue(state, lastPendingReported, entries)
    }

    constructor ()
      ensures View() == NewQueue()
    {
      state, lastPendingReported, entries := Idle(false), None, [];
    }

    method HasKey(key: Key) returns (r: bool)
      ensures r <==> Contains(View(), key)
    {
      for i := 0 to |entries|
        invariant PositionOf(entries, {key}, 0) == PositionOf(entries, {key}, i)
      {
        if entries[i].data.key == key {
          return true;
        }
      }
      return false;
    }

    method InsertEntry(pib: Pib, request: DataRequest) returns (inserted: bool)
      modifies this
      ensures View() == Insert(old(View()), request, pib.macMaxFrameRetries)
      ensures inserted <==> !Contains(old(View()), request.key)
    {
      var present := HasKey(request.key);
      if present {
        return false;
      }
      entries := entries + [QueueEntry(request, pib.macMaxFrameRetries)];
      return true;
    }

    method RemoveEntry(key: Key) returns (removed: bool)
      modifies this
      ensures View() == Remove(old(View()), key)
      ensures removed <==> Contains(old(View()), key)
    {
      var preLength := |entries|;
      var firstRemoved := entries != [] && entries[0].data.key == key;
      RetainedLength(entries, key);
      entries := Retained(entries, key);
      if firstRemoved {
        state := Idle(false);
      }
      return firstRemoved || preLength > |entries|;
    }

    method ProcessDataRequest()
      modifies this
      ensures View() == DataRequestSeen(old(View()))
    {
      if state.Idle? {
        state := Idle(true);
      }
    }

    method ProcessSendResult(key: Key, success: bool)
      modifies this
      ensures View() == SendReported(old(View()), key, success)
    {
      if state.Sending? && state.sendKey == key {
        if success {
          if state.ackRequested.Some? {
            state := WaitingForAck(state.ackRequested.value);
          } else {
            state := HaveResult(Ok(state.ackPayload));
          }
        } else if entries != [] {
          var front := entries[0];
          if front.data.indirect {
            state := Idle(false);
          } else if front.retriesLeft > 0 {
            entries := entries[0 := front.(retriesLeft := front.retriesLeft - 1)];
            state := Idle(false);
          } else {
            state := HaveResult(Err(SendFailure));
          }
        } else {
          state := Idle(false);
        }
      }
    }

    method ProcessAcknowledge(seqNr: Option<byte>, payload: seq<byte>)
      modifies this
      ensures View() == Acknowledged(old(View()), seqNr, payload)
    {
      match state {
        case WaitingForAck(awaited) =>
          if seqNr == Some(awaited) {
            state := HaveResult(Ok(payload));
          }
        case Sending(sendKey, ackRequested, _) =>
          if ackRequested.Some? && ackRequested == seqNr {
            state := Sending(sendKey, None, payload);
          }
        case _ =>
      }
    }

    /** The timeout loop at the end of a poll. */
    method ExpireTransaction(expired: set<Key>) returns (action: Option<Action>)
      modifies this
      ensures (View(), action) == Expire(old(View()), expired)
      ensures action.Some? ==> action.value.ReportResult?
    {
      for index := 0 to |entries|
        invariant View() == old(View())
        invariant PositionOf(entries, expired, 0) == PositionOf(entries, expired, index)
      {
        if entries[index].data.key in expired {
          var key := entries[index].data.key;
          entries := entries[..index] + entries[index + 1..];
          if index == 0 {
            state := Idle(false);
          }
          return Some(ReportResult(key, Err(TransactionExpired)));
        }
      }
      return None;
    }

    /** `timers` says which of the timers have run out; `pib'` is the information base afterwards. */
    method PollNextAction(pib: Pib, keys: KeySource, timers: Timers) returns (action: Option<Action>, pib': Pib)
      modifies this, keys
      ensures (View(), action) == Poll(old(View()), pib, old(keys.next), timers)
      ensures pib' == PibAfter(pib, action)
      ensures keys.next == old(keys.next) + (if action.Some? && action.value.SendFrame? then 1 else 0)
    {
      hide CreateFrame, NextSequenceNumber, FullShortAddress, FullExtendedAddress, Expire, PositionOf;
      pib' := pib;
      var shouldBePending := entries != [] && entries[0].data.indirect;
      if lastPendingReported != Some(shouldBePending) {
        lastPendingReported := Some(shouldBePending);
        return Some(SetPending(shouldBePending)), pib';
      }
      if entries == [] {
        state := Idle(false);
        return Some(Empty), pib';
      }
      var front := entries[0];
      var current := state;
      state := Idle(false);
      match current {
        case Idle(dataRequest) =>
          if !front.data.indirect || dataRequest {
            var morePending := |entries| > 1 && entries[1].data.indirect;
            var frame := CreateFrame(front.data, pib, morePending);
            pib' := pib.(macDsn := NextSequenceNumber(pib.macDsn));
            var sendKey := keys.New();
            state := Sending(sendKey, if front.data.acknowledgeRequest then Some(pib.macDsn) else None, []);
            return Some(SendFrame(sendKey, frame)), pib';
          }
        case WaitingForAck(_) =>
          if timers.ack {
            if front.data.indirect {
            } else if front.retriesLeft > 0 {
              entries := entries[0 := front.(retriesLeft := front.retriesLeft - 1)];
            } else {
              entries := entries[1..];
              return Some(ReportResult(front.data.key, Err(NoAck))), pib';
            }
          } else {
            state := current;
          }
        case HaveResult(result) =>
          entries := entries[1..];
          return Some(ReportResult(front.data.key, result)), pib';
        case Sending(_, _, _) =>
          state := current;
      }
      action := ExpireTransaction(timers.transactions);
    }
  }

  lemma {:induction false} RetainedLength(entries: seq<QueueEntry>, key: Key)
    ensures |Retained(entries, key)| <= |entries|
    ensures |Retained(entries, key)| < |entries| <==> exists i :: 0 <= i < |entries| && entries[i].data.key == key
  {
    if entries != [] {
      RetainedLength(entries[1..], key);
      if i :| 0 <= i < |entries[1..]| && entries[1..][i].data.key == key {
        assert entries[i + 1].data.key == key;
      }
      if i :| 0 < i < |entries| && entries[i].data.key == key {
        assert entries[1..][i - 1].data.key == key;
      }
    }
  }
}
