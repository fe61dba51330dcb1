/** The data service: one send queue per destination, the pending tables, and the MCPS handles: `src/ieee802154/mac/data.rs`. */
module DataServices {
  import opened Prelude
  import opened Addresses
  import opened Frames
  import opened Pibs
  import opened PendingTables
  import Q = DeviceQueues
  import C = CombinedPendingTables

  /** An MSDU handle chosen by the next higher layer. */
  type Handle = nat

  /** A two-way map: inserting a pair drops every pair that shares a side with it. */
  datatype BiMap = BiMap(left: map<Handle, Key>, right: map<Key, Handle>)

  function RemoveByLeft(b: BiMap, handle: Handle): BiMap {
    if handle in b.left then BiMap(b.left - {handle}, b.right - {b.left[handle]}) else b
  }

  function RemoveByRight(b: BiMap, key: Key): BiMap {
    if key in b.right then BiMap(b.left - {b.right[key]}, b.right - {key}) else b
  }

  function InsertPair(b: BiMap, handle: Handle, key: Key): BiMap {
    var c := RemoveByRight(RemoveByLeft(b, handle), key);
    BiMap(c.left[handle := key], c.right[key := handle])
  }

  datatype McpsError = TransactionExpired | ChannelAccessFailure | NoAcknowledgement | InvalidHandle

  datatype Output =
    | TableOutput(update: C.Action)
    | FrameOutput(sendKey: Key, frame: Frame)
    | DataConfirm(handle: Handle, outcome: Result<seq<byte>, McpsError>)
    | PurgeConfirm(purged: Handle, status: Result<(), McpsError>)

  datatype Service = Service(queues: map<Destination, Q.Queue>, handles: BiMap, table: C.Combined)

  datatype McpsData = McpsData(
    handle: Handle, destination: Destination, sourceMode: AddressingMode, ackTx: bool, indirectTx: bool, msdu: seq<byte>)

  // ----- Operations

  function NewService(): Service {
    Service(map[], BiMap(map[], map[]), C.Start())
  }

  function Submitted(s: Service, retries: nat, request: Q.DataRequest): Service {
    var queue := if request.destination in s.queues then s.queues[request.destination] else Q.NewQueue();
    s.(queues := s.queues[request.destination := Q.Insert(queue, request, retries)])
  }

  function McpsRequest(data: McpsData, key: Key): Q.DataRequest {
    Q.DataRequest(key, data.destination, data.sourceMode, data.ackTx, data.indirectTx, Data(data.msdu))
  }

  function McpsSubmitted(s: Service, retries: nat, data: McpsData, key: Key): Service {
    var s1 := Submitted(s, retries, McpsRequest(data, key));
    s1.(handles := InsertPair(s1.handles, data.handle, key))
  }

  function AllRemoved(queues: map<Destination, Q.Queue>, key: Key): map<Destination, Q.Queue> {
    map d | d in queues :: Q.Remove(queues[d], key)
  }

  function Purged(s: Service, handle: Handle): (Service, Output) {
    if handle in s.handles.left then
      var key := s.handles.left[handle];
      (s.(queues := AllRemoved(s.queues, key), handles := RemoveByLeft(s.handles, handle)),
       PurgeConfirm(handle, Ok(())))
    else (s, PurgeConfirm(handle, Err(InvalidHandle)))
  }

  function SendAnswered(s: Service, key: Key, success: bool): Service {
    s.(queues := map d | d in s.queues :: Q.SendReported(s.queues[d], key, success))
  }

  function AckSeen(s: Service, seqNr: Option<byte>, payload: seq<byte>): Service {
    s.(queues := map d | d in s.queues :: Q.Acknowledged(s.queues[d], seqNr, payload))
  }

  function DataRequestFrom(s: Service, device: Destination): Service {
    if device in s.queues then s.(queues := s.queues[device := Q.DataRequestSeen(s.queues[device])]) else s
  }

  function FrameSeen(s: Service, pib: Pib, frame: Frame): Service {
    match frame.frameType
    case Ack(payload) => AckSeen(s, frame.sequenceNumber, payload)
    case CommandFrame(DataRequestCommand) =>
      if frame.destination == Some(FullShortAddress(pib)) || frame.destination == Some(FullExtendedAddress(pib))
      then DataRequestFrom(s, frame.source) else s
    case _ => s
  }

  function McpsResult(r: Q.SendResult): Result<seq<byte>, McpsError> {
    match r
    case Ok(payload) => Ok(payload)
    case Err(TransactionExpired) => Err(TransactionExpired)
    case Err(SendFailure) => Err(ChannelAccessFailure)
    case Err(NoAck) => Err(NoAcknowledgement)
  }

  function TablePolled(s: Service, key: Key): (Service, Option<Output>) {
    var (table, action) := C.Poll(s.table, key);
    (s.(table := table), match action case Some(a) => Some(TableOutput(a)) case None => None)
  }

  /** One queue is polled and what it asks for is done. */
  function QueuePolled(s: Service, d: Destination, pib: Pib, key: Key, timers: Q.Timers): (Service, Option<Output>)
    requires d in s.queues
  {
    var (queue, action) := Q.Poll(s.queues[d], pib, key, timers);
    var s1 := s.(queues := s.queues[d := queue]);
    match action
    case None => (s1, None)
    case Some(Empty) => (s.(queues := s.queues - {d}), None)
    case Some(SetPending(pending)) => (s1.(table := C.Set(s.table, d, pending)), None)
    case Some(SendFrame(k, frame)) => (s1, Some(FrameOutput(k, frame)))
    case Some(ReportResult(k, result)) =>
      if k in s.handles.right then
        (s1.(handles := RemoveByRight(s.handles, k)), Some(DataConfirm(s.handles.right[k], McpsResult(result))))
      else (s1, None)
  }

  // ----- The service as a system of steps

  datatype Event =
    | SubmittingData(retries: nat, data: McpsData)
    | SubmittingCommand(retries: nat, request: Q.DataRequest)   // from the management service
    | Purging(handle: Handle)
    | SendAnswer(key: Key, success: bool)
    | SeeingFrame(pib: Pib, frame: Frame)
    | PollingTable
    | PollingQueue(d: Destination, pib: Pib, timers: Q.Timers)
    | InitAnswer(key: Key, success: bool)
    | UpdateAnswer(key: Key, success: bool)

  /** Events that can occur; a handle may be used again once its request is settled. */
  predicate Enabled(s: Service, e: Event) {
    match e
    case SubmittingData(_, data) => data.handle !in s.handles.left
    case SubmittingCommand(_, request) => request.content.CommandFrame?
    case PollingQueue(d, _, _) => d in s.queues
    case _ => true
  }

  /** The service after an event, and what it puts out; `key` is the next unused key. */
  function Step(s: Service, key: Key, e: Event): (Service, Option<Output>)
    requires e.PollingQueue? ==> e.d in s.queues
  {
    match e
    case SubmittingData(retries, data) => (McpsSubmitted(s, retries, data, key), None)
    case SubmittingCommand(retries, request) => (Submitted(s, retries, request.(key := key)), None)
    case Purging(handle) => var (s1, output) := Purged(s, handle); (s1, Some(output))
    case SendAnswer(k, success) => (SendAnswered(s, k, success), None)
    case SeeingFrame(pib, frame) => (FrameSeen(s, pib, frame), None)
    case PollingTable => TablePolled(s, key)
    case PollingQueue(d, pib, timers) => QueuePolled(s, d, pib, key, timers)
    case InitAnswer(k, success) => (s.(table := C.InitReported(s.table, k, success)), None)
    case UpdateAnswer(k, success) => (s.(table := C.UpdateReported(s.table, k, success)), None)
  }

  // ----- What is queued

  function Requests(q: Q.Queue): set<Q.DataRequest> {
    set i | 0 <= i < |q.entries| :: q.entries[i].data
  }

  function Queued(s: Service): set<Q.DataRequest> {
    set d, r | d in s.queues && r in Requests(s.queues[d]) :: r
  }

  ghost predicate QueueKeysDistinct(q: Q.Queue) {
    forall i, j | 0 <= i < |q.entries| && 0 <= j < |q.entries| && q.entries[i].data.key == q.entries[j].data.key :: i == j
  }

  /** Every entry is in the queue of its destination, under a key of its own. */
  ghost predicate WellQueued(s: Service, next: Key) {
    && (forall d <- s.queues :: QueueKeysDistinct(s.queues[d]))
    && (forall d <- s.queues :: forall r <- Requests(s.queues[d]) :: r.destination == d && r.key < next)
    && (forall r1, r2 | r1 in Queued(s) && r2 in Queued(s) && r1.key == r2.key :: r1 == r2)
  }

  ghost predicate Consistent(b: BiMap) {
    && (forall h <- b.left :: b.left[h] in b.right && b.right[b.left[h]] == h)
    && (forall k <- b.right :: b.right[k] in b.left && b.left[b.right[k]] == k)
  }

  /** The handles are exactly those of the MCPS requests still queued. */
  ghost predicate HandlesMatch(b: BiMap, queued: set<Q.DataRequest>) {
    && Consistent(b)
    && (forall k <- b.right :: exists r <- queued :: r.key == k && r.content.Data?)
    && (forall r <- queued :: r.content.Data? ==> r.key in b.right)
  }

  ghost predicate HandlesExact(s: Service) {
    HandlesMatch(s.handles, Queued(s))
  }

  // ----- How the operations of a queue change what is queued

  function DropKey(requests: set<Q.DataRequest>, key: Key): set<Q.DataRequest> {
    set r | r in requests && r.key != key
  }

  ghost predicate SameData(q: Q.Queue, q': Q.Queue) {
    |q'.entries| == |q.entries| && forall i | 0 <= i < |q.entries| :: q'.entries[i].data == q.entries[i].data
  }

  lemma SameDataKeepsRequests(q: Q.Queue, q': Q.Queue)
    requires SameData(q, q')
    ensures Requests(q') == Requests(q)
    ensures QueueKeysDistinct(q) ==> QueueKeysDistinct(q')
  {
    forall r | r in Requests(q) ensures r in Requests(q') {
      var i :| 0 <= i < |q.entries| && q.entries[i].data == r;
      assert q'.entries[i].data == r;
    }
    forall r | r in Requests(q') ensures r in Requests(q) {
      var i :| 0 <= i < |q'.entries| && q'.entries[i].data == r;
      assert q.entries[i].data == r;
    }
  }

  lemma InsertRequests(q: Q.Queue, request: Q.DataRequest, retries: nat)
    requires QueueKeysDistinct(q) && forall r <- Requests(q) :: r.key != request.key
    ensures var q' := Q.Insert(q, request, retries);
            Requests(q') == Requests(q) + {request} && QueueKeysDistinct(q') && q'.lastPendingReported == q.lastPendingReported
  {
    forall i | 0 <= i < |q.entries| ensures q.entries[i].data.key != request.key {
      assert q.entries[i].data in Requests(q);
    }
    var q' := Q.Insert(q, request, retries);
    assert q'.entries == q.entries + [Q.QueueEntry(request, retries)];
    forall r | r in Requests(q) + {request} ensures r in Requests(q') {
      if r in Requests(q) {
        var i :| 0 <= i < |q.entries| && q.entries[i].data == r;
        assert q'.entries[i].data == r;
      } else {
        assert q'.entries[|q.entries|].data == r;
      }
    }
  }

  lemma DropAtRequests(q: Q.Queue, i: nat, q': Q.Queue)
    requires QueueKeysDistinct(q) && i < |q.entries| && q'.entries == q.entries[..i] + q.entries[i + 1..]
    ensures q.entries[i].data in Requests(q)
    ensures Requests(q') == DropKey(Requests(q), q.entries[i].data.key) && QueueKeysDistinct(q')
  {
    assert forall j | 0 <= j < |q'.entries| :: q'.entries[j] == q.entries[if j < i then j else j + 1];
    forall r | r in DropKey(Requests(q), q.entries[i].data.key) ensures r in Requests(q') {
      var j :| 0 <= j < |q.entries| && q.entries[j].data == r;
      assert q'.entries[if j < i then j else j - 1].data == r;
    }
  }

  lemma RemoveRequests(q: Q.Queue, key: Key)
    requires QueueKeysDistinct(q)
    ensures var q' := Q.Remove(q, key);
            Requests(q') == DropKey(Requests(q), key) && QueueKeysDistinct(q') && q'.lastPendingReported == q.lastPendingReported
    ensures (forall r <- Requests(q) :: r.key != key) ==> Q.Remove(q, key) == q
  {
    if i: nat :| i < |q.entries| && q.entries[i].data.key == key {
      Q.RetainedAt(q.entries, i);
      DropAtRequests(q, i, Q.Remove(q, key));
    } else {
      Q.RetainedAll(q.entries, key);
      assert DropKey(Requests(q), key) == Requests(q);
    }
  }

  /** Polling drops the entry it reports and nothing else. */
  lemma PollRequests(q: Q.Queue, pib: Pib, sendKey: Key, timers: Q.Timers)
    requires QueueKeysDistinct(q)
    ensures var (q', action) := Q.Poll(q, pib, sendKey, timers);
            && QueueKeysDistinct(q')
            && (match action
                case Some(ReportResult(k, _)) =>
                  Requests(q') == DropKey(Requests(q), k) && exists r <- Requests(q) :: r.key == k
                case _ => Requests(q') == Requests(q))
            && (match action
                case Some(SetPending(pending)) => q'.lastPendingReported == Some(pending)
                case Some(Empty) => q.entries == [] && q.lastPendingReported == Some(false)
                case _ => q'.lastPendingReported == q.lastPendingReported)
            && (action.None? ==> q'.entries != [] && q'.lastPendingReported == Some(Q.ShouldBePending(q')))
  {
    if q.lastPendingReported == Some(Q.ShouldBePending(q)) && q.entries != [] && !Q.MaySend(q) {
      if Q.DueResult(q, timers.ack).Some? {
        DropAtRequests(q, 0, Q.Poll(q, pib, sendKey, timers).0);
      } else {
        var settled := Q.Settled(q, timers.ack);
        SameDataKeepsRequests(q, settled);
        match Q.PositionOf(settled.entries, timers.transactions, 0) {
          case None =>
          case Some(i) => DropAtRequests(settled, i, Q.Poll(q, pib, sendKey, timers).0);
        }
      }
    }
  }

  // ----- How the steps of the service change what is queued

  /** All queues keep what they have queued, except for the entry with one key. */
  ghost predicate QueuesDrop(s: Service, s': Service, key: Option<Key>) {
    && s'.queues.Keys == s.queues.Keys
    && forall d <- s.queues ::
         && Requests(s'.queues[d]) == (if key.Some? then DropKey(Requests(s.queues[d]), key.value) else Requests(s.queues[d]))
         && (QueueKeysDistinct(s.queues[d]) ==> QueueKeysDistinct(s'.queues[d]))
  }

  lemma DropFromQueues(s: Service, s': Service, next: Key, key: Option<Key>)
    requires WellQueued(s, next) && QueuesDrop(s, s', key)
    ensures WellQueued(s', next)
    ensures Queued(s') == if key.Some? then DropKey(Queued(s), key.value) else Queued(s)
  {
    forall x ensures x in Queued(s') <==> x in Queued(s) && (key.Some? ==> x.key != key.value) {
      if e :| e in s.queues && x in Requests(s.queues[e]) {
        assert e in s'.queues && x in Requests(s.queues[e]);
      }
      if e :| e in s'.queues && x in Requests(s'.queues[e]) {
        assert e in s.queues && x in Requests(s.queues[e]);
      }
    }
  }

  lemma SameQueues(s: Service, s': Service, next: Key)
    requires WellQueued(s, next) && s'.queues == s.queues
    ensures WellQueued(s', next + 1) && WellQueued(s', next) && Queued(s') == Queued(s)
  {
  }

  /** One queue is replaced by one with these requests. */
  lemma ReplaceQueue(s: Service, d: Destination, q: Q.Queue, s': Service, next: Key, key: Key)
    requires WellQueued(s, next) && s'.queues == s.queues[d := q] && QueueKeysDistinct(q)
    requires d in s.queues && Requests(q) == DropKey(Requests(s.queues[d]), key)
    requires exists r <- Requests(s.queues[d]) :: r.key == key
    ensures WellQueued(s', next) && Queued(s') == DropKey(Queued(s), key)
  {
    var r :| r in Requests(s.queues[d]) && r.key == key;
    assert r in Queued(s);
    forall x | x in Queued(s') ensures x in DropKey(Queued(s), key) {
      var e :| e in s'.queues && x in Requests(s'.queues[e]);
      if e != d {
        assert x in Requests(s.queues[e]) && x in Queued(s);
      }
    }
    forall x | x in DropKey(Queued(s), key) ensures x in Queued(s') {
      var e :| e in s.queues && x in Requests(s.queues[e]);
      assert x in Requests(s'.queues[e]);
    }
  }

  lemma KeepQueue(s: Service, d: Destination, q: Q.Queue, s': Service, next: Key)
    requires WellQueued(s, next) && s'.queues == s.queues[d := q] && QueueKeysDistinct(q)
    requires Requests(q) == if d in s.queues then Requests(s.queues[d]) else {}
    ensures WellQueued(s', next) && Queued(s') == Queued(s)
  {
    forall x ensures x in Queued(s') <==> x in Queued(s) {
      if e :| e in s.queues && x in Requests(s.queues[e]) {
        assert e in s'.queues && x in Requests(s'.queues[e]);
      }
      if e :| e in s'.queues && x in Requests(s'.queues[e]) {
        assert e in s.queues && x in Requests(s.queues[e]);
      }
    }
  }

  lemma DiscardQueue(s: Service, d: Destination, s': Service, next: Key)
    requires WellQueued(s, next) && s'.queues == s.queues - {d} && (d in s.queues ==> Requests(s.queues[d]) == {})
    ensures WellQueued(s', next) && Queued(s') == Queued(s)
  {
    forall x ensures x in Queued(s') <==> x in Queued(s) {
      if e :| e in s.queues && x in Requests(s.queues[e]) {
        assert e in s'.queues && x in Requests(s'.queues[e]);
      }
    }
  }

  lemma SubmitQueued(s: Service, retries: nat, request: Q.DataRequest, next: Key)
    requires WellQueued(s, next) && request.key == next
    ensures var s' := Submitted(s, retries, request);
            WellQueued(s', next + 1) && Queued(s') == Queued(s) + {request} && s'.handles == s.handles && s'.table == s.table
    ensures next !in set r | r in Queued(s) :: r.key
    ensures var s' := Submitted(s, retries, request);
            forall d <- s'.queues :: s'.queues[d].lastPendingReported
                                     == if d in s.queues then s.queues[d].lastPendingReported else None
  {
    var d, s' := request.destination, Submitted(s, retries, request);
    var queue := if d in s.queues then s.queues[d] else Q.NewQueue();
    InsertRequests(queue, request, retries);
    assert request in Requests(s'.queues[d]);
    forall x ensures x in Queued(s') <==> x in Queued(s) || x == request {
      if e :| e in s.queues && x in Requests(s.queues[e]) {
        assert e in s'.queues && x in Requests(s'.queues[e]);
      }
      if e :| e in s'.queues && x in Requests(s'.queues[e]) {
        assert x == request || (e in s.queues && x in Requests(s.queues[e]));
      }
    }
    forall r | r in Queued(s) ensures r.key < next {
      var e :| e in s.queues && r in Requests(s.queues[e]);
    }
  }

  /** The key of the entry that an event takes out of its queue, if any. */
  function Settled(s: Service, key: Key, e: Event): Option<Key>
    requires e.PollingQueue? ==> e.d in s.queues
  {
    match e
    case Purging(handle) => if handle in s.handles.left then Some(s.handles.left[handle]) else None
    case PollingQueue(d, pib, timers) =>
      (match Q.Poll(s.queues[d], pib, key, timers).1
       case Some(ReportResult(k, _)) => Some(k)
       case _ => None)
    case _ => None
  }

  /** What an event adds to the queues. */
  function Added(key: Key, e: Event): set<Q.DataRequest> {
    match e
    case SubmittingData(_, data) => {McpsRequest(data, key)}
    case SubmittingCommand(_, request) => {request.(key := key)}
    case _ => {}
  }

  /** Each step adds what is submitted and drops what is settled, and nothing else. */
  lemma StepQueued(s: Service, key: Key, e: Event)
    requires WellQueued(s, key) && Enabled(s, e)
    ensures var s' := Step(s, key, e).0;
            && WellQueued(s', if Added(key, e) == {} then key else key + 1)
            && Queued(s') == (match Settled(s, key, e) case Some(k) => DropKey(Queued(s), k) case None => Queued(s)) + Added(key, e)
  {
    hide Queued, WellQueued, DropKey, QueuePolled, Q.Poll, FrameSeen, Submitted, C.Poll, C.InitReported, C.UpdateReported;
    var s' := Step(s, key, e).0;
    match e {
      case SubmittingData(retries, data) =>
        SubmitQueued(s, retries, McpsRequest(data, key), key);
        SameQueues(Submitted(s, retries, McpsRequest(data, key)), s', key + 1);
      case SubmittingCommand(retries, request) => SubmitQueued(s, retries, request.(key := key), key);
      case Purging(handle) =>
        if handle !in s.handles.left {
          SameQueues(s, s', key);
        } else {
          forall d | d in s.queues
            ensures Requests(s'.queues[d]) == DropKey(Requests(s.queues[d]), s.handles.left[handle]) && QueueKeysDistinct(s'.queues[d])
          {
            QueueIsWellQueued(s, d, key);
            RemoveRequests(s.queues[d], s.handles.left[handle]);
          }
          DropFromQueues(s, s', key, Some(s.handles.left[handle]));
        }
      case SendAnswer(k, success) =>
        forall d | d in s.queues
          ensures Requests(s'.queues[d]) == Requests(s.queues[d]) && (QueueKeysDistinct(s.queues[d]) ==> QueueKeysDistinct(s'.queues[d]))
        {
          SameDataKeepsRequests(s.queues[d], s'.queues[d]);
        }
        DropFromQueues(s, s', key, None);
      case SeeingFrame(pib, frame) =>
        FrameQueued(s, pib, frame, key);
      case PollingQueue(d, pib, timers) =>
        PollQueued(s, d, pib, timers, key);
      case _ => SameQueues(s, s', key);
    }
    SameQueues(s', s', if Added(key, e) == {} then key else key + 1);
    assert Queued(s') + {} == Queued(s');
  }

  lemma FrameQueued(s: Service, pib: Pib, frame: Frame, key: Key)
    requires WellQueued(s, key)
    ensures var s' := FrameSeen(s, pib, frame); WellQueued(s', key) && Queued(s') == Queued(s)
  {
    var s' := FrameSeen(s, pib, frame);
    assert s'.queues.Keys == s.queues.Keys;
    forall d | d in s.queues
      ensures Requests(s'.queues[d]) == Requests(s.queues[d]) && (QueueKeysDistinct(s.queues[d]) ==> QueueKeysDistinct(s'.queues[d]))
    {
      SameDataKeepsRequests(s.queues[d], s'.queues[d]);
    }
    DropFromQueues(s, s', key, None);
  }

  lemma PollQueued(s: Service, d: Destination, pib: Pib, timers: Q.Timers, key: Key)
    requires WellQueued(s, key) && d in s.queues
    ensures var s' := QueuePolled(s, d, pib, key, timers).0;
            && WellQueued(s', key)
            && Queued(s') == (match Settled(s, key, PollingQueue(d, pib, timers)) case Some(k) => DropKey(Queued(s), k) case None => Queued(s))
  {
    hide Q.Poll, Requests, DropKey, Queued, WellQueued;
    QueueIsWellQueued(s, d, key);
    var (q', action) := Q.Poll(s.queues[d], pib, key, timers);
    var s' := QueuePolled(s, d, pib, key, timers).0;
    PollRequests(s.queues[d], pib, key, timers);
    match action {
      case Some(Empty) =>
        EmptyHasNoRequests(s.queues[d]);
        DiscardQueue(s, d, s', key);
      case Some(ReportResult(k, _)) => ReplaceQueue(s, d, q', s', key, k);
      case _ => KeepQueue(s, d, q', s', key);
    }
  }

  lemma QueueIsWellQueued(s: Service, d: Destination, next: Key)
    requires WellQueued(s, next) && d in s.queues
    ensures QueueKeysDistinct(s.queues[d])
  {
  }

  lemma EmptyHasNoRequests(q: Q.Queue)
    requires q.entries == []
    ensures Requests(q) == {}
  {
  }

  // ----- Handles

  lemma AddHandle(b: BiMap, queued: set<Q.DataRequest>, handle: Handle, r: Q.DataRequest)
    requires HandlesMatch(b, queued) && r.content.Data? && handle !in b.left
    requires forall x <- queued :: x.key != r.key
    ensures HandlesMatch(InsertPair(b, handle, r.key), queued + {r})
    ensures InsertPair(b, handle, r.key) == BiMap(b.left[handle := r.key], b.right[r.key := handle])
  {
    assert r.key !in b.right;
    var c := InsertPair(b, handle, r.key);
    forall k | k in c.right ensures exists x <- queued + {r} :: x.key == k && x.content.Data? {
      if k in b.right {
        var x :| x in queued && x.key == k && x.content.Data?;
        assert x in queued + {r};
      } else {
        assert r in queued + {r};
      }
    }
  }

  lemma AddWithoutHandle(b: BiMap, queued: set<Q.DataRequest>, r: Q.DataRequest)
    requires HandlesMatch(b, queued) && !r.content.Data?
    ensures HandlesMatch(b, queued + {r})
  {
    forall k | k in b.right ensures exists x <- queued + {r} :: x.key == k && x.content.Data? {
      var x :| x in queued && x.key == k && x.content.Data?;
      assert x in queued + {r};
    }
  }

  lemma DropHandle(b: BiMap, queued: set<Q.DataRequest>, key: Key)
    requires HandlesMatch(b, queued)
    ensures HandlesMatch(RemoveByRight(b, key), DropKey(queued, key))
    ensures key in b.right ==> RemoveByLeft(b, b.right[key]) == RemoveByRight(b, key)
  {
    var c := RemoveByRight(b, key);
    forall k | k in c.right ensures exists x <- DropKey(queued, key) :: x.key == k && x.content.Data? {
      var x :| x in queued && x.key == k && x.content.Data?;
      assert x in DropKey(queued, key);
    }
  }

  lemma StepHandles(s: Service, key: Key, e: Event)
    requires WellQueued(s, key) && HandlesExact(s) && Enabled(s, e)
    ensures HandlesExact(Step(s, key, e).0)
  {
    hide WellQueued, FrameSeen, C.Poll, C.InitReported, C.UpdateReported, Submitted, Queued, Q.Poll, HandlesMatch, DropKey,
      InsertPair, RemoveByLeft, RemoveByRight;
    var s' := Step(s, key, e).0;
    var queued := Queued(s);
    StepQueued(s, key, e);
    KeysAreOld(s, key);
    assert queued + {} == queued;
    match e {
      case SubmittingData(retries, data) =>
        SubmitQueued(s, retries, McpsRequest(data, key), key);
        AddHandle(s.handles, queued, data.handle, McpsRequest(data, key));
      case SubmittingCommand(retries, request) =>
        SubmitQueued(s, retries, request.(key := key), key);
        AddWithoutHandle(s.handles, queued, request.(key := key));
      case Purging(handle) =>
        if handle in s.handles.left {
          var k := s.handles.left[handle];
          DropHandle(s.handles, queued, k);
          HandleOf(s.handles, queued, handle);
          assert DropKey(queued, k) + {} == DropKey(queued, k);
        }
      case PollingQueue(d, pib, timers) =>
        PollHandles(s, d, pib, timers, key);
        match Settled(s, key, e) {
          case Some(k) =>
            DropHandle(s.handles, queued, k);
            assert DropKey(queued, k) + {} == DropKey(queued, k);
          case None =>
        }
      case SeeingFrame(pib, frame) => FrameHandles(s, pib, frame);
      case _ =>
    }
  }

  lemma HandleOf(b: BiMap, queued: set<Q.DataRequest>, handle: Handle)
    requires HandlesMatch(b, queued) && handle in b.left
    ensures b.left[handle] in b.right && b.right[b.left[handle]] == handle
  {
  }

  lemma KeysAreOld(s: Service, next: Key)
    requires WellQueued(s, next)
    ensures forall r <- Queued(s) :: r.key < next
    ensures forall r1, r2 | r1 in Queued(s) && r2 in Queued(s) && r1.key == r2.key :: r1 == r2
  {
    forall r | r in Queued(s) ensures r.key < next {
      var d :| d in s.queues && r in Requests(s.queues[d]);
    }
  }

  lemma FrameHandles(s: Service, pib: Pib, frame: Frame)
    ensures FrameSeen(s, pib, frame).handles == s.handles && FrameSeen(s, pib, frame).table == s.table
  {
  }

  lemma PollHandles(s: Service, d: Destination, pib: Pib, timers: Q.Timers, key: Key)
    requires d in s.queues
    ensures QueuePolled(s, d, pib, key, timers).0.handles
            == match Settled(s, key, PollingQueue(d, pib, timers)) case Some(k) => RemoveByRight(s.handles, k) case None => s.handles
  {
  }

  // ----- The pending sets and the queues' reports

  /** A destination is pending only if a queue behind the same entry last reported so. */
  ghost predicate PendingSound(s: Service) {
    forall d | C.IsPending(s.table, d) ::
      exists e <- s.queues :: C.SameEntry(d, e) && s.queues[e].lastPendingReported == Some(true)
  }

  /** A destination whose queue last reported so is pending. */
  ghost predicate PendingComplete(s: Service) {
    forall e <- s.queues :: s.queues[e].lastPendingReported == Some(true) ==> C.IsPending(s.table, e)
  }

  /** No two of the destinations share an entry: each extended address is used with one PAN only. */
  ghost predicate OnePan(ds: set<Destination>) {
    forall d, e | d in ds && e in ds && C.SameEntry(d, e) :: d == e
  }

  ghost predicate KeepsReports(s: Service, s': Service) {
    && (forall d <- s.queues :: d in s'.queues && s'.queues[d].lastPendingReported == s.queues[d].lastPendingReported)
    && (forall d <- s'.queues :: d in s.queues || s'.queues[d].lastPendingReported == None)
    && (forall d :: C.IsPending(s'.table, d) == C.IsPending(s.table, d))
  }

  lemma ReportsKept(s: Service, s': Service)
    requires KeepsReports(s, s')
    ensures PendingSound(s) ==> PendingSound(s')
    ensures PendingComplete(s) ==> PendingComplete(s')
  {
    if PendingSound(s) {
      forall d | C.IsPending(s'.table, d)
        ensures exists e <- s'.queues :: C.SameEntry(d, e) && s'.queues[e].lastPendingReported == Some(true)
      {
        assert C.IsPending(s.table, d);
        var e :| e in s.queues && C.SameEntry(d, e) && s.queues[e].lastPendingReported == Some(true);
        assert e in s'.queues;
      }
    }
  }

  lemma TableKeepsPending(c: C.Combined, key: Key, success: bool)
    ensures forall d :: C.IsPending(C.Poll(c, key).0, d) == C.IsPending(c, d)
    ensures forall d :: C.IsPending(C.InitReported(c, key, success), d) == C.IsPending(c, d)
    ensures forall d :: C.IsPending(C.UpdateReported(c, key, success), d) == C.IsPending(c, d)
  {
  }

  /** A queue's report about its destination reaches the sets. */
  lemma ReportReaches(s: Service, s': Service, d: Destination, pending: bool)
    requires d in s.queues && s'.queues.Keys == s.queues.Keys && s'.table == C.Set(s.table, d, pending)
    requires s'.queues[d].lastPendingReported == Some(pending)
    requires forall e <- s.queues :: e != d ==> s'.queues[e].lastPendingReported == s.queues[e].lastPendingReported
    ensures PendingSound(s) ==> PendingSound(s')
    ensures PendingComplete(s) && OnePan(s.queues.Keys) ==> PendingComplete(s')
  {
    if PendingSound(s) {
      forall x | C.IsPending(s'.table, x)
        ensures exists e <- s'.queues :: C.SameEntry(x, e) && s'.queues[e].lastPendingReported == Some(true)
      {
        C.SetDecides(s.table, d, pending, x);
        if C.SameEntry(d, x) {
          assert C.SameEntry(x, d) && d in s'.queues;
        } else {
          var e :| e in s.queues && C.SameEntry(x, e) && s.queues[e].lastPendingReported == Some(true);
          assert e in s'.queues;
        }
      }
    }
    if PendingComplete(s) && OnePan(s.queues.Keys) {
      forall e | e in s'.queues && s'.queues[e].lastPendingReported == Some(true) ensures C.IsPending(s'.table, e) {
        C.SetDecides(s.table, d, pending, e);
        assert e in s.queues.Keys && d in s.queues.Keys;
      }
    }
  }

  lemma DiscardKeepsPending(s: Service, s': Service, d: Destination)
    requires d in s.queues && s'.queues == s.queues - {d} && s'.table == s.table
    requires s.queues[d].lastPendingReported == Some(false)
    ensures PendingSound(s) ==> PendingSound(s')
    ensures PendingComplete(s) ==> PendingComplete(s')
  {
    if PendingSound(s) {
      forall x | C.IsPending(s'.table, x)
        ensures exists e <- s'.queues :: C.SameEntry(x, e) && s'.queues[e].lastPendingReported == Some(true)
      {
        var e :| e in s.queues && C.SameEntry(x, e) && s.queues[e].lastPendingReported == Some(true);
        assert e in s'.queues;
      }
    }
  }

  lemma StepPending(s: Service, key: Key, e: Event)
    requires WellQueued(s, key) && Enabled(s, e)
    ensures var s' := Step(s, key, e).0;
            && (PendingSound(s) ==> PendingSound(s'))
            && (PendingComplete(s) && OnePan(s.queues.Keys) ==> PendingComplete(s'))
  {
    hide WellQueued, FrameSeen, C.Poll, C.InitReported, C.UpdateReported, Submitted, Q.Poll, PendingSound, PendingComplete,
      C.IsPending, C.Set;
    var s' := Step(s, key, e).0;
    match e {
      case SubmittingData(retries, data) =>
        SubmitQueued(s, retries, McpsRequest(data, key), key);
        SubmitDestination(s, retries, McpsRequest(data, key));
        ReportsKept(s, s');
      case SubmittingCommand(retries, request) =>
        SubmitQueued(s, retries, request.(key := key), key);
        SubmitDestination(s, retries, request.(key := key));
        ReportsKept(s, s');
      case SeeingFrame(pib, frame) =>
        FrameHandles(s, pib, frame);
        FrameKeepsReports(s, pib, frame);
        ReportsKept(s, s');
      case PollingQueue(d, pib, timers) => PollPending(s, d, pib, timers, key);
      case PollingTable =>
        TableKeepsPending(s.table, key, true);
        ReportsKept(s, s');
      case InitAnswer(k, success) =>
        TableKeepsPending(s.table, k, success);
        ReportsKept(s, s');
      case UpdateAnswer(k, success) =>
        TableKeepsPending(s.table, k, success);
        ReportsKept(s, s');
      case _ => ReportsKept(s, s');
    }
  }

  lemma SubmitDestination(s: Service, retries: nat, request: Q.DataRequest)
    ensures Submitted(s, retries, request).queues.Keys == s.queues.Keys + {request.destination}
  {
  }

  lemma FrameKeepsReports(s: Service, pib: Pib, frame: Frame)
    ensures var s' := FrameSeen(s, pib, frame);
            s'.queues.Keys == s.queues.Keys &&
            forall d <- s.queues :: s'.queues[d].lastPendingReported == s.queues[d].lastPendingReported
  {
  }

  lemma PollPending(s: Service, d: Destination, pib: Pib, timers: Q.Timers, key: Key)
    requires WellQueued(s, key) && d in s.queues
    ensures var s' := QueuePolled(s, d, pib, key, timers).0;
            && (PendingSound(s) ==> PendingSound(s'))
            && (PendingComplete(s) && OnePan(s.queues.Keys) ==> PendingComplete(s'))
  {
    hide Q.Poll, WellQueued, Queued, PendingSound, PendingComplete, C.IsPending, C.Set, Requests, DropKey;
    QueueIsWellQueued(s, d, key);
    PollRequests(s.queues[d], pib, key, timers);
    var s' := QueuePolled(s, d, pib, key, timers).0;
    match Q.Poll(s.queues[d], pib, key, timers).1 {
      case Some(Empty) => DiscardKeepsPending(s, s', d);
      case Some(SetPending(pending)) => ReportReaches(s, s', d, pending);
      case _ => ReportsKept(s, s');
    }
  }

  /** Every queue has something to send and has reported truly whether it waits for a data request. */
  ghost predicate Quiet(s: Service) {
    forall d <- s.queues ::
      s.queues[d].entries != [] && s.queues[d].lastPendingReported == Some(Q.ShouldBePending(s.queues[d]))
  }
}
