/** Every queue inside the service has a run of its own; what holds for queues thus holds in the service. */
module DataServiceHistories {
  import opened Prelude
  import opened Addresses
  import opened Frames
  import opened Pibs
  import opened PendingTables
  import opened DataServices
  import opened DataServiceRuns
  import Q = DeviceQueues
  import H = DeviceQueueRuns

  /** What an event of the service means to the queue of one destination. */
  function QueueEvent(r: Record, d: Destination): Option<H.Event> {
    match r.event
    case SubmittingData(retries, data) =>
      if data.destination == d then Some(H.Inserting(McpsRequest(data, r.key), retries)) else None
    case SubmittingCommand(retries, request) =>
      if request.destination == d then Some(H.Inserting(request.(key := r.key), retries)) else None
    case Purging(handle) =>
      if handle in r.pre.handles.left then Some(H.Removing(r.pre.handles.left[handle])) else None
    case SendAnswer(key, success) => Some(H.SendAnswer(key, success))
    case SeeingFrame(pib, frame) =>
      (match frame.frameType
       case Ack(payload) => Some(H.AckReceived(frame.sequenceNumber, payload))
       case CommandFrame(DataRequestCommand) =>
         if frame.source == d && (frame.destination == Some(FullShortAddress(pib)) || frame.destination == Some(FullExtendedAddress(pib)))
         then Some(H.DataRequested) else None
       case _ => None)
    case PollingQueue(e, pib, timers) => if e == d then Some(H.Polling(pib, r.key, timers)) else None
    case _ => None
  }

  function QueueBefore(r: Record, d: Destination): Q.Queue {
    if d in r.pre.queues then r.pre.queues[d] else Q.NewQueue()
  }

  function QueueRecord(q: Q.Queue, e: H.Event): H.Record {
    var (q', action) := H.Step(q, e);
    H.Record(q, e, action, q')
  }

  /** The events that concerned the queue of a destination since that queue was created. */
  function History(tr: seq<Record>, d: Destination): seq<H.Record> {
    if tr == [] then []
    else
      var r := tr[|tr| - 1];
      if d !in r.post.queues then []
      else
        var earlier := if d in r.pre.queues then History(tr[..|tr| - 1], d) else [];
        match QueueEvent(r, d)
        case Some(e) => earlier + [QueueRecord(QueueBefore(r, d), e)]
        case None => earlier
  }

  lemma StepOfQueue(r: Record, d: Destination)
    requires IsStep(r) && d in r.post.queues
    ensures match QueueEvent(r, d)
            case Some(e) => r.post.queues[d] == H.Step(QueueBefore(r, d), e).0
            case None => d in r.pre.queues && r.post.queues[d] == r.pre.queues[d]
  {
    hide Q.Poll, Q.Insert, Q.Remove, Q.SendReported, Q.Acknowledged, Q.DataRequestSeen;
  }

  lemma AppendRecord(h: seq<H.Record>, q: Q.Queue, e: H.Event)
    requires H.IsRun(h) && H.Final(h) == q
    ensures H.IsRun(h + [QueueRecord(q, e)]) && H.Final(h + [QueueRecord(q, e)]) == H.Step(q, e).0
  {
    hide H.Step;
    var h' := h + [QueueRecord(q, e)];
    forall i | 0 <= i < |h'| ensures (h'[i].post, h'[i].action) == H.Step(h'[i].pre, h'[i].event) {
      if i < |h| { assert h'[i] == h[i]; }
    }
    forall i | 0 <= i < |h'| - 1 ensures h'[i + 1].pre == h'[i].post {
      assert h'[i] == h[i];
      if i + 1 < |h| { assert h'[i + 1] == h[i + 1]; }
    }
  }

  /** The history of a queue is a run that ends with the queue as it is. */
  lemma {:induction false} HistoryIsRun(tr: seq<Record>, d: Destination)
    requires IsRun(tr) && d in Final(tr).queues
    ensures H.IsRun(History(tr, d)) && H.Final(History(tr, d)) == Final(tr).queues[d]
    decreases |tr|
  {
    var r := tr[|tr| - 1];
    RunInit(tr);
    StepOfQueue(r, d);
    if d in r.pre.queues {
      HistoryIsRun(Init(tr), d);
    }
    var earlier := if d in r.pre.queues then History(Init(tr), d) else [];
    match QueueEvent(r, d) {
      case Some(e) => AppendRecord(earlier, QueueBefore(r, d), e);
      case None =>
    }
  }

  /**
   * A positive confirm is earned: since the queue was created, the radio reported the last frame
   * handed out for the request as sent, and if the request asked for it, an acknowledgement with
   * that frame's sequence number and this payload was received.
   */
  lemma ConfirmIsEarned(tr: seq<Record>, i: nat, handle: Handle, payload: seq<byte>)
    requires IsRun(tr) && i < |tr| && tr[i].output == Some(DataConfirm(handle, Ok(payload)))
    ensures tr[i].event.PollingQueue? && tr[i].event.d in tr[i].pre.queues
    ensures var d := tr[i].event.d;
            var h := History(tr[..i], d);
            var j := H.LastSend(h);
            && j >= 0 && H.Earned(h, j, payload)
            && var key := h[j].pre.entries[0].data.key;
               key in tr[i].pre.handles.right && tr[i].pre.handles.right[key] == handle
  {
    hide Q.Poll, H.Busy, H.LastSend, H.Earned, History;
    RunPrefix(tr, i);
    var r := tr[i];
    assert IsStep(r);
    match r.event {
      case PollingQueue(d, pib, timers) =>
        var h := History(tr[..i], d);
        HistoryIsRun(tr[..i], d);
        PolledConfirm(r.pre, d, pib, timers, r.key, handle, payload);
        var key :| key in r.pre.handles.right && r.pre.handles.right[key] == handle &&
                   Q.Poll(r.pre.queues[d], pib, r.key, timers).1 == Some(Q.ReportResult(key, Ok(payload)));
        LastReport(h, r.pre.queues[d], pib, r.key, timers, key, payload);
      case _ =>
    }
  }

  lemma PolledConfirm(s: Service, d: Destination, pib: Pib, timers: Q.Timers, key: Key, handle: Handle, payload: seq<byte>)
    requires d in s.queues && QueuePolled(s, d, pib, key, timers).1 == Some(DataConfirm(handle, Ok(payload)))
    ensures exists k :: k in s.handles.right && s.handles.right[k] == handle &&
              Q.Poll(s.queues[d], pib, key, timers).1 == Some(Q.ReportResult(k, Ok(payload)))
  {
    hide Q.Poll;
    match Q.Poll(s.queues[d], pib, key, timers).1 {
      case Some(ReportResult(k, result)) => assert k in s.handles.right && result == Ok(payload);
      case _ =>
    }
  }

  lemma LastReport(h: seq<H.Record>, q: Q.Queue, pib: Pib, sendKey: Key, timers: Q.Timers, key: Key, payload: seq<byte>)
    requires H.IsRun(h) && H.Final(h) == q
    requires Q.Poll(q, pib, sendKey, timers).1 == Some(Q.ReportResult(key, Ok(payload)))
    ensures var j := H.LastSend(h); j >= 0 && h[j].pre.entries[0].data.key == key && H.Earned(h, j, payload)
  {
    hide H.Step, H.Earned;
    var e := H.Polling(pib, sendKey, timers);
    AppendRecord(h, q, e);
    StepIsPoll(q, pib, sendKey, timers);
    var h' := h + [QueueRecord(q, e)];
    H.OkIsEarned(h', |h|, key, payload);
    assert h'[..|h|] == h;
  }

  lemma StepIsPoll(q: Q.Queue, pib: Pib, sendKey: Key, timers: Q.Timers)
    ensures H.Step(q, H.Polling(pib, sendKey, timers)) == Q.Poll(q, pib, sendKey, timers)
  {
  }
}
