/**
 * One attempt to send an entry: from the frame that is handed out to the result that is reported,
 * whatever else happens to the queue in between.
 */
module DeviceQueueAttempts {
  import opened Prelude
  import opened Frames
  import opened Pibs
  import opened PendingTables
  import opened DeviceQueues
  import opened DeviceQueueRuns

  /** The entry, the key of its frame, and the sequence number whose acknowledgement is awaited, if any. */
  datatype Attempt = Attempt(entryKey: Key, sendKey: Key, awaited: Option<byte>)

  /** What has been heard of an attempt: that the radio sent the frame, and the first acknowledgement. */
  datatype Heard = Heard(sent: bool, acked: Option<seq<byte>>)

  const NOTHING_YET := Heard(false, None)

  function Hears(h: Heard, a: Attempt, e: Event): Heard {
    match e
    case SendAnswer(key, success) => if key == a.sendKey && success then h.(sent := true) else h
    case AckReceived(seqNr, payload) =>
      if a.awaited.Some? && seqNr == a.awaited && h.acked.None? then h.(acked := Some(payload)) else h
    case _ => h
  }

  /** The frame was sent and, if that was asked for, acknowledged. */
  predicate Succeeded(h: Heard, a: Attempt) {
    h.sent && (a.awaited.Some? ==> h.acked.Some?)
  }

  function PayloadOf(h: Heard): seq<byte> {
    if h.acked.Some? then h.acked.value else []
  }

  /** Everything that does not make the attempt fail or take its entry away; in particular all that concerns other entries. */
  predicate IsHarmless(a: Attempt, e: Event) {
    match e
    case Removing(key) => key != a.entryKey
    case SendAnswer(key, success) => key == a.sendKey ==> success
    case Polling(_, _, timers) => !timers.ack && a.entryKey !in timers.transactions
    case _ => true
  }

  function StateOf(a: Attempt, h: Heard): State {
    if Succeeded(h, a) then HaveResult(Ok(PayloadOf(h)))
    else if h.sent then WaitingForAck(a.awaited.value)
    else Sending(a.sendKey, if h.acked.Some? then None else a.awaited, PayloadOf(h))
  }

  /** The queue is exactly as far with the attempt as what was heard of it. */
  predicate IsUnderWay(q: Queue, a: Attempt, h: Heard) {
    && q.entries != [] && q.entries[0].data.key == a.entryKey && q.state == StateOf(a, h)
    && (a.awaited.None? ==> h.acked.None?)
  }

  /** The step reports the entry as delivered, with the payload of the first acknowledgement. */
  predicate IsDelivery(action: Option<Action>, a: Attempt, h: Heard) {
    Succeeded(h, a) && action == Some(ReportResult(a.entryKey, Ok(PayloadOf(h))))
  }

  /** Any harmless step delivers the entry or leaves the attempt under way. */
  lemma AttemptStep(q: Queue, e: Event, a: Attempt, h: Heard)
    requires IsUnderWay(q, a, h) && IsHarmless(a, e)
    ensures var (q', action) := Step(q, e);
            IsDelivery(action, a, h) || IsUnderWay(q', a, Hears(h, a, e))
  {
    match e {
      case Removing(key) => RetainedFront(q.entries, key);
      case Polling(pib, key, timers) => AttemptPoll(q, pib, key, timers, a, h);
      case _ =>
    }
  }

  lemma AttemptPoll(q: Queue, pib: Pib, key: Key, timers: Timers, a: Attempt, h: Heard)
    requires IsUnderWay(q, a, h) && IsHarmless(a, Polling(pib, key, timers))
    ensures var (q', action) := Poll(q, pib, key, timers);
            if Succeeded(h, a) && q.lastPendingReported == Some(ShouldBePending(q)) then IsDelivery(action, a, h)
            else IsUnderWay(q', a, h) && (Succeeded(h, a) ==> q'.lastPendingReported == Some(ShouldBePending(q')))
  {
    hide CreateFrame;
  }

  function AttemptOf(r: Record): Attempt
    requires IsSend(r)
  {
    var SendFrame(key, frame) := r.action.value;
    Attempt(r.pre.entries[0].data.key, key, if frame.acknowledgeRequest then frame.sequenceNumber else None)
  }

  lemma AttemptStarts(r: Record)
    requires Step(r.pre, r.event) == (r.post, r.action) && IsSend(r)
    ensures IsUnderWay(r.post, AttemptOf(r), NOTHING_YET)
  {
    hide PositionOf;
  }

  /** What was heard of the attempt at position j in the rest of a run. */
  function HeardSince(tr: seq<Record>, j: nat): Heard
    requires j < |tr| && IsSend(tr[j])
    decreases |tr|
  {
    if |tr| == j + 1 then NOTHING_YET
    else Hears(HeardSince(tr[..|tr| - 1], j), AttemptOf(tr[j]), tr[|tr| - 1].event)
  }

  /**
   * An attempt that nothing makes fail succeeds: with any other steps in between, either the entry
   * is reported as delivered, or the attempt is still under way, exactly as far as the radio and
   * the receiver have answered.
   */
  lemma {:induction false} QueueDelivers(tr: seq<Record>, j: nat)
    requires IsRun(tr) && j < |tr| && IsSend(tr[j])
    requires forall i | j < i < |tr| :: IsHarmless(AttemptOf(tr[j]), tr[i].event)
    ensures || IsUnderWay(Final(tr), AttemptOf(tr[j]), HeardSince(tr, j))
            || exists i | j < i < |tr| :: IsDelivery(tr[i].action, AttemptOf(tr[j]), HeardSince(tr[..i], j))
    decreases |tr|
  {
    hide Step, IsHarmless, IsUnderWay, IsDelivery, HeardSince;
    var last := |tr| - 1;
    RunInit(tr);
    if j == last {
      AttemptStarts(tr[j]);
      HeardAtFirst(tr, j);
    } else {
      QueueDelivers(Init(tr), j);
      if i :| j < i < last && IsDelivery(Init(tr)[i].action, AttemptOf(tr[j]), HeardSince(Init(tr)[..i], j)) {
        assert tr[i] == Init(tr)[i] && tr[..i] == Init(tr)[..i];
      } else {
        AttemptStep(tr[last].pre, tr[last].event, AttemptOf(tr[j]), HeardSince(Init(tr), j));
        HeardMore(tr, j);
      }
    }
  }

  lemma HeardAtFirst(tr: seq<Record>, j: nat)
    requires j + 1 == |tr| && IsSend(tr[j])
    ensures HeardSince(tr, j) == NOTHING_YET
  {
  }

  lemma HeardMore(tr: seq<Record>, j: nat)
    requires j + 1 < |tr| && IsSend(tr[j])
    ensures tr[..|tr| - 1] == Init(tr) && HeardSince(tr, j) == Hears(HeardSince(Init(tr), j), AttemptOf(tr[j]), tr[|tr| - 1].event)
  {
  }

  // ----- From the data request to the frame

  /** An entry at the front of an idle queue whose device has asked for it. */
  predicate IsAskedFor(q: Queue, key: Key) {
    q.entries != [] && q.entries[0].data.key == key && q.state == Idle(true)
  }

  predicate SendsEntry(q: Queue, action: Option<Action>, key: Key) {
    action.Some? && action.value.SendFrame? && q.entries != [] && q.entries[0].data.key == key
  }

  /** Any step but the removal of the entry sends it or leaves it asked for. */
  lemma AskedStep(q: Queue, e: Event, key: Key)
    requires IsAskedFor(q, key) && (e.Removing? ==> e.key != key)
    ensures var (q', action) := Step(q, e);
            SendsEntry(q, action, key) || IsAskedFor(q', key)
  {
    hide CreateFrame;
    match e {
      case Removing(k) => RetainedFront(q.entries, k);
      case _ =>
    }
  }
}
