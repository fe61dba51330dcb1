/** What holds over the runs of one send queue, said of every request in a run of the whole service. */
module DataServiceLimits {
  import opened Prelude
  import opened Addresses
  import opened Frames
  import opened Pibs
  import opened PendingTables
  import opened DataServices
  import opened DataServiceRuns
  import opened DataServiceHistories
  import Q = DeviceQueues
  import H = DeviceQueueRuns

  // ----- Keys inside the histories of the queues are fresh

  lemma UsedKeyGrows(tr: seq<Record>, i: nat, j: nat)
    requires IsRun(tr) && i < j < |tr| && UsesKey(tr[i])
    ensures tr[i].key < tr[j].key
  {
    hide IsStep, UsesKey;
    KeyGrows(tr, i + 1, j);
  }

  /** A step that hands out a frame for a destination. */
  predicate HandsOut(r: Record, d: Destination) {
    r.event.PollingQueue? && r.event.d == d && r.output.Some? && r.output.value.FrameOutput?
  }

  /** What a step means to a queue, in terms of what the service shows. */
  lemma RecordOf(r: Record, d: Destination)
    requires IsStep(r) && d in r.post.queues && QueueEvent(r, d).Some?
    ensures var h := QueueRecord(QueueBefore(r, d), QueueEvent(r, d).value);
            && (H.IsSend(h) <==> HandsOut(r, d))
            && (H.IsSend(h) ==>
                  && FrontOf(r) == Some(h.pre.entries[0].data) && r.output.value.sendKey == h.action.value.key == r.key
                  && r.output.value.frame == h.action.value.frame)
            && (H.Accepted(h) == [] || (H.Accepted(h) == [r.key] && h.event.Inserting?))
  {
    hide Q.Insert, Q.Remove, Q.SendReported, Q.Acknowledged, Q.DueResult, Q.Settled, Q.Contains, Q.CreateFrame;
  }

  lemma NothingHandedOut(r: Record, d: Destination)
    requires IsStep(r) && d in r.post.queues && QueueEvent(r, d).None?
    ensures !HandsOut(r, d)
  {
  }

  ghost predicate KeysBelow(h: seq<H.Record>, next: Key) {
    && Distinct(H.InsertedKeys(h)) && (forall k <- H.InsertedKeys(h) :: k < next)
    && H.FreshSendKeys(h) && (forall i | 0 <= i < |h| && H.IsSend(h[i]) :: h[i].action.value.key < next)
  }

  lemma InsertedAppend(h: seq<H.Record>, r: H.Record)
    ensures H.InsertedKeys(h + [r]) == H.InsertedKeys(h) + H.Accepted(r)
  {
    assert (h + [r])[..|h|] == h;
  }

  lemma KeysStayBelow(h: seq<H.Record>, r: H.Record, key: Key, next: Key)
    requires KeysBelow(h, key) && key <= next
    requires H.Accepted(r) == [] || (H.Accepted(r) == [key] && key < next)
    requires H.IsSend(r) ==> r.action.value.key == key < next
    ensures KeysBelow(h + [r], next)
  {
    hide H.Accepted, H.InsertedKeys;
    InsertedAppend(h, r);
    if H.Accepted(r) == [key] {
      DistinctAppend(H.InsertedKeys(h), key);
    } else {
      assert H.InsertedKeys(h) + [] == H.InsertedKeys(h);
    }
    var h' := h + [r];
    forall i, j | 0 <= i < j < |h'| && H.IsSend(h'[i]) && H.IsSend(h'[j]) ensures h'[i].action.value.key != h'[j].action.value.key {
      assert h'[i] == h[i];
      if j < |h| { assert h'[j] == h[j]; }
    }
    forall i | 0 <= i < |h'| && H.IsSend(h'[i]) ensures h'[i].action.value.key < next {
      if i < |h| { assert h'[i] == h[i]; }
    }
  }

  lemma StepUses(r: Record, d: Destination)
    requires IsStep(r)
    ensures HandsOut(r, d) ==> UsesKey(r)
    ensures QueueEvent(r, d).Some? && QueueEvent(r, d).value.Inserting? ==> UsesKey(r)
  {
  }

  lemma {:induction false} HistoryKeysAreFresh(tr: seq<Record>, d: Destination)
    requires IsRun(tr) && d in Final(tr).queues
    ensures KeysBelow(History(tr, d), NextKey(tr))
    decreases |tr|
  {
    var r := tr[|tr| - 1];
    RunInit(tr);
    var earlier := if d in r.pre.queues then History(Init(tr), d) else [];
    if d in r.pre.queues {
      HistoryKeysAreFresh(Init(tr), d);
    }
    assert KeysBelow(earlier, r.key);
    match QueueEvent(r, d) {
      case Some(e) =>
        RecordOf(r, d);
        StepUses(r, d);
        hide IsStep, HandsOut, UsesKey, KeysBelow, QueueRecord, QueueBefore, H.IsSend, H.Accepted, FrontOf;
        KeysStayBelow(earlier, QueueRecord(QueueBefore(r, d), e), r.key, NextKey(tr));
      case None =>
    }
  }

  // ----- Frames of one request over the whole run

  /** How often a frame was handed out for the request with this key. */
  function FramesFor(tr: seq<Record>, key: Key): nat {
    if tr == [] then 0 else FramesFor(Init(tr), key) + if SendsFor(tr[|tr| - 1], key) then 1 else 0
  }

  lemma {:induction false} OnlyOldKeysAreSent(tr: seq<Record>, key: Key)
    requires IsRun(tr) && key >= NextKey(tr)
    ensures FramesFor(tr, key) == 0
    decreases |tr|
  {
    if tr != [] {
      var r := tr[|tr| - 1];
      RunInit(tr);
      OnlyOldKeysAreSent(Init(tr), key);
      if SendsFor(r, key) {
        OutputConcernsQueued(tr, |tr| - 1);
        RunKeepsInv(Init(tr));
        LaterKey(r.pre, NextKey(Init(tr)), r.key);
        KeysAreOld(r.pre, r.key);
      }
    }
  }

  predicate Holds(q: Q.Queue, key: Key) {
    key in H.Keys(q.entries)
  }

  lemma HeldIsQueued(s: Service, d: Destination, key: Key)
    requires d in s.queues && Holds(s.queues[d], key)
    ensures exists r <- Queued(s) :: r.key == key && r in Requests(s.queues[d])
  {
    var q := s.queues[d];
    var i :| 0 <= i < |q.entries| && H.Keys(q.entries)[i] == key;
    assert q.entries[i].data in Requests(q) && q.entries[i].data in Queued(s);
  }

  /** While a request is queued, only its own queue sends for it. */
  lemma SentByItsQueue(tr: seq<Record>, i: nat, d: Destination, key: Key)
    requires IsRun(tr) && i < |tr| && d in tr[i].pre.queues && Holds(tr[i].pre.queues[d], key) && SendsFor(tr[i], key)
    ensures HandsOut(tr[i], d)
  {
    hide IsStep, Q.Poll;
    var r := tr[i];
    RunOutcome(tr, i, 0);
    OutputConcernsQueued(tr, i);
    HeldIsQueued(r.pre, d, key);
    var mine :| mine in Queued(r.pre) && mine.key == key && mine in Requests(r.pre.queues[d]);
    KeysAreOld(r.pre, r.key);
    var front := FrontOf(r).value;
    assert front == mine;
    assert r.pre.queues[r.event.d].entries[0].data in Requests(r.pre.queues[r.event.d]);
  }

  /** A request that was not queued before a step of its queue is the one that the step submitted. */
  lemma NewlyHeld(r: H.Record, key: Key)
    requires H.Step(r.pre, r.event) == (r.post, r.action) && Distinct(H.Keys(r.pre.entries))
    requires Holds(r.post, key) && !Holds(r.pre, key)
    ensures H.Accepted(r) == [key]
  {
    hide H.Step, H.Accepted;
    var c := H.StepChange(r);
  }

  lemma SendsAppend(h: seq<H.Record>, r: H.Record, key: Key)
    ensures H.SendsOf(h + [r], key) == H.SendsOf(h, key) + H.SendsBy(r, key)
  {
    assert (h + [r])[..|h|] == h;
  }

  lemma UnknownIsNeverSent(h: seq<H.Record>, key: Key, next: Key)
    requires H.IsRun(h) && KeysBelow(h, next) && next <= key
    ensures H.SendsOf(h, key) == 0
  {
    hide H.IsRun;
    H.DirectSendsAreLimited(h);
    H.AcceptedIsInserted(h, key);
    assert H.Limit(h, key);
  }

  /** The last step of a run, seen from one queue. */
  lemma LastStepOf(tr: seq<Record>, d: Destination) returns (earlier: seq<H.Record>)
    requires IsRun(tr) && d in Final(tr).queues
    ensures var r := tr[|tr| - 1];
            && earlier == (if d in r.pre.queues then History(Init(tr), d) else [])
            && H.IsRun(earlier) && KeysBelow(earlier, r.key) && H.Final(earlier) == QueueBefore(r, d)
            && History(tr, d) == (match QueueEvent(r, d)
                                  case Some(e) => earlier + [QueueRecord(QueueBefore(r, d), e)]
                                  case None => earlier)
  {
    var r := tr[|tr| - 1];
    RunInit(tr);
    hide IsStep, IsRun;
    earlier := if d in r.pre.queues then History(Init(tr), d) else [];
    if d in r.pre.queues {
      HistoryIsRun(Init(tr), d);
      HistoryKeysAreFresh(Init(tr), d);
    }
  }

  /** As long as a request is queued, its frames are those in the history of its queue. */
  lemma {:induction false} FramesAreInHistory(tr: seq<Record>, d: Destination, key: Key)
    requires IsRun(tr) && d in Final(tr).queues && Holds(Final(tr).queues[d], key)
    ensures FramesFor(tr, key) == H.SendsOf(History(tr, d), key)
    decreases |tr|
  {
    var r := tr[|tr| - 1];
    var earlier := LastStepOf(tr, d);
    RunInit(tr);
    hide History, H.SendsOf, H.IsRun, H.Final, KeysBelow;
    if d in r.pre.queues && Holds(r.pre.queues[d], key) {
      FramesAreInHistory(Init(tr), d, key);
      OldFrames(tr, d, key, earlier);
    } else {
      NewFrames(tr, d, key, earlier);
    }
  }

  lemma OldFrames(tr: seq<Record>, d: Destination, key: Key, earlier: seq<H.Record>)
    requires IsRun(tr) && tr != [] && d in Final(tr).queues
    requires var r := tr[|tr| - 1];
             && d in r.pre.queues && Holds(r.pre.queues[d], key) && FramesFor(Init(tr), key) == H.SendsOf(earlier, key)
             && History(tr, d) == (match QueueEvent(r, d)
                                   case Some(e) => earlier + [QueueRecord(QueueBefore(r, d), e)]
                                   case None => earlier)
    ensures FramesFor(tr, key) == H.SendsOf(History(tr, d), key)
  {
    hide Step, Holds, History, QueueRecord, FrontOf, H.SendsOf;
    var r := tr[|tr| - 1];
    if SendsFor(r, key) {
      SentByItsQueue(tr, |tr| - 1, d, key);
    }
    match QueueEvent(r, d) {
      case Some(e) =>
        RecordOf(r, d);
        SendsAppend(earlier, QueueRecord(QueueBefore(r, d), e), key);
      case None => NothingHandedOut(r, d);
    }
  }

  lemma NewFrames(tr: seq<Record>, d: Destination, key: Key, earlier: seq<H.Record>)
    requires IsRun(tr) && tr != [] && d in Final(tr).queues && Holds(Final(tr).queues[d], key)
    requires var r := tr[|tr| - 1];
             && (d in r.pre.queues ==> !Holds(r.pre.queues[d], key))
             && H.IsRun(earlier) && KeysBelow(earlier, r.key) && H.Final(earlier) == QueueBefore(r, d)
             && History(tr, d) == (match QueueEvent(r, d)
                                   case Some(e) => earlier + [QueueRecord(QueueBefore(r, d), e)]
                                   case None => earlier)
    ensures FramesFor(tr, key) == 0 == H.SendsOf(History(tr, d), key)
  {
    var r := tr[|tr| - 1];
    RunInit(tr);
    StepOfQueue(r, d);
    var h := QueueRecord(QueueBefore(r, d), QueueEvent(r, d).value);
    RecordOf(r, d);
    H.Conservation(earlier);
    NewlyHeld(h, key);
    hide IsStep, H.IsRun, H.Step, FrontOf;
    OnlyOldKeysAreSent(Init(tr), key);
    UnknownIsNeverSent(earlier, key, r.key);
    SendsAppend(earlier, h, key);
  }

  // ----- The retry limit of every request

  /** What a step submits: the request under its new key, and the retries it is given. */
  function Submission(r: Record): Option<Q.QueueEntry> {
    match r.event
    case SubmittingData(retries, data) => Some(Q.QueueEntry(McpsRequest(data, r.key), retries))
    case SubmittingCommand(retries, request) => Some(Q.QueueEntry(request.(key := r.key), retries))
    case _ => None
  }

  lemma SubmittedOnce(tr: seq<Record>, i: nat, j: nat)
    requires IsRun(tr) && i < |tr| && j < |tr| && Submission(tr[i]).Some? && Submission(tr[j]).Some? && tr[i].key == tr[j].key
    ensures i == j
  {
    if i < j {
      UsedKeyGrows(tr, i, j);
    } else if j < i {
      UsedKeyGrows(tr, j, i);
    }
  }

  /** What a queue accepted is what the service was asked to send. */
  lemma {:induction false} AcceptedWasSubmitted(tr: seq<Record>, d: Destination, key: Key)
    requires IsRun(tr) && d in Final(tr).queues && H.AcceptedAs(History(tr, d), key).Some?
    ensures exists i | 0 <= i < |tr| :: tr[i].key == key && Submission(tr[i]) == H.AcceptedAs(History(tr, d), key)
    decreases |tr|
  {
    hide IsRun, IsStep, H.IsRun, KeysBelow, H.Accepted, H.IsSend, H.AcceptedAs, History, QueueBefore, QueueRecord, FrontOf;
    var last := |tr| - 1;
    var r := tr[last];
    var earlier := LastStepOf(tr, d);
    RunInit(tr);
    var accepted := H.AcceptedAs(History(tr, d), key);
    if QueueEvent(r, d).Some? {
      RecordOf(r, d);
      var h := QueueRecord(QueueBefore(r, d), QueueEvent(r, d).value);
      AcceptedAppend(earlier, h, key);
      if H.Accepted(h) == [key] {
        EventOfRecord(QueueBefore(r, d), QueueEvent(r, d).value);
        SubmissionOf(r, d);
        assert tr[last].key == key && Submission(tr[last]) == accepted;
        return;
      }
    }
    assert H.AcceptedAs(earlier, key) == accepted;
    NothingAccepted(key);
    if d in r.pre.queues {
      AcceptedWasSubmitted(Init(tr), d, key);
      var i :| 0 <= i < |Init(tr)| && Init(tr)[i].key == key && Submission(Init(tr)[i]) == accepted;
      assert tr[i] == Init(tr)[i];
    }
  }

  lemma NothingAccepted(key: Key)
    ensures H.AcceptedAs([], key).None?
  {
  }

  lemma SubmissionOf(r: Record, d: Destination)
    requires IsStep(r) && QueueEvent(r, d).Some? && QueueEvent(r, d).value.Inserting?
    ensures var e := QueueEvent(r, d).value; Submission(r) == Some(Q.QueueEntry(e.request, e.retries))
    ensures QueueRecord(QueueBefore(r, d), QueueEvent(r, d).value).event == QueueEvent(r, d).value
  {
    hide Step, H.Step;
  }

  lemma AcceptedAppend(h: seq<H.Record>, r: H.Record, key: Key)
    ensures H.AcceptedAs(h + [r], key)
            == if H.Accepted(r) == [key] then Some(Q.QueueEntry(r.event.request, r.event.retries)) else H.AcceptedAs(h, key)
  {
    assert (h + [r])[..|h|] == h;
  }

  /** A step that sends leaves the request in its queue. */
  lemma SentIsHeld(r: Record, key: Key)
    requires IsStep(r) && SendsFor(r, key)
    ensures r.event.PollingQueue? && var d := r.event.d; d in r.post.queues && Holds(r.post.queues[d], key)
  {
    hide Q.Poll;
    match r.event {
      case PollingQueue(d, pib, timers) =>
        SendKeepsEntries(r.pre.queues[d], pib, r.key, timers);
        assert r.post.queues[d] == Q.Poll(r.pre.queues[d], pib, r.key, timers).0;
        assert H.Keys(r.post.queues[d].entries)[0] == key;
      case _ =>
    }
  }

  lemma SendKeepsEntries(q: Q.Queue, pib: Pib, key: Key, timers: Q.Timers)
    ensures var (q', action) := Q.Poll(q, pib, key, timers);
            action.Some? && action.value.SendFrame? ==> q'.entries == q.entries != [] && q.state.Idle?
                                                        && (q.entries[0].data.indirect ==> q.state.dataRequest)
  {
    hide Q.CreateFrame, Q.DueResult, Q.Settled;
  }

  /**
   * Over a whole run of the service, a direct request is handed to the radio at most once more
   * often than the retries it was given.
   */
  lemma {:induction false} RequestSendsAreLimited(tr: seq<Record>, i: nat)
    requires IsRun(tr) && i < |tr| && Submission(tr[i]).Some? && !Submission(tr[i]).value.data.indirect
    ensures FramesFor(tr, tr[i].key) <= Submission(tr[i]).value.retriesLeft + 1
    decreases |tr|
  {
    hide IsRun, IsStep, History, Submission, H.SendsOf, H.IsRun, KeysBelow, SendsFor;
    var last := |tr| - 1;
    var key := tr[i].key;
    RunInit(tr);
    if SendsFor(tr[last], key) {
      SentIsHeld(tr[last], key);
      var d := tr[last].event.d;
      FramesAreInHistory(tr, d, key);
      HistoryIsRun(tr, d);
      HistoryKeysAreFresh(tr, d);
      LimitOfHistory(tr, i, d);
    } else if i < last {
      RequestSendsAreLimited(Init(tr), i);
    } else {
      RunPrefix(tr, i);
      assert tr[..i] == Init(tr);
      OnlyOldKeysAreSent(Init(tr), key);
    }
  }

  lemma LimitOfHistory(tr: seq<Record>, i: nat, d: Destination)
    requires IsRun(tr) && i < |tr| && Submission(tr[i]).Some? && !Submission(tr[i]).value.data.indirect
    requires d in Final(tr).queues && H.IsRun(History(tr, d)) && KeysBelow(History(tr, d), NextKey(tr))
    ensures H.SendsOf(History(tr, d), tr[i].key) <= Submission(tr[i]).value.retriesLeft + 1
  {
    hide IsRun, H.IsRun, H.SendsOf, History, H.AcceptedAs, Submission;
    var h, key := History(tr, d), tr[i].key;
    H.DirectSendsAreLimited(h);
    assert H.Limit(h, key);
    if H.AcceptedAs(h, key).Some? {
      AcceptedWasSubmitted(tr, d, key);
      var j :| 0 <= j < |tr| && tr[j].key == key && Submission(tr[j]) == H.AcceptedAs(h, key);
      SubmittedOnce(tr, i, j);
    }
  }

  // ----- Frames of indirect requests answer a data request

  /** A data request of that device, to this one. */
  predicate IsAsk(r: Record, d: Destination) {
    QueueEvent(r, d) == Some(H.DataRequested)
  }

  /** A device has asked for its data since the last frame to it. */
  ghost predicate AskedSince(tr: seq<Record>, d: Destination) {
    exists m | 0 <= m < |tr| :: IsAsk(tr[m], d) && forall n | m < n < |tr| :: !HandsOut(tr[n], d)
  }

  lemma AskedStays(tr: seq<Record>, d: Destination)
    requires tr != [] && AskedSince(Init(tr), d) && !HandsOut(tr[|tr| - 1], d)
    ensures AskedSince(tr, d)
  {
    var m :| 0 <= m < |Init(tr)| && IsAsk(Init(tr)[m], d) && forall n | m < n < |Init(tr)| :: !HandsOut(Init(tr)[n], d);
    assert IsAsk(tr[m], d);
    forall n | m < n < |tr| ensures !HandsOut(tr[n], d) {
      if n < |tr| - 1 { assert tr[n] == Init(tr)[n]; }
    }
  }

  lemma RequestedAppend(h: seq<H.Record>, r: H.Record)
    requires H.RequestedAfter(h + [r], H.LastSend(h + [r]))
    ensures !H.IsSend(r)
    ensures r.event == H.DataRequested || H.RequestedAfter(h, H.LastSend(h))
  {
    var h' := h + [r];
    assert h'[..|h|] == h;
    var m: nat :| H.LastSend(h') < m < |h'| && h'[m].event == H.DataRequested;
    if m < |h| {
      assert h[m].event == H.DataRequested;
    }
  }

  lemma AskedNow(tr: seq<Record>, d: Destination)
    requires tr != [] && IsAsk(tr[|tr| - 1], d)
    ensures AskedSince(tr, d)
  {
    assert IsAsk(tr[|tr| - 1], d);
  }

  lemma EventOfRecord(q: Q.Queue, e: H.Event)
    ensures QueueRecord(q, e).event == e
  {
  }

  lemma NothingRequested()
    ensures !H.RequestedAfter([], H.LastSend([]))
  {
  }

  lemma {:induction false} RequestWasSeen(tr: seq<Record>, d: Destination)
    requires IsRun(tr) && d in Final(tr).queues && H.RequestedAfter(History(tr, d), H.LastSend(History(tr, d)))
    ensures AskedSince(tr, d)
    decreases |tr|
  {
    hide H.IsRun, KeysBelow, IsRun, IsStep, H.LastSend, H.RequestedAfter, H.IsSend, H.Accepted, AskedSince, HandsOut;
    hide QueueRecord, History, FrontOf, QueueEvent, QueueBefore;
    var last := |tr| - 1;
    var r := tr[last];
    var earlier := LastStepOf(tr, d);
    RunInit(tr);
    if QueueEvent(r, d).Some? {
      RecordOf(r, d);
      EventOfRecord(QueueBefore(r, d), QueueEvent(r, d).value);
      RequestedAppend(earlier, QueueRecord(QueueBefore(r, d), QueueEvent(r, d).value));
      if IsAsk(r, d) {
        AskedNow(tr, d);
        return;
      }
    } else {
      NothingHandedOut(r, d);
    }
    if d in r.pre.queues {
      RequestWasSeen(Init(tr), d);
      AskedStays(tr, d);
    } else {
      NothingRequested();
    }
  }

  /**
   * Every frame of an indirect request answers a data request of its device that came after the
   * previous frame to that device, so no two frames answer the same one.
   */
  lemma IndirectFrameWasAsked(tr: seq<Record>, i: nat)
    requires IsRun(tr) && i < |tr| && tr[i].event.PollingQueue? && HandsOut(tr[i], tr[i].event.d)
    requires FrontOf(tr[i]).Some? && FrontOf(tr[i]).value.indirect
    ensures AskedSince(tr[..i], tr[i].event.d)
  {
    RunPrefix(tr, i);
    var d := tr[i].event.d;
    var h := History(tr[..i], d);
    HistoryIsRun(tr[..i], d);
    H.AlwaysBusyWithLastFrame(h);
    IndirectSendNeedsRequest(tr[i]);
    hide History, H.IsRun, H.LastSend;
    RequestWasSeen(tr[..i], d);
  }

  lemma IndirectSendNeedsRequest(r: Record)
    requires IsStep(r) && r.event.PollingQueue? && HandsOut(r, r.event.d) && FrontOf(r).Some? && FrontOf(r).value.indirect
    ensures r.pre.queues[r.event.d].state == Q.Idle(true)
  {
    hide Q.Poll;
    match r.event {
      case PollingQueue(d, pib, timers) =>
        SendKeepsEntries(r.pre.queues[d], pib, r.key, timers);
        var action := Q.Poll(r.pre.queues[d], pib, r.key, timers).1;
        assert action.Some? && action.value.SendFrame?;
        assert r.pre.queues[d].entries[0].data.indirect;
        assert r.pre.queues[d].state.dataRequest;
      case _ =>
    }
  }

  // ----- Only the answer to the last frame counts

  /** The frame that the history of a queue has last is the last one that the service handed out for it. */
  lemma {:induction false} LastFrame(tr: seq<Record>, d: Destination) returns (j: nat)
    requires IsRun(tr) && d in Final(tr).queues && H.LastSend(History(tr, d)) >= 0
    ensures j < |tr| && HandsOut(tr[j], d) && forall n | j < n < |tr| :: !HandsOut(tr[n], d)
    ensures tr[j].output.value.sendKey == tr[j].key == History(tr, d)[H.LastSend(History(tr, d))].action.value.key
    decreases |tr|
  {
    hide H.IsRun, KeysBelow, IsRun, IsStep, H.IsSend, H.Accepted, QueueRecord, History, FrontOf, H.LastSend, QueueEvent, QueueBefore;
    var last := |tr| - 1;
    var r := tr[last];
    var earlier := LastStepOf(tr, d);
    RunInit(tr);
    if QueueEvent(r, d).Some? {
      RecordOf(r, d);
      LastSendAppend(earlier, QueueRecord(QueueBefore(r, d), QueueEvent(r, d).value));
      if HandsOut(r, d) {
        return last;
      }
    } else {
      NothingHandedOut(r, d);
    }
    assert d in r.pre.queues by { NothingSent(); }
    j := LastFrame(Init(tr), d);
    assert tr[j] == Init(tr)[j];
    forall n | j < n < |tr| ensures !HandsOut(tr[n], d) {
      if n < last { assert tr[n] == Init(tr)[n]; }
    }
  }

  lemma NothingSent()
    ensures H.LastSend([]) == -1
  {
  }

  lemma LastSendAppend(h: seq<H.Record>, r: H.Record)
    ensures H.LastSend(h + [r]) == if H.IsSend(r) then |h| else H.LastSend(h)
  {
    assert (h + [r])[..|h|] == h;
  }

  /** Only a queue that still sends the frame with this key is changed by the answer. */
  lemma AnswerChangesSender(q: Q.Queue, key: Key, success: bool)
    ensures (q.state.Sending? && q.state.sendKey == key) || Q.SendReported(q, key, success) == q
  {
  }

  /** The queue that waits for the answer to a frame has handed out no frame since. */
  lemma SenderIsLast(tr: seq<Record>, d: Destination, j: nat, e: Destination)
    requires IsRun(tr) && d in Final(tr).queues && Final(tr).queues[d].state.Sending?
    requires j < |tr| && HandsOut(tr[j], e) && tr[j].output.value.sendKey == Final(tr).queues[d].state.sendKey
    ensures e == d && forall n | j < n < |tr| :: !HandsOut(tr[n], d)
  {
    var h := History(tr, d);
    HistoryIsRun(tr, d);
    H.AlwaysBusyWithLastFrame(h);
    var last := LastFrame(tr, d);
    hide History, H.IsRun, H.LastSend, H.Busy;
    OutputConcernsQueued(tr, j);
    RunOutcome(tr, j, 0);
    RunOutcome(tr, last, 0);
    StepUses(tr[j], e);
    StepUses(tr[last], d);
    if j < last {
      UsedKeyGrows(tr, j, last);
    } else if last < j {
      UsedKeyGrows(tr, last, j);
    }
  }

  /** The answer to a frame that is not the last one to its destination changes nothing in the service. */
  lemma LateAnswerIsIgnored(tr: seq<Record>, i: nat, j: nat, m: nat, d: Destination, success: bool)
    requires IsRun(tr) && j < m < i < |tr| && HandsOut(tr[j], d) && HandsOut(tr[m], d)
    requires tr[i].event == SendAnswer(tr[j].output.value.sendKey, success)
    ensures tr[i].post == tr[i].pre
  {
    RunPrefix(tr, i);
    hide Q.SendReported, HandsOut;
    var s, key := tr[i].pre, tr[j].output.value.sendKey;
    assert tr[..i][j] == tr[j] && tr[..i][m] == tr[m];
    forall e | e in s.queues ensures Q.SendReported(s.queues[e], key, success) == s.queues[e] {
      AnswerChangesSender(s.queues[e], key, success);
      if s.queues[e].state.Sending? && s.queues[e].state.sendKey == key {
        SenderIsLast(tr[..i], e, j, d);
      }
    }
    assert tr[i].post.queues == s.queues;
  }
}
