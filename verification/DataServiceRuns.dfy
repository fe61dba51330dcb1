/** What holds over every run of the data service together with the radio. */
module DataServiceRuns {
  import opened Prelude
  import opened Addresses
  import opened Frames
  import opened Pibs
  import opened PendingTables
  import opened DataServices
  import Q = DeviceQueues
  import C = CombinedPendingTables

  /** One step, taken when `key` was the next unused key. */
  datatype Record = Record(pre: Service, key: Key, event: Event, output: Option<Output>, post: Service)

  ghost predicate IsStep(r: Record) {
    Enabled(r.pre, r.event) && Step(r.pre, r.key, r.event) == (r.post, r.output)
  }

  /** Whether a step uses up its key. */
  predicate UsesKey(r: Record) {
    Added(r.key, r.event) != {} || (r.output.Some? && (r.output.value.TableOutput? || r.output.value.FrameOutput?))
  }

  /** The first key that is unused after a step. */
  function KeyAfter(r: Record): Key {
    if UsesKey(r) then r.key + 1 else r.key
  }

  /** A run of a service from its creation. Others may use up keys in between. */
  ghost predicate IsRun(tr: seq<Record>) {
    && (tr != [] ==> tr[0].pre == NewService())
    && (forall i | 0 <= i < |tr| :: IsStep(tr[i]))
    && (forall i | 0 <= i < |tr| - 1 :: tr[i + 1].pre == tr[i].post && tr[i + 1].key >= KeyAfter(tr[i]))
  }

  function Final(tr: seq<Record>): Service {
    if tr == [] then NewService() else tr[|tr| - 1].post
  }

  function NextKey(tr: seq<Record>): Key {
    if tr == [] then 0 else KeyAfter(tr[|tr| - 1])
  }

  lemma RunInit(tr: seq<Record>)
    requires IsRun(tr) && tr != []
    ensures IsRun(Init(tr)) && Final(Init(tr)) == tr[|tr| - 1].pre && NextKey(Init(tr)) <= tr[|tr| - 1].key
    ensures IsStep(tr[|tr| - 1])
  {
  }

  lemma {:induction false} RunPrefix(tr: seq<Record>, i: nat)
    requires IsRun(tr) && i < |tr|
    ensures IsRun(tr[..i]) && Final(tr[..i]) == tr[i].pre && NextKey(tr[..i]) <= tr[i].key && IsStep(tr[i])
  {
  }

  lemma LaterKey(s: Service, next: Key, next': Key)
    requires WellQueued(s, next) && next <= next'
    ensures WellQueued(s, next')
  {
  }

  ghost predicate Inv(s: Service, next: Key) {
    WellQueued(s, next) && HandlesExact(s) && PendingSound(s)
  }

  lemma {:induction false} RunKeepsInv(tr: seq<Record>)
    requires IsRun(tr)
    ensures Inv(Final(tr), NextKey(tr))
    decreases |tr|
  {
    if tr != [] {
      var r := tr[|tr| - 1];
      RunInit(tr);
      RunKeepsInv(Init(tr));
      LaterKey(r.pre, NextKey(Init(tr)), r.key);
      StepQueued(r.pre, r.key, r.event);
      LaterKey(r.post, if Added(r.key, r.event) == {} then r.key else r.key + 1, NextKey(tr));
      StepHandles(r.pre, r.key, r.event);
      StepPending(r.pre, r.key, r.event);
    }
  }

  // ----- Handles: every request has at most one outcome

  function Requested(r: Record): seq<Handle> {
    if r.event.SubmittingData? then [r.event.data.handle] else []
  }

  function Settles(r: Record): seq<Handle> {
    match r.output
    case Some(DataConfirm(handle, _)) => [handle]
    case Some(PurgeConfirm(handle, Ok(_))) => [handle]
    case _ => []
  }

  function RequestedHandles(tr: seq<Record>): multiset<Handle> {
    if tr == [] then multiset{} else RequestedHandles(tr[..|tr| - 1]) + multiset(Requested(tr[|tr| - 1]))
  }

  function SettledHandles(tr: seq<Record>): multiset<Handle> {
    if tr == [] then multiset{} else SettledHandles(tr[..|tr| - 1]) + multiset(Settles(tr[|tr| - 1]))
  }

  function OpenHandles(s: Service): multiset<Handle> {
    multiset(s.handles.left.Keys)
  }

  /** The open handles after a step, and those that it settled, are the open handles before and those it requested. */
  ghost predicate Balances(r: Record) {
    OpenHandles(r.post) + multiset(Settles(r)) == OpenHandles(r.pre) + multiset(Requested(r))
  }

  function StepRecord(s: Service, key: Key, e: Event): Record
    requires Enabled(s, e)
  {
    var (s', output) := Step(s, key, e);
    Record(s, key, e, output, s')
  }

  lemma StepOutcome(s: Service, key: Key, e: Event)
    requires WellQueued(s, key) && HandlesExact(s) && Enabled(s, e)
    ensures Balances(StepRecord(s, key, e))
  {
    match e {
      case SubmittingData(_, _) => RequestBalances(s, key, e);
      case SubmittingCommand(_, _) => QuietStepBalances(s, key, e);
      case Purging(_) => PurgeBalances(s, key, e);
      case PollingQueue(_, _, _) => PollBalances(s, key, e);
      case _ => QuietStepBalances(s, key, e);
    }
  }

  lemma StepIsRecord(r: Record)
    requires IsStep(r)
    ensures Enabled(r.pre, r.event) && r == StepRecord(r.pre, r.key, r.event)
  {
    hide Step, Enabled;
  }

  lemma RequestBalances(s: Service, key: Key, e: Event)
    requires WellQueued(s, key) && HandlesExact(s) && Enabled(s, e) && e.SubmittingData?
    ensures Balances(StepRecord(s, key, e))
  {
    hide WellQueued, Submitted, Queued, InsertPair, HandlesMatch;
    var request := McpsRequest(e.data, key);
    SubmitQueued(s, e.retries, request, key);
    KeysAreOld(s, key);
    AddHandle(s.handles, Queued(s), e.data.handle, request);
    assert InsertPair(s.handles, e.data.handle, key).left.Keys == s.handles.left.Keys + {e.data.handle};
  }

  lemma PurgeBalances(s: Service, key: Key, e: Event)
    requires HandlesExact(s) && e.Purging?
    ensures Balances(StepRecord(s, key, e))
  {
    hide Queued, HandlesMatch, RemoveByLeft, RemoveByRight, AllRemoved;
    if e.handle in s.handles.left {
      DropOpen(s.handles, Queued(s), s.handles.left[e.handle], e.handle);
    }
  }

  lemma PollBalances(s: Service, key: Key, e: Event)
    requires HandlesExact(s) && Enabled(s, e) && e.PollingQueue?
    ensures Balances(StepRecord(s, key, e))
  {
    hide Queued, HandlesMatch, RemoveByLeft, RemoveByRight, QueuePolled;
    PollHandles(s, e.d, e.pib, e.timers, key);
    PollOutputs(s, e.d, e.pib, e.timers, key);
    match DataServices.Settled(s, key, e) {
      case Some(k) =>
        if k in s.handles.right {
          DropOpen(s.handles, Queued(s), k, s.handles.right[k]);
        } else {
          DropUnknown(s.handles, k);
        }
      case None =>
    }
  }

  lemma QuietStepBalances(s: Service, key: Key, e: Event)
    requires Enabled(s, e) && !e.SubmittingData? && !e.Purging? && !e.PollingQueue?
    ensures Balances(StepRecord(s, key, e))
  {
    hide FrameSeen, C.Poll, C.InitReported, C.UpdateReported;
    if e.SeeingFrame? {
      FrameHandles(s, e.pib, e.frame);
    }
  }

  lemma DropOpen(b: BiMap, queued: set<Q.DataRequest>, key: Key, handle: Handle)
    requires HandlesMatch(b, queued)
    requires (key in b.right && b.right[key] == handle) || (handle in b.left && b.left[handle] == key)
    ensures RemoveByRight(b, key) == RemoveByLeft(b, handle)
    ensures multiset(RemoveByRight(b, key).left.Keys) + multiset{handle} == multiset(b.left.Keys)
  {
    assert RemoveByRight(b, key).left.Keys == b.left.Keys - {handle};
  }

  lemma DropUnknown(b: BiMap, key: Key)
    requires key !in b.right
    ensures RemoveByRight(b, key) == b
  {
  }

  lemma PollOutputs(s: Service, d: Destination, pib: Pib, timers: Q.Timers, key: Key)
    requires d in s.queues
    ensures var output := QueuePolled(s, d, pib, key, timers).1;
            match DataServices.Settled(s, key, PollingQueue(d, pib, timers))
            case Some(k) =>
              if k in s.handles.right then output.Some? && output.value.DataConfirm? && output.value.handle == s.handles.right[k]
              else output.None?
            case None => output.Some? ==> output.value.FrameOutput?
  {
  }

  /**
   * Every handle that was requested is either still open or was settled, by a confirm or by a
   * successful purge; as often as it was requested, and not more.
   */
  lemma {:induction false} HandleConservation(tr: seq<Record>)
    requires IsRun(tr)
    ensures RequestedHandles(tr) == OpenHandles(Final(tr)) + SettledHandles(tr)
    decreases |tr|
  {
    assert OpenHandles(NewService()) == multiset{};
    hide Step, Enabled, WellQueued, HandlesExact, PendingSound, OpenHandles, Settles, Requested, StepRecord;
    if tr != [] {
      var r := tr[|tr| - 1];
      RunInit(tr);
      HandleConservation(Init(tr));
      RunKeepsInv(Init(tr));
      LaterKey(r.pre, NextKey(Init(tr)), r.key);
      StepOutcome(r.pre, r.key, r.event);
      StepIsRecord(r);
      AddUp(RequestedHandles(Init(tr)), OpenHandles(r.pre), SettledHandles(Init(tr)),
            multiset(Requested(r)), multiset(Settles(r)), OpenHandles(r.post));
    }
  }

  lemma AddUp(requested: multiset<Handle>, open: multiset<Handle>, settled: multiset<Handle>,
              more: multiset<Handle>, less: multiset<Handle>, open': multiset<Handle>)
    requires requested == open + settled && open' + less == open + more
    ensures requested + more == open' + (settled + less)
  {
    assert requested + more == (open + more) + settled;
  }

  /** A handle that is never reused gets at most one outcome. */
  lemma OneOutcome(tr: seq<Record>, handle: Handle)
    requires IsRun(tr) && RequestedHandles(tr)[handle] <= 1
    ensures SettledHandles(tr)[handle] <= 1
    ensures SettledHandles(tr)[handle] == 1 ==> handle !in Final(tr).handles.left
  {
    HandleConservation(tr);
  }

  /** A purge succeeds exactly if the request of the handle is still queued. */
  lemma PurgeSucceedsIffQueued(tr: seq<Record>, i: nat, handle: Handle)
    requires IsRun(tr) && i < |tr| && tr[i].event == Purging(handle)
    ensures tr[i].output == Some(PurgeConfirm(handle, Ok(()))) <==>
              exists r <- Queued(tr[i].pre) :: r.content.Data? && r.key in tr[i].pre.handles.right &&
                tr[i].pre.handles.right[r.key] == handle
  {
    RunPrefix(tr, i);
    RunKeepsInv(tr[..i]);
    var s := tr[i].pre;
    if handle in s.handles.left {
      var k := s.handles.left[handle];
      assert k in s.handles.right;
      var r :| r in Queued(s) && r.key == k && r.content.Data?;
      assert s.handles.right[r.key] == handle;
    }
  }

  /** A request that has left its queue never comes back. */
  lemma {:induction false} SettledForGood(tr: seq<Record>, i: nat, j: nat, key: Key)
    requires IsRun(tr) && i <= j < |tr| && key < tr[i].key
    requires forall r <- Queued(tr[i].pre) :: r.key != key
    ensures forall r <- Queued(tr[j].pre) :: r.key != key
    decreases j
  {
    hide Step, Enabled, WellQueued, HandlesExact, PendingSound, Queued, DataServices.Settled;
    if i < j {
      SettledForGood(tr, i, j - 1, key);
      KeyGrows(tr, i, j - 1);
      RunPrefix(tr, j - 1);
      RunKeepsInv(tr[..j - 1]);
      var r := tr[j - 1];
      LaterKey(r.pre, NextKey(tr[..j - 1]), r.key);
      StepQueued(r.pre, r.key, r.event);
    }
  }

  lemma {:induction false} KeyGrows(tr: seq<Record>, i: nat, j: nat)
    requires IsRun(tr) && i <= j < |tr|
    ensures tr[i].key <= tr[j].key
    decreases j
  {
    if i < j {
      KeyGrows(tr, i, j - 1);
    }
  }

  /** The front entry of the queue that a step polls. */
  function FrontOf(r: Record): Option<Q.DataRequest> {
    match r.event
    case PollingQueue(d, _, _) =>
      if d in r.pre.queues && r.pre.queues[d].entries != [] then Some(r.pre.queues[d].entries[0].data) else None
    case _ => None
  }

  /** Whether a step hands out a frame for the request with this key. */
  predicate SendsFor(r: Record, key: Key) {
    r.output.Some? && r.output.value.FrameOutput? && FrontOf(r).Some? && FrontOf(r).value.key == key
  }

  /** Frames are those of the front entry of the polled queue, and reports concern a request that is queued at that moment. */
  lemma OutputConcernsQueued(tr: seq<Record>, i: nat)
    requires IsRun(tr) && i < |tr|
    requires tr[i].output.Some? && (tr[i].output.value.FrameOutput? || tr[i].output.value.DataConfirm?)
    ensures match tr[i].output.value
            case FrameOutput(sendKey, frame) =>
              && FrontOf(tr[i]).Some? && FrontOf(tr[i]).value in Queued(tr[i].pre) && sendKey == tr[i].key
              && frame.destination == FrontOf(tr[i]).value.destination && frame.frameType == FrontOf(tr[i]).value.content
              && frame.acknowledgeRequest == FrontOf(tr[i]).value.acknowledgeRequest
            case DataConfirm(handle, _) =>
              exists r <- Queued(tr[i].pre) :: r.key in tr[i].pre.handles.right && tr[i].pre.handles.right[r.key] == handle
            case _ => true
  {
    RunPrefix(tr, i);
    RunKeepsInv(tr[..i]);
    var r := tr[i];
    assert IsStep(r);
    match r.event {
      case PollingQueue(d, pib, timers) =>
        QueueIsWellQueued(r.pre, d, NextKey(tr[..i]));
        FrontOutput(r.pre, d, pib, timers, r.key);
      case _ =>
    }
  }

  lemma FrontOutput(s: Service, d: Destination, pib: Pib, timers: Q.Timers, key: Key)
    requires d in s.queues && QueuePolled(s, d, pib, key, timers).1.Some?
    requires QueueKeysDistinct(s.queues[d])
    ensures match QueuePolled(s, d, pib, key, timers).1.value
            case FrameOutput(sendKey, frame) =>
              && s.queues[d].entries != [] && s.queues[d].entries[0].data in Queued(s) && sendKey == key
              && frame.destination == s.queues[d].entries[0].data.destination
              && frame.frameType == s.queues[d].entries[0].data.content
              && frame.acknowledgeRequest == s.queues[d].entries[0].data.acknowledgeRequest
            case DataConfirm(handle, _) =>
              exists r <- Queued(s) :: r.key in s.handles.right && s.handles.right[r.key] == handle
            case _ => true
  {
    var q := s.queues[d];
    PollRequests(q, pib, key, timers);
    match Q.Poll(q, pib, key, timers).1 {
      case Some(ReportResult(k, _)) =>
        var r :| r in Requests(q) && r.key == k;
        assert r in Queued(s);
      case Some(SendFrame(_, _)) =>
        assert q.entries[0].data in Requests(q) && q.entries[0].data in Queued(s);
      case _ =>
    }
  }

  lemma OpenCount(s: Service, handle: Handle)
    ensures OpenHandles(s)[handle] == if handle in s.handles.left then 1 else 0
  {
  }

  /** What one step of a run does to the open handles. */
  lemma RunOutcome(tr: seq<Record>, i: nat, handle: Handle)
    requires IsRun(tr) && i < |tr|
    ensures IsStep(tr[i]) && WellQueued(tr[i].pre, tr[i].key) && HandlesExact(tr[i].pre)
    ensures (if handle in tr[i].post.handles.left then 1 else 0) + multiset(Settles(tr[i]))[handle]
            == (if handle in tr[i].pre.handles.left then 1 else 0) + multiset(Requested(tr[i]))[handle]
  {
    hide Step, WellQueued, HandlesExact, PendingSound, Settles, Requested, OpenHandles, StepRecord;
    RunPrefix(tr, i);
    RunKeepsInv(tr[..i]);
    var r := tr[i];
    LaterKey(r.pre, NextKey(tr[..i]), r.key);
    StepOutcome(r.pre, r.key, r.event);
    StepIsRecord(r);
    assert (OpenHandles(r.post) + multiset(Settles(r)))[handle] == (OpenHandles(r.pre) + multiset(Requested(r)))[handle];
    OpenCount(r.pre, handle);
    OpenCount(r.post, handle);
  }

  lemma SettlesOrRequests(r: Record)
    requires IsStep(r) && Settles(r) != []
    ensures Requested(r) == []
  {
  }

  /** The key that leaves its queue when a handle is settled is that of the handle. */
  lemma SettledKey(r: Record, handle: Handle)
    requires IsStep(r) && HandlesExact(r.pre) && Settles(r) == [handle] && handle in r.pre.handles.left
    ensures DataServices.Settled(r.pre, r.key, r.event) == Some(r.pre.handles.left[handle])
    ensures Added(r.key, r.event) == {}
  {
    hide Q.Poll, Queued, WellQueued;
    match r.event {
      case PollingQueue(d, pib, timers) => PollOutputs(r.pre, d, pib, timers, r.key);
      case _ =>
    }
  }

  /** What settles a handle takes its request out of the queue and closes the handle. */
  lemma SettlingStep(tr: seq<Record>, i: nat, handle: Handle, key: Key)
    requires IsRun(tr) && i < |tr| && Settles(tr[i]) == [handle]
    requires handle in tr[i].pre.handles.left && key == tr[i].pre.handles.left[handle]
    ensures key < tr[i].key
    ensures forall r <- Queued(tr[i].post) :: r.key != key
    ensures handle !in tr[i].post.handles.left
  {
    hide Step, Enabled, WellQueued, Queued, DropKey, Settles, Requested, DataServices.Settled, Added;
    var r := tr[i];
    RunOutcome(tr, i, handle);
    SettlesOrRequests(r);
    KeysAreOld(r.pre, r.key);
    StepQueued(r.pre, r.key, r.event);
    SettledKey(r, handle);
    NotQueuedAfter(r.pre, r.post, key);
  }

  lemma NotQueuedAfter(s: Service, s': Service, key: Key)
    requires Queued(s') == DropKey(Queued(s), key) + {}
    ensures forall r <- Queued(s') :: r.key != key
  {
  }

  /** A handle stays closed until it is requested again. */
  lemma {:induction false} StaysClosed(tr: seq<Record>, i: nat, j: nat, handle: Handle)
    requires IsRun(tr) && i < j < |tr| && handle !in tr[i].post.handles.left
    requires forall m | i < m < j :: Requested(tr[m]) != [handle]
    ensures handle !in tr[j].pre.handles.left
    decreases j
  {
    hide IsStep, WellQueued, HandlesExact, Settles, Requested;
    if i + 1 < j {
      StaysClosed(tr, i, j - 1, handle);
      RunOutcome(tr, j - 1, handle);
      NotRequested(tr[j - 1], handle);
    }
  }

  lemma NotRequested(r: Record, handle: Handle)
    requires Requested(r) != [handle]
    ensures multiset(Requested(r))[handle] == 0
  {
  }

  lemma SettledWasOpen(tr: seq<Record>, i: nat, handle: Handle)
    requires IsRun(tr) && i < |tr| && Settles(tr[i]) == [handle]
    ensures handle in tr[i].pre.handles.left
  {
    hide IsStep, WellQueued, HandlesExact, Settles, Requested;
    RunOutcome(tr, i, handle);
    SettlesOrRequests(tr[i]);
  }

  /**
   * After a confirm or a successful purge of a request, no frame is handed out for it any more, and
   * its handle is neither confirmed nor purged again unless it is requested again.
   */
  lemma NothingFollowsSettlement(tr: seq<Record>, i: nat, j: nat, handle: Handle, key: Key)
    requires IsRun(tr) && i < j < |tr| && Settles(tr[i]) == [handle]
    requires handle in tr[i].pre.handles.left && key == tr[i].pre.handles.left[handle]
    ensures !SendsFor(tr[j], key)
    ensures (forall m | i < m < j :: Requested(tr[m]) != [handle]) ==> Settles(tr[j]) != [handle]
  {
    hide Step, Enabled, WellQueued, HandlesExact, PendingSound, Queued, Inv, Requested;
    SettlingStep(tr, i, handle, key);
    KeyGrows(tr, i, i + 1);
    SettledForGood(tr, i + 1, j, key);
    if SendsFor(tr[j], key) {
      OutputConcernsQueued(tr, j);
    }
    if forall m | i < m < j :: Requested(tr[m]) != [handle] {
      StaysClosed(tr, i, j, handle);
      if Settles(tr[j]) == [handle] {
        SettledWasOpen(tr, j, handle);
      }
    }
  }

  /** A queue is discarded only when it holds nothing. */
  lemma DiscardedWhenEmpty(r: Record, d: Destination)
    requires IsStep(r) && d in r.pre.queues && d !in r.post.queues
    ensures r.pre.queues[d].entries == []
  {
    hide C.Poll, C.InitReported, C.UpdateReported, C.Set;
  }

  /** While a handle is open, using it for another request breaks the correspondence, and only then. */
  lemma HandleReuseBreaks(s: Service, key: Key, retries: nat, data: McpsData)
    requires WellQueued(s, key) && HandlesExact(s)
    ensures HandlesExact(McpsSubmitted(s, retries, data, key)) <==> data.handle !in s.handles.left
  {
    hide WellQueued, Submitted, Queued, Requests;
    var s' := McpsSubmitted(s, retries, data, key);
    if data.handle !in s.handles.left {
      StepHandles(s, key, SubmittingData(retries, data));
    } else {
      var lost := s.handles.left[data.handle];
      var r :| r in Queued(s) && r.key == lost && r.content.Data?;
      SubmitQueued(s, retries, McpsRequest(data, key), key);
      KeysAreOld(s, key);
      SameQueues(Submitted(s, retries, McpsRequest(data, key)), s', key + 1);
      assert r in Queued(s') && lost !in s'.handles.right;
    }
  }

  /** Such a service is reached by a single request. */
  lemma HandleReuseIsReachable(retries: nat, data: McpsData, more: McpsData) returns (tr: seq<Record>)
    requires more.handle == data.handle
    ensures IsRun(tr) && data.handle in Final(tr).handles.left
    ensures !HandlesExact(McpsSubmitted(Final(tr), retries, more, NextKey(tr)))
  {
    var e := SubmittingData(retries, data);
    tr := [Record(NewService(), 0, e, None, Step(NewService(), 0, e).0)];
    assert tr[0].post.handles.left == map[data.handle := 0];
    RunKeepsInv(tr);
    HandleReuseBreaks(Final(tr), NextKey(tr), retries, more);
  }

  // ----- Pending destinations

  ghost predicate UsesOnly(tr: seq<Record>, ds: set<Destination>) {
    forall i | 0 <= i < |tr| ::
      match tr[i].event
      case SubmittingData(_, data) => data.destination in ds
      case SubmittingCommand(_, request) => request.destination in ds
      case _ => true
  }

  lemma StepDestinations(r: Record)
    requires IsStep(r)
    ensures match r.event
            case SubmittingData(_, data) => r.post.queues.Keys == r.pre.queues.Keys + {data.destination}
            case SubmittingCommand(_, request) => r.post.queues.Keys == r.pre.queues.Keys + {request.destination}
            case _ => r.post.queues.Keys <= r.pre.queues.Keys
  {
    hide Q.Poll, C.Poll, C.InitReported, C.UpdateReported, C.Set, Q.Insert, Q.Remove, Q.SendReported, Q.Acknowledged;
  }

  lemma {:induction false} QueuesAreUsed(tr: seq<Record>, ds: set<Destination>)
    requires IsRun(tr) && UsesOnly(tr, ds)
    ensures Final(tr).queues.Keys <= ds
    decreases |tr|
  {
    if tr != [] {
      RunInit(tr);
      QueuesAreUsed(Init(tr), ds);
      StepDestinations(tr[|tr| - 1]);
    }
  }

  lemma {:induction false} ReportsReachTable(tr: seq<Record>, ds: set<Destination>)
    requires IsRun(tr) && UsesOnly(tr, ds) && OnePan(ds)
    ensures PendingComplete(Final(tr))
    decreases |tr|
  {
    hide Step, Enabled, WellQueued, HandlesExact, PendingSound;
    if tr != [] {
      var r := tr[|tr| - 1];
      RunInit(tr);
      ReportsReachTable(Init(tr), ds);
      QueuesAreUsed(Init(tr), ds);
      RunKeepsInv(Init(tr));
      LaterKey(r.pre, NextKey(Init(tr)), r.key);
      StepPending(r.pre, r.key, r.event);
    }
  }

  function Probe(d: Destination, indirect: bool): Q.DataRequest {
    Q.DataRequest(0, d, NoAddress, false, indirect, CommandFrame(BeaconRequestCommand))
  }

  function SubmitThenPoll(s: Service, key: Key, d: Destination, indirect: bool, pib: Pib): seq<Record> {
    var e1 := SubmittingCommand(0, Probe(d, indirect));
    var s1 := Step(s, key, e1).0;
    var e2 := PollingQueue(d, pib, Q.Timers(false, {}));
    [Record(s, key, e1, None, s1), Record(s1, key + 1, e2, None, Step(s1, key + 1, e2).0)]
  }

  /** Two destinations that differ in their PAN only: the report of one undoes that of the other. */
  lemma SharedEntryLosesReport(d: Destination, e: Destination, pib: Pib) returns (tr: seq<Record>)
    requires C.SameEntry(d, e) && d != e
    ensures IsRun(tr) && UsesOnly(tr, {d, e}) && !PendingComplete(Final(tr))
  {
    hide Step, C.Set, C.IsPending;
    var tr1 := SubmitThenPoll(NewService(), 0, d, true, pib);
    FirstReport(NewService(), 0, d, true, pib);
    var s2 := tr1[1].post;
    var tr2 := SubmitThenPoll(s2, 2, e, false, pib);
    FirstReport(s2, 2, e, false, pib);
    tr := tr1 + tr2;
    var s4 := tr2[1].post;
    C.SetDecides(s2.table, e, false, d);
    assert d in s4.queues && s4.queues[d].lastPendingReported == Some(true) && !C.IsPending(s4.table, d);
  }

  lemma FirstReport(s: Service, key: Key, d: Destination, indirect: bool, pib: Pib)
    requires d !in s.queues
    ensures var tr := SubmitThenPoll(s, key, d, indirect, pib);
            && IsStep(tr[0]) && IsStep(tr[1])
            && tr[1].post.queues.Keys == s.queues.Keys + {d}
            && tr[1].post.queues[d].lastPendingReported == Some(indirect)
            && (forall e <- s.queues :: tr[1].post.queues[e] == s.queues[e])
            && tr[1].post.table == C.Set(s.table, d, indirect)
  {
    hide C.Set;
    var tr := SubmitThenPoll(s, key, d, indirect, pib);
    var queue := tr[0].post.queues[d];
    assert queue == Q.Queue(Q.Idle(false), None, [Q.QueueEntry(Probe(d, indirect).(key := key), 0)]);
    assert Q.ShouldBePending(queue) == indirect;
  }

  /**
   * The reports of the queues always reach the pending sets, whatever happens, exactly if no two
   * of the destinations in use share an entry of the sets.
   */
  lemma ReportsReachTableIff(ds: set<Destination>, pib: Pib)
    ensures (forall tr | IsRun(tr) && UsesOnly(tr, ds) :: PendingComplete(Final(tr))) <==> OnePan(ds)
  {
    if OnePan(ds) {
      forall tr | IsRun(tr) && UsesOnly(tr, ds) ensures PendingComplete(Final(tr)) {
        ReportsReachTable(tr, ds);
      }
    } else {
      var d, e :| d in ds && e in ds && C.SameEntry(d, e) && d != e;
      var tr := SharedEntryLosesReport(d, e, pib);
      assert UsesOnly(tr, ds);
    }
  }

  /** A destination whose queue has an indirect request at its front, or one that shares its entry. */
  ghost predicate Waits(s: Service, d: Destination) {
    exists e <- s.queues :: C.SameEntry(d, e) && s.queues[e].entries != [] && s.queues[e].entries[0].data.indirect
  }

  /** In a quiet service only destinations with an indirect front request are pending; with one PAN per address, all of them. */
  lemma QuietMeansPendingExact(tr: seq<Record>, ds: set<Destination>, d: Destination)
    requires IsRun(tr) && UsesOnly(tr, ds) && Quiet(Final(tr))
    ensures C.IsPending(Final(tr).table, d) ==> Waits(Final(tr), d)
    ensures OnePan(ds) && d in Final(tr).queues ==>
              (C.IsPending(Final(tr).table, d) <==> Final(tr).queues[d].entries[0].data.indirect)
  {
    hide WellQueued, HandlesExact, C.IsPending;
    var s := Final(tr);
    RunKeepsInv(tr);
    if C.IsPending(s.table, d) {
      var e :| e in s.queues && C.SameEntry(d, e) && s.queues[e].lastPendingReported == Some(true);
    }
    if OnePan(ds) {
      ReportsReachTable(tr, ds);
      QueuesAreUsed(tr, ds);
    }
  }

  // ----- Down to the radio

  /** What a step of the service means to the pending tables. */
  function TableEvent(r: Record): C.Event
    requires Enabled(r.pre, r.event)
  {
    match r.event
    case PollingTable =>
      C.PollAction(r.key, match r.output case Some(TableOutput(a)) => Some(a) case _ => None)
    case PollingQueue(d, pib, timers) =>
      (match Q.Poll(r.pre.queues[d], pib, r.key, timers).1
       case Some(SetPending(pending)) => C.SetPending(d, pending)
       case _ => C.RadioMoves)
    case InitAnswer(key, success) => C.InitAnswer(key, success)
    case UpdateAnswer(key, success) => C.UpdateAnswer(key, success)
    case _ => C.RadioMoves
  }

  /** A run of the service next to a radio that answers, or moves on its own, as it may. */
  ghost predicate RunsWithRadio(tr: seq<Record>, worlds: seq<C.World>) {
    && IsRun(tr)
    && |worlds| == |tr| + 1
    && C.First(worlds[0]) && worlds[0].nextKey == 0
    && forall i | 0 <= i < |tr| :: C.Next(worlds[i], TableEvent(tr[i]), worlds[i + 1])
  }

  lemma TableStep(r: Record, w: C.World, w': C.World)
    requires IsStep(r) && w.table == r.pre.table && C.Next(w, TableEvent(r), w')
    ensures w'.table == r.post.table
  {
    hide C.Set, C.Poll, C.InitReported, C.UpdateReported, Q.Poll, Answered, OnlyFlightMoves, Submitted, FrameSeen;
    match r.event {
      case SeeingFrame(pib, frame) => FrameHandles(r.pre, pib, frame);
      case SubmittingData(retries, data) => SubmitKeepsTable(r.pre, retries, McpsRequest(data, r.key));
      case SubmittingCommand(retries, request) => SubmitKeepsTable(r.pre, retries, request.(key := r.key));
      case _ =>
    }
  }

  lemma SubmitKeepsTable(s: Service, retries: nat, request: Q.DataRequest)
    ensures Submitted(s, retries, request).table == s.table
  {
  }

  lemma {:induction false} WorldsFollow(tr: seq<Record>, worlds: seq<C.World>, i: nat)
    requires RunsWithRadio(tr, worlds) && i <= |tr|
    ensures worlds[i].table == if i < |tr| then tr[i].pre.table else Final(tr).table
    decreases i
  {
    if i > 0 {
      WorldsFollow(tr, worlds, i - 1);
      assert IsStep(tr[i - 1]);
      TableStep(tr[i - 1], worlds[i - 1], worlds[i]);
    }
  }

  function TableEvents(tr: seq<Record>): seq<C.Event>
    requires forall i | 0 <= i < |tr| :: Enabled(tr[i].pre, tr[i].event)
  {
    seq(|tr|, i requires 0 <= i < |tr| => TableEvent(tr[i]))
  }

  /**
   * At rest the radio announces pending data only to devices with an indirect request at the
   * front of their queue: when the tables have been polled in vain, nothing is under way, and
   * every queue is quiet.
   */
  lemma AtRestRadioTellsTruth(tr: seq<Record>, worlds: seq<C.World>, i: nat)
    requires RunsWithRadio(tr, worlds) && i < |tr|
    requires tr[i].event.PollingTable? && tr[i].output.None?
    requires var c := tr[i].pre.table; c.initializing.None? && c.short.updating.None? && c.extended.updating.None?
    requires Quiet(tr[i].pre)
    ensures forall entry <- C.Shown(worlds[i].short.slots) ::
              Waits(tr[i].pre, Some(FullAddress(entry.0, Short(entry.1))))
    ensures forall address <- C.Shown(worlds[i].extended.slots) ::
              exists pan: u16 :: Waits(tr[i].pre, Some(FullAddress(pan, Extended(address))))
  {
    hide C.Next, WellQueued, HandlesExact, Step, C.First, C.Shown, Waits;
    RunPrefix(tr, i);
    WorldsFollow(tr, worlds, i);
    forall k | 0 <= k < |tr| ensures Enabled(tr[k].pre, tr[k].event) {
      assert IsStep(tr[k]);
    }
    C.IdleMeansEqual(worlds, TableEvents(tr), i);
    var s := tr[i].pre;
    forall entry | entry in C.Shown(worlds[i].short.slots)
      ensures Waits(s, Some(FullAddress(entry.0, Short(entry.1))))
    {
      var d := Some(FullAddress(entry.0, Short(entry.1)));
      assert C.IsPending(s.table, d);
      QuietMeansPendingExact(tr[..i], UsedBy(tr[..i]), d);
    }
    forall address | address in C.Shown(worlds[i].extended.slots)
      ensures exists pan: u16 :: Waits(s, Some(FullAddress(pan, Extended(address))))
    {
      var d := Some(FullAddress(0, Extended(address)));
      assert C.IsPending(s.table, d);
      QuietMeansPendingExact(tr[..i], UsedBy(tr[..i]), d);
    }
  }

  function UsedBy(tr: seq<Record>): (ds: set<Destination>)
    ensures UsesOnly(tr, ds)
  {
    (set i | 0 <= i < |tr| && tr[i].event.SubmittingData? :: tr[i].event.data.destination) +
    (set i | 0 <= i < |tr| && tr[i].event.SubmittingCommand? :: tr[i].event.request.destination)
  }
}
