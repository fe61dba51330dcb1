/** The data service as the object of `src/ieee802154/mac/data.rs`: queues, tables and handles updated in place. */
module DataServiceObjects {
  import opened Prelude
  import opened Addresses
  import opened Frames
  import opened Pibs
  import opened PendingTables
  import opened DataServices
  import R = DataServiceRuns
  import Q = DeviceQueues
  import C = CombinedPendingTables

  /** The timers that have run out when a queue is polled for the n-th time. */
  type Clock = (nat, Destination) -> Q.Timers

  /** One poll inside `poll_action`. */
  datatype Micro = Table | Queue(d: Destination, timers: Q.Timers)

  /** The steps that a call of `poll_action` takes, as events of the service. */
  function MicroEvent(m: Micro, pib: Pib): Event {
    match m
    case Table => PollingTable
    case Queue(d, timers) => PollingQueue(d, pib, timers)
  }

  function KeysUsed(output: Option<Output>): nat {
    match output
    case Some(TableOutput(_)) => 1
    case Some(FrameOutput(_, _)) => 1
    case _ => 0
  }

  /** A silent path: enabled steps that put out nothing and use no key lead from one service to another. */
  ghost predicate SilentPath(s: Service, key: Key, pib: Pib, path: seq<Micro>, s': Service)
    decreases |path|
  {
    if path == [] then s' == s
    else
      exists s1 ::
        && SilentPath(s, key, pib, Init(path), s1)
        && Enabled(s1, MicroEvent(path[|path| - 1], pib))
        && Step(s1, key, MicroEvent(path[|path| - 1], pib)) == (s', None)
  }

  lemma ExtendPath(s: Service, key: Key, pib: Pib, path: seq<Micro>, s1: Service, m: Micro, s': Service)
    requires SilentPath(s, key, pib, path, s1)
    requires Enabled(s1, MicroEvent(m, pib)) && Step(s1, key, MicroEvent(m, pib)) == (s', None)
    ensures SilentPath(s, key, pib, path + [m], s')
  {
    assert Init(path + [m]) == path;
  }

  // ----- The measure of the retry loop

  function EntrySlots(s: Service): set<(Destination, int)> {
    set d, i | d in s.queues && 0 <= i < |s.queues[d].entries| :: (d, i)
  }

  /** The queues whose last report disagrees with their front. */
  function Disagreeing(s: Service): set<Destination> {
    set d | d in s.queues && s.queues[d].lastPendingReported != Some(Q.ShouldBePending(s.queues[d]))
  }

  ghost predicate IsQuiet(q: Q.Queue) {
    q.entries != [] && q.lastPendingReported == Some(Q.ShouldBePending(q))
  }

  /** Whether the loop starts over after a queue was polled: something was done, but there is nothing to put out. */
  predicate Retries(q: Q.Queue, pib: Pib, key: Key, timers: Q.Timers) {
    Q.Poll(q, pib, key, timers).1.Some?
  }

  lemma PollLength(q: Q.Queue, pib: Pib, key: Key, timers: Q.Timers)
    ensures var (q', action) := Q.Poll(q, pib, key, timers);
            && (match action
                case Some(ReportResult(_, _)) => |q'.entries| == |q.entries| - 1
                case _ => |q'.entries| == |q.entries|)
            && (action.None? ==> IsQuiet(q) && IsQuiet(q'))
            && (match action
                case Some(SetPending(_)) =>
                  q.lastPendingReported != Some(Q.ShouldBePending(q)) && q'.lastPendingReported == Some(Q.ShouldBePending(q'))
                case _ => q.lastPendingReported == Some(Q.ShouldBePending(q)))
            && (match action case Some(Empty) => q.entries == [] case _ => true)
  {
    hide Q.PositionOf, Q.CreateFrame, Q.Lowered, Q.Expire;
    if q.lastPendingReported == Some(Q.ShouldBePending(q)) && q.entries != [] && !Q.MaySend(q) && Q.DueResult(q, timers.ack).None? {
      SettledLength(q, timers.ack);
      ExpireLength(Q.Settled(q, timers.ack), timers.transactions);
    }
  }

  lemma ExpireLength(q: Q.Queue, expired: set<Key>)
    requires q.entries != [] && q.lastPendingReported == Some(Q.ShouldBePending(q))
    ensures var (q', action) := Q.Expire(q, expired);
            match action
            case Some(ReportResult(_, _)) => |q'.entries| == |q.entries| - 1
            case None => q' == q && IsQuiet(q)
            case _ => false
  {
    hide Q.PositionOf;
  }

  lemma SettledLength(q: Q.Queue, ackTimeout: bool)
    requires q.entries != [] && Q.DueResult(q, ackTimeout).None?
    ensures var settled := Q.Settled(q, ackTimeout);
            && |settled.entries| == |q.entries| && settled.lastPendingReported == q.lastPendingReported
            && Q.ShouldBePending(settled) == Q.ShouldBePending(q)
  {
  }

  /** Whenever the loop starts over, the measure has gone down. */
  lemma RetryDecreases(s: Service, d: Destination, pib: Pib, key: Key, timers: Q.Timers)
    requires d in s.queues && QueuePolled(s, d, pib, key, timers).1.None?
    ensures var s' := QueuePolled(s, d, pib, key, timers).0;
            if Retries(s.queues[d], pib, key, timers) then
              || EntrySlots(s') < EntrySlots(s)
              || (EntrySlots(s') == EntrySlots(s) && s'.queues.Keys < s.queues.Keys)
              || (EntrySlots(s') == EntrySlots(s) && s'.queues.Keys == s.queues.Keys && Disagreeing(s') < Disagreeing(s))
            else
              && EntrySlots(s') == EntrySlots(s) && s'.queues.Keys == s.queues.Keys && Disagreeing(s') == Disagreeing(s)
              && IsQuiet(s'.queues[d]) && s'.table == s.table
              && forall e <- s.queues :: e != d ==> s'.queues[e] == s.queues[e]
  {
    hide Q.Poll, C.Set;
    var q := s.queues[d];
    PollLength(q, pib, key, timers);
    var s' := QueuePolled(s, d, pib, key, timers).0;
    match Q.Poll(q, pib, key, timers).1 {
      case Some(ReportResult(_, _)) =>
        assert (d, |q.entries| - 1) in EntrySlots(s) && (d, |q.entries| - 1) !in EntrySlots(s');
      case Some(Empty) =>
        assert d in s.queues.Keys && d !in s'.queues.Keys;
      case Some(SetPending(_)) =>
        assert d in Disagreeing(s) && d !in Disagreeing(s');
      case _ =>
    }
  }

  /** One queue that had the key has lost it, or none had it. */
  ghost predicate IsRemoval(s: Service, key: Key, s': Service, removed: bool) {
    && (removed <==> exists d <- s.queues :: Q.Contains(s.queues[d], key))
    && (if removed then
          exists d :: d in s.queues && Q.Contains(s.queues[d], key) && s' == s.(queues := s.queues[d := Q.Remove(s.queues[d], key)])
        else s' == s)
  }

  class DataService {
    var queues: map<Destination, Q.DeviceQueue>
    var msduHandles: BiMap
    const pendingTable: C.CombinedPendingTable
    ghost var history: seq<R.Record>    // the calls so far

    ghost function Parts(): set<object>
      reads this`queues
    {
      {pendingTable, pendingTable.short, pendingTable.extended} + queues.Values
    }

    ghost function Repr(): set<object>
      reads this`queues
    {
      {this} + Parts()
    }

    ghost predicate QueuesApart()
      reads this`queues
    {
      forall d, e | d in queues && e in queues && queues[d] == queues[e] :: d == e
    }

    ghost predicate Valid()
      reads this`queues, Parts()
    {
      pendingTable.Valid() && QueuesApart()
    }

    ghost function Queues(): map<Destination, Q.Queue>
      reads this`queues, queues.Values
    {
      map d | d in queues :: queues[d].View()
    }

    ghost function View(): Service
      reads this`queues, this`msduHandles, Parts()
    {
      Service(Queues(), msduHandles, pendingTable.View())
    }

    /** The calls so far are a run that led here, so what holds over runs holds of this object. */
    ghost predicate Recorded()
      reads this`history, this`queues, this`msduHandles, Parts()
    {
      R.IsRun(history) && R.Final(history) == View()
    }

    ghost predicate Continues(earlier: seq<R.Record>, r: R.Record)
      reads this`history, this`queues, this`msduHandles, Parts()
    {
      Recorded() && history == earlier + [r]
    }

    constructor ()
      ensures Valid() && View() == NewService() && fresh(Repr())
      ensures Recorded() && history == []
    {
      queues := map[];
      msduHandles := BiMap(map[], map[]);
      pendingTable := new C.CombinedPendingTable();
      history := [];
    }

    ghost method Note(before: Service, key: Key, event: Event, output: Option<Output>)
      modifies this`history
      ensures var r := R.Record(before, key, event, output, View());
              R.IsRun(old(history)) && R.Final(old(history)) == before && R.NextKey(old(history)) <= key && R.IsStep(r) ==>
                Continues(old(history), r) && R.NextKey(history) == R.KeyAfter(r)
    {
      hide R.IsRun, R.IsStep, R.KeyAfter, R.NextKey, R.Final;
      var r := R.Record(before, key, event, output, View());
      if R.IsRun(history) && R.Final(history) == before && R.NextKey(history) <= key && R.IsStep(r) {
        AppendStep(history, r);
      }
      history := history + [r];
    }

    method Enqueue(pib: Pib, entry: Q.DataRequest)
      requires Valid()
      modifies this`queues, Parts()
      ensures Valid() && fresh(Repr() - old(Repr())) && msduHandles == old(msduHandles)
      ensures View() == Submitted(old(View()), pib.macMaxFrameRetries, entry)
    {
      hide Q.Insert;
      if entry.destination !in queues {
        AddQueue(entry.destination);
      }
      InsertInto(pib, entry);
    }

    method AddQueue(d: Destination)
      requires Valid() && d !in queues
      modifies this`queues
      ensures Valid() && fresh(Repr() - old(Repr())) && d in queues
      ensures View() == old(View()).(queues := old(View()).queues[d := Q.NewQueue()])
    {
      var newQueue := new Q.DeviceQueue();
      queues := queues[d := newQueue];
      assert Queues() == old(Queues())[d := Q.NewQueue()];
    }

    method InsertInto(pib: Pib, entry: Q.DataRequest)
      requires Valid() && entry.destination in queues
      modifies queues.Values
      ensures Valid() && View() == Submitted(old(View()), pib.macMaxFrameRetries, entry)
    {
      hide Q.Insert;
      var _ := queues[entry.destination].InsertEntry(pib, entry);
      assert Queues() == Submitted(old(View()), pib.macMaxFrameRetries, entry).queues;
    }

    // ----- All queues, in any order

    method AnswerQueues(key: Key, success: bool)
      requires QueuesApart()
      modifies queues.Values
      ensures forall d <- queues :: queues[d].View() == Q.SendReported(old(queues[d].View()), key, success)
    {
      hide Q.SendReported;
      var remaining := queues.Keys;
      while remaining != {}
        invariant remaining <= queues.Keys
        invariant forall d <- queues ::
                    queues[d].View() == if d in remaining then old(queues[d].View()) else Q.SendReported(old(queues[d].View()), key, success)
        decreases |remaining|
      {
        var d :| d in remaining;
        queues[d].ProcessSendResult(key, success);
        remaining := remaining - {d};
      }
    }

    method AcknowledgeQueues(seqNr: Option<byte>, payload: seq<byte>)
      requires QueuesApart()
      modifies queues.Values
      ensures forall d <- queues :: queues[d].View() == Q.Acknowledged(old(queues[d].View()), seqNr, payload)
    {
      hide Q.Acknowledged;
      var remaining := queues.Keys;
      while remaining != {}
        invariant remaining <= queues.Keys
        invariant forall d <- queues ::
                    queues[d].View() == if d in remaining then old(queues[d].View()) else Q.Acknowledged(old(queues[d].View()), seqNr, payload)
        decreases |remaining|
      {
        var d :| d in remaining;
        queues[d].ProcessAcknowledge(seqNr, payload);
        remaining := remaining - {d};
      }
    }

    /** The queues are asked one after the other until one had the key. */
    method RemoveFromQueues(key: Key) returns (removed: bool, ghost hit: Destination)
      requires QueuesApart()
      modifies queues.Values
      ensures removed ==> hit in queues && Q.Contains(old(queues[hit].View()), key)
      ensures !removed ==> forall d <- queues :: !Q.Contains(old(queues[d].View()), key)
      ensures forall d <- queues ::
                queues[d].View() == if removed && d == hit then Q.Remove(old(queues[d].View()), key) else old(queues[d].View())
    {
      hide Q.Contains, Q.Remove;
      removed, hit := false, None;
      var remaining := queues.Keys;
      while remaining != {}
        invariant remaining <= queues.Keys
        invariant removed ==> hit in queues && Q.Contains(old(queues[hit].View()), key)
        invariant !removed ==> forall d <- queues :: d !in remaining ==> !Q.Contains(old(queues[d].View()), key)
        invariant forall d <- queues ::
                    queues[d].View() == if removed && d == hit then Q.Remove(old(queues[d].View()), key) else old(queues[d].View())
        decreases |remaining|
      {
        var d :| d in remaining;
        if !removed {
          removed := queues[d].RemoveEntry(key);
          if removed {
            hit := d;
          } else {
            AbsentIsKept(old(queues[d].View()), key);
          }
        }
        remaining := remaining - {d};
      }
    }

    // ----- What the requests and answers do

    method TakeSendResult(key: Key, success: bool)
      requires Valid()
      modifies queues.Values
      ensures Valid() && View() == SendAnswered(old(View()), key, success)
    {
      hide Q.SendReported;
      AnswerQueues(key, success);
      assert Queues() == SendAnswered(old(View()), key, success).queues;
    }

    /** `remove` */
    method Remove(key: Key) returns (removed: bool)
      requires Valid()
      modifies queues.Values
      ensures Valid() && IsRemoval(old(View()), key, View(), removed)
    {
      hide Q.Contains, Q.Remove;
      ghost var before, hit := View(), None;
      removed, hit := RemoveFromQueues(key);
      if removed {
        assert Queues() == before.queues[hit := Q.Remove(before.queues[hit], key)];
      } else {
        assert Queues() == before.queues;
      }
    }

    method ProcessFrameAck(seqNr: Option<byte>, payload: seq<byte>)
      requires Valid()
      modifies queues.Values
      ensures Valid() && View() == AckSeen(old(View()), seqNr, payload)
    {
      hide Q.Acknowledged;
      AcknowledgeQueues(seqNr, payload);
      assert Queues() == AckSeen(old(View()), seqNr, payload).queues;
    }

    method ProcessFrameDataRequest(pib: Pib, frame: Frame)
      requires Valid()
      modifies queues.Values
      ensures Valid()
      ensures View() ==
                if frame.destination == Some(FullShortAddress(pib)) || frame.destination == Some(FullExtendedAddress(pib))
                then DataRequestFrom(old(View()), frame.source) else old(View())
    {
      hide Q.DataRequestSeen, FullShortAddress, FullExtendedAddress;
      if frame.destination == Some(FullShortAddress(pib)) || frame.destination == Some(FullExtendedAddress(pib)) {
        if frame.source in queues {
          queues[frame.source].ProcessDataRequest();
        }
        assert Queues() == DataRequestFrom(old(View()), frame.source).queues;
      }
    }

    method SeeFrame(pib: Pib, frame: Frame)
      requires Valid()
      modifies queues.Values
      ensures Valid() && View() == FrameSeen(old(View()), pib, frame)
    {
      hide AckSeen, DataRequestFrom, FullShortAddress, FullExtendedAddress, Valid, View, Queues;
      match frame.frameType {
        case Ack(payload) => ProcessFrameAck(frame.sequenceNumber, payload);
        case CommandFrame(DataRequestCommand) => ProcessFrameDataRequest(pib, frame);
        case _ =>
      }
    }

    method SubmitData(pib: Pib, key: Key, data: McpsData)
      requires Valid()
      modifies this`queues, this`msduHandles, Parts()
      ensures Valid() && fresh(Repr() - old(Repr()))
      ensures View() == McpsSubmitted(old(View()), pib.macMaxFrameRetries, data, key)
    {
      hide Submitted, McpsRequest, InsertPair;
      Enqueue(pib, McpsRequest(data, key));
      msduHandles := InsertPair(msduHandles, data.handle, key);
    }

    /** Where every key is queued once, as in every run, the request is gone from all queues. */
    method PurgeHandle(handle: Handle) returns (confirm: Output)
      requires Valid()
      modifies this`msduHandles, queues.Values
      ensures Valid() && confirm == Purged(old(View()), handle).1
      ensures handle !in old(msduHandles.left) ==> View() == old(View())
      ensures handle in old(msduHandles.left) ==>
                exists s, removed ::
                  IsRemoval(old(View()), old(msduHandles.left)[handle], s, removed) &&
                  View() == s.(handles := RemoveByLeft(old(msduHandles), handle))
      ensures forall next :: WellQueued(old(View()), next) ==> View() == Purged(old(View()), handle).0
    {
      hide WellQueued, AllRemoved, IsRemoval, RemoveByLeft;
      ghost var before := View();
      if handle !in msduHandles.left {
        return PurgeConfirm(handle, Err(InvalidHandle));
      }
      var key := msduHandles.left[handle];
      var removed := Remove(key);
      ghost var s := View();
      forall next | WellQueued(before, next) ensures s.queues == AllRemoved(before.queues, key) {
        RemovalIsFromAll(before, next, key, s, removed);
      }
      RemovalKeepsRest(before, key, s, removed);
      msduHandles := RemoveByLeft(msduHandles, handle);
      assert View() == s.(handles := RemoveByLeft(before.handles, handle));
      return PurgeConfirm(handle, Ok(()));
    }

    // ----- The calls, and the run they make

    method Insert(pib: Pib, entry: Q.DataRequest)
      requires Valid()
      modifies Repr()
      ensures Valid() && fresh(Repr() - old(Repr()))
      ensures View() == Submitted(old(View()), pib.macMaxFrameRetries, entry)
      ensures old(Recorded()) && entry.content.CommandFrame? && R.NextKey(old(history)) <= entry.key ==>
                Continues(old(history), R.Record(old(View()), entry.key, SubmittingCommand(pib.macMaxFrameRetries, entry), None, View()))
    {
      hide R.IsRun, R.NextKey, R.KeyAfter, R.Final, Submitted, Valid, View, Queues;
      ghost var before := View();
      Enqueue(pib, entry);
      assert entry.(key := entry.key) == entry;
      Note(before, entry.key, SubmittingCommand(pib.macMaxFrameRetries, entry), None);
    }

    method ProcessSendResult(key: Key, success: bool)
      requires Valid()
      modifies Repr()
      ensures Valid() && Repr() == old(Repr())
      ensures View() == SendAnswered(old(View()), key, success)
      ensures old(Recorded()) ==>
                Continues(old(history), R.Record(old(View()), R.NextKey(old(history)), SendAnswer(key, success), None, View()))
    {
      hide R.IsRun, R.NextKey, R.KeyAfter, R.Final, SendAnswered, Valid, View, Queues;
      ghost var before := View();
      TakeSendResult(key, success);
      Note(before, R.NextKey(history), SendAnswer(key, success), None);
    }

    method ProcessFrame(pib: Pib, frame: Frame)
      requires Valid()
      modifies Repr()
      ensures Valid() && Repr() == old(Repr())
      ensures View() == FrameSeen(old(View()), pib, frame)
      ensures old(Recorded()) ==>
                Continues(old(history), R.Record(old(View()), R.NextKey(old(history)), SeeingFrame(pib, frame), None, View()))
    {
      hide R.IsRun, R.NextKey, R.KeyAfter, R.Final, FrameSeen, Valid, View, Queues;
      ghost var before := View();
      SeeFrame(pib, frame);
      Note(before, R.NextKey(history), SeeingFrame(pib, frame), None);
    }

    /** A handle that is in use loses its old request; such a call continues no run. */
    method ProcessMcpsDataRequest(pib: Pib, keys: KeySource, data: McpsData)
      requires Valid()
      modifies Repr(), keys
      ensures Valid() && fresh(Repr() - old(Repr())) && keys.next == old(keys.next) + 1
      ensures View() == McpsSubmitted(old(View()), pib.macMaxFrameRetries, data, old(keys.next))
      ensures old(Recorded()) && data.handle !in old(View()).handles.left && R.NextKey(old(history)) <= old(keys.next) ==>
                Continues(old(history), R.Record(old(View()), old(keys.next), SubmittingData(pib.macMaxFrameRetries, data), None, View()))
    {
      hide R.IsRun, R.NextKey, R.KeyAfter, R.Final, McpsSubmitted, Valid, View, Queues;
      ghost var before := View();
      var key := keys.New();
      SubmitData(pib, key, data);
      Note(before, key, SubmittingData(pib.macMaxFrameRetries, data), None);
    }

    method ProcessMcpsPurgeRequest(handle: Handle) returns (confirm: Output)
      requires Valid()
      modifies Repr()
      ensures Valid() && Repr() == old(Repr()) && confirm == Purged(old(View()), handle).1
      ensures handle !in old(View()).handles.left ==> View() == old(View())
      ensures handle in old(View()).handles.left ==>
                exists s, removed ::
                  IsRemoval(old(View()), old(View()).handles.left[handle], s, removed) &&
                  View() == s.(handles := RemoveByLeft(old(View()).handles, handle))
      ensures forall next :: WellQueued(old(View()), next) ==> View() == Purged(old(View()), handle).0
      ensures old(Recorded()) ==>
                Continues(old(history), R.Record(old(View()), R.NextKey(old(history)), Purging(handle), Some(confirm), View()))
    {
      hide R.IsRun, R.NextKey, R.KeyAfter, R.Final, WellQueued, Purged, IsRemoval, RemoveByLeft, Valid, Queues;
      ghost var before := View();
      confirm := PurgeHandle(handle);
      if R.IsRun(history) && R.Final(history) == before {
        R.RunKeepsInv(history);
        assert View() == Purged(before, handle).0;
      }
      Note(before, R.NextKey(history), Purging(handle), Some(confirm));
    }

    method ProcessInitPendingTableResult(key: Key, success: bool)
      requires Valid()
      modifies Repr()
      ensures Valid() && Repr() == old(Repr())
      ensures View() == old(View()).(table := C.InitReported(old(View()).table, key, success))
      ensures old(Recorded()) ==>
                Continues(old(history), R.Record(old(View()), R.NextKey(old(history)), InitAnswer(key, success), None, View()))
    {
      hide R.IsRun, R.NextKey, R.KeyAfter, R.Final, C.InitReported;
      ghost var before := View();
      pendingTable.ReportInitResult(key, success);
      assert Queues() == before.queues;
      hide View, Queues, Valid;
      Note(before, R.NextKey(history), InitAnswer(key, success), None);
    }

    method ProcessSetPendingResult(key: Key, success: bool)
      requires Valid()
      modifies Repr()
      ensures Valid() && Repr() == old(Repr())
      ensures View() == old(View()).(table := C.UpdateReported(old(View()).table, key, success))
      ensures old(Recorded()) ==>
                Continues(old(history), R.Record(old(View()), R.NextKey(old(history)), UpdateAnswer(key, success), None, View()))
    {
      hide R.IsRun, R.NextKey, R.KeyAfter, R.Final, C.UpdateReported;
      ghost var before := View();
      pendingTable.ReportUpdateResult(key, success);
      assert Queues() == before.queues;
      hide View, Queues, Valid;
      Note(before, R.NextKey(history), UpdateAnswer(key, success), None);
    }

    // ----- One queue

    method AskQueue(d: Destination, pib: Pib, keys: KeySource, timers: Q.Timers) returns (action: Option<Q.Action>, pib': Pib)
      requires Valid() && d in queues
      modifies Parts(), keys
      ensures Valid() && (action, pib') == (Q.Poll(old(View()).queues[d], pib, old(keys.next), timers).1, Q.PibAfter(pib, action))
      ensures View() == old(View()).(queues := old(View()).queues[d := Q.Poll(old(View()).queues[d], pib, old(keys.next), timers).0])
      ensures keys.next == old(keys.next) + (if action.Some? && action.value.SendFrame? then 1 else 0)
    {
      hide Q.Poll, Q.PibAfter;
      action, pib' := queues[d].PollNextAction(pib, keys, timers);
      assert Queues() == old(Queues())[d := queues[d].View()];
    }

    method Discard(d: Destination)
      requires Valid()
      modifies this`queues
      ensures Valid() && Repr() <= old(Repr()) && View() == old(View()).(queues := old(View()).queues - {d})
    {
      queues := queues - {d};
      assert Queues() == old(Queues()) - {d};
    }

    method PassOn(d: Destination, pending: bool)
      requires Valid()
      modifies Parts()
      ensures Valid() && View() == old(View()).(table := C.Set(old(View()).table, d, pending))
    {
      hide C.Set;
      pendingTable.SetPending(d, pending);
      assert Queues() == old(Queues());
    }

    method Settle(key: Key, result: Q.SendResult) returns (output: Option<Output>)
      requires Valid()
      modifies this`msduHandles
      ensures Valid()
      ensures var handles := old(View()).handles;
              (View(), output) ==
                if key in handles.right
                then (old(View()).(handles := RemoveByRight(handles, key)), Some(DataConfirm(handles.right[key], McpsResult(result))))
                else (old(View()), None)
    {
      hide RemoveByRight;
      output := None;
      if key in msduHandles.right {
        output := Some(DataConfirm(msduHandles.right[key], McpsResult(result)));
        msduHandles := RemoveByRight(msduHandles, key);
      }
    }

    lemma Destinations()
      ensures View().queues.Keys == queues.Keys
    {
    }

    /** Polls one queue and does what it asks for; `retry` tells the loop to start over. */
    method PollQueue(d: Destination, pib: Pib, keys: KeySource, timers: Q.Timers)
      returns (output: Option<Output>, retry: bool, pib': Pib)
      requires Valid() && d in queues
      modifies this`queues, this`msduHandles, Parts(), keys
      ensures Valid() && Repr() <= old(Repr())
      ensures (View(), output) == QueuePolled(old(View()), d, pib, old(keys.next), timers)
      ensures output.None? ==> (retry <==> Retries(old(View()).queues[d], pib, old(keys.next), timers))
      ensures keys.next == old(keys.next) + KeysUsed(output)
      ensures pib' == PibAfter(pib, output)
    {
      hide Q.Poll, C.Set, McpsResult, NextSequenceNumber, Valid, View, Queues, RemoveByRight;
      ghost var before := View();
      var action;
      action, pib' := AskQueue(d, pib, keys, timers);
      ghost var queue := View().queues[d];
      output, retry := None, true;
      match action {
        case None => retry := false;
        case Some(Empty) =>
          Discard(d);
          assert before.queues[d := queue] - {d} == before.queues - {d};
        case Some(SetPending(pending)) => PassOn(d, pending);
        case Some(SendFrame(key, frame)) => output := Some(FrameOutput(key, frame));
        case Some(ReportResult(key, result)) => output := Settle(key, result);
      }
    }

    /** The poll of one queue within a pass. */
    method PollInPass(d: Destination, pib: Pib, keys: KeySource, timers: Q.Timers,
                      ghost origin: Service, ghost path: seq<Micro>, ghost start: Service, ghost remaining: set<Destination>)
      returns (output: Option<Output>, retry: bool, pib': Pib)
      requires Valid() && d in queues && d in remaining
      requires SilentPath(origin, keys.next, pib, path, View()) && SamePass(start, View(), remaining)
      modifies this`queues, this`msduHandles, Parts(), keys
      ensures Valid() && Repr() <= old(Repr())
      ensures output.Some? ==> IsLastStep(origin, old(keys.next), pib, path, old(View()), Queue(d, timers), View(), output)
      ensures output.None? ==> SilentPath(origin, old(keys.next), pib, path + [Queue(d, timers)], View())
      ensures output.None? && retry ==> Decreased(View(), start)
      ensures output.None? && !retry ==> SamePass(start, View(), remaining - {d}) && queues.Keys == start.queues.Keys
      ensures keys.next == old(keys.next) + KeysUsed(output)
      ensures pib' == PibAfter(pib, output)
    {
      hide QueuePolled, Q.Poll, SilentPath, EntrySlots, Disagreeing, Retries, PibAfter, IsQuiet, IsLastStep;
      hide Valid, Decreased, SamePass, View, Queues;
      ghost var before, key := View(), keys.next;
      Destinations();
      output, retry, pib' := PollQueue(d, pib, keys, timers);
      Destinations();
      PassStep(origin, key, pib, path, start, before, d, timers, remaining, View(), output);
    }

    /**
     * One pass over the queues, in any order, until one of them has something to put out or the
     * loop has to start over. A pass that ends otherwise leaves all queues quiet.
     */
    method PollQueues(pib: Pib, keys: KeySource, clock: Clock, polls: nat, ghost origin: Service, ghost walked: seq<Micro>)
      returns (output: Option<Output>, retry: bool, pib': Pib, polls': nat, ghost path: seq<Micro>, ghost before: Service, ghost last: Micro)
      requires Valid() && SilentPath(origin, keys.next, pib, walked, View())
      modifies this`queues, this`msduHandles, Parts(), keys
      ensures Valid() && Repr() <= old(Repr())
      ensures output.Some? ==> IsLastStep(origin, old(keys.next), pib, path, before, last, View(), output)
      ensures output.None? ==> SilentPath(origin, old(keys.next), pib, path, View())
      ensures output.None? && retry ==> Decreased(View(), old(View()))
      ensures output.None? && !retry ==> View().table == old(View()).table && Quiet(View())
      ensures keys.next == old(keys.next) + KeysUsed(output)
      ensures pib' == PibAfter(pib, output)
    {
      hide QueuePolled, Q.Poll, SilentPath, EntrySlots, Disagreeing, Retries, PibAfter, IsQuiet, IsLastStep;
      hide Valid, Decreased, Quiet, SamePass, View, Queues;
      ghost var start, key := View(), keys.next;
      path, before, last := walked, start, Table;
      polls', output, retry, pib' := polls, None, false, pib;
      SilentPib(pib);
      StartPass(start);
      Destinations();
      var remaining := queues.Keys;
      while remaining != {} && !retry
        invariant Valid() && Repr() <= old(Repr())
        invariant keys.next == key && pib' == pib && output == None
        invariant SilentPath(origin, key, pib, path, View())
        invariant !retry ==> remaining <= queues.Keys == start.queues.Keys
        invariant !retry ==> SamePass(start, View(), remaining)
        invariant retry ==> Decreased(View(), start)
        decreases !retry, |remaining|
      {
        var d :| d in remaining;
        before := View();
        var timers := clock(polls', d);
        last := Queue(d, timers);
        output, retry, pib' := PollInPass(d, pib, keys, timers, origin, path, start, remaining);
        polls' := polls' + 1;
        if output.Some? {
          return;
        }
        path := path + [last];
        remaining := remaining - {d};
      }
      if !retry {
        QuietEverywhere(start, View());
      }
    }

    /**
     * `poll_action`: polls the tables and then the queues, in any order, and starts over after
     * each queue that had something to do but nothing to put out. It ends for every order and
     * every clock; the result is that of the last step of a run of the service, and if there is
     * none, all queues are quiet and the tables have nothing to send.
     */
    method PollAction(pib: Pib, keys: KeySource, clock: Clock)
      returns (output: Option<Output>, pib': Pib, ghost path: seq<Micro>, ghost before: Service, ghost last: Micro)
      requires Valid()
      modifies Repr(), keys
      ensures Valid() && Repr() <= old(Repr())
      ensures output.Some? ==> IsLastStep(old(View()), old(keys.next), pib, path, before, last, View(), output)
      ensures output.None? ==>
                SilentPath(old(View()), old(keys.next), pib, path, View()) &&
                Quiet(View()) && TablePolled(View(), keys.next).1.None?
      ensures keys.next == old(keys.next) + KeysUsed(output)
      ensures pib' == PibAfter(pib, output)
      ensures old(Recorded()) && R.NextKey(old(history)) <= old(keys.next) ==>
                && Recorded() && old(history) <= history && R.NextKey(history) <= keys.next
                && (output.Some? ==> history != [] && history[|history| - 1].output == output)
    {
      hide SilentPath, IsLastStep, PibAfter, Quiet, TablePolled, R.IsRun, R.Final, R.NextKey, Valid;
      ghost var start, key := View(), keys.next;
      output, pib', path, before, last := PollUntilDone(pib, keys, clock);
      if R.IsRun(history) && R.Final(history) == start && R.NextKey(history) <= key {
        if output.Some? {
          history := CallIsRun(history, key, pib, path, before, last, View(), output);
        } else {
          history := SilentPathIsRun(history, key, pib, path, View());
        }
      }
    }

    method PollUntilDone(pib: Pib, keys: KeySource, clock: Clock)
      returns (output: Option<Output>, pib': Pib, ghost path: seq<Micro>, ghost before: Service, ghost last: Micro)
      requires Valid()
      modifies this`queues, this`msduHandles, Parts(), keys
      ensures Valid() && Repr() <= old(Repr())
      ensures output.Some? ==> IsLastStep(old(View()), old(keys.next), pib, path, before, last, View(), output)
      ensures output.None? ==>
                SilentPath(old(View()), old(keys.next), pib, path, View()) &&
                Quiet(View()) && TablePolled(View(), keys.next).1.None?
      ensures keys.next == old(keys.next) + KeysUsed(output)
      ensures pib' == PibAfter(pib, output)
    {
      hide C.Poll, SilentPath, EntrySlots, Disagreeing, IsLastStep, PibAfter, Quiet;
      pib', path, output := pib, [], None;
      StartPath(View(), keys.next, pib);
      SilentPib(pib);
      var polls := 0;
      while true
        invariant Valid() && Repr() <= old(Repr())
        invariant keys.next == old(keys.next)
        invariant SilentPath(old(View()), keys.next, pib, path, View())
        decreases EntrySlots(View()), View().queues.Keys, Disagreeing(View())
      {
        before, last := View(), Table;
        var update := pendingTable.PollAction(keys);
        assert Queues() == before.queues;
        TableStep(old(View()), old(keys.next), pib, path, before, update, View());
        if update.Some? {
          return Some(TableOutput(update.value)), pib, path, before, last;
        }
        path := path + [Table];
        var retry;
        output, retry, pib', polls, path, before, last := PollQueues(pib, keys, clock, polls, old(View()), path);
        if output.Some? || !retry {
          return;
        }
      }
    }

    /** What holds over runs, said of the object: its invariant, and one outcome for every request. */
    lemma RecordedFacts()
      requires Recorded()
      ensures R.Inv(View(), R.NextKey(history))
      ensures R.RequestedHandles(history) == R.OpenHandles(View()) + R.SettledHandles(history)
    {
      R.RunKeepsInv(history);
      R.HandleConservation(history);
    }
  }

  function PibAfter(pib: Pib, output: Option<Output>): Pib {
    if output.Some? && output.value.FrameOutput? then pib.(macDsn := NextSequenceNumber(pib.macDsn)) else pib
  }

  lemma SilentPib(pib: Pib)
    ensures PibAfter(pib, None) == pib
    ensures forall u :: PibAfter(pib, Some(TableOutput(u))) == pib
  {
  }

  /** A silent path and then one step that puts something out. */
  ghost predicate IsLastStep(s: Service, key: Key, pib: Pib, path: seq<Micro>, before: Service, last: Micro,
                             after: Service, output: Option<Output>) {
    && SilentPath(s, key, pib, path, before)
    && Enabled(before, MicroEvent(last, pib))
    && Step(before, key, MicroEvent(last, pib)) == (after, output)
  }

  /** During a pass nothing but the state of the polled queues changes, and these are quiet. */
  ghost predicate SamePass(start: Service, s: Service, remaining: set<Destination>) {
    && s.queues.Keys == start.queues.Keys
    && s.table == start.table
    && EntrySlots(s) == EntrySlots(start) && Disagreeing(s) == Disagreeing(start)
    && forall d <- s.queues :: d !in remaining ==> IsQuiet(s.queues[d])
  }

  lemma StartPass(start: Service)
    ensures SamePass(start, start, start.queues.Keys)
  {
  }

  lemma PassStep(origin: Service, key: Key, pib: Pib, path: seq<Micro>, start: Service, before: Service, d: Destination,
                 timers: Q.Timers, remaining: set<Destination>, after: Service, output: Option<Output>)
    requires SilentPath(origin, key, pib, path, before) && SamePass(start, before, remaining)
    requires d in before.queues && d in remaining && QueuePolled(before, d, pib, key, timers) == (after, output)
    ensures output.Some? ==> IsLastStep(origin, key, pib, path, before, Queue(d, timers), after, output)
    ensures output.None? ==> SilentPath(origin, key, pib, path + [Queue(d, timers)], after)
    ensures output.None? ==>
              if Retries(before.queues[d], pib, key, timers) then Decreased(after, start)
              else SamePass(start, after, remaining - {d}) && after.queues.Keys == start.queues.Keys
  {
    hide SilentPath, Q.Poll, EntrySlots, Disagreeing, Retries, QueuePolled, IsQuiet;
    if output.None? {
      ExtendPath(origin, key, pib, path, before, Queue(d, timers), after);
      RetryDecreases(before, d, pib, key, timers);
    }
  }

  /** The measure of the retry loop went down. */
  ghost predicate Decreased(s: Service, start: Service) {
    || EntrySlots(s) < EntrySlots(start)
    || (EntrySlots(s) == EntrySlots(start) && s.queues.Keys < start.queues.Keys)
    || (EntrySlots(s) == EntrySlots(start) && s.queues.Keys == start.queues.Keys && Disagreeing(s) < Disagreeing(start))
  }

  lemma StartPath(s: Service, key: Key, pib: Pib)
    ensures SilentPath(s, key, pib, [], s)
  {
  }

  lemma TableStep(origin: Service, key: Key, pib: Pib, path: seq<Micro>, before: Service, action: Option<C.Action>, after: Service)
    requires SilentPath(origin, key, pib, path, before)
    requires after.queues == before.queues && after.handles == before.handles
    requires (after.table, action) == C.Poll(before.table, key)
    ensures action.Some? ==> IsLastStep(origin, key, pib, path, before, Table, after, Some(TableOutput(action.value)))
    ensures action.None? ==>
              after == before && SilentPath(origin, key, pib, path + [Table], after) && TablePolled(after, key).1.None?
  {
    hide SilentPath;
    if action.None? {
      ExtendPath(origin, key, pib, path, before, Table, after);
    }
  }

  lemma QuietEverywhere(start: Service, s: Service)
    requires SamePass(start, s, {})
    ensures Quiet(s) && s.table == start.table
  {
  }

  lemma AbsentIsKept(q: Q.Queue, key: Key)
    requires !Q.Contains(q, key)
    ensures Q.Remove(q, key) == q
  {
    Q.RetainedAll(q.entries, key);
  }

  lemma RemovalKeepsRest(s: Service, key: Key, s': Service, removed: bool)
    requires IsRemoval(s, key, s', removed)
    ensures s'.handles == s.handles && s'.table == s.table
  {
  }

  /** Where every key is queued once, taking it from one queue is taking it from all. */
  lemma RemovalIsFromAll(s: Service, next: Key, key: Key, s': Service, removed: bool)
    requires WellQueued(s, next) && IsRemoval(s, key, s', removed)
    ensures s'.queues == AllRemoved(s.queues, key)
    ensures removed <==> exists r <- Queued(s) :: r.key == key
  {
    hide WellQueued, Q.Contains, Q.Remove, Queued;
    ContainsMeansQueued(s, key);
    forall e | e in s.queues ensures s'.queues[e] == Q.Remove(s.queues[e], key) {
      if removed {
        var d :| d in s.queues && Q.Contains(s.queues[d], key) && s' == s.(queues := s.queues[d := Q.Remove(s.queues[d], key)]);
        if e != d {
          OneQueueContains(s, next, key, e, d);
        }
      } else {
        AbsentIsKept(s.queues[e], key);
      }
    }
  }

  lemma OneQueueContains(s: Service, next: Key, key: Key, d: Destination, e: Destination)
    requires WellQueued(s, next) && d in s.queues && e in s.queues && d != e && Q.Contains(s.queues[e], key)
    ensures !Q.Contains(s.queues[d], key) && Q.Remove(s.queues[d], key) == s.queues[d]
  {
    KeysAreOld(s, next);
    var i := Q.PositionOf(s.queues[e].entries, {key}, 0).value;
    var r := s.queues[e].entries[i].data;
    assert r in Requests(s.queues[e]) && r in Queued(s);
    forall j | 0 <= j < |s.queues[d].entries| ensures s.queues[d].entries[j].data.key != key {
      var x := s.queues[d].entries[j].data;
      assert x in Requests(s.queues[d]) && x in Queued(s);
    }
    Q.RetainedAll(s.queues[d].entries, key);
  }

  lemma ContainsMeansQueued(s: Service, key: Key)
    ensures (exists d <- s.queues :: Q.Contains(s.queues[d], key)) <==> exists r <- Queued(s) :: r.key == key
  {
    if d :| d in s.queues && Q.Contains(s.queues[d], key) {
      var i := Q.PositionOf(s.queues[d].entries, {key}, 0).value;
      var r := s.queues[d].entries[i].data;
      assert r in Requests(s.queues[d]) && r in Queued(s);
    }
    if r :| r in Queued(s) && r.key == key {
      var d :| d in s.queues && r in Requests(s.queues[d]);
      var i :| 0 <= i < |s.queues[d].entries| && s.queues[d].entries[i].data == r;
      assert Q.Contains(s.queues[d], key);
    }
  }

  // ----- Calls of the object are runs of the service

  /** The silent steps of a call continue any run that led to the service before it. */
  lemma {:induction false} SilentPathIsRun(tr: seq<R.Record>, key: Key, pib: Pib, path: seq<Micro>, s': Service)
    returns (tr': seq<R.Record>)
    requires R.IsRun(tr) && R.NextKey(tr) <= key && SilentPath(R.Final(tr), key, pib, path, s')
    ensures R.IsRun(tr') && tr <= tr' && R.Final(tr') == s' && R.NextKey(tr') <= key
    decreases |path|
  {
    if path == [] {
      tr' := tr;
    } else {
      var m := path[|path| - 1];
      var s1 :| SilentPath(R.Final(tr), key, pib, Init(path), s1) && Enabled(s1, MicroEvent(m, pib)) &&
                Step(s1, key, MicroEvent(m, pib)) == (s', None);
      var tr1 := SilentPathIsRun(tr, key, pib, Init(path), s1);
      tr' := tr1 + [R.Record(s1, key, MicroEvent(m, pib), None, s')];
      AppendStep(tr1, R.Record(s1, key, MicroEvent(m, pib), None, s'));
    }
  }

  lemma AppendStep(tr: seq<R.Record>, r: R.Record)
    requires R.IsRun(tr) && R.IsStep(r) && r.pre == R.Final(tr) && R.NextKey(tr) <= r.key
    ensures R.IsRun(tr + [r]) && R.Final(tr + [r]) == r.post && R.NextKey(tr + [r]) == R.KeyAfter(r)
  {
    hide R.IsStep, R.KeyAfter;
    var tr' := tr + [r];
    forall i | 0 <= i < |tr'| ensures R.IsStep(tr'[i]) {
      if i < |tr| { assert tr'[i] == tr[i]; }
    }
    forall i | 0 <= i < |tr'| - 1 ensures tr'[i + 1].pre == tr'[i].post && tr'[i + 1].key >= R.KeyAfter(tr'[i]) {
      assert tr'[i] == tr[i];
      if i + 1 < |tr| { assert tr'[i + 1] == tr[i + 1]; }
    }
  }

  /** A call that puts something out is a run, too, whose last step puts it out. */
  lemma CallIsRun(tr: seq<R.Record>, key: Key, pib: Pib, path: seq<Micro>, before: Service, last: Micro,
                  after: Service, output: Option<Output>)
    returns (tr': seq<R.Record>)
    requires R.IsRun(tr) && R.NextKey(tr) <= key && IsLastStep(R.Final(tr), key, pib, path, before, last, after, output)
    ensures R.IsRun(tr') && tr <= tr' && R.Final(tr') == after && tr' != [] && tr'[|tr'| - 1].output == output
    ensures R.NextKey(tr') <= key + KeysUsed(output)
  {
    hide Step;
    var tr1 := SilentPathIsRun(tr, key, pib, path, before);
    var r := R.Record(before, key, MicroEvent(last, pib), output, after);
    AppendStep(tr1, r);
    tr' := tr1 + [r];
  }
}
