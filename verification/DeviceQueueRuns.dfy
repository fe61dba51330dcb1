/** What holds over every run of a send queue, whatever the radio, the timers and the callers do. */
module DeviceQueueRuns {
  import opened Prelude
  import opened Frames
  import opened Pibs
  import opened PendingTables
  import opened DeviceQueues

  datatype Event =
    | Inserting(request: DataRequest, retries: nat)
    | Removing(key: Key)
    | DataRequested
    | SendAnswer(sendKey: Key, success: bool)
    | AckReceived(seqNr: Option<byte>, ackPayload: seq<byte>)
    | Polling(pib: Pib, freshKey: Key, timers: Timers)

  function Step(q: Queue, e: Event): (Queue, Option<Action>) {
    match e
    case Inserting(request, retries) => (Insert(q, request, retries), None)
    case Removing(key) => (Remove(q, key), None)
    case DataRequested => (DataRequestSeen(q), None)
    case SendAnswer(key, success) => (SendReported(q, key, success), None)
    case AckReceived(seqNr, payload) => (Acknowledged(q, seqNr, payload), None)
    case Polling(pib, key, timers) => Poll(q, pib, key, timers)
  }

  datatype Record = Record(pre: Queue, event: Event, action: Option<Action>, post: Queue)

  /** A run of a queue from its creation. */
  ghost predicate IsRun(tr: seq<Record>) {
    && (tr != [] ==> tr[0].pre == NewQueue())
    && (forall i | 0 <= i < |tr| :: (tr[i].post, tr[i].action) == Step(tr[i].pre, tr[i].event))
    && (forall i | 0 <= i < |tr| - 1 :: tr[i + 1].pre == tr[i].post)
  }

  function Final(tr: seq<Record>): Queue {
    if tr == [] then NewQueue() else tr[|tr| - 1].post
  }

  lemma RunInit(tr: seq<Record>)
    requires IsRun(tr) && tr != []
    ensures IsRun(Init(tr)) && Final(Init(tr)) == tr[|tr| - 1].pre
    ensures Step(Final(Init(tr)), tr[|tr| - 1].event) == (Final(tr), tr[|tr| - 1].action)
  {
  }

  predicate IsSend(r: Record) {
    r.action.Some? && r.action.value.SendFrame? && r.pre.entries != []
  }

  /** The position of the last frame handed out, or -1. */
  function LastSend(tr: seq<Record>): (r: int)
    ensures -1 <= r < |tr|
    ensures r >= 0 ==> IsSend(tr[r])
    ensures forall i | r < i < |tr| :: !IsSend(tr[i])
  {
    if tr == [] then -1
    else if IsSend(tr[|tr| - 1]) then |tr| - 1
    else LastSend(tr[..|tr| - 1])
  }

  // ----- A positive result is earned by the last attempt

  ghost predicate SentOkAfter(tr: seq<Record>, j: int, key: Key) {
    exists m: nat | j < m < |tr| :: tr[m].event == SendAnswer(key, true)
  }

  ghost predicate AckedAfter(tr: seq<Record>, j: int, seqNr: Option<byte>, payload: seq<byte>) {
    exists m: nat | j < m < |tr| :: tr[m].event == AckReceived(seqNr, payload)
  }

  ghost predicate RequestedAfter(tr: seq<Record>, j: int) {
    exists m: nat | j < m < |tr| :: tr[m].event == DataRequested
  }

  /** The attempt at position j was sent by the radio and, if it asked for that, acknowledged with this payload. */
  ghost predicate Earned(tr: seq<Record>, j: int, payload: seq<byte>)
    requires 0 <= j < |tr| && IsSend(tr[j])
  {
    var SendFrame(key, frame) := tr[j].action.value;
    && SentOkAfter(tr, j, key)
    && (if frame.acknowledgeRequest then AckedAfter(tr, j, frame.sequenceNumber, payload) else payload == [])
  }

  /** Unless it is idle, a queue is busy with the last frame it handed out, and that is its front entry's. */
  ghost predicate Busy(tr: seq<Record>, q: Queue) {
    var j := LastSend(tr);
    match q.state
    case Idle(dataRequest) => dataRequest ==> RequestedAfter(tr, j)
    case _ =>
      && j >= 0 && q.entries != [] && tr[j].pre.entries[0] == q.entries[0]
      && var SendFrame(key, frame) := tr[j].action.value;
      && frame.acknowledgeRequest == q.entries[0].data.acknowledgeRequest
      && frame.sequenceNumber.Some?
      && match q.state
         case Sending(k, requested, payload) =>
           && k == key
           && (requested.Some? ==> frame.acknowledgeRequest && requested == frame.sequenceNumber && payload == [])
           && (requested.None? ==>
                 if frame.acknowledgeRequest then AckedAfter(tr, j, frame.sequenceNumber, payload) else payload == [])
         case WaitingForAck(awaited) =>
           frame.acknowledgeRequest && frame.sequenceNumber == Some(awaited) && SentOkAfter(tr, j, key)
         case HaveResult(Ok(payload)) => Earned(tr, j, payload)
         case HaveResult(Err(e)) => e == SendFailure && !q.entries[0].data.indirect
  }

  /** Observations only grow while no frame is handed out. */
  lemma Observed(tr: seq<Record>)
    requires tr != [] && !IsSend(tr[|tr| - 1])
    ensures LastSend(tr) == LastSend(Init(tr))
    ensures forall j, key :: SentOkAfter(Init(tr), j, key) ==> SentOkAfter(tr, j, key)
    ensures forall j, n, p :: AckedAfter(Init(tr), j, n, p) ==> AckedAfter(tr, j, n, p)
    ensures forall j :: RequestedAfter(Init(tr), j) ==> RequestedAfter(tr, j)
  {
    forall j, key | SentOkAfter(Init(tr), j, key) ensures SentOkAfter(tr, j, key) {
      var m: nat :| j < m < |Init(tr)| && Init(tr)[m].event == SendAnswer(key, true);
      assert tr[m].event == SendAnswer(key, true);
    }
    forall j, n, p | AckedAfter(Init(tr), j, n, p) ensures AckedAfter(tr, j, n, p) {
      var m: nat :| j < m < |Init(tr)| && Init(tr)[m].event == AckReceived(n, p);
      assert tr[m].event == AckReceived(n, p);
    }
    forall j | RequestedAfter(Init(tr), j) ensures RequestedAfter(tr, j) {
      var m: nat :| j < m < |Init(tr)| && Init(tr)[m].event == DataRequested;
      assert tr[m].event == DataRequested;
    }
  }

  /** A queue that keeps its state and its front entry stays busy with the same attempt. */
  lemma StaysBusy(tr: seq<Record>, q: Queue, q': Queue)
    requires tr != [] && !IsSend(tr[|tr| - 1])
    requires Busy(Init(tr), q)
    requires q'.state == q.state
    requires !q.state.Idle? ==> q'.entries != [] && q'.entries[0] == q.entries[0]
    ensures Busy(tr, q')
  {
    Observed(tr);
  }

  lemma RetainedFront(entries: seq<QueueEntry>, key: Key)
    requires entries != [] && entries[0].data.key != key
    ensures Retained(entries, key) != [] && Retained(entries, key)[0] == entries[0]
  {
  }

  lemma ExpireStaysBusy(tr: seq<Record>, q: Queue, expired: set<Key>)
    requires tr != [] && !IsSend(tr[|tr| - 1])
    requires Busy(Init(tr), q)
    ensures Busy(tr, Expire(q, expired).0)
  {
    Observed(tr);
    if PositionOf(q.entries, expired, 0) != Some(0) {
      StaysBusy(tr, q, Expire(q, expired).0);
    }
  }

  lemma {:induction false} AlwaysBusyWithLastFrame(tr: seq<Record>)
    requires IsRun(tr)
    ensures Busy(tr, Final(tr))
    decreases |tr|
  {
    if tr != [] {
      AlwaysBusyWithLastFrame(Init(tr));
      RunInit(tr);
      BusyStep(tr);
    }
  }

  lemma BusyStep(tr: seq<Record>)
    requires tr != [] && Busy(Init(tr), tr[|tr| - 1].pre)
    requires var r := tr[|tr| - 1]; Step(r.pre, r.event) == (r.post, r.action)
    ensures Busy(tr, tr[|tr| - 1].post)
  {
    var last := |tr| - 1;
    var r := tr[last];
    var q := r.pre;
    match r.event {
      case Inserting(request, retries) => StaysBusy(tr, q, r.post);
      case Removing(key) =>
        if q.entries != [] && q.entries[0].data.key != key {
          RetainedFront(q.entries, key);
          StaysBusy(tr, q, r.post);
        } else {
          Observed(tr);
        }
      case DataRequested =>
        assert tr[last].event == DataRequested;
        if q.state.Idle? { Observed(tr); } else { StaysBusy(tr, q, r.post); }
      case SendAnswer(key, success) =>
        assert tr[last].event == SendAnswer(key, success);
        Observed(tr);
      case AckReceived(seqNr, payload) =>
        assert tr[last].event == AckReceived(seqNr, payload);
        Observed(tr);
      case Polling(pib, key, timers) => BusyPoll(tr, pib, key, timers);
    }
  }

  lemma BusyPoll(tr: seq<Record>, pib: Pib, key: Key, timers: Timers)
    requires tr != [] && Busy(Init(tr), tr[|tr| - 1].pre)
    requires var r := tr[|tr| - 1]; r.event == Polling(pib, key, timers) && Poll(r.pre, pib, key, timers) == (r.post, r.action)
    ensures Busy(tr, tr[|tr| - 1].post)
  {
    var r := tr[|tr| - 1];
    var q := r.pre;
    if IsSend(r) {
    } else if q.lastPendingReported != Some(ShouldBePending(q)) {
      StaysBusy(tr, q, r.post);
    } else if q.entries != [] && DueResult(q, timers.ack).None? {
      var settled := Settled(q, timers.ack);
      assert Busy(Init(tr), settled);
      ExpireStaysBusy(tr, settled, timers.transactions);
    }
  }

  lemma {:induction false} RunPrefix(tr: seq<Record>, i: nat)
    requires IsRun(tr) && i <= |tr|
    ensures IsRun(tr[..i]) && Final(tr[..i]) == if i < |tr| then tr[i].pre else Final(tr)
  {
    if i == |tr| {
      assert tr[..i] == tr;
    }
  }

  /**
   * A positive result is reported only if the last attempt for that entry was sent by the radio
   * and, where it asked for an acknowledgement, was acknowledged with its own sequence number and
   * this payload, in either order, after it was handed out.
   */
  lemma OkIsEarned(tr: seq<Record>, i: nat, key: Key, payload: seq<byte>)
    requires IsRun(tr) && i < |tr| && tr[i].action == Some(ReportResult(key, Ok(payload)))
    ensures var j := LastSend(tr[..i]);
            j >= 0 && tr[j].pre.entries[0].data.key == key && Earned(tr[..i], j, payload)
  {
    RunPrefix(tr, i);
    AlwaysBusyWithLastFrame(tr[..i]);
    assert Step(tr[i].pre, tr[i].event) == (tr[i].post, tr[i].action);
  }

  /** Frames of indirect entries answer a data request that came after the previous frame. */
  lemma IndirectSendWasRequested(tr: seq<Record>, i: nat)
    requires IsRun(tr) && i < |tr| && IsSend(tr[i]) && tr[i].pre.entries[0].data.indirect
    ensures RequestedAfter(tr[..i], LastSend(tr[..i]))
  {
    RunPrefix(tr, i);
    AlwaysBusyWithLastFrame(tr[..i]);
    assert Step(tr[i].pre, tr[i].event) == (tr[i].post, tr[i].action);
  }

  /** Each frame handed out has its own key. */
  ghost predicate FreshSendKeys(tr: seq<Record>) {
    forall i, j | 0 <= i < j < |tr| && IsSend(tr[i]) && IsSend(tr[j]) :: tr[i].action.value.key != tr[j].action.value.key
  }

  /** The answer to any frame but the last one changes nothing. */
  lemma LateAnswerIsIgnored(tr: seq<Record>, i: nat, j: nat)
    requires IsRun(tr) && FreshSendKeys(tr) && j < i < |tr|
    requires IsSend(tr[j]) && tr[i].event.SendAnswer? && tr[i].event.sendKey == tr[j].action.value.key
    requires LastSend(tr[..i]) != j
    ensures tr[i].post == tr[i].pre
  {
    RunPrefix(tr, i);
    AlwaysBusyWithLastFrame(tr[..i]);
    assert Step(tr[i].pre, tr[i].event) == (tr[i].post, tr[i].action);
    var last := LastSend(tr[..i]);
    if tr[i].pre.state.Sending? {
      assert IsSend(tr[..i][last]) && IsSend(tr[..i][j]);
    }
  }

  // ----- Every accepted entry is queued, removed, or reported exactly once

  function Keys(entries: seq<QueueEntry>): (r: seq<Key>)
    ensures |r| == |entries| && forall i | 0 <= i < |r| :: r[i] == entries[i].data.key
  {
    seq(|entries|, i requires 0 <= i < |entries| => entries[i].data.key)
  }

  function Accepted(r: Record): seq<Key> {
    if r.event.Inserting? && !Contains(r.pre, r.event.request.key) then [r.event.request.key] else []
  }

  function RemovedBy(r: Record): seq<Key> {
    if r.event.Removing? && r.event.key in Keys(r.pre.entries) then [r.event.key] else []
  }

  function ReportedBy(r: Record): seq<Key> {
    if r.action.Some? && r.action.value.ReportResult? then [r.action.value.entryKey] else []
  }

  /** The key reported by a record, unless its transaction had expired. */
  function CompletedBy(r: Record): seq<Key> {
    if r.action.Some? && r.action.value.ReportResult? && r.action.value.result != Err(TransactionExpired)
    then [r.action.value.entryKey] else []
  }

  function InsertedKeys(tr: seq<Record>): seq<Key> {
    if tr == [] then [] else InsertedKeys(tr[..|tr| - 1]) + Accepted(tr[|tr| - 1])
  }

  function RemovedKeys(tr: seq<Record>): seq<Key> {
    if tr == [] then [] else RemovedKeys(tr[..|tr| - 1]) + RemovedBy(tr[|tr| - 1])
  }

  function ReportedKeys(tr: seq<Record>): seq<Key> {
    if tr == [] then [] else ReportedKeys(tr[..|tr| - 1]) + ReportedBy(tr[|tr| - 1])
  }

  function CompletedKeys(tr: seq<Record>): seq<Key> {
    if tr == [] then [] else CompletedKeys(tr[..|tr| - 1]) + CompletedBy(tr[|tr| - 1])
  }

  lemma {:induction false} RetainedKeys(entries: seq<QueueEntry>, key: Key)
    ensures Keys(Retained(entries, key)) == Without(Keys(entries), key)
  {
    if entries == [] {
    } else {
      RetainedKeys(entries[1..], key);
      assert Keys(entries)[1..] == Keys(entries[1..]);
      assert Keys(Retained(entries, key)) == (if entries[0].data.key == key then [] else [entries[0].data.key]) + Keys(Retained(entries[1..], key));
    }
  }

  /** How one step changes the keys in the queue. */
  datatype Change =
    | Same
    | Appended(key: Key)
    | Dropped(before: seq<Key>, key: Key, after: seq<Key>)

  ghost predicate Changes(keys: seq<Key>, c: Change, keys': seq<Key>) {
    match c
    case Same => keys' == keys
    case Appended(key) => key !in keys && keys' == keys + [key]
    case Dropped(before, key, after) => keys == before + [key] + after && keys' == before + after
  }

  lemma StepChange(r: Record) returns (c: Change)
    requires Step(r.pre, r.event) == (r.post, r.action) && Distinct(Keys(r.pre.entries))
    ensures Changes(Keys(r.pre.entries), c, Keys(r.post.entries))
    ensures Accepted(r) == (match c case Appended(k) => [k] case _ => [])
    ensures RemovedBy(r) + ReportedBy(r) == (match c case Dropped(_, k, _) => [k] case _ => [])
    ensures CompletedBy(r) != [] ==> c.Dropped? && c.before == [] && CompletedBy(r) == [c.key]
  {
    var entries := r.pre.entries;
    c := Same;
    match r.event {
      case Inserting(request, _) =>
        if !Contains(r.pre, request.key) {
          c := Appended(request.key);
          assert Keys(r.post.entries) == Keys(entries) + [request.key];
        }
      case Removing(key) =>
        RetainedKeys(entries, key);
        if key in Keys(entries) {
          var a, b := SplitAround(Keys(entries), key);
          c := Dropped(a, key, b);
        } else {
          WithoutAbsent(Keys(entries), key);
        }
      case SendAnswer(_, _) => assert Keys(r.post.entries) == Keys(entries);
      case Polling(pib, key, timers) => c := PollChange(r, pib, key, timers);
      case _ =>
    }
  }

  lemma DropAt(entries: seq<QueueEntry>, i: nat) returns (c: Change)
    requires i < |entries|
    ensures c.Dropped? && c.key == entries[i].data.key && (i == 0 ==> c.before == [])
    ensures Changes(Keys(entries), c, Keys(entries[..i] + entries[i + 1..]))
  {
    var keys := Keys(entries);
    c := Dropped(keys[..i], keys[i], keys[i + 1..]);
    assert Keys(entries[..i] + entries[i + 1..]) == keys[..i] + keys[i + 1..];
  }

  lemma ExpireChange(q: Queue, expired: set<Key>) returns (c: Change)
    ensures var (q', action) := Expire(q, expired);
            && Changes(Keys(q.entries), c, Keys(q'.entries))
            && action == (match c case Dropped(_, k, _) => Some(ReportResult(k, Err(TransactionExpired))) case _ => None)
            && !c.Appended?
  {
    c := Same;
    match PositionOf(q.entries, expired, 0) {
      case None =>
      case Some(i) => c := DropAt(q.entries, i);
    }
  }

  lemma SettledKeys(q: Queue, ackTimeout: bool)
    requires q.entries != [] && DueResult(q, ackTimeout).None?
    ensures Keys(Settled(q, ackTimeout).entries) == Keys(q.entries)
  {
  }

  lemma PollChange(r: Record, pib: Pib, key: Key, timers: Timers) returns (c: Change)
    requires Poll(r.pre, pib, key, timers) == (r.post, r.action)
    ensures Changes(Keys(r.pre.entries), c, Keys(r.post.entries)) && !c.Appended?
    ensures ReportedBy(r) == (match c case Dropped(_, k, _) => [k] case _ => [])
    ensures CompletedBy(r) != [] ==> c.Dropped? && c.before == [] && CompletedBy(r) == [c.key]
  {
    hide PositionOf, Expire, CreateFrame, Keys, Settled;
    var q := r.pre;
    c := Same;
    if q.lastPendingReported == Some(ShouldBePending(q)) && q.entries != [] && !MaySend(q) {
      if DueResult(q, timers.ack).Some? {
        c := DropAt(q.entries, 0);
        assert q.entries[..0] + q.entries[1..] == q.entries[1..];
      } else {
        var settled := Settled(q, timers.ack);
        SettledKeys(q, timers.ack);
        c := ExpireChange(settled, timers.transactions);
      }
    }
  }

  /** Nothing accepted is lost, made up, or accounted for twice. */
  lemma {:induction false} Conservation(tr: seq<Record>)
    requires IsRun(tr)
    ensures Distinct(Keys(Final(tr).entries))
    ensures multiset(InsertedKeys(tr))
            == multiset(Keys(Final(tr).entries)) + multiset(RemovedKeys(tr)) + multiset(ReportedKeys(tr))
    decreases |tr|
  {
    if tr != [] {
      var r := tr[|tr| - 1];
      Conservation(Init(tr));
      RunInit(tr);
      hide InsertedKeys, RemovedKeys, ReportedKeys, Accepted, RemovedBy, ReportedBy, Keys, Step, Changes, Distinct;
      var c := StepChange(r);
      ChangeCounts(Keys(r.pre.entries), c, Keys(r.post.entries));
      AccountsStep(tr, c);
    }
  }

  lemma AccountsStep(tr: seq<Record>, c: Change)
    requires tr != []
    requires var r := tr[|tr| - 1];
             && Accepted(r) == (match c case Appended(k) => [k] case _ => [])
             && RemovedBy(r) + ReportedBy(r) == (match c case Dropped(_, k, _) => [k] case _ => [])
    ensures multiset(InsertedKeys(tr))
            == multiset(InsertedKeys(Init(tr))) + (match c case Appended(k) => multiset{k} case _ => multiset{})
    ensures multiset(RemovedKeys(tr)) + multiset(ReportedKeys(tr))
            == multiset(RemovedKeys(Init(tr))) + multiset(ReportedKeys(Init(tr)))
               + (match c case Dropped(_, k, _) => multiset{k} case _ => multiset{})
  {
    hide Accepted, RemovedBy, ReportedBy;
    var r := tr[|tr| - 1];
    assert multiset(RemovedBy(r) + ReportedBy(r)) == multiset(RemovedBy(r)) + multiset(ReportedBy(r));
  }

  lemma ChangeCounts(keys: seq<Key>, c: Change, keys': seq<Key>)
    requires Changes(keys, c, keys') && Distinct(keys)
    ensures Distinct(keys')
    ensures multiset(keys') + (match c case Dropped(_, k, _) => multiset{k} case _ => multiset{})
            == multiset(keys) + (match c case Appended(k) => multiset{k} case _ => multiset{})
  {
    match c {
      case Dropped(a, k, b) =>
        forall i, j | 0 <= i < j < |keys'| ensures keys'[i] != keys'[j] {
          assert keys'[i] == keys[if i < |a| then i else i + 1] && keys'[j] == keys[if j < |a| then j else j + 1];
        }
      case _ =>
    }
  }

  // ----- Results come in insertion order

  /** `a` is what is left of `b` when some elements are dropped. */
  predicate IsSubsequence(a: seq<Key>, b: seq<Key>)
    decreases |b|
  {
    a == [] ||
    (b != [] && ((a[|a| - 1] == b[|b| - 1] && IsSubsequence(a[..|a| - 1], b[..|b| - 1])) ||
                 IsSubsequence(a, b[..|b| - 1])))
  }

  lemma {:induction false} SubsequenceDrop(a: seq<Key>, x: Key, c: seq<Key>, b: seq<Key>)
    requires IsSubsequence(a + [x] + c, b)
    ensures IsSubsequence(a + c, b)
    decreases |b|
  {
    var s, t := a + [x] + c, b[..|b| - 1];
    if IsSubsequence(s, t) {
      SubsequenceDrop(a, x, c, t);
    } else if c == [] {
      assert s[..|s| - 1] == a && a + c == a;
      SubsequenceWider(a, b);
    } else {
      var c' := c[..|c| - 1];
      assert s[..|s| - 1] == a + [x] + c';
      SubsequenceDrop(a, x, c', t);
      assert (a + c)[..|a + c| - 1] == a + c';
    }
  }

  lemma SubsequenceWider(a: seq<Key>, b: seq<Key>)
    requires b != [] && IsSubsequence(a, b[..|b| - 1])
    ensures IsSubsequence(a, b)
  {
  }

  lemma SubsequenceAppend(a: seq<Key>, b: seq<Key>, x: Key)
    requires IsSubsequence(a, b)
    ensures IsSubsequence(a + [x], b + [x])
  {
    assert (a + [x])[..|a|] == a && (b + [x])[..|b|] == b;
  }

  /**
   * The entries that were completed, followed by those still queued, are in the order in which
   * they were inserted.
   */
  lemma {:induction false} CompletedInOrder(tr: seq<Record>)
    requires IsRun(tr)
    ensures IsSubsequence(CompletedKeys(tr) + Keys(Final(tr).entries), InsertedKeys(tr))
    decreases |tr|
  {
    if tr != [] {
      var r := tr[|tr| - 1];
      CompletedInOrder(Init(tr));
      Conservation(Init(tr));
      RunInit(tr);
      hide InsertedKeys, RemovedKeys, ReportedKeys, Accepted, RemovedBy, ReportedBy, Keys, Step, Changes, Distinct;
      var c := StepChange(r);
      OrderStep(CompletedKeys(Init(tr)), Keys(r.pre.entries), c, Keys(r.post.entries), CompletedBy(r), InsertedKeys(Init(tr)));
    }
  }

  lemma OrderStep(done: seq<Key>, keys: seq<Key>, c: Change, keys': seq<Key>, completed: seq<Key>, inserted: seq<Key>)
    requires Changes(keys, c, keys') && IsSubsequence(done + keys, inserted)
    requires completed != [] ==> c.Dropped? && c.before == [] && completed == [c.key]
    ensures IsSubsequence((done + completed) + keys', inserted + (match c case Appended(k) => [k] case _ => []))
  {
    match c {
      case Same => assert done + [] == done && inserted + [] == inserted;
      case Appended(k) =>
        SubsequenceAppend(done + keys, inserted, k);
        assert (done + []) + (keys + [k]) == (done + keys) + [k];
      case Dropped(a, k, b) =>
        assert inserted + [] == inserted;
        if completed == [] {
          assert done + keys == (done + a) + [k] + b;
          SubsequenceDrop(done + a, k, b, inserted);
          assert (done + []) + (a + b) == (done + a) + b;
        } else {
          assert (done + [k]) + ([] + b) == done + ([] + [k] + b);
        }
    }
  }

  /** A failure other than expiry concerns the front entry, and that is a direct one. */
  lemma FailureIsDirect(tr: seq<Record>, q: Queue, pib: Pib, sendKey: Key, timers: Timers, key: Key, e: QueueError)
    requires Busy(tr, q) && Poll(q, pib, sendKey, timers).1 == Some(ReportResult(key, Err(e))) && e != TransactionExpired
    ensures q.entries != [] && key == q.entries[0].data.key && !q.entries[0].data.indirect
  {
  }

  /** An indirect entry is only ever reported as delivered or expired. */
  lemma IndirectOutcomes(tr: seq<Record>, i: nat, key: Key, result: SendResult, k: nat)
    requires IsRun(tr) && i < |tr| && tr[i].action == Some(ReportResult(key, result))
    requires k < |tr[i].pre.entries| && tr[i].pre.entries[k].data.key == key && tr[i].pre.entries[k].data.indirect
    ensures result.Ok? || result == Err(TransactionExpired)
  {
    hide Busy, Poll, InsertedKeys, RemovedKeys, ReportedKeys, Keys, Distinct;
    RunPrefix(tr, i);
    AlwaysBusyWithLastFrame(tr[..i]);
    Conservation(tr[..i]);
    var r := tr[i];
    assert Step(r.pre, r.event) == (r.post, r.action);
    hide IsRun;
    if result.Err? && result.error != TransactionExpired {
      FailureIsDirect(tr[..i], r.pre, r.event.pib, r.event.freshKey, r.event.timers, key, result.error);
      DistinctKeysDecide(r.pre.entries, k);
    }
  }

  lemma DistinctKeysDecide(entries: seq<QueueEntry>, k: nat)
    requires k < |entries| && Distinct(Keys(entries)) && entries[k].data.key == entries[0].data.key
    ensures k == 0
  {
    var keys := Keys(entries);
    assert keys[0] == keys[k];
  }

  // ----- Retries

  /** The entry as it was accepted last under this key. */
  function AcceptedAs(tr: seq<Record>, key: Key): Option<QueueEntry> {
    if tr == [] then None
    else
      var r := tr[|tr| - 1];
      if Accepted(r) == [key] then Some(QueueEntry(r.event.request, r.event.retries))
      else AcceptedAs(tr[..|tr| - 1], key)
  }

  function SendsBy(r: Record, key: Key): nat {
    if IsSend(r) && r.pre.entries[0].data.key == key then 1 else 0
  }

  /** How many frames were handed out for the entry with this key. */
  function SendsOf(tr: seq<Record>, key: Key): nat {
    if tr == [] then 0 else SendsOf(tr[..|tr| - 1], key) + SendsBy(tr[|tr| - 1], key)
  }

  /** The frames that may still be sent for a direct front entry. */
  function Credit(q: Queue): nat
    requires q.entries != []
  {
    q.entries[0].retriesLeft + (if q.state.Idle? then 1 else 0)
  }

  /** Entries behind the front are as they were accepted; sends and credit of a direct front add up. */
  ghost predicate Budget(tr: seq<Record>, q: Queue) {
    && (forall a | 0 <= a < |q.entries| ::
          var origin := AcceptedAs(tr, q.entries[a].data.key);
          && origin.Some? && origin.value.data == q.entries[a].data
          && (a > 0 ==> q.entries[a] == origin.value && SendsOf(tr, q.entries[a].data.key) == 0))
    && (q.entries != [] && !q.entries[0].data.indirect ==>
          var key := q.entries[0].data.key;
          SendsOf(tr, key) + Credit(q) <= AcceptedAs(tr, key).value.retriesLeft + 1)
  }

  ghost predicate Limit(tr: seq<Record>, key: Key) {
    match AcceptedAs(tr, key)
    case Some(e) => e.data.indirect || SendsOf(tr, key) <= e.retriesLeft + 1
    case None => SendsOf(tr, key) == 0
  }

  lemma {:induction false} AcceptedIsInserted(tr: seq<Record>, key: Key)
    ensures AcceptedAs(tr, key).Some? <==> key in InsertedKeys(tr)
  {
    if tr != [] {
      AcceptedIsInserted(tr[..|tr| - 1], key);
    }
  }

  /** A record that neither accepts an entry nor sends a frame. */
  predicate IsQuiet(r: Record) {
    Accepted(r) == [] && !IsSend(r)
  }

  /** The ways in which the queue itself may change in a quiet step. */
  ghost predicate QuietChange(q: Queue, q': Queue) {
    || (q'.entries == q.entries && (q'.state.Idle? ==> q.state.Idle? || q.entries == [] || q.entries[0].data.indirect))
    || (q.entries != [] && q.entries[0].retriesLeft > 0 && !q.state.Idle? && Lowered(q.entries) == q'.entries)
  }

  lemma QuietBudget(tr: seq<Record>, q: Queue, q': Queue)
    requires tr != [] && IsQuiet(tr[|tr| - 1]) && Budget(Init(tr), q) && QuietChange(q, q')
    ensures Budget(tr, q')
  {
    assert forall key {:trigger AcceptedAs(tr, key)} {:trigger SendsOf(tr, key)} ::
        AcceptedAs(tr, key) == AcceptedAs(Init(tr), key) && SendsOf(tr, key) == SendsOf(Init(tr), key);
  }

  /** Dropping an entry makes room for one that has not been sent yet. */
  lemma DropBudget(tr: seq<Record>, q: Queue, q': Queue, i: nat)
    requires Budget(tr, q) && i < |q.entries| && q'.entries == q.entries[..i] + q.entries[i + 1..]
    requires i > 0 ==> q'.state == q.state
    ensures Budget(tr, q')
  {
    forall a | 0 <= a < |q'.entries| ensures q'.entries[a] == q.entries[if a < i then a else a + 1] {
    }
  }

  lemma ExpireBudget(tr: seq<Record>, q: Queue, expired: set<Key>)
    requires Budget(tr, q)
    ensures Budget(tr, Expire(q, expired).0)
  {
    match PositionOf(q.entries, expired, 0) {
      case None =>
      case Some(i) => DropBudget(tr, q, Expire(q, expired).0, i);
    }
  }

  lemma {:induction false} RemoveBudget(tr: seq<Record>, q: Queue, key: Key)
    requires Budget(tr, q) && Distinct(Keys(q.entries))
    ensures Budget(tr, Remove(q, key))
  {
    if i: nat :| i < |q.entries| && q.entries[i].data.key == key {
      var keys := Keys(q.entries);
      assert forall j | 0 <= j < |keys| :: keys[j] == key ==> j == i;
      RetainedAt(q.entries, i);
      DropBudget(tr, q, Remove(q, key), i);
    } else {
      RetainedAll(q.entries, key);
    }
  }

  lemma PollBudget(tr: seq<Record>, pib: Pib, key: Key, timers: Timers)
    requires tr != [] && Budget(Init(tr), tr[|tr| - 1].pre) && Distinct(Keys(tr[|tr| - 1].pre.entries))
    requires var r := tr[|tr| - 1]; r.event == Polling(pib, key, timers) && Poll(r.pre, pib, key, timers) == (r.post, r.action)
    ensures Budget(tr, tr[|tr| - 1].post)
  {
    hide PositionOf;
    var r := tr[|tr| - 1];
    var q := r.pre;
    if q.lastPendingReported != Some(ShouldBePending(q)) || q.entries == [] {
      QuietBudget(tr, q, r.post);
    } else if MaySend(q) {
      SendBudget(tr);
    } else if DueResult(q, timers.ack).Some? {
      QuietBudget(tr, q, q);
      DropBudget(tr, q, r.post, 0);
    } else {
      var settled := Settled(q, timers.ack);
      QuietBudget(tr, q, settled);
      ExpireBudget(tr, settled, timers.transactions);
    }
  }

  /** Handing out a frame uses up one unit of credit. */
  lemma SendBudget(tr: seq<Record>)
    requires tr != [] && IsSend(tr[|tr| - 1]) && Budget(Init(tr), tr[|tr| - 1].pre)
    requires var r := tr[|tr| - 1];
             r.event.Polling? && r.pre.state.Idle? && r.post.state.Sending? && r.post.entries == r.pre.entries
    requires Distinct(Keys(tr[|tr| - 1].pre.entries))
    ensures Budget(tr, tr[|tr| - 1].post)
  {
    var r := tr[|tr| - 1];
    var keys := Keys(r.pre.entries);
    assert forall key {:trigger AcceptedAs(tr, key)} :: AcceptedAs(tr, key) == AcceptedAs(Init(tr), key);
    forall a | 0 < a < |r.pre.entries| ensures SendsBy(r, r.pre.entries[a].data.key) == 0 {
      assert keys[a] != keys[0];
    }
  }

  lemma InsertBudget(tr: seq<Record>)
    requires tr != [] && tr[|tr| - 1].event.Inserting? && Budget(Init(tr), tr[|tr| - 1].pre)
    requires var r := tr[|tr| - 1]; Step(r.pre, r.event) == (r.post, r.action)
    requires Limit(Init(tr), tr[|tr| - 1].event.request.key)
    requires Accepted(tr[|tr| - 1]) != [] ==> AcceptedAs(Init(tr), tr[|tr| - 1].event.request.key).None?
    ensures Budget(tr, tr[|tr| - 1].post)
  {
    var r := tr[|tr| - 1];
    var key := r.event.request.key;
    if Accepted(r) == [] {
      QuietBudget(tr, r.pre, r.post);
    } else {
      assert forall k {:trigger SendsOf(tr, k)} :: SendsOf(tr, k) == SendsOf(Init(tr), k);
      assert forall k {:trigger AcceptedAs(tr, k)} :: k != key ==> AcceptedAs(tr, k) == AcceptedAs(Init(tr), k);
    }
  }

  lemma BudgetStep(tr: seq<Record>)
    requires tr != [] && Budget(Init(tr), tr[|tr| - 1].pre) && Distinct(Keys(tr[|tr| - 1].pre.entries))
    requires var r := tr[|tr| - 1]; Step(r.pre, r.event) == (r.post, r.action)
    requires forall key: Key :: Limit(Init(tr), key)
    requires forall key: Key :: Accepted(tr[|tr| - 1]) == [key] ==> AcceptedAs(Init(tr), key).None?
    ensures Budget(tr, tr[|tr| - 1].post)
  {
    hide Poll;
    var r := tr[|tr| - 1];
    match r.event {
      case Inserting(_, _) => InsertBudget(tr);
      case Removing(key) =>
        QuietBudget(tr, r.pre, r.pre);
        RemoveBudget(tr, r.pre, key);
      case Polling(pib, key, timers) => PollBudget(tr, pib, key, timers);
      case _ => QuietBudget(tr, r.pre, r.post);
    }
  }

  /**
   * With fresh keys a direct entry is handed out at most once more often than it had retries when
   * it was accepted, over the whole run.
   */
  lemma {:induction false} DirectSendsAreLimited(tr: seq<Record>)
    requires IsRun(tr) && Distinct(InsertedKeys(tr))
    ensures Budget(tr, Final(tr))
    ensures forall key: Key :: Limit(tr, key)
    decreases |tr|
  {
    if tr != [] {
      var r := tr[|tr| - 1];
      RunInit(tr);
      DistinctParts(InsertedKeys(Init(tr)), Accepted(r));
      DirectSendsAreLimited(Init(tr));
      Conservation(Init(tr));
      forall key: Key ensures Accepted(r) == [key] ==> AcceptedAs(Init(tr), key).None? {
        AcceptedIsInserted(Init(tr), key);
      }
      BudgetStep(tr);
      forall key: Key ensures Limit(tr, key) {
        LimitStep(tr, key);
      }
    }
  }

  lemma LimitStep(tr: seq<Record>, key: Key)
    requires tr != [] && Limit(Init(tr), key) && Budget(Init(tr), tr[|tr| - 1].pre)
    requires var r := tr[|tr| - 1]; Step(r.pre, r.event) == (r.post, r.action)
    requires Accepted(tr[|tr| - 1]) == [key] ==> AcceptedAs(Init(tr), key).None?
    ensures Limit(tr, key)
  {
    var r := tr[|tr| - 1];
    if IsSend(r) && r.pre.entries[0].data.key == key {
      SendsFromIdle(r);
    }
  }

  lemma SendsFromIdle(r: Record)
    requires Step(r.pre, r.event) == (r.post, r.action) && IsSend(r)
    ensures r.event.Polling? && r.pre.state.Idle?
  {
  }
}
