/**
 * An indirect transmission from end to end: the data service of `src/ieee802154/mac/data.rs` and
 * its queues, with every frame as octets on the air.
 */
module AirInterfaces {
  import opened Prelude
  import opened Addresses
  import opened Frames
  import opened PendingTables
  import opened DataServices
  import opened DataServiceRuns
  import opened DataServiceHistories
  import opened DataServiceLimits
  import opened DeviceQueueAttempts
  import Q = DeviceQueues
  import H = DeviceQueueRuns
  import F = FrameCodecs

  // ----- Frames as octets

  /** A frame that keeps its meaning on the air. */
  predicate Sendable(f: Frame) {
    F.TypeInRange(f.frameType) && !F.IsAssociationRequest(f)
  }

  /** The frame that a receiver reads from the octets of a frame: the same one. */
  function OverTheAir(f: Frame): (g: Frame)
    requires Sendable(f)
    ensures g == f
  {
    F.UnpackUndoesPackIff(f);
    F.Unpack(F.Bytes(f)).value.0
  }

  /**
   * A frame that a run of the service hands out can be packed exactly if what was submitted is in
   * range, and is then received as it was sent, exactly if that was no association request.
   */
  lemma FramesArrive(tr: seq<Record>, i: nat)
    requires IsRun(tr) && i < |tr| && tr[i].output.Some? && tr[i].output.value.FrameOutput?
    ensures FrontOf(tr[i]).Some?
    ensures var frame, content := tr[i].output.value.frame, FrontOf(tr[i]).value.content;
            && (F.Pack(frame, F.Target([], None)).Ok? <==> F.TypeInRange(content))
            && (F.TypeInRange(content) ==>
                  && F.Pack(frame, F.Target([], None)) == Ok(F.Target(F.Bytes(frame), None))
                  && (F.Unpack(F.Bytes(frame)) == Ok((frame, [])) <==> !(content.CommandFrame? && content.command.AssociationRequest?)))
  {
    hide IsRun, Queued, F.Bytes, F.Pack, F.Unpack, F.TypeInRange, FrontOf;
    var frame := tr[i].output.value.frame;
    OutputConcernsQueued(tr, i);
    F.PackOutcome(frame, F.Target([], None));
    if F.TypeInRange(frame.frameType) {
      assert [] + F.Bytes(frame) == F.Bytes(frame);
      F.UnpackUndoesPackIff(frame);
    }
  }

  // ----- From the data request to the frame

  /**
   * A device whose data waits at the front of an idle queue asks for it. Whatever else happens, its
   * entry is sent or still asked for, unless it is purged: the first poll after a true report sends it.
   */
  lemma {:induction false} RequestIsServed(tr: seq<Record>, i: nat, d: Destination, key: Key)
    requires IsRun(tr) && i < |tr| && IsAsk(tr[i], d) && d in tr[i].pre.queues
    requires var q := tr[i].pre.queues[d]; q.state.Idle? && q.entries != [] && q.entries[0].data.key == key
    requires forall m | i < m < |tr| :: QueueEvent(tr[m], d) != Some(H.Removing(key))
    ensures || (d in Final(tr).queues && IsAskedFor(Final(tr).queues[d], key))
            || exists m | i < m < |tr| :: HandsOut(tr[m], d) && SendsFor(tr[m], key)
    decreases |tr|
  {
    hide IsStep, IsRun, HandsOut, SendsFor, IsAskedFor, QueueEvent, IsAsk;
    var last := |tr| - 1;
    RunInit(tr);
    if i == last {
      AskingStep(tr[i], d, key);
    } else {
      RequestIsServed(Init(tr), i, d, key);
      if m :| i < m < last && HandsOut(Init(tr)[m], d) && SendsFor(Init(tr)[m], key) {
        assert tr[m] == Init(tr)[m];
      } else {
        ServingStep(tr[last], d, key);
      }
    }
  }

  lemma StillThere(r: Record, d: Destination)
    requires IsStep(r) && d in r.pre.queues && r.pre.queues[d].entries != []
    ensures d in r.post.queues
  {
    hide IsStep;
    if d !in r.post.queues {
      DiscardedWhenEmpty(r, d);
    }
  }

  lemma AskingStep(r: Record, d: Destination, key: Key)
    requires IsStep(r) && IsAsk(r, d) && d in r.pre.queues
    requires var q := r.pre.queues[d]; q.state.Idle? && q.entries != [] && q.entries[0].data.key == key
    ensures d in r.post.queues && IsAskedFor(r.post.queues[d], key)
  {
    hide IsStep;
    StillThere(r, d);
    StepOfQueue(r, d);
  }

  lemma ServingStep(r: Record, d: Destination, key: Key)
    requires IsStep(r) && d in r.pre.queues && IsAskedFor(r.pre.queues[d], key) && QueueEvent(r, d) != Some(H.Removing(key))
    ensures || (d in r.post.queues && IsAskedFor(r.post.queues[d], key))
            || (HandsOut(r, d) && SendsFor(r, key))
  {
    hide IsStep, H.Step, QueueEvent;
    StillThere(r, d);
    StepOfQueue(r, d);
    match QueueEvent(r, d) {
      case Some(e) =>
        RecordOf(r, d);
        AskedStep(r.pre.queues[d], e, key);
      case None =>
    }
  }

  // ----- From the frame to the confirm

  /** The attempt that begins with a frame. */
  function AttemptAt(r: Record): Attempt
    requires r.output.Some? && r.output.value.FrameOutput? && FrontOf(r).Some?
  {
    var FrameOutput(sendKey, frame) := r.output.value;
    Attempt(FrontOf(r).value.key, sendKey, if frame.acknowledgeRequest then frame.sequenceNumber else None)
  }

  /** No step makes the attempt fail or takes its entry away. */
  ghost predicate Undisturbed(tr: seq<Record>, j: nat, d: Destination, a: Attempt) {
    forall i | j < i < |tr| ::
      match QueueEvent(tr[i], d)
      case Some(e) => IsHarmless(a, e)
      case None => true
  }

  /** What radio and receiver have answered to an attempt after position j. */
  function AnswersSince(tr: seq<Record>, j: nat, d: Destination, a: Attempt): Heard
    decreases |tr|
  {
    if |tr| <= j + 1 then NOTHING_YET
    else
      var h := AnswersSince(tr[..|tr| - 1], j, d, a);
      match QueueEvent(tr[|tr| - 1], d)
      case Some(e) => Hears(h, a, e)
      case None => h
  }

  /** The poll that settles the entry: its handle, if it has one, is confirmed with the payload of the acknowledgement. */
  predicate Confirms(r: Record, d: Destination, a: Attempt, h: Heard) {
    && r.event.PollingQueue? && r.event.d == d && Succeeded(h, a)
    && r.output == if a.entryKey in r.pre.handles.right
                   then Some(DataConfirm(r.pre.handles.right[a.entryKey], Ok(PayloadOf(h))))
                   else None
  }

  /**
   * A transmission succeeds that nothing makes fail: after a frame was handed out, and with any
   * other steps of the service in between, either its entry has been confirmed as delivered, with
   * the payload of the acknowledgement, or the attempt is under way exactly as far as radio and
   * receiver have answered, in either order.
   */
  lemma {:induction false} IndirectTransmission(tr: seq<Record>, j: nat, d: Destination)
    requires IsRun(tr) && j < |tr| && HandsOut(tr[j], d) && FrontOf(tr[j]).Some? && Undisturbed(tr, j, d, AttemptAt(tr[j]))
    ensures var a := AttemptAt(tr[j]);
            || (d in Final(tr).queues && IsUnderWay(Final(tr).queues[d], a, AnswersSince(tr, j, d, a)))
            || exists i | j < i < |tr| :: Confirms(tr[i], d, a, AnswersSince(tr[..i], j, d, a))
    decreases |tr|
  {
    hide IsStep, IsRun, IsUnderWay, Confirms, AnswersSince, FrontOf, QueueEvent, Undisturbed, IsHarmless;
    var last, a := |tr| - 1, AttemptAt(tr[j]);
    RunInit(tr);
    if j == last {
      StartingStep(tr[j], d);
      NoAnswersAtFirst(tr, j, d, a);
    } else {
      StillUndisturbed(tr, j, d, a);
      IndirectTransmission(Init(tr), j, d);
      if i :| j < i < last && Confirms(Init(tr)[i], d, a, AnswersSince(Init(tr)[..i], j, d, a)) {
        assert tr[i] == Init(tr)[i] && tr[..i] == Init(tr)[..i];
      } else {
        TransmittingStep(tr, j, d, a);
      }
    }
  }

  lemma StillUndisturbed(tr: seq<Record>, j: nat, d: Destination, a: Attempt)
    requires tr != [] && Undisturbed(tr, j, d, a)
    ensures Undisturbed(Init(tr), j, d, a)
  {
    hide QueueEvent, IsHarmless;
    forall i | j < i < |Init(tr)| ensures Init(tr)[i] == tr[i] {
    }
  }

  lemma NoAnswersAtFirst(tr: seq<Record>, j: nat, d: Destination, a: Attempt)
    requires j + 1 == |tr|
    ensures AnswersSince(tr, j, d, a) == NOTHING_YET
  {
  }

  lemma StartingStep(r: Record, d: Destination)
    requires IsStep(r) && HandsOut(r, d) && FrontOf(r).Some?
    ensures d in r.post.queues && IsUnderWay(r.post.queues[d], AttemptAt(r), NOTHING_YET)
  {
    hide IsStep, H.Step, IsUnderWay;
    SentIsHeld(r, FrontOf(r).value.key);
    StepOfQueue(r, d);
    RecordOf(r, d);
    AttemptStarts(QueueRecord(QueueBefore(r, d), QueueEvent(r, d).value));
  }

  lemma TransmittingStep(tr: seq<Record>, j: nat, d: Destination, a: Attempt)
    requires j + 1 < |tr| && IsStep(tr[|tr| - 1]) && Undisturbed(tr, j, d, a)
    requires var r := tr[|tr| - 1]; d in r.pre.queues && IsUnderWay(r.pre.queues[d], a, AnswersSince(Init(tr), j, d, a))
    ensures var r := tr[|tr| - 1];
            || (d in r.post.queues && IsUnderWay(r.post.queues[d], a, AnswersSince(tr, j, d, a)))
            || Confirms(r, d, a, AnswersSince(tr[..|tr| - 1], j, d, a))
  {
    hide IsStep, H.Step, QueueEvent, IsHarmless, Hears, IsDelivery, Confirms;
    var r := tr[|tr| - 1];
    var h := AnswersSince(Init(tr), j, d, a);
    StillThere(r, d);
    StepOfQueue(r, d);
    hide IsUnderWay;
    match QueueEvent(r, d) {
      case Some(e) =>
        AttemptStep(r.pre.queues[d], e, a, h);
        if IsDelivery(H.Step(r.pre.queues[d], e).1, a, h) {
          DeliveryConfirms(r, d, e, a, h);
        }
      case None =>
    }
  }

  lemma DeliveryConfirms(r: Record, d: Destination, e: H.Event, a: Attempt, h: Heard)
    requires IsStep(r) && d in r.pre.queues && QueueEvent(r, d) == Some(e) && IsDelivery(H.Step(r.pre.queues[d], e).1, a, h)
    ensures Confirms(r, d, a, h)
  {
    hide Q.Poll, PayloadOf, Succeeded;
  }
}
