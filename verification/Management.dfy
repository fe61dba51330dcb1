/** The radio parameters that mirror the PAN information base: `src/ieee802154/mac/management.rs`. */
module Management {
  import opened Prelude
  import opened Addresses
  import opened Frames
  import opened Pibs
  import opened PendingTables
  import DataServices
  import DataServiceObjects

  datatype Param = Channel | PanId | ShortAddress | RxMode | TxPower

  datatype ParamValue = Number(number: u16) | RxModeFlags(addressFilter: bool, autoAck: bool, pollMode: bool)

  datatype ParamInfo = ParamInfo(requested: ParamValue, updating: Option<Key>, dirty: bool)

  datatype Service = Service(outgoing: seq<Frame>, params: map<Param, ParamInfo>)

  datatype Request = Request(key: Key, param: Param, value: ParamValue)

  datatype MlmeError = InvalidParameter | NoShortAddress

  // ----- Operations

  /** The value that a radio parameter should have. */
  function Wanted(pib: Pib, param: Param): ParamValue {
    match param
    case Channel => Number(pib.phyCurrentChannel)
    case PanId => Number(pib.macPanId)
    case ShortAddress => Number(pib.macShortAddress)
    case RxMode => RxModeFlags(true, true, false)
    case TxPower => Number(pib.phyTxPower)
  }

  function ParamUpdated(params: map<Param, ParamInfo>, param: Param, value: ParamValue): map<Param, ParamInfo> {
    if param in params then
      (if params[param].requested != value then params[param := params[param].(requested := value, dirty := true)] else params)
    else params[param := ParamInfo(value, None, true)]
  }

  function ParamsUpdated(params: map<Param, ParamInfo>, pib: Pib): map<Param, ParamInfo> {
    var p1 := ParamUpdated(params, Channel, Wanted(pib, Channel));
    var p2 := ParamUpdated(p1, PanId, Wanted(pib, PanId));
    var p3 := ParamUpdated(p2, ShortAddress, Wanted(pib, ShortAddress));
    var p4 := ParamUpdated(p3, RxMode, Wanted(pib, RxMode));
    ParamUpdated(p4, TxPower, Wanted(pib, TxPower))
  }

  function Created(pib: Pib): Service {
    Service([], ParamsUpdated(map[], pib))
  }

  predicate IsDue(info: ParamInfo) {
    info.dirty && info.updating.None?
  }

  /** A parameter that is due is sent with its requested value. */
  function ParamPolled(m: Service, param: Param, key: Key): (Service, Request)
    requires param in m.params
  {
    (m.(params := m.params[param := m.params[param].(dirty := false, updating := Some(key))]),
     Request(key, param, m.params[param].requested))
  }

  function InfoReported(info: ParamInfo, key: Key, success: bool): ParamInfo {
    if info.updating != Some(key) then info else info.(updating := None, dirty := info.dirty || !success)
  }

  function SetReported(m: Service, key: Key, success: bool): Service {
    m.(params := map p | p in m.params :: InfoReported(m.params[p], key, success))
  }

  /** `PIB::reset`; the sequence numbers restart at random. */
  function PibReset(pib: Pib, bsn: byte, dsn: byte): Pib {
    Pib(pib.macExtendedAddress, 0xFFFF, 0xFFFF, dsn, bsn, 3, None, false, [], false, pib.phyCurrentChannel, pib.phyTxPower)
  }

  datatype StartRequest = StartRequest(
    panId: u16, channelNumber: u16, channelPage: u16, startTime: u32, beaconOrder: byte, superframeOrder: byte,
    panCoordinator: bool, batteryLifeExtension: bool)

  function Started(pib: Pib, request: StartRequest): Result<Pib, MlmeError> {
    if pib.macShortAddress == 0xFFFF then Err(NoShortAddress)
    else if request.channelPage != 0 || request.startTime != 0 || request.beaconOrder != 15 ||
            request.superframeOrder != 15 || !request.panCoordinator || request.batteryLifeExtension
    then Err(InvalidParameter)
    else Ok(pib.(phyCurrentChannel := request.channelNumber, macPanId := request.panId,
                 macAssociatedPanCoord := Some((pib.macExtendedAddress, pib.macShortAddress))))
  }

  function BeaconOf(pib: Pib): Frame {
    Frame(false, false, Some(pib.macBsn), None, Some(FullShortAddress(pib)),
          BeaconFrame(Beacon(15, 15, 15, false,
            pib.macAssociatedPanCoord == Some((pib.macExtendedAddress, pib.macShortAddress)),
            pib.macAssociationPermit, pib.macBeaconPayload)))
  }

  // ----- The service together with the radio

  datatype Answer = Answer(key: Key, success: bool)

  /**
   * The radio works off requests in order and answers in order. `pipe` holds the requests it has
   * not seen yet, `answers` what it has answered and the service has not seen yet.
   */
  datatype System = System(
    service: Service, pib: Pib, radio: map<Param, ParamValue>, pipe: seq<Request>, answers: seq<Answer>, nextKey: Key)

  datatype Event =
    | Setting(pib: Pib)                               // MLME-SET leaves the information base like this
    | Starting(start: StartRequest)
    | Resetting(setDefault: bool, bsn: byte, dsn: byte)
    | OtherChange(otherPib: Pib)                      // sequence numbers and other fields without a parameter
    | PollingParam(param: Param)
    | PollingFrame
    | Beaconing
    | RadioWorks(success: bool, garbage: ParamValue)
    | AnswerArrives

  predicate Enabled(s: System, e: Event) {
    match e
    case OtherChange(pib) => forall p: Param :: Wanted(pib, p) == Wanted(s.pib, p)
    case PollingParam(param) => param in s.service.params && IsDue(s.service.params[param])
    case PollingFrame => s.service.outgoing != []
    case RadioWorks(_, _) => s.pipe != []
    case AnswerArrives => s.answers != []
    case _ => true
  }

  function Step(s: System, e: Event): System
    requires Enabled(s, e)
  {
    var m := s.service;
    match e
    case Setting(pib) => s.(pib := pib, service := m.(params := ParamsUpdated(m.params, pib)))
    case Starting(request) =>
      (match Started(s.pib, request)
       case Ok(pib) => s.(pib := pib, service := m.(params := ParamsUpdated(m.params, pib)))
       case Err(_) => s)
    case Resetting(setDefault, bsn, dsn) =>
      var pib := if setDefault then PibReset(s.pib, bsn, dsn) else s.pib;
      s.(pib := pib, service := Created(pib))
    case OtherChange(pib) => s.(pib := pib)
    case PollingParam(param) =>
      var (m', request) := ParamPolled(m, param, s.nextKey);
      s.(service := m', pipe := s.pipe + [request], nextKey := s.nextKey + 1)
    case PollingFrame => s.(service := m.(outgoing := m.outgoing[1..]))
    case Beaconing =>
      s.(service := m.(outgoing := m.outgoing + [BeaconOf(s.pib)]), pib := s.pib.(macBsn := NextSequenceNumber(s.pib.macBsn)))
    case RadioWorks(success, garbage) =>
      var r := s.pipe[0];
      s.(radio := s.radio[r.param := if success then r.value else garbage], pipe := s.pipe[1..],
         answers := s.answers + [Answer(r.key, success)])
    case AnswerArrives =>
      s.(service := SetReported(m, s.answers[0].key, s.answers[0].success), answers := s.answers[1..])
  }

  function AnswerKeys(answers: seq<Answer>): (r: seq<Key>)
    ensures |r| == |answers| && forall i | 0 <= i < |r| :: r[i] == answers[i].key
  {
    seq(|answers|, i requires 0 <= i < |answers| => answers[i].key)
  }

  function RequestKeys(pipe: seq<Request>): (r: seq<Key>)
    ensures |r| == |pipe| && forall i | 0 <= i < |r| :: r[i] == pipe[i].key
  {
    seq(|pipe|, i requires 0 <= i < |pipe| => pipe[i].key)
  }

  /** All keys under way, in the order in which their answers will arrive. */
  function KeysUnderWay(s: System): seq<Key> {
    AnswerKeys(s.answers) + RequestKeys(s.pipe)
  }

  /** The last request for a parameter that the radio has not seen yet. */
  function LastFor(pipe: seq<Request>, param: Param): (r: Option<Request>)
    ensures r.Some? ==> r.value in pipe && r.value.param == param
  {
    if pipe == [] then None
    else match LastFor(pipe[1..], param)
      case Some(r) => Some(r)
      case None => if pipe[0].param == param then Some(pipe[0]) else None
  }

  lemma {:induction false} LastForAppend(pipe: seq<Request>, r: Request, param: Param)
    ensures LastFor(pipe + [r], param) == if r.param == param then Some(r) else LastFor(pipe, param)
  {
    if pipe == [] {
      assert [r][1..] == [] && [] + [r] == [r];
    } else {
      assert (pipe + [r])[1..] == pipe[1..] + [r];
      LastForAppend(pipe[1..], r, param);
    }
  }

  /** One parameter: what it requests is wanted, and the radio has it unless something is still to be done. */
  ghost predicate ParamOk(s: System, p: Param) {
    && p in s.service.params && p in s.radio
    && var info := s.service.params[p];
    && info.requested == Wanted(s.pib, p)
    && (info.updating.Some? ==> info.updating.value < s.nextKey)
    && match info.updating
       case None => !info.dirty ==> LastFor(s.pipe, p).None? && s.radio[p] == info.requested
       case Some(k) =>
         match LastFor(s.pipe, p)
         case Some(r) => r.key == k && (!info.dirty ==> r.value == info.requested)
         case None => exists a <- s.answers :: a.key == k && (a.success && !info.dirty ==> s.radio[p] == info.requested)
  }

  ghost predicate Inv(s: System) {
    && (forall p: Param :: ParamOk(s, p))
    && Distinct(KeysUnderWay(s))
    && (forall k <- KeysUnderWay(s) :: k < s.nextKey)
  }

  lemma ParamsAreUpdated(params: map<Param, ParamInfo>, pib: Pib, p: Param)
    ensures var params' := ParamsUpdated(params, pib);
            p in params' &&
            if p in params then
              params'[p] == (if params[p].requested != Wanted(pib, p) then params[p].(requested := Wanted(pib, p), dirty := true) else params[p])
            else params'[p] == ParamInfo(Wanted(pib, p), None, true)
  {
    hide ParamUpdated, Wanted;
    var p1 := ParamUpdated(params, Channel, Wanted(pib, Channel));
    ParamIsUpdated(params, Channel, Wanted(pib, Channel), p);
    var p2 := ParamUpdated(p1, PanId, Wanted(pib, PanId));
    ParamIsUpdated(p1, PanId, Wanted(pib, PanId), p);
    var p3 := ParamUpdated(p2, ShortAddress, Wanted(pib, ShortAddress));
    ParamIsUpdated(p2, ShortAddress, Wanted(pib, ShortAddress), p);
    var p4 := ParamUpdated(p3, RxMode, Wanted(pib, RxMode));
    ParamIsUpdated(p3, RxMode, Wanted(pib, RxMode), p);
    ParamIsUpdated(p4, TxPower, Wanted(pib, TxPower), p);
  }

  lemma ParamIsUpdated(params: map<Param, ParamInfo>, param: Param, value: ParamValue, p: Param)
    ensures var params' := ParamUpdated(params, param, value);
            && (p in params' <==> p in params || p == param)
            && (p != param && p in params ==> params'[p] == params[p])
            && (p == param ==>
                  params'[p] == if p !in params then ParamInfo(value, None, true)
                                else if params[p].requested != value then params[p].(requested := value, dirty := true)
                                else params[p])
  {
  }

  lemma StepKeepsParam(s: System, e: Event, p: Param)
    requires Inv(s) && Enabled(s, e)
    ensures ParamOk(Step(s, e), p)
  {
    var s' := Step(s, e);
    assert ParamOk(s, p);
    hide ParamsUpdated, LastFor, AnswerKeys, RequestKeys, ParamPolled, SetReported, PibReset;
    match e {
      case Setting(pib) => ParamsAreUpdated(s.service.params, pib, p);
      case Starting(request) =>
        if Started(s.pib, request).Ok? {
          ParamsAreUpdated(s.service.params, Started(s.pib, request).value, p);
        }
      case Resetting(_, _, _) => ParamsAreUpdated(map[], s'.pib, p);
      case PollingParam(param) => PollKeepsParam(s, e, p);
      case RadioWorks(success, garbage) => RadioKeepsParam(s, e, p);
      case AnswerArrives => AnswerKeepsParam(s, e, p);
      case _ =>
    }
  }

  lemma PollKeepsParam(s: System, e: Event, p: Param)
    requires Inv(s) && Enabled(s, e) && e.PollingParam?
    ensures ParamOk(Step(s, e), p)
  {
    assert ParamOk(s, p);
    LastForAppend(s.pipe, Request(s.nextKey, e.param, s.service.params[e.param].requested), p);
  }

  lemma RadioKeepsParam(s: System, e: Event, p: Param)
    requires Inv(s) && Enabled(s, e) && e.RadioWorks?
    ensures ParamOk(Step(s, e), p)
  {
    var s', r := Step(s, e), s.pipe[0];
    assert ParamOk(s, p);
    var info := s.service.params[p];
    assert Answer(r.key, e.success) in s'.answers;
    if info.updating.Some? && LastFor(s.pipe, p).None? {
      var a :| a in s.answers && a.key == info.updating.value && (a.success && !info.dirty ==> s.radio[p] == info.requested);
      assert a in s'.answers;
    }
  }

  lemma AnswerKeepsParam(s: System, e: Event, p: Param)
    requires Inv(s) && Enabled(s, e) && e.AnswerArrives?
    ensures ParamOk(Step(s, e), p)
  {
    var s', first := Step(s, e), s.answers[0];
    assert ParamOk(s, p);
    var info, keys := s.service.params[p], KeysUnderWay(s);
    if info.updating.Some? {
      match LastFor(s.pipe, p) {
        case Some(r) =>
          var i :| 0 <= i < |s.pipe| && s.pipe[i] == r;
          assert keys[0] == first.key && keys[|s.answers| + i] == r.key;
        case None =>
          var a :| a in s.answers && a.key == info.updating.value && (a.success && !info.dirty ==> s.radio[p] == info.requested);
          var i :| 0 <= i < |s.answers| && s.answers[i] == a;
          assert keys[0] == first.key && keys[i] == a.key;
          if i > 0 {
            assert s'.answers[i - 1] == a;
          }
      }
    }
  }

  lemma StepKeepsKeys(s: System, e: Event)
    requires Inv(s) && Enabled(s, e)
    ensures Distinct(KeysUnderWay(Step(s, e))) && forall k <- KeysUnderWay(Step(s, e)) :: k < Step(s, e).nextKey
  {
    hide ParamsUpdated, LastFor, SetReported, PibReset, ParamOk;
    var s', keys := Step(s, e), KeysUnderWay(s);
    match e {
      case PollingParam(param) => NewKey(s.answers, s.pipe, s'.pipe[|s.pipe|], s.nextKey);
      case RadioWorks(_, _) => WorkKeepsKeys(s.answers, s.pipe, s'.answers[|s.answers|]);
      case AnswerArrives =>
        TailKeys(keys);
        assert KeysUnderWay(s') == keys[1..];
      case _ =>
    }
  }

  lemma NewKey(answers: seq<Answer>, pipe: seq<Request>, r: Request, next: Key)
    requires var keys := AnswerKeys(answers) + RequestKeys(pipe);
             Distinct(keys) && (forall k <- keys :: k < next) && r.key == next
    ensures var keys' := AnswerKeys(answers) + RequestKeys(pipe + [r]);
            Distinct(keys') && forall k <- keys' :: k < next + 1
  {
    var keys := AnswerKeys(answers) + RequestKeys(pipe);
    DistinctAppend(keys, next);
    assert AnswerKeys(answers) + RequestKeys(pipe + [r]) == keys + [next];
  }

  lemma TailKeys(keys: seq<Key>)
    requires keys != [] && Distinct(keys)
    ensures Distinct(keys[1..]) && forall k <- keys[1..] :: k in keys
  {
    assert keys == [keys[0]] + keys[1..];
    DistinctParts([keys[0]], keys[1..]);
  }

  lemma WorkKeepsKeys(answers: seq<Answer>, pipe: seq<Request>, a: Answer)
    requires pipe != [] && a.key == pipe[0].key
    ensures AnswerKeys(answers + [a]) + RequestKeys(pipe[1..]) == AnswerKeys(answers) + RequestKeys(pipe)
  {
    var before, after := AnswerKeys(answers) + RequestKeys(pipe), AnswerKeys(answers + [a]) + RequestKeys(pipe[1..]);
    assert |before| == |after|;
    forall i | 0 <= i < |before| ensures before[i] == after[i] {
    }
  }

  // ----- Whole runs

  /** The service as created next to a radio with anything in it; earlier requests may still be under way. */
  ghost predicate First(s: System) {
    && s.service == Created(s.pib)
    && (forall p: Param :: p in s.radio)
    && Distinct(KeysUnderWay(s))
    && (forall k <- KeysUnderWay(s) :: k < s.nextKey)
  }

  ghost predicate IsRun(states: seq<System>, events: seq<Event>) {
    && |states| == |events| + 1
    && First(states[0])
    && forall i | 0 <= i < |events| :: Enabled(states[i], events[i]) && states[i + 1] == Step(states[i], events[i])
  }

  lemma {:induction false} RunKeepsInv(states: seq<System>, events: seq<Event>, i: nat)
    requires IsRun(states, events) && i < |states|
    ensures Inv(states[i])
    decreases i
  {
    if i == 0 {
      forall p: Param ensures ParamOk(states[0], p) {
        ParamsAreUpdated(map[], states[0].pib, p);
      }
    } else {
      RunKeepsInv(states, events, i - 1);
      forall p: Param ensures ParamOk(states[i], p) {
        StepKeepsParam(states[i - 1], events[i - 1], p);
      }
      StepKeepsKeys(states[i - 1], events[i - 1]);
    }
  }

  /**
   * In every reachable state, also after resets that abandon what was under way, each requested
   * value is the one the information base asks for, and a parameter with nothing left to do has
   * that value in the radio.
   */
  lemma RadioFollowsPib(states: seq<System>, events: seq<Event>, i: nat, p: Param)
    requires IsRun(states, events) && i < |states|
    ensures var s := states[i];
            && p in s.service.params && p in s.radio
            && s.service.params[p].requested == Wanted(s.pib, p)
            && (!s.service.params[p].dirty && s.service.params[p].updating.None? ==> s.radio[p] == Wanted(s.pib, p))
  {
    RunKeepsInv(states, events, i);
    assert ParamOk(states[i], p);
  }

  /** An update that is under way is always answered later: its key is among those still to arrive. */
  lemma UpdatesAreAnswered(states: seq<System>, events: seq<Event>, i: nat, p: Param)
    requires IsRun(states, events) && i < |states|
    requires p in states[i].service.params && states[i].service.params[p].updating.Some?
    ensures states[i].service.params[p].updating.value in KeysUnderWay(states[i])
  {
    RunKeepsInv(states, events, i);
    var s := states[i];
    assert ParamOk(s, p);
    var k := s.service.params[p].updating.value;
    match LastFor(s.pipe, p) {
      case Some(r) =>
        var j :| 0 <= j < |s.pipe| && s.pipe[j] == r;
        assert RequestKeys(s.pipe)[j] == k;
      case None =>
        var a :| a in s.answers && a.key == k;
        var j :| 0 <= j < |s.answers| && s.answers[j] == a;
        assert AnswerKeys(s.answers)[j] == k;
    }
  }

  // ----- Implementation

  datatype Action = SetParam(request: Request) | SendFrame(frame: Frame)

  class ManagementService {
    var outgoing: seq<Frame>
    var radioParams: map<Param, ParamInfo>

    ghost function View(): Service
      reads this
    {
      Service(outgoing, radioParams)
    }

    constructor (pib: Pib)
      ensures View() == Created(pib)
    {
      outgoing := [];
      radioParams := map[];
      new;
      UpdateRadioParameters(pib);
    }

    method UpdateRadioParameter(parameter: Param, value: ParamValue)
      modifies this`radioParams
      ensures radioParams == ParamUpdated(old(radioParams), parameter, value)
    {
      if parameter in radioParams {
        var current := radioParams[parameter];
        if current.requested != value {
          radioParams := radioParams[parameter := current.(requested := value, dirty := true)];
        }
      } else {
        radioParams := radioParams[parameter := ParamInfo(value, None, true)];
      }
    }

    method UpdateRadioParameters(pib: Pib)
      modifies this`radioParams
      ensures radioParams == ParamsUpdated(old(radioParams), pib)
    {
      UpdateRadioParameter(Channel, Wanted(pib, Channel));
      UpdateRadioParameter(PanId, Wanted(pib, PanId));
      UpdateRadioParameter(ShortAddress, Wanted(pib, ShortAddress));
      UpdateRadioParameter(RxMode, Wanted(pib, RxMode));
      UpdateRadioParameter(TxPower, Wanted(pib, TxPower));
    }

    method PollRadioParamUpdate(keys: KeySource) returns (request: Option<Request>)
      modifies this`radioParams, keys
      ensures match request
              case Some(r) =>
                r.param in old(radioParams) && IsDue(old(radioParams)[r.param]) && keys.next == old(keys.next) + 1 &&
                (View(), r) == ParamPolled(old(View()), r.param, old(keys.next))
              case None =>
                View() == old(View()) && keys.next == old(keys.next) &&
                forall p <- radioParams :: !IsDue(radioParams[p])
    {
      var remaining := radioParams.Keys;
      while remaining != {}
        invariant remaining <= radioParams.Keys && View() == old(View()) && keys.next == old(keys.next)
        invariant forall p <- radioParams :: p !in remaining ==> !IsDue(radioParams[p])
        decreases |remaining|
      {
        var param :| param in remaining;
        var info := radioParams[param];
        if info.dirty && info.updating.None? {
          var key := keys.New();
          radioParams := radioParams[param := info.(dirty := false, updating := Some(key))];
          return Some(Request(key, param, info.requested));
        }
        remaining := remaining - {param};
      }
      return None;
    }

    method ProcessSetParamResult(key: Key, success: bool)
      modifies this`radioParams
      ensures View() == SetReported(old(View()), key, success)
    {
      var before, remaining := radioParams, radioParams.Keys;
      while remaining != {}
        invariant remaining <= radioParams.Keys == before.Keys && outgoing == old(outgoing)
        invariant forall p <- radioParams ::
                    radioParams[p] == if p in remaining then before[p] else InfoReported(before[p], key, success)
        decreases |remaining|
      {
        var param :| param in remaining;
        var info := radioParams[param];
        if info.updating == Some(key) {
          info := info.(updating := None);
          if !success {
            info := info.(dirty := true);
          }
          radioParams := radioParams[param := info];
        }
        remaining := remaining - {param};
      }
      assert radioParams == SetReported(old(View()), key, success).params;
    }

    /** Parameters go before frames. */
    method PollAction(keys: KeySource) returns (action: Option<Action>)
      modifies this, keys
      ensures match action
              case Some(SetParam(r)) =>
                r.param in old(radioParams) && IsDue(old(radioParams)[r.param]) && keys.next == old(keys.next) + 1 &&
                (View(), r) == ParamPolled(old(View()), r.param, old(keys.next))
              case Some(SendFrame(frame)) =>
                old(outgoing) == [frame] + outgoing && radioParams == old(radioParams) && keys.next == old(keys.next) &&
                forall p <- radioParams :: !IsDue(radioParams[p])
              case None =>
                View() == old(View()) && outgoing == [] && keys.next == old(keys.next) &&
                forall p <- radioParams :: !IsDue(radioParams[p])
    {
      var request := PollRadioParamUpdate(keys);
      if request.Some? {
        return Some(SetParam(request.value));
      }
      if outgoing != [] {
        var frame := outgoing[0];
        outgoing := outgoing[1..];
        return Some(SendFrame(frame));
      }
      return None;
    }

    method ProcessMlmeStartRequest(pib: Pib, request: StartRequest) returns (result: Result<Pib, MlmeError>)
      modifies this
      ensures result == Started(pib, request)
      ensures View() == if result.Ok? then old(View()).(params := ParamsUpdated(old(radioParams), result.value)) else old(View())
    {
      if pib.macShortAddress == 0xFFFF {
        return Err(NoShortAddress);
      }
      if request.channelPage != 0 || request.startTime != 0 || request.beaconOrder != 15 ||
         request.superframeOrder != 15 || !request.panCoordinator || request.batteryLifeExtension {
        return Err(InvalidParameter);
      }
      var started := pib.(phyCurrentChannel := request.channelNumber, macPanId := request.panId,
                          macAssociatedPanCoord := Some((pib.macExtendedAddress, pib.macShortAddress)));
      UpdateRadioParameters(started);
      return Ok(started);
    }

    /** The tail of an MLME-SET, after the information base has been changed, whether or not that failed. */
    method ProcessMlmeSetRequest(pib: Pib)
      modifies this
      ensures View() == old(View()).(params := ParamsUpdated(old(radioParams), pib))
    {
      UpdateRadioParameters(pib);
    }

    /** A reset also replaces the data service by a new one. */
    method ProcessMlmeResetRequest(pib: Pib, setDefault: bool, bsn: byte, dsn: byte)
      returns (pib': Pib, data: DataServiceObjects.DataService)
      modifies this
      ensures pib' == (if setDefault then PibReset(pib, bsn, dsn) else pib) && View() == Created(pib')
      ensures data.Valid() && fresh(data.Repr()) && data.View() == DataServices.NewService() && data.history == []
    {
      pib' := if setDefault then PibReset(pib, bsn, dsn) else pib;
      outgoing := [];
      radioParams := map[];
      UpdateRadioParameters(pib');
      data := new DataServiceObjects.DataService();
    }

    method ProcessMlmeBeaconRequest(pib: Pib, channel: u16, channelPage: u16, superframeOrder: nat)
      returns (result: Result<Pib, MlmeError>)
      modifies this
      ensures result.Ok? <==> superframeOrder == 15 && channel == pib.phyCurrentChannel && channelPage == 0
      ensures result.Ok? ==>
                outgoing == old(outgoing) + [BeaconOf(pib)] && result.value == pib.(macBsn := NextSequenceNumber(pib.macBsn))
      ensures radioParams == old(radioParams) && (result.Err? ==> View() == old(View()) && result.error == InvalidParameter)
    {
      if superframeOrder != 15 || channel != pib.phyCurrentChannel || channelPage != 0 {
        return Err(InvalidParameter);
      }
      outgoing := outgoing + [BeaconOf(pib)];
      return Ok(pib.(macBsn := NextSequenceNumber(pib.macBsn)));
    }
  }
}
