/**
 * The MAC frame codec, `src/ieee802154/frame.rs` over `src/pack/pack.rs`. Numbers are little-endian
 * on the wire; a frame starts with a 16-bit control field that tells what follows.
 */
module FrameCodecs {
  import opened Prelude
  import opened Octets
  import opened Addresses
  import opened Frames

  datatype UnpackError = NotEnoughData | InvalidEnumTag | Unimplemented

  datatype PackError = NotAllowed | NotEnoughSpace

  /** What is left after unpacking a value. */
  type Unpacked<T> = Result<(T, seq<byte>), UnpackError>

  /** A growing vector, or a slice of some size. */
  datatype Target = Target(written: seq<byte>, size: Option<nat>)

  function Append(t: Target, data: seq<byte>): Result<Target, PackError> {
    if t.size.Some? && |t.written| + |data| > t.size.value then Err(NotEnoughSpace)
    else Ok(t.(written := t.written + data))
  }

  function Then(r: Result<Target, PackError>, data: seq<byte>): Result<Target, PackError> {
    match r
    case Err(e) => Err(e)
    case Ok(t) => Append(t, data)
  }

  // ----- Bit fields

  /** The field of `size` values whose lowest bit is worth `unit`. */
  function Field(x: nat, unit: nat, size: nat): nat
    requires unit > 0 && size > 0
  {
    x / unit % size
  }

  function WithField(x: nat, unit: nat, size: nat, value: nat): int
    requires unit > 0 && size > 0
  {
    x - Field(x, unit, size) * unit + value % size * unit
  }

  function Bit(b: bool): (r: nat)
    ensures r < 2
  {
    if b then 1 else 0
  }

  // ----- Addresses

  function ModeCode(mode: AddressingMode): (r: nat)
    ensures r < 4
  {
    match mode
    case NoAddress => 0
    case ReservedMode => 1
    case ShortMode => 2
    case ExtendedMode => 3
  }

  function ModeOfCode(code: nat): AddressingMode {
    if code == 0 then NoAddress else if code == 1 then ReservedMode else if code == 2 then ShortMode else ExtendedMode
  }

  function ModeOf(a: Option<FullAddress>): AddressingMode {
    match a
    case None => NoAddress
    case Some(full) => if full.address.Short? then ShortMode else ExtendedMode
  }

  function AddressBytes(a: Address): seq<byte> {
    match a
    case Short(x) => Le(x, 2)
    case Extended(x) => Le(x, 8)
  }

  function FullAddressBytes(a: Option<FullAddress>, omitPan: bool): seq<byte> {
    match a
    case None => []
    case Some(full) => (if omitPan then [] else Le(full.panId, 2)) + AddressBytes(full.address)
  }

  function UnpackAddressData(mode: AddressingMode, data: seq<byte>): Unpacked<Address> {
    PowersOf256();
    match mode
    case ShortMode =>
      (match TakeLe(2, data) case None => Err(NotEnoughData) case Some((x, rest)) => Ok((Short(x), rest)))
    case ExtendedMode =>
      (match TakeLe(8, data) case None => Err(NotEnoughData) case Some((x, rest)) => Ok((Extended(x), rest)))
    case _ => Err(InvalidEnumTag)
  }

  /** The PAN id that was given before, or else one of its own. */
  function UnpackPan(previousPan: Option<u16>, data: seq<byte>): Unpacked<u16> {
    PowersOf256();
    if previousPan.Some? then Ok((previousPan.value, data))
    else match TakeLe(2, data) case None => Err(NotEnoughData) case Some((pan, rest)) => Ok((pan, rest))
  }

  function UnpackAddress(mode: AddressingMode, previousPan: Option<u16>, data: seq<byte>): Unpacked<Option<FullAddress>> {
    if mode == NoAddress then Ok((None, data))
    else
      match UnpackPan(previousPan, data)
      case Err(e) => Err(e)
      case Ok((pan, afterPan)) =>
        match UnpackAddressData(mode, afterPan)
        case Err(e) => Err(e)
        case Ok((address, rest)) => Ok((Some(FullAddress(pan, address)), rest))
  }

  // ----- Frame types

  function TypeTag(t: FrameType): (r: nat)
    ensures r < 8
  {
    match t
    case BeaconFrame(_) => 0
    case Data(_) => 1
    case Ack(_) => 2
    case CommandFrame(_) => 3
    case Reserved(_) => 4
    case Multipurpose(_) => 5
    case Fragment(_) => 6
    case ExtendedFrame(_) => 7
  }

  function ErrorTag(e: AssociationError): nat {
    match e
    case PanAtCapacity => 1
    case PanAccessDenied => 2
    case HoppingSequenceOffset => 3
  }

  function AssociationErrorOf(tag: nat): Result<AssociationError, UnpackError> {
    if tag == 1 then Ok(PanAtCapacity)
    else if tag == 2 then Ok(PanAccessDenied)
    else if tag == 3 then Ok(HoppingSequenceOffset)
    else Err(InvalidEnumTag)
  }

  /** Capability information is packed to nothing. */
  function CommandBytes(c: Command): seq<byte> {
    match c
    case AssociationRequest(_) => [0x01]
    case AssociationResponse(fast, status) =>
      [0x02] + Le(if status.Ok? then status.value else 0xFFFF, 2)
        + [(if status.Ok? then 0 else ErrorTag(status.error)) + if fast then 0x80 else 0]
    case DataRequestCommand => [0x04]
    case BeaconRequestCommand => [0x07]
  }

  function UnpackCapabilities(c: byte): CapabilityInformation {
    CapabilityInformation(Field(c, 2, 2) != 0, Field(c, 4, 2) != 0, Field(c, 8, 2) != 0, Field(c, 0x10, 2) != 0,
                          Field(c, 0x40, 2) != 0, Field(c, 0x80, 2) != 0)
  }

  function UnpackAssociationResponse(data: seq<byte>): Unpacked<Command> {
    match TakeLe(2, data)
    case None => Err(NotEnoughData)
    case Some((address, afterAddress)) =>
      PowersOf256();
      if afterAddress == [] then Err(NotEnoughData)
      else
        var fast, status, rest := afterAddress[0] >= 0x80, afterAddress[0] % 0x80, afterAddress[1..];
        if status == 0 then Ok((AssociationResponse(fast, Ok(address)), rest))
        else
          match AssociationErrorOf(status)
          case Err(e) => Err(e)
          case Ok(error) => Ok((AssociationResponse(fast, Err(error)), rest))
  }

  function UnpackCommand(data: seq<byte>): Unpacked<Command> {
    if data == [] then Err(NotEnoughData)
    else
      var tag, rest := data[0], data[1..];
      if tag == 0x01 then
        if rest == [] then Err(NotEnoughData) else Ok((AssociationRequest(UnpackCapabilities(rest[0])), rest[1..]))
      else if tag == 0x02 then UnpackAssociationResponse(rest)
      else if tag == 0x04 then Ok((DataRequestCommand, rest))
      else if tag == 0x07 then Ok((BeaconRequestCommand, rest))
      else Err(InvalidEnumTag)
  }

  predicate BeaconInRange(b: Beacon) {
    b.beaconOrder <= 0xF && b.superframeOrder <= 0xF && b.finalCapSlot <= 0xF
  }

  function Superframe(b: Beacon): u16
    requires BeaconInRange(b)
  {
    b.beaconOrder + 0x10 * b.superframeOrder + 0x100 * b.finalCapSlot + 0x1000 * Bit(b.batteryLifeExtension)
      + 0x4000 * Bit(b.panCoordinator) + 0x8000 * Bit(b.associationPermit)
  }

  function BeaconOf(ss: nat, payload: seq<byte>): Beacon {
    Beacon(Field(ss, 1, 0x10), Field(ss, 0x10, 0x10), Field(ss, 0x100, 0x10), Field(ss, 0x1000, 2) != 0,
           Field(ss, 0x4000, 2) != 0, Field(ss, 0x8000, 2) != 0, payload)
  }

  function BeaconBytes(b: Beacon): seq<byte>
    requires BeaconInRange(b)
  {
    Le(Superframe(b), 2) + [0, 0] + b.payload
  }

  function UnpackBeacon(data: seq<byte>): Unpacked<Beacon> {
    match TakeLe(2, data)
    case None => Err(NotEnoughData)
    case Some((ss, rest)) =>
      if |rest| < 2 then Err(NotEnoughData)
      else if rest[0] != 0 || rest[1] != 0 then Err(Unimplemented)
      else Ok((BeaconOf(ss, rest[2..]), []))
  }

  predicate TypeInRange(t: FrameType) {
    t.BeaconFrame? ==> BeaconInRange(t.beacon)
  }

  function TypeBytes(t: FrameType): seq<byte>
    requires TypeInRange(t)
  {
    match t
    case BeaconFrame(b) => BeaconBytes(b)
    case CommandFrame(c) => CommandBytes(c)
    case _ => t.payload
  }

  function UnpackType(tag: nat, data: seq<byte>): Unpacked<FrameType> {
    if tag == 0 then
      match UnpackBeacon(data)
      case Err(e) => Err(e)
      case Ok((b, rest)) => Ok((BeaconFrame(b), rest))
    else if tag == 3 then
      match UnpackCommand(data)
      case Err(e) => Err(e)
      case Ok((c, rest)) => Ok((CommandFrame(c), rest))
    else if tag == 1 then Ok((Data(data), []))
    else if tag == 2 then Ok((Ack(data), []))
    else if tag == 4 then Ok((Reserved(data), []))
    else if tag == 5 then Ok((Multipurpose(data), []))
    else if tag == 6 then Ok((Fragment(data), []))
    else if tag == 7 then Ok((ExtendedFrame(data), []))
    else Err(InvalidEnumTag)
  }

  // ----- Frames

  /** The source can leave out its PAN id when the destination gives the same one. */
  predicate SharesPan(f: Frame) {
    f.destination.Some? && f.source.Some? && f.destination.value.panId == f.source.value.panId
  }

  function Control(f: Frame): u16 {
    TypeTag(f.frameType) + 0x10 * Bit(f.framePending) + 0x20 * Bit(f.acknowledgeRequest) + 0x40 * Bit(SharesPan(f))
      + 0x100 * Bit(f.sequenceNumber.None?) + 0x400 * ModeCode(ModeOf(f.destination)) + 0x4000 * ModeCode(ModeOf(f.source))
  }

  function SequenceBytes(sequence: Option<byte>): seq<byte> {
    if sequence.Some? then [sequence.value] else []
  }

  function HeaderBytes(f: Frame): seq<byte> {
    Le(Control(f), 2) + SequenceBytes(f.sequenceNumber) + FullAddressBytes(f.destination, false)
      + FullAddressBytes(f.source, SharesPan(f))
  }

  /** The canonical octets of a frame. */
  function Bytes(f: Frame): seq<byte>
    requires TypeInRange(f.frameType)
  {
    HeaderBytes(f) + TypeBytes(f.frameType)
  }

  function UnpackSequence(present: bool, data: seq<byte>): Unpacked<Option<byte>> {
    if !present then Ok((None, data))
    else if data == [] then Err(NotEnoughData)
    else Ok((Some(data[0]), data[1..]))
  }

  datatype Addressing = Addressing(sequence: Option<byte>, destination: Option<FullAddress>, source: Option<FullAddress>)

  function UnpackAddressing(fc: nat, data: seq<byte>): Unpacked<Addressing> {
    match UnpackSequence(Field(fc, 0x100, 2) == 0, data)
    case Err(e) => Err(e)
    case Ok((sequence, afterSequence)) =>
      match UnpackAddress(ModeOfCode(Field(fc, 0x400, 4)), None, afterSequence)
      case Err(e) => Err(e)
      case Ok((destination, afterDestination)) =>
        var previousPan := if Field(fc, 0x40, 2) != 0 && destination.Some? then Some(destination.value.panId) else None;
        match UnpackAddress(ModeOfCode(Field(fc, 0x4000, 4)), previousPan, afterDestination)
        case Err(e) => Err(e)
        case Ok((source, rest)) => Ok((Addressing(sequence, destination, source), rest))
  }

  function Unpack(data: seq<byte>): Unpacked<Frame> {
    match TakeLe(2, data)
    case None => Err(NotEnoughData)
    case Some((fc, afterControl)) =>
      match UnpackAddressing(fc, afterControl)
      case Err(e) => Err(e)
      case Ok((a, body)) =>
        if Field(fc, 0x200, 2) != 0 || Field(fc, 8, 2) != 0 then Err(Unimplemented)
        else
          match UnpackType(Field(fc, 1, 8), body)
          case Err(e) => Err(e)
          case Ok((t, rest)) =>
            Ok((Frame(Field(fc, 0x10, 2) != 0, Field(fc, 0x20, 2) != 0, a.sequence, a.destination, a.source, t), rest))
  }

  // ----- Building bit fields step by step

  lemma SetsField(x: nat, unit: nat, size: nat, value: nat)
    requires x < unit && value < size
    ensures WithField(x, unit, size, value) == x + value * unit
  {
    assert x / unit == 0;
  }

  method BuildControl(f: Frame) returns (fc: u16)
    ensures fc == Control(f)
  {
    hide WithField, TypeTag, ModeCode, ModeOf, SharesPan;
    var tag := TypeTag(f.frameType);
    SetsField(0, 1, 8, tag);
    var x: int := WithField(0, 1, 8, tag);
    SetsField(x, 8, 2, 0);
    x := WithField(x, 8, 2, 0);
    SetsField(x, 0x10, 2, Bit(f.framePending));
    x := WithField(x, 0x10, 2, Bit(f.framePending));
    SetsField(x, 0x20, 2, Bit(f.acknowledgeRequest));
    x := WithField(x, 0x20, 2, Bit(f.acknowledgeRequest));
    SetsField(x, 0x40, 2, Bit(SharesPan(f)));
    x := WithField(x, 0x40, 2, Bit(SharesPan(f)));
    SetsField(x, 0x80, 2, 0);
    x := WithField(x, 0x80, 2, 0);
    SetsField(x, 0x100, 2, Bit(f.sequenceNumber.None?));
    x := WithField(x, 0x100, 2, Bit(f.sequenceNumber.None?));
    SetsField(x, 0x200, 2, 0);
    x := WithField(x, 0x200, 2, 0);
    SetsField(x, 0x400, 4, ModeCode(ModeOf(f.destination)));
    x := WithField(x, 0x400, 4, ModeCode(ModeOf(f.destination)));
    SetsField(x, 0x4000, 4, ModeCode(ModeOf(f.source)));
    x := WithField(x, 0x4000, 4, ModeCode(ModeOf(f.source)));
    fc := x;
  }

  method BuildSuperframe(b: Beacon) returns (r: Result<u16, PackError>)
    ensures r == if BeaconInRange(b) then Ok(Superframe(b)) else Err(NotAllowed)
  {
    hide WithField;
    if b.beaconOrder > 0xF {
      return Err(NotAllowed);
    }
    SetsField(0, 1, 0x10, b.beaconOrder);
    var x: int := WithField(0, 1, 0x10, b.beaconOrder);
    if b.superframeOrder > 0xF {
      return Err(NotAllowed);
    }
    SetsField(x, 0x10, 0x10, b.superframeOrder);
    x := WithField(x, 0x10, 0x10, b.superframeOrder);
    if b.finalCapSlot > 0xF {
      return Err(NotAllowed);
    }
    SetsField(x, 0x100, 0x10, b.finalCapSlot);
    x := WithField(x, 0x100, 0x10, b.finalCapSlot);
    SetsField(x, 0x1000, 2, Bit(b.batteryLifeExtension));
    x := WithField(x, 0x1000, 2, Bit(b.batteryLifeExtension));
    SetsField(x, 0x2000, 2, 0);
    x := WithField(x, 0x2000, 2, 0);
    SetsField(x, 0x4000, 2, Bit(b.panCoordinator));
    x := WithField(x, 0x4000, 2, Bit(b.panCoordinator));
    SetsField(x, 0x8000, 2, Bit(b.associationPermit));
    x := WithField(x, 0x8000, 2, Bit(b.associationPermit));
    r := Ok(x);
  }

  // ----- Packing into a target

  function PackAddress(r: Result<Target, PackError>, a: Option<FullAddress>, omitPan: bool): Result<Target, PackError> {
    match a
    case None => r
    case Some(full) => Then(if omitPan then r else Then(r, Le(full.panId, 2)), AddressBytes(full.address))
  }

  function PackType(r: Result<Target, PackError>, t: FrameType): Result<Target, PackError> {
    match t
    case BeaconFrame(b) =>
      if r.Err? then r
      else if !BeaconInRange(b) then Err(NotAllowed)
      else Then(Then(Then(Then(r, Le(Superframe(b), 2)), [0]), [0]), b.payload)
    case CommandFrame(c) => Then(r, CommandBytes(c))
    case _ => Then(r, t.payload)
  }

  function Pack(f: Frame, t: Target): Result<Target, PackError> {
    var start := Then(Append(t, Le(Control(f), 2)), SequenceBytes(f.sequenceNumber));
    var addressed := PackAddress(PackAddress(start, f.destination, false), f.source, SharesPan(f));
    PackType(addressed, f.frameType)
  }

  predicate Fits(t: Target, n: nat) {
    t.size.Some? ==> |t.written| + n <= t.size.value
  }

  lemma ThenAppends(t: Target, a: seq<byte>, b: seq<byte>)
    ensures Then(Append(t, a), b) == Append(t, a + b)
  {
    assert t.written + a + b == t.written + (a + b);
  }

  lemma OnlyTooSmall(t: Target, data: seq<byte>)
    ensures Append(t, data).Err? <==> Append(t, data) == Err(NotEnoughSpace)
  {
  }

  lemma PackAddressAppends(t: Target, before: seq<byte>, a: Option<FullAddress>, omitPan: bool)
    ensures PackAddress(Append(t, before), a, omitPan) == Append(t, before + FullAddressBytes(a, omitPan))
  {
    hide Append, Then, AddressBytes, Le;
    match a
    case None => assert before + [] == before;
    case Some(full) =>
      var pan := if omitPan then [] else Le(full.panId, 2);
      if omitPan {
        assert before + pan == before;
      } else {
        ThenAppends(t, before, pan);
      }
      ThenAppends(t, before + pan, AddressBytes(full.address));
      assert before + pan + AddressBytes(full.address) == before + (pan + AddressBytes(full.address));
  }

  lemma PackTypeAppends(t: Target, before: seq<byte>, ft: FrameType)
    ensures TypeInRange(ft) ==> PackType(Append(t, before), ft) == Append(t, before + TypeBytes(ft))
    ensures !TypeInRange(ft) ==> PackType(Append(t, before), ft) == if Append(t, before).Ok? then Err(NotAllowed) else Err(NotEnoughSpace)
  {
    hide Append, Le, CommandBytes, Superframe;
    match ft
    case BeaconFrame(b) =>
      if BeaconInRange(b) {
        var ss := Le(Superframe(b), 2);
        ThenAppends(t, before, ss);
        ThenAppends(t, before + ss, [0]);
        ThenAppends(t, before + ss + [0], [0]);
        ThenAppends(t, before + ss + [0] + [0], b.payload);
        assert before + ss + [0] + [0] + b.payload == before + (ss + [0, 0] + b.payload);
      } else {
        OnlyTooSmall(t, before);
      }
    case CommandFrame(c) => ThenAppends(t, before, CommandBytes(c));
    case _ => ThenAppends(t, before, ft.payload);
  }

  /** Packing fails if and only if a beacon is out of range or the target is too small; otherwise it appends the canonical octets. */
  lemma PackOutcome(f: Frame, t: Target)
    ensures !TypeInRange(f.frameType) ==> Pack(f, t) == Err(if Fits(t, |HeaderBytes(f)|) then NotAllowed else NotEnoughSpace)
    ensures TypeInRange(f.frameType) ==>
              Pack(f, t) == if Fits(t, |Bytes(f)|) then Ok(t.(written := t.written + Bytes(f))) else Err(NotEnoughSpace)
  {
    var control, sequence := Le(Control(f), 2), SequenceBytes(f.sequenceNumber);
    hide Then, PackAddress, PackType, Control, SequenceBytes, FullAddressBytes, TypeBytes, TypeInRange;
    ThenAppends(t, control, sequence);
    PackAddressAppends(t, control + sequence, f.destination, false);
    PackAddressAppends(t, control + sequence + FullAddressBytes(f.destination, false), f.source, SharesPan(f));
    PackTypeAppends(t, HeaderBytes(f), f.frameType);
  }

  // ----- Unpacking what was packed

  /** Everything in the control field except compression, version and the reserved bit. */
  predicate ControlTells(fc: u16, f: Frame) {
    && Field(fc, 1, 8) == TypeTag(f.frameType) && Field(fc, 8, 2) == 0 && (Field(fc, 0x10, 2) != 0 <==> f.framePending)
    && (Field(fc, 0x20, 2) != 0 <==> f.acknowledgeRequest)
    && (Field(fc, 0x100, 2) == 0 <==> f.sequenceNumber.Some?) && Field(fc, 0x200, 2) == 0
    && Field(fc, 0x400, 4) == ModeCode(ModeOf(f.destination)) && Field(fc, 0x4000, 4) == ModeCode(ModeOf(f.source))
  }

  lemma LowQuotients(t: nat, p: nat, a: nat, c: nat, high: nat)
    requires t < 8 && p < 2 && a < 2 && c < 2 && high < 0x100
    ensures var x := t + 0x10 * p + 0x20 * a + 0x40 * c + 0x100 * high;
            && x % 8 == t && x / 8 % 2 == 0 && x / 0x10 % 2 == p && x / 0x20 % 2 == a && x / 0x40 % 2 == c
            && x / 0x80 % 2 == 0 && x / 0x100 == high
  {
    var x := t + 0x10 * p + 0x20 * a + 0x40 * c + 0x100 * high;
    var upper := c + 4 * high;
    assert x == t + 0x10 * p + 0x20 * a + 0x40 * upper;
    BitQuotients(t, p, a, upper);
    assert upper % 2 == c && upper / 2 == 2 * high && upper / 4 == high;
    assert x / 0x80 == upper / 2 && x / 0x100 == upper / 4;
  }

  lemma BitQuotients(t: nat, p: nat, a: nat, upper: nat)
    requires t < 8 && p < 2 && a < 2 && upper < 0x400
    ensures var x := t + 0x10 * p + 0x20 * a + 0x40 * upper;
            x % 8 == t && x / 8 % 2 == 0 && x / 0x10 % 2 == p && x / 0x20 % 2 == a && x / 0x40 == upper
  {
    var x := t + 0x10 * p + 0x20 * a + 0x40 * upper;
    assert x / 8 == 2 * (p + 2 * a + 4 * upper);
    assert x / 0x10 == p + 2 * (a + 2 * upper);
    assert x / 0x20 == a + 2 * upper;
  }

  lemma HighQuotients(n: nat, d: nat, s: nat)
    requires n < 2 && d < 4 && s < 4
    ensures var y := n + 4 * d + 0x40 * s;
            y % 2 == n && y / 2 % 2 == 0 && y / 4 % 4 == d && y / 0x10 % 4 == 0 && y / 0x40 % 4 == s
  {
    var y := n + 4 * d + 0x40 * s;
    assert y / 2 == 2 * (d + 0x10 * s);
    assert y / 4 == d + 4 * (4 * s);
    assert y / 0x10 == 4 * s;
  }

  lemma ControlQuotients(t: nat, p: nat, a: nat, c: nat, n: nat, d: nat, s: nat)
    requires t < 8 && p < 2 && a < 2 && c < 2 && n < 2 && d < 4 && s < 4
    ensures var fc := t + 0x10 * p + 0x20 * a + 0x40 * c + 0x100 * n + 0x400 * d + 0x4000 * s;
            && fc % 8 == t && fc / 8 % 2 == 0 && fc / 0x10 % 2 == p && fc / 0x20 % 2 == a && fc / 0x40 % 2 == c
            && fc / 0x80 % 2 == 0 && fc / 0x100 % 2 == n && fc / 0x200 % 2 == 0 && fc / 0x400 % 4 == d
            && fc / 0x1000 % 4 == 0 && fc / 0x4000 % 4 == s
  {
    var high := n + 4 * d + 0x40 * s;
    var fc := t + 0x10 * p + 0x20 * a + 0x40 * c + 0x100 * high;
    LowQuotients(t, p, a, c, high);
    HighQuotients(n, d, s);
    assert fc / 0x200 == high / 2 && fc / 0x400 == high / 4 && fc / 0x1000 == high / 0x10 && fc / 0x4000 == high / 0x40;
  }

  lemma ControlFields(f: Frame)
    ensures var fc := Control(f);
            && ControlTells(fc, f) && Field(fc, 0x80, 2) == 0 && Field(fc, 0x1000, 4) == 0
            && (Field(fc, 0x40, 2) != 0 <==> SharesPan(f))
  {
    hide TypeTag, ModeCode, ModeOf, SharesPan;
    ControlQuotients(TypeTag(f.frameType), Bit(f.framePending), Bit(f.acknowledgeRequest), Bit(SharesPan(f)),
                     Bit(f.sequenceNumber.None?), ModeCode(ModeOf(f.destination)), ModeCode(ModeOf(f.source)));
  }

  lemma SuperframeQuotients(b: nat, o: nat, f: nat, l: nat, r: nat, p: nat, a: nat)
    requires b < 0x10 && o < 0x10 && f < 0x10 && l < 2 && r < 2 && p < 2 && a < 2
    ensures var ss := b + 0x10 * o + 0x100 * f + 0x1000 * l + 0x2000 * r + 0x4000 * p + 0x8000 * a;
            && ss % 0x10 == b && ss / 0x10 % 0x10 == o && ss / 0x100 % 0x10 == f && ss / 0x1000 % 2 == l
            && ss / 0x2000 % 2 == r && ss / 0x4000 % 2 == p && ss / 0x8000 % 2 == a
  {
    var ss := b + 0x10 * o + 0x100 * f + 0x1000 * l + 0x2000 * r + 0x4000 * p + 0x8000 * a;
    assert ss / 0x10 == o + 0x10 * (f + 0x10 * l + 0x20 * r + 0x40 * p + 0x80 * a);
    assert ss / 0x100 == f + 0x10 * (l + 2 * r + 4 * p + 8 * a);
    assert ss / 0x1000 == l + 2 * (r + 2 * p + 4 * a);
    assert ss / 0x2000 == r + 2 * (p + 2 * a);
    assert ss / 0x4000 == p + 2 * a;
    assert ss / 0x8000 == a;
  }

  lemma SuperframeFields(b: Beacon)
    requires BeaconInRange(b)
    ensures BeaconOf(Superframe(b), b.payload) == b
  {
    SuperframeQuotients(b.beaconOrder, b.superframeOrder, b.finalCapSlot, Bit(b.batteryLifeExtension), 0,
                        Bit(b.panCoordinator), Bit(b.associationPermit));
  }

  lemma UnpacksAddress(a: Option<FullAddress>, previousPan: Option<u16>, rest: seq<byte>)
    requires a.Some? && previousPan.Some? ==> previousPan.value == a.value.panId
    ensures UnpackAddress(ModeOf(a), previousPan, FullAddressBytes(a, previousPan.Some?) + rest) == Ok((a, rest))
  {
    hide TakeLe, Le, Pow256;
    PowersOf256();
    match a
    case None => assert [] + rest == rest;
    case Some(full) =>
      var address := AddressBytes(full.address);
      var pan := if previousPan.Some? then [] else Le(full.panId, 2);
      assert FullAddressBytes(a, previousPan.Some?) + rest == pan + (address + rest);
      if previousPan.Some? {
        assert pan + (address + rest) == address + rest;
      } else {
        TakesLe(full.panId, 2, address + rest);
      }
      match full.address {
        case Short(x) => TakesLe(x, 2, rest);
        case Extended(x) => TakesLe(x, 8, rest);
      }
  }

  lemma UnpacksResponse(fast: bool, status: Result<u16, AssociationError>, rest: seq<byte>)
    ensures UnpackAssociationResponse(CommandBytes(AssociationResponse(fast, status))[1..] + rest) == Ok((AssociationResponse(fast, status), rest))
  {
    hide TakeLe, Le, Pow256;
    PowersOf256();
    var address: u16 := if status.Ok? then status.value else 0xFFFF;
    var code := (if status.Ok? then 0 else ErrorTag(status.error)) + if fast then 0x80 else 0;
    assert CommandBytes(AssociationResponse(fast, status))[1..] + rest == Le(address, 2) + ([code] + rest);
    TakesLe(address, 2, [code] + rest);
    assert ([code] + rest)[1..] == rest;
  }

  lemma UnpacksCommand(c: Command, rest: seq<byte>)
    requires !c.AssociationRequest?
    ensures UnpackCommand(CommandBytes(c) + rest) == Ok((c, rest))
  {
    hide UnpackAssociationResponse;
    var bytes := CommandBytes(c);
    assert (bytes + rest)[1..] == bytes[1..] + rest;
    match c
    case AssociationRequest(_) =>
    case AssociationResponse(fast, status) => UnpacksResponse(fast, status, rest);
    case DataRequestCommand => assert bytes[1..] + rest == rest;
    case BeaconRequestCommand => assert bytes[1..] + rest == rest;
  }

  /** Only commands can be followed by something else: a payload takes all there is. */
  lemma UnpacksType(t: FrameType, rest: seq<byte>)
    requires TypeInRange(t) && (t.CommandFrame? || rest == [])
    requires !(t.CommandFrame? && t.command.AssociationRequest?)
    ensures UnpackType(TypeTag(t), TypeBytes(t) + rest) == Ok((t, rest))
  {
    hide TakeLe, Le, Pow256, UnpackCommand, CommandBytes, Superframe, BeaconOf;
    PowersOf256();
    match t
    case BeaconFrame(b) =>
      var tail := [0, 0] + b.payload;
      assert TypeBytes(t) + rest == Le(Superframe(b), 2) + tail;
      TakesLe(Superframe(b), 2, tail);
      assert tail[2..] == b.payload;
      SuperframeFields(b);
    case CommandFrame(c) => UnpacksCommand(c, rest);
    case _ => assert TypeBytes(t) + rest == t.payload;
  }

  /** The header tells where the body starts and how to read it. */
  lemma UnpacksHeader(f: Frame, body: seq<byte>)
    ensures Unpack(HeaderBytes(f) + body) ==
              match UnpackType(TypeTag(f.frameType), body)
              case Err(e) => Err(e)
              case Ok((t, rest)) => Ok((f.(frameType := t), rest))
  {
    hide TakeLe, Le, Pow256, Control, Field, UnpackAddress, FullAddressBytes, UnpackType, TypeTag, ModeOf;
    PowersOf256();
    ControlFields(f);
    var sequence := SequenceBytes(f.sequenceNumber);
    var destination, source := FullAddressBytes(f.destination, false), FullAddressBytes(f.source, SharesPan(f));
    assert HeaderBytes(f) + body == Le(Control(f), 2) + (sequence + (destination + (source + body)));
    TakesLe(Control(f), 2, sequence + (destination + (source + body)));
    assert UnpackSequence(f.sequenceNumber.Some?, sequence + (destination + (source + body)))
           == Ok((f.sequenceNumber, destination + (source + body))) by {
      assert (sequence + (destination + (source + body)))[|sequence|..] == destination + (source + body);
    }
    UnpacksAddress(f.destination, None, source + body);
    UnpacksAddress(f.source, if SharesPan(f) then Some(f.destination.value.panId) else None, body);
    ModesRoundTrip(ModeOf(f.destination));
    ModesRoundTrip(ModeOf(f.source));
  }

  lemma ModesRoundTrip(mode: AddressingMode)
    ensures ModeOfCode(ModeCode(mode)) == mode
  {
  }

  predicate IsAssociationRequest(f: Frame) {
    f.frameType.CommandFrame? && f.frameType.command.AssociationRequest?
  }

  /** A command leaves alone what follows it; a payload takes all there is. */
  lemma UnpacksFrame(f: Frame, rest: seq<byte>)
    requires TypeInRange(f.frameType) && !IsAssociationRequest(f) && (f.frameType.CommandFrame? || rest == [])
    ensures Unpack(Bytes(f) + rest) == Ok((f, rest))
  {
    hide Unpack, HeaderBytes, UnpackType, TypeBytes;
    UnpacksHeader(f, TypeBytes(f.frameType) + rest);
    assert Bytes(f) + rest == HeaderBytes(f) + (TypeBytes(f.frameType) + rest);
    UnpacksType(f.frameType, rest);
  }

  /** Unpacking undoes packing, exactly for the frames other than association requests, whose capabilities are lost. */
  lemma UnpackUndoesPackIff(f: Frame)
    requires TypeInRange(f.frameType)
    ensures Unpack(Bytes(f)) == Ok((f, [])) <==> !IsAssociationRequest(f)
    ensures IsAssociationRequest(f) ==> Unpack(Bytes(f)) == Err(NotEnoughData)
  {
    hide Unpack, HeaderBytes;
    if IsAssociationRequest(f) {
      UnpacksHeader(f, TypeBytes(f.frameType));
      assert TypeBytes(f.frameType)[1..] == [];
    } else {
      hide TypeBytes;
      assert Bytes(f) + [] == Bytes(f);
      UnpacksFrame(f, []);
    }
  }

  // ----- Packing what was unpacked

  lemma AddressUnpacked(mode: AddressingMode, previousPan: Option<u16>, data: seq<byte>)
    requires UnpackAddress(mode, previousPan, data).Ok?
    ensures var (a, rest) := UnpackAddress(mode, previousPan, data).value;
            && mode == ModeOf(a) && (a.Some? && previousPan.Some? ==> a.value.panId == previousPan.value)
            && data == FullAddressBytes(a, previousPan.Some?) + rest
  {
    hide TakeLe, Le, Pow256;
    if mode != NoAddress {
      var (pan, afterPan) := UnpackPan(previousPan, data).value;
      var (address, rest) := UnpackAddressData(mode, afterPan).value;
      assert afterPan == AddressBytes(address) + rest;
      if previousPan.None? {
        assert data == Le(pan, 2) + AddressBytes(address) + rest;
      }
    }
  }

  lemma FieldsBounded(fc: nat)
    ensures Field(fc, 0x400, 4) < 4 && Field(fc, 0x4000, 4) < 4
  {
  }

  /** How the data of an unpacked frame was read: control field, whether the source had a PAN id, and body. */
  lemma HeaderUnpacked(data: seq<byte>) returns (fc: u16, omitPan: bool, body: seq<byte>)
    requires Unpack(data).Ok?
    ensures var (f, rest) := Unpack(data).value;
            && |data| >= 2 && fc == ControlOfData(data)
            && data == Le(fc, 2) + SequenceBytes(f.sequenceNumber) + FullAddressBytes(f.destination, false)
                       + FullAddressBytes(f.source, omitPan) + body
            && ControlTells(fc, f) && omitPan == (Field(fc, 0x40, 2) != 0 && f.destination.Some?)
            && (omitPan && f.source.Some? ==> SharesPan(f))
            && UnpackType(TypeTag(f.frameType), body) == Ok((f.frameType, rest))
  {
    hide TakeLe, Le, Pow256, Field, UnpackAddress, FullAddressBytes, ModeOf;
    PowersOf256();
    var (f, rest) := Unpack(data).value;
    var afterControl;
    fc, afterControl := TakeLe(2, data).value.0, TakeLe(2, data).value.1;
    body := UnpackAddressing(fc, afterControl).value.1;
    var (sequence, afterSequence) := UnpackSequence(Field(fc, 0x100, 2) == 0, afterControl).value;
    assert afterControl == SequenceBytes(sequence) + afterSequence;
    AddressUnpacked(ModeOfCode(Field(fc, 0x400, 4)), None, afterSequence);
    var (destination, afterDestination) := UnpackAddress(ModeOfCode(Field(fc, 0x400, 4)), None, afterSequence).value;
    omitPan := Field(fc, 0x40, 2) != 0 && destination.Some?;
    AddressUnpacked(ModeOfCode(Field(fc, 0x4000, 4)), if omitPan then Some(destination.value.panId) else None, afterDestination);
    TypeUnpacked(Field(fc, 1, 8), body);
    FieldsBounded(fc);
  }

  function ControlOfData(data: seq<byte>): u16
    requires |data| >= 2
  {
    PowersOf256();
    TakeLe(2, data).value.0
  }

  /** Reserved bits are zero, and an association that failed comes with the invalid address. */
  predicate CanonicalBody(t: FrameType, body: seq<byte>) {
    && (t.BeaconFrame? ==> |body| >= 2 && Field(body[1], 0x20, 2) == 0)
    && (t.CommandFrame? && t.command.AssociationResponse? && t.command.status.Err? ==> |body| >= 3 && body[1] == body[2] == 0xFF)
  }

  lemma LeOfTwo(x: u16)
    ensures Le(x, 2) == [x % 0x100, x / 0x100]
  {
    assert Le(x / 0x100, 1) == [x / 0x100];
  }

  lemma ResponseUnpacked(data: seq<byte>)
    requires UnpackAssociationResponse(data).Ok?
    ensures var (c, rest) := UnpackAssociationResponse(data).value;
            && c.AssociationResponse? && |data| == 3 + |rest|
            && (c.status.Err? && !(data[0] == data[1] == 0xFF) <==> data != CommandBytes(c)[1..] + rest)
  {
    hide TakeLe, Le, Pow256;
    PowersOf256();
    var (c, rest) := UnpackAssociationResponse(data).value;
    var (address, afterAddress) := TakeLe(2, data).value;
    LeOfTwo(address);
    LeOfTwo(0xFFFF);
    if c.status.Ok? {
      LeOfTwo(c.status.value);
    }
    assert CommandBytes(c)[1..] + rest == Le(if c.status.Ok? then c.status.value else 0xFFFF, 2) + afterAddress;
    assert data[..2] == Le(address, 2) && data[2..] == afterAddress;
  }

  lemma BeaconUnpacked(data: seq<byte>)
    requires UnpackBeacon(data).Ok?
    ensures var (b, rest) := UnpackBeacon(data).value;
            && rest == [] && BeaconInRange(b) && |data| == |BeaconBytes(b)| >= 2
            && (data == BeaconBytes(b) <==> Field(data[1], 0x20, 2) == 0)
  {
    hide TakeLe, Le, Pow256, BeaconOf, Superframe;
    PowersOf256();
    var (b, _) := UnpackBeacon(data).value;
    var (ss, tail) := TakeLe(2, data).value;
    LeOfTwo(ss);
    assert data[1] == ss / 0x100;
    SuperframeUnpacked(ss, tail[2..]);
    assert tail == [0, 0] + b.payload;
    assert BeaconBytes(b) == Le(Superframe(b), 2) + tail;
    if data == BeaconBytes(b) {
      assert data[..2] == Le(ss, 2) == Le(Superframe(b), 2);
      LeInjective(ss, Superframe(b), 2);
    }
  }

  lemma SplitLowNibbles(x: nat)
    ensures x == x % 0x10 + 0x10 * (x / 0x10 % 0x10) + 0x100 * (x / 0x100 % 0x10) + 0x1000 * (x / 0x1000)
  {
    assert x / 0x10 == 0x10 * (x / 0x100) + x / 0x10 % 0x10;
    assert x / 0x100 == 0x10 * (x / 0x1000) + x / 0x100 % 0x10;
  }

  lemma SplitSuperframe(ss: u16)
    ensures ss == ss % 0x10 + 0x10 * (ss / 0x10 % 0x10) + 0x100 * (ss / 0x100 % 0x10) + 0x1000 * (ss / 0x1000 % 2)
               + 0x2000 * (ss / 0x2000 % 2) + 0x4000 * (ss / 0x4000 % 2) + 0x8000 * (ss / 0x8000 % 2)
  {
    var high := ss / 0x1000;
    SplitLowNibbles(ss);
    assert high / 2 == ss / 0x2000 && high / 4 == ss / 0x4000 && high / 8 == ss / 0x8000;
    SplitNibble(high);
  }

  lemma SplitNibble(x: nat)
    requires x < 0x10
    ensures x == x % 2 + 2 * (x / 2 % 2) + 4 * (x / 4 % 2) + 8 * (x / 8 % 2)
  {
  }

  lemma SuperframeUnpacked(ss: u16, payload: seq<byte>)
    ensures var b := BeaconOf(ss, payload);
            BeaconInRange(b) && b.payload == payload && (Superframe(b) == ss <==> Field(ss / 0x100, 0x20, 2) == 0)
  {
    SplitSuperframe(ss);
    assert ss / 0x100 / 0x20 == ss / 0x2000;
  }

  lemma TypeUnpacked(tag: nat, body: seq<byte>)
    requires UnpackType(tag, body).Ok?
    ensures var (t, rest) := UnpackType(tag, body).value;
            && TypeTag(t) == tag && TypeInRange(t) && (t.CommandFrame? || rest == [])
            && (!(t.CommandFrame? && t.command.AssociationRequest?) ==>
                  && |body| == |TypeBytes(t)| + |rest|
                  && (body == TypeBytes(t) + rest <==> CanonicalBody(t, body)))
  {
    hide UnpackBeacon, UnpackAssociationResponse, BeaconBytes, Le, Field;
    var (t, rest) := UnpackType(tag, body).value;
    if tag == 0 {
      BeaconUnpacked(body);
      assert TypeBytes(t) + rest == TypeBytes(t);
    } else if tag == 3 && body[0] == 0x02 {
      ResponseUnpacked(body[1..]);
      assert body == [0x02] + body[1..];
      assert CommandBytes(t.command) + rest == [0x02] + (CommandBytes(t.command)[1..] + rest);
    } else if tag == 3 && body[0] != 0x01 {
      assert body == [body[0]] + rest;
    } else if tag != 3 {
      assert TypeBytes(t) + rest == body;
    }
  }

  // ----- Repacking

  lemma ControlFromFields(fc: u16, f: Frame)
    requires ControlTells(fc, f)
    ensures fc == Control(f) <==> Field(fc, 0x80, 2) == 0 && Field(fc, 0x1000, 4) == 0 && (Field(fc, 0x40, 2) != 0 <==> SharesPan(f))
  {
    ControlFields(f);
    hide TypeTag, ModeCode, ModeOf, SharesPan;
    SplitControl(fc);
  }

  lemma SplitControl(fc: u16)
    ensures fc == fc % 8 + 8 * (fc / 8 % 2) + 0x10 * (fc / 0x10 % 2) + 0x20 * (fc / 0x20 % 2) + 0x40 * (fc / 0x40 % 2)
               + 0x80 * (fc / 0x80 % 2) + 0x100 * (fc / 0x100 % 2) + 0x200 * (fc / 0x200 % 2) + 0x400 * (fc / 0x400 % 4)
               + 0x1000 * (fc / 0x1000 % 4) + 0x4000 * (fc / 0x4000 % 4)
  {
    var high := fc / 0x100;
    assert high / 2 == fc / 0x200 && high / 4 == fc / 0x400 && high / 0x10 == fc / 0x1000 && high / 0x40 == fc / 0x4000;
    SplitHigh(high);
    SplitLow(fc);
  }

  lemma SplitLow(x: nat)
    ensures x == x % 8 + 8 * (x / 8 % 2) + 0x10 * (x / 0x10 % 2) + 0x20 * (x / 0x20 % 2) + 0x40 * (x / 0x40 % 2)
              + 0x80 * (x / 0x80 % 2) + 0x100 * (x / 0x100)
  {
    var y := x / 0x20;
    assert y / 2 == x / 0x40 && y / 4 == x / 0x80 && y / 8 == x / 0x100;
    SplitUpper(y);
    SplitLower(x);
  }

  lemma SplitLower(x: nat)
    ensures x == x % 8 + 8 * (x / 8 % 2) + 0x10 * (x / 0x10 % 2) + 0x20 * (x / 0x20)
  {
    assert x / 8 == 2 * (x / 0x10) + x / 8 % 2;
    assert x / 0x10 == 2 * (x / 0x20) + x / 0x10 % 2;
  }

  lemma SplitUpper(y: nat)
    ensures y == y % 2 + 2 * (y / 2 % 2) + 4 * (y / 4 % 2) + 8 * (y / 8)
  {
    assert y / 2 == 2 * (y / 4) + y / 2 % 2;
    assert y / 4 == 2 * (y / 8) + y / 4 % 2;
  }

  lemma SplitHigh(x: nat)
    requires x < 0x100
    ensures x == x % 2 + 2 * (x / 2 % 2) + 4 * (x / 4 % 4) + 0x10 * (x / 0x10 % 4) + 0x40 * (x / 0x40 % 4)
  {
    assert x / 2 == 2 * (x / 4) + x / 2 % 2;
    assert x / 4 == 4 * (x / 0x10) + x / 4 % 4;
    assert x / 0x10 == 4 * (x / 0x40) + x / 0x10 % 4;
  }

  /**
   * Data is canonical when its reserved bits and version are zero, PAN ids are compressed whenever
   * they can be, and its body is canonical.
   */
  predicate Canonical(data: seq<byte>, f: Frame, body: seq<byte>)
    requires |data| >= 2
  {
    var fc := ControlOfData(data);
    && Field(fc, 0x80, 2) == 0 && Field(fc, 0x1000, 4) == 0 && (Field(fc, 0x40, 2) != 0 <==> SharesPan(f))
    && CanonicalBody(f.frameType, body)
  }

  /** The packed and the original octets, part by part. */
  lemma RepackedParts(f: Frame, rest: seq<byte>, fc: u16, omitPan: bool, body: seq<byte>)
    requires TypeInRange(f.frameType) && |body| == |TypeBytes(f.frameType)| + |rest|
    requires omitPan && f.source.Some? ==> SharesPan(f)
    requires omitPan == (Field(fc, 0x40, 2) != 0 && f.destination.Some?) && ControlTells(fc, f)
    ensures var data := Le(fc, 2) + SequenceBytes(f.sequenceNumber) + FullAddressBytes(f.destination, false)
                        + FullAddressBytes(f.source, omitPan) + body;
            && |Bytes(f)| + |rest| <= |data|
            && (Bytes(f) + rest == data <==> fc == Control(f) && body == TypeBytes(f.frameType) + rest)
  {
    hide Control, ControlTells, TypeBytes, FullAddressBytes, SequenceBytes, Le, Field, TypeInRange, SharesPan;
    ControlFromFields(fc, f);
    SourceShrinks(f, Field(fc, 0x40, 2) != 0, omitPan);
    var sequence, destination := SequenceBytes(f.sequenceNumber), FullAddressBytes(f.destination, false);
    var before, after := FullAddressBytes(f.source, omitPan), FullAddressBytes(f.source, SharesPan(f));
    Regroup(Le(fc, 2), sequence, destination, before, body);
    Regroup(Le(Control(f), 2), sequence, destination, after, TypeBytes(f.frameType) + rest);
    assert Bytes(f) + rest == Le(Control(f), 2) + sequence + destination + after + (TypeBytes(f.frameType) + rest);
    SameParts(fc, Control(f), sequence + destination, before, after, body, TypeBytes(f.frameType) + rest);
  }

  lemma Regroup(a: seq<byte>, b: seq<byte>, c: seq<byte>, d: seq<byte>, body: seq<byte>)
    ensures a + b + c + d + body == a + (b + c + (d + body))
  {
  }

  /**
   * What was unpacked is packed to octets that unpack to the same frame and are never longer; they
   * are the original octets exactly if those were canonical.
   */
  lemma RepackingIsCanonical(data: seq<byte>)
    requires Unpack(data).Ok? && !IsAssociationRequest(Unpack(data).value.0)
    ensures var (f, rest) := Unpack(data).value;
            && TypeInRange(f.frameType) && Unpack(Bytes(f) + rest) == Ok((f, rest)) && Unpack(Bytes(f)) == Ok((f, []))
            && |Bytes(f)| + |rest| <= |data|
            && (Bytes(f) + rest == data <==> Canonical(data, f, data[|data| - |rest| - |TypeBytes(f.frameType)|..]))
  {
    var (f, rest) := Unpack(data).value;
    var fc, omitPan, body := HeaderUnpacked(data);
    TypeUnpacked(TypeTag(f.frameType), body);
    hide Unpack, Bytes, Control, ControlTells, CanonicalBody, TypeBytes, FullAddressBytes, SequenceBytes, ControlOfData;
    hide Le, Field, UnpackType, TypeTag, TypeInRange, SharesPan;
    RepackedParts(f, rest, fc, omitPan, body);
    ControlFromFields(fc, f);
    assert body == data[|data| - |body|..];
    UnpackUndoesPackIff(f);
    UnpacksFrame(f, rest);
  }

  lemma SourceShrinks(f: Frame, compressed: bool, omitPan: bool)
    requires omitPan == (compressed && f.destination.Some?)
    requires omitPan && f.source.Some? ==> SharesPan(f)
    ensures |FullAddressBytes(f.source, SharesPan(f))| <= |FullAddressBytes(f.source, omitPan)|
    ensures compressed == SharesPan(f) ==> FullAddressBytes(f.source, SharesPan(f)) == FullAddressBytes(f.source, omitPan)
  {
  }

  lemma SameParts(fc: u16, gc: u16, shared: seq<byte>, s: seq<byte>, t: seq<byte>, x: seq<byte>, y: seq<byte>)
    requires fc == gc ==> s == t
    ensures Le(fc, 2) + (shared + (s + x)) == Le(gc, 2) + (shared + (t + y)) <==> fc == gc && x == y
  {
    hide Le;
    var a, b := Le(fc, 2) + (shared + (s + x)), Le(gc, 2) + (shared + (t + y));
    if a == b {
      assert a[..2] == Le(fc, 2) && b[..2] == Le(gc, 2);
      PowersOf256();
      LeInjective(fc, gc, 2);
      var k := 2 + |shared| + |s|;
      assert a[k..] == x && b[k..] == y;
    }
  }
}
