/** MAC frames as values: `src/ieee802154/frame.rs`. */
module Frames {
  import opened Prelude
  import opened Addresses

  datatype AddressingMode = NoAddress | ReservedMode | ShortMode | ExtendedMode

  datatype Frame = Frame(
    framePending: bool, acknowledgeRequest: bool, sequenceNumber: Option<byte>,
    destination: Destination, source: Option<FullAddress>, frameType: FrameType)

  datatype FrameType =
    | BeaconFrame(beacon: Beacon)
    | Data(payload: seq<byte>)
    | Ack(payload: seq<byte>)
    | CommandFrame(command: Command)
    | Reserved(payload: seq<byte>)
    | Multipurpose(payload: seq<byte>)
    | Fragment(payload: seq<byte>)
    | ExtendedFrame(payload: seq<byte>)

  datatype Beacon = Beacon(
    beaconOrder: nat, superframeOrder: nat, finalCapSlot: nat, batteryLifeExtension: bool,
    panCoordinator: bool, associationPermit: bool, payload: seq<byte>)

  datatype Command =
    | AssociationRequest(capabilities: CapabilityInformation)
    | AssociationResponse(fastAssociation: bool, status: Result<u16, AssociationError>)
    | DataRequestCommand
    | BeaconRequestCommand

  datatype CapabilityInformation = CapabilityInformation(
    fullFunctionDevice: bool, mainsPowered: bool, receiverOnWhenIdle: bool,
    fastAssociation: bool, securityCapable: bool, allocateAddress: bool)

  datatype AssociationError = PanAtCapacity | PanAccessDenied | HoppingSequenceOffset
}
