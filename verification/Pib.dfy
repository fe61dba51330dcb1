/** The attributes of the PAN information base that the services read and write: `src/ieee802154/pib.rs`. */
module Pibs {
  import opened Prelude
  import opened Addresses

  datatype Pib = Pib(
    macExtendedAddress: u64, macShortAddress: u16, macPanId: u16, macDsn: byte, macBsn: byte,
    macMaxFrameRetries: u16, macAssociatedPanCoord: Option<(u64, u16)>, macAssociationPermit: bool,
    macBeaconPayload: seq<byte>, macBeaconAutoRespond: bool, phyCurrentChannel: u16, phyTxPower: u16)

  const NONE_ASSIGNED: u16 := 0xFFFE

  function FullShortAddress(pib: Pib): FullAddress {
    FullAddress(pib.macPanId,
      if pib.macShortAddress != NONE_ASSIGNED then Short(pib.macShortAddress) else Extended(pib.macExtendedAddress))
  }

  function FullExtendedAddress(pib: Pib): FullAddress {
    FullAddress(pib.macPanId, Extended(pib.macExtendedAddress))
  }

  /** `wrapping_add(1)` */
  function NextSequenceNumber(n: byte): byte {
    (n + 1) % 0x100
  }
}
