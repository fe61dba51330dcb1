/** Device addresses of IEEE Std 802.15.4-2015, as in `src/ieee802154/frame.rs`. */
module Addresses {
  import opened Prelude

  datatype Address = Short(short: u16) | Extended(extended: u64)

  datatype FullAddress = FullAddress(panId: u16, address: Address)

  /** A destination; `None` stands for frames without one. */
  type Destination = Option<FullAddress>
}
