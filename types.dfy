/*
 * The driver's public types (n24cxx.h): the status bitmask, the chip-type
 * enum, the device-address enum and the device handle.
 */
module N24CxxTypes {
  import opened N24CxxDefs

  /** n24cxx_status_t: a uint32_t that carries an n24cxx_status_e value or an OR of several. */
  type Status = bv32

  /** The generic error bit that every error status carries. */
  const ErrorBit: Status := 0x02

  /** The bits above the generic error bit that name a specific error kind. */
  const KindBits: Status := 0xF8

  /** n24cxx_status_e. */
  datatype StatusE =
    | Undefined
    | Error
    | Ok
    | ErrorNullPtr
    | ErrorInvalidLength
    | ErrorComms
    | DeviceNotFound
    | FunctionNotImpl
  {
    /** The enum constant. */
    function Code(): (code: Status) {
      match this
      case Undefined => 0
      case Error => 0x02
      case Ok => 0x04
      case ErrorNullPtr => 0x0A
      case ErrorInvalidLength => 0x12
      case ErrorComms => 0x22
      case DeviceNotFound => 0x42
      case FunctionNotImpl => 0x82
    }

    /** One of the six statuses that report a failure. */
    predicate IsError() {
      !Undefined? && !Ok?
    }

    /** One of the five errors that also name a kind of failure. */
    predicate IsSpecificError() {
      IsError() && !Error?
    }
  }

  /** Eight distinct codes, all within one byte; 0 is "undefined". */
  lemma CodesDistinctAndByteSized(e: StatusE, f: StatusE)
    ensures e.Code() < 0x100
    ensures e.Code() == f.Code() <==> e == f
    ensures e.Code() == 0 <==> e == Undefined
  {
  }

  /** Every error status has the generic error bit; ok and undefined do not. */
  lemma ErrorBitMarksErrors(e: StatusE)
    ensures e.Code() & ErrorBit != 0 <==> e.IsError()
  {
  }

  /** A specific error is the generic error bit plus one bit of its own among bits 3..7,
      and no other status has that bit. */
  lemma SpecificErrorHasOwnBit(e: StatusE, f: StatusE)
    requires e.IsSpecificError()
    ensures e.Code() == ErrorBit | (e.Code() & KindBits)
    ensures e.Code() & KindBits in {0x08, 0x10, 0x20, 0x40, 0x80}
    ensures f.Code() & (e.Code() & KindBits) != 0 <==> f == e
  {
  }

  /** n24cxx_type_e: the four chip types. */
  datatype ChipType = N24C02 | N24C04 | N24C08 | N24C16 {
    /** The enum constant: the chip's capacity in bits (N24C02 holds 2 Kb). */
    function Value(): (v: nat) {
      match this
      case N24C02 => 2048
      case N24C04 => 4096
      case N24C08 => 8192
      case N24C16 => 16384
    }
  }

  /** Each chip type doubles the previous one, and the smallest is the whole
      8-bit address space: 256 bytes of 8 bits. */
  lemma ChipTypesDouble()
    ensures N24C02.Value() == 8 * AddressSpace
    ensures N24C04.Value() == 2 * N24C02.Value()
    ensures N24C08.Value() == 2 * N24C04.Value()
    ensures N24C16.Value() == 2 * N24C08.Value()
  {
  }

  /** n24cxx_address_e: the eight strapping options. */
  datatype DeviceAddress = Address0 | Address1 | Address2 | Address3 | Address4 | Address5 | Address6 | Address7 {
    /** The position of this option in the enum. */
    function Index(): (i: nat) {
      match this
      case Address0 => 0
      case Address1 => 1
      case Address2 => 2
      case Address3 => 3
      case Address4 => 4
      case Address5 => 5
      case Address6 => 6
      case Address7 => 7
    }

    /** The enum constant: the matching N24Cxx_ADDRESS_7_BITS_k. */
    function Value(): (v: nat) {
      match this
      case Address0 => Address7Bits0
      case Address1 => Address7Bits1
      case Address2 => Address7Bits2
      case Address3 => Address7Bits3
      case Address4 => Address7Bits4
      case Address5 => Address7Bits5
      case Address6 => Address7Bits6
      case Address7 => Address7Bits7
    }
  }

  /** Option k carries the k-th bus address, so the eight options carry eight distinct 7-bit addresses. */
  lemma DeviceAddressesMatchBusAddresses(d: DeviceAddress, e: DeviceAddress)
    ensures d.Index() < |BusAddresses| && d.Value() == BusAddresses[d.Index()]
    ensures d.Value() < 0x80
    ensures d.Value() == e.Value() <==> d == e
  {
  }

  /** n24cxx_series_t: the device handle. The opaque platform context is left out. */
  datatype Series = Series(chipType: ChipType, address: DeviceAddress)
}
