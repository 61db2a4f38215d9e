/*
 * Register-map constants of the ON Semiconductor N24C02/04/08/16 I2C EEPROM
 * driver: the strapping bus addresses, the page geometry, the write-cycle
 * time and the 8-bit EEPROM word-address type (n24cxx-defs.h).
 */
module N24CxxDefs {

  /** 7-bit I2C bus addresses for the eight strapping configurations.
      The eighth is 0x58, not 0x57. */
  const Address7Bits0: nat := 0x50
  const Address7Bits1: nat := 0x51
  const Address7Bits2: nat := 0x52
  const Address7Bits3: nat := 0x53
  const Address7Bits4: nat := 0x54
  const Address7Bits5: nat := 0x55
  const Address7Bits6: nat := 0x56
  const Address7Bits7: nat := 0x58

  /** The eight bus addresses in strapping order. */
  const BusAddresses: seq<nat> := [Address7Bits0, Address7Bits1, Address7Bits2, Address7Bits3,
                                   Address7Bits4, Address7Bits5, Address7Bits6, Address7Bits7]

  /** Bytes in one EEPROM page: the largest transfer a transport call is given. */
  const PageSize: nat := 16

  /** Write-cycle settle time, in milliseconds, after every page write. */
  const WriteTimeMs: nat := 4

  /** Number of distinct EEPROM word addresses an 8-bit address can name. */
  const AddressSpace: nat := 256

  /** N24Cxx_addr: the EEPROM word address is a uint8_t. */
  newtype Addr = x: int | 0 <= x < 256

  /** A uint8_t data byte. */
  newtype Byte = x: int | 0 <= x < 256

  /** The bus addresses are eight distinct 7-bit values, 0x50..0x56 and 0x58. */
  lemma BusAddressesAreDistinct7Bit()
    ensures |BusAddresses| == 8
    ensures forall i :: 0 <= i < |BusAddresses| ==> BusAddresses[i] < 0x80
    ensures forall i, j :: 0 <= i < j < |BusAddresses| ==> BusAddresses[i] != BusAddresses[j]
    ensures forall i :: 0 <= i < 7 ==> BusAddresses[i] == 0x50 + i
    ensures BusAddresses[7] == 0x58 && 0x57 !in BusAddresses
  {
  }

  /** The page size is positive and the 8-bit address space is exactly 16 pages of 16 bytes. */
  lemma AddressSpaceIsSixteenPages(a: Addr)
    ensures 0 < PageSize
    ensures AddressSpace == 16 * PageSize
    ensures 0 <= a as int < AddressSpace
  {
  }
}
