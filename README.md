# N24Cxx EEPROM driver: paged transfer engine

A Dafny model of the C driver for the ON Semiconductor N24C02/04/08/16 I²C serial EEPROMs.
The driver has five operations. `n24cxx_write` and `n24cxx_read` move one byte.
`n24cxx_write_block` and `n24cxx_read_block` move `length` bytes as a series of transport calls of
at most one 16-byte page. `n24cxx_get_size` returns the chip type's enum value. The bus I/O and the
millisecond delay are platform hooks. The library links weak defaults for them: the transport calls
report "function not implemented" and the delay does nothing.

## Modules

- `defs.dfy`, module `N24CxxDefs` (`n24cxx-defs.h`): the eight 7-bit bus addresses, the 16-byte
  page, the 4 ms write time, and the 8-bit word-address type `Addr`.
- `types.dfy`, module `N24CxxTypes` (`n24cxx.h`): the status bitmask (`Status` is a `bv32`, like
  `uint32_t n24cxx_status_t`; `StatusE.Code()` gives the enum constants), the chip types, the
  device-address enum and the device handle `Series`.
- `aggregate.dfy`, module `StatusAggregate`: `Aggregate` is the block operations' status. It
  starts at `n24cxx_status_undefined`, and each chunk's status is OR-ed into it.
- `chunking.dfy`, module `Chunking`: `Plan(address, length)` is the list of transport calls a block
  operation makes, in closed form. `Span(length)` is the final value of `pos`.
- `platform.dfy`, module `Platform`: class `Platform` stands for the linked hooks. With `linked`
  false it behaves as the weak defaults. With `linked` true it is an in-memory 256-byte EEPROM
  whose reported status is the parameter `reply`. Every hook call is appended to `log`.
- `driver.dfy`, module `N24Cxx`: the five operations. `WriteBlock` and `ReadBlock` keep the
  source's `for` loop over `pos` and `write_size`. Each is proved against the plan: the log it
  leaves, the memory or buffer it changes, and the OR of the statuses.

## The chunk size

At `src/n24cxx.c:53` (and `:91`) the chunk-size test compares the whole `length`, not the remaining
byte count, with the page size. So a transfer of more than 16 bytes is made only of 16-byte calls,
the last one included. That last call reads (write) or fills (read) `Span(length) - length` bytes
past the caller's data; this is fewer than 16, and zero only when `length` is a multiple of 16.
The model keeps this behaviour as written.
`WriteBlock` and `ReadBlock` require a buffer of `Span(length)` bytes: with a linked transport that
touches every byte of each call, this is the smallest buffer for which the C code is defined. `Chunking.Overrun` and `Chunking.TwentyBytesAtTen` state the consequence. Chunks are
not aligned to page boundaries either. For example, 20 bytes at address 10 become two 16-byte calls,
at addresses 10 and 26.

The chip-type enum values 2048…16384 are capacities in bits (the N24C02 holds 2 Kb = 256 bytes,
the whole 8-bit address space). They are bit counts, not byte counts. `GetSize` returns the
enum value, as the code does.

## Model

| member | source | states |
|---|---|---|
| `N24CxxDefs.BusAddressesAreDistinct7Bit` | src/n24cxx-defs.h:35-42 | the eight bus addresses are distinct 7-bit values 0x50..0x56 and 0x58; 0x57 is not one of them |
| `N24CxxDefs.AddressSpaceIsSixteenPages` | src/n24cxx-defs.h:45-49 | the page size is positive, and the 8-bit address range is exactly 16 pages of 16 bytes |
| `N24CxxTypes.CodesDistinctAndByteSized` | src/n24cxx.h:53-66 | the eight status codes are distinct and fit in 8 bits; only `undefined` is 0 |
| `N24CxxTypes.ErrorBitMarksErrors` | src/n24cxx.h:55-62 | bit 0b10 is set exactly in the six error statuses, not in ok or undefined |
| `N24CxxTypes.SpecificErrorHasOwnBit` | src/n24cxx.h:58-62 | each specific error is 0b10 plus one bit of its own among bits 3..7, and no other status has that bit |
| `N24CxxTypes.ChipTypesDouble` | src/n24cxx.h:37-44 | each chip type's value doubles the previous one; N24C02's is 8 × 256 |
| `N24CxxTypes.DeviceAddressesMatchBusAddresses` | src/n24cxx.h:25-35 | address option k is the k-th bus-address constant; the eight options are distinct 7-bit addresses |
| `StatusAggregate.AggregateHasBit` | src/n24cxx.c:49-57 | a bit is set in the OR of the chunk statuses if and only if some chunk's status has it |
| `StatusAggregate.AggregateKeepsEveryChunk` | src/n24cxx.c:57 | every chunk's status bits survive in the aggregate |
| `StatusAggregate.ErrorBitIffSomeChunk` | src/n24cxx.c:87-95 | the aggregate has the generic error bit if and only if some chunk reported it |
| `StatusAggregate.AggregateOfUniform` | src/n24cxx.c:49-60 | with no chunk the result is undefined (0); when every chunk reports the same status, so does the aggregate |
| `StatusAggregate.AllOkIsOk` | src/n24cxx.c:57 | if all chunks report ok, the result is exactly ok |
| `StatusAggregate.RecoverErrorKinds` | src/n24cxx.h:58-62 | from an aggregate of enum statuses, each specific error kind's bit is set if and only if that kind occurred |
| `StatusAggregate.ChunkOfFailureIsLost` | src/n24cxx.c:95 | a failure on the first chunk and one on the second give the same aggregate, which carries both ok and error bits |
| `Chunking.Plan` | src/n24cxx.c:50-57 | the plan has ceil(length/16) calls, each of 1..16 bytes, all within the first Span(length) buffer bytes |
| `Chunking.ProgressStep` | src/n24cxx.c:50-56 | iteration k starts at pos = 16k < length and advances pos by the chunk size without passing the final position |
| `Chunking.ProgressBelowLength` | src/n24cxx.c:50 | the loop test `pos < length` holds after k iterations exactly while calls remain |
| `Chunking.EmptyPlan` | src/n24cxx.c:49-50 | length 0 gives no transport call and a final pos of 0 |
| `Chunking.SingleChunk` | src/n24cxx.c:52-57 | 1..16 bytes give exactly one call of `length` bytes at `address`, from buffer offset 0 |
| `Chunking.MultiChunk` | src/n24cxx.c:50-56 | over 16 bytes: ceil(length/16) calls, the k-th of 16 bytes at offset 16k and address (address + 16k) mod 256, the last included; the final pos is 16·ceil(length/16) |
| `Chunking.PlanTiles` | src/n24cxx.c:50-57 | each call starts where the previous ended, holds 1..16 bytes, and the last ends at Span(length) |
| `Chunking.Overrun` | src/n24cxx.c:52-56 | length ≤ Span(length) < length + 16; the calls cover more than `length` bytes if and only if length > 16 and is not a multiple of 16, by (16 − length mod 16) mod 16 bytes |
| `Chunking.TwentyBytesAtTen` | src/n24cxx.c:50-57 | 20 bytes at address 10 become two 16-byte calls, at addresses 10 and 26 |
| `Platform.Platform.WriteImpl` | src/n24cxx.c:116-119 | the weak default reports function-not-implemented and changes nothing; a linked transport stores the bytes and reports `reply`; the call is logged |
| `Platform.Platform.ReadImpl` | src/n24cxx.c:111-114 | the weak default reports function-not-implemented and leaves the buffer alone; a linked transport fills the buffer from memory; the call is logged |
| `Platform.Platform.DelayMs` | src/n24cxx.c:121-124 | the delay changes nothing but is logged |
| `N24Cxx.Write` | src/n24cxx.c:31-36 | one 1-byte write at `address`, then one WriteTimeMs delay whatever the write reported; returns that write's status unchanged |
| `N24Cxx.WriteBlock` | src/n24cxx.c:47-61 | the log gains the plan's write calls, each followed by a delay; a linked EEPROM holds the plan's stores; the result is the OR of the calls' statuses |
| `N24Cxx.Read` | src/n24cxx.c:71-74 | one 1-byte read at `address` into value[0] and no delay; returns that read's status |
| `N24Cxx.ReadBlock` | src/n24cxx.c:85-98 | the log gains the plan's read calls and no delay; the buffer holds the plan's reads; the result is the OR of the calls' statuses |
| `N24Cxx.GetSize` | src/n24cxx.c:106-109 | returns the chip type's enum value, one of 2048, 4096, 8192, 16384 |
| `N24Cxx.WriteTraceShape` | src/n24cxx.c:50-59 | a block write's log alternates call i of the plan with a WriteTimeMs delay |
| `N24Cxx.ReadTraceShape` | src/n24cxx.c:88-96 | a block read's log is exactly the plan's read calls, in order |
| `N24Cxx.DelaysMatchCalls` | src/n24cxx.c:57-58 | a block write makes as many delays as calls, one per chunk; a block read makes none |
| `N24Cxx.WeakDefaultsReport` | src/n24cxx.c:111-119 | with the weak defaults, any length > 0 returns exactly function-not-implemented, and length 0 returns undefined |
| `N24Cxx.WriteBlockStores` | src/n24cxx.c:50-57 | a block write stores buffer byte j at address (address + j) mod 256 for every j < Span(length), the bytes past `length` included (when Span(length) ≤ 256, so no address is written twice) |
| `N24Cxx.WriteBlockKeeps` | src/n24cxx.c:50-57 | a block write leaves every EEPROM address that is not (address + j) mod 256 for some j < Span(length) holding its old byte |
| `N24Cxx.ReadBlockFills` | src/n24cxx.c:88-95 | a block read fills buffer byte j from address (address + j) mod 256 for j < Span(length), and leaves the rest of the buffer unchanged |
| `N24Cxx.RoundTrip` | src/n24cxx.c:47-98 | reading back a block write at the same address and length returns the written bytes, both the `length` requested and the overrun (when Span(length) ≤ 256) |

## Left out

- `src/n24cxx.cpp`: its functions have empty bodies and no defined result; the C file is the one implementation.
- `n24cxx_assert_wp_pin_impl`: the driver never calls it.
- The I²C bus itself and real timing: a delay is only recorded in the log.
- The opaque `ctx` pointer in the device handle: the driver never reads it.
- The prototypes `n24cxx_write_page`/`n24cxx_read_page` and the `struct max1726x_t *` hook parameters in `n24cxx.h`: these are compile-level mismatches; the model follows the definitions in `n24cxx.c`.
- WriteBlock and ReadBlock: `pos` is unbounded, so the `size_t` wrap-around is not modelled. For a length from `SIZE_MAX - 14` to `SIZE_MAX`, the last `pos + 16` wraps to 0, which is still below `length`, so the C loop never ends. Such a transfer needs a buffer of that size.
- WriteBlock and ReadBlock: a caller buffer shorter than Span(length) is undefined behaviour in C when a linked transport reads (write) or fills (read) the bytes past `length`; the weak defaults never touch the buffer. The model requires Span(length) bytes in both cases and does not say what a shorter buffer does.
- Platform.Platform.WriteImpl: the in-memory EEPROM stores the bytes whatever status it reports, and its addresses wrap at 256 rather than within a page as on the chip. It stands in for a platform transport; it is not part of the driver.
- Platform.Platform.ReadImpl: a linked transport's status is a function of the call (direction, address, length), so a transport whose answer to the same call changes over time is not modelled.
- Null pointers: buffers are Dafny arrays, which cannot be null; the driver never checks for null anyway.
