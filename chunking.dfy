/*
 * The chunk plan of n24cxx_write_block and n24cxx_read_block (n24cxx.c), in
 * closed form. The loop sets the chunk size to 16 whenever the WHOLE length
 * exceeds 16, and to the remaining length otherwise; so a transfer of more
 * than 16 bytes is made of 16-byte chunks only, the last one included, and
 * the last chunk reaches past the caller's data unless the length is a
 * multiple of 16.
 */
module Chunking {
  import opened N24CxxDefs

  /** One transport call of a block operation: where it starts in the caller's buffer,
      the 8-bit EEPROM address it is given, and its byte count. */
  datatype Chunk = Chunk(offset: nat, addr: Addr, size: nat)

  /** Number of loop iterations for `length` bytes: ceil(length / 16). */
  function NumChunks(length: nat): (n: nat) {
    (length + PageSize - 1) / PageSize
  }

  /** The size of every chunk: the test compares the whole length with the page size. */
  function ChunkSize(length: nat): (size: nat) {
    if length > PageSize then PageSize else length
  }

  /** `pos` after `k` iterations. */
  function Progress(length: nat, k: nat): (pos: nat) {
    if length > PageSize then PageSize * k else if k == 0 then 0 else length
  }

  /** `pos` when the loop ends: the number of buffer bytes the operation touches. */
  function Span(length: nat): (pos: nat) {
    Progress(length, NumChunks(length))
  }

  /** The address handed to the transport: `address + pos` converted to the 8-bit N24Cxx_addr. */
  function BusAddr(address: Addr, pos: nat): (a: Addr) {
    ((address as int + pos) % AddressSpace) as Addr
  }

  /** The transport calls of a block operation of `length` bytes at `address`, in order. */
  function Plan(address: Addr, length: nat): (plan: seq<Chunk>)
    ensures |plan| == NumChunks(length)
    ensures forall k :: 0 <= k < |plan| ==>
      1 <= plan[k].size <= PageSize && plan[k].offset + plan[k].size <= Span(length)
  {
    var plan := seq(NumChunks(length), k requires 0 <= k => Chunk(PageSize * k, BusAddr(address, PageSize * k), ChunkSize(length)));
    assert forall k :: 0 <= k < |plan| ==>
      1 <= plan[k].size <= PageSize && plan[k].offset + plan[k].size <= Span(length) by {
      forall k | 0 <= k < |plan|
        ensures 1 <= plan[k].size <= PageSize && plan[k].offset + plan[k].size <= Span(length)
      {
        ProgressStep(length, k);
      }
    }
    plan
  }

  /** Inside the loop: the k-th iteration starts at `pos` = 16k, stays below `length`,
      and moves `pos` on by the chunk size without passing the final position. */
  lemma ProgressStep(length: nat, k: nat)
    requires k < NumChunks(length)
    ensures Progress(length, k) == PageSize * k < length
    ensures Progress(length, k + 1) == Progress(length, k) + ChunkSize(length)
    ensures Progress(length, k + 1) <= Span(length)
    ensures 0 < ChunkSize(length) <= PageSize
  {
  }

  /** The loop condition `pos < length` holds after k iterations exactly while chunks remain. */
  lemma ProgressBelowLength(length: nat, k: nat)
    requires k <= NumChunks(length)
    ensures Progress(length, k) < length <==> k < NumChunks(length)
  {
  }

  /** A transfer of 0 bytes makes no call. */
  lemma EmptyPlan(address: Addr)
    ensures Plan(address, 0) == [] && Span(0) == 0
  {
  }

  /** A transfer of 1 to 16 bytes makes one call of `length` bytes at `address`, from offset 0. */
  lemma SingleChunk(address: Addr, length: nat)
    requires 1 <= length <= PageSize
    ensures Plan(address, length) == [Chunk(0, address, length)]
    ensures Span(length) == length
  {
    assert BusAddr(address, 0) == address;
  }

  /** A transfer of more than 16 bytes makes ceil(length / 16) calls; the k-th is 16 bytes at
      offset 16k, the last one included, and the loop ends with `pos` = 16 * ceil(length / 16). */
  lemma MultiChunk(address: Addr, length: nat)
    requires length > PageSize
    ensures var n := |Plan(address, length)|;
      PageSize * (n - 1) < length <= PageSize * n && Span(length) == PageSize * n
    ensures forall k :: 0 <= k < |Plan(address, length)| ==>
      Plan(address, length)[k] == Chunk(PageSize * k, BusAddr(address, PageSize * k), PageSize)
  {
  }

  /** The chunks tile the first Span(length) bytes of the caller's buffer: each starts where the
      previous ended, each holds 1 to 16 bytes, and the last ends at Span(length). */
  lemma PlanTiles(address: Addr, length: nat, k: nat)
    requires k < |Plan(address, length)|
    ensures var c := Plan(address, length)[k];
      && c.offset == Progress(length, k)
      && c.offset + c.size == Progress(length, k + 1)
      && 1 <= c.size <= PageSize
      && c.offset + c.size <= Span(length)
      && (k == |Plan(address, length)| - 1 ==> c.offset + c.size == Span(length))
  {
    ProgressStep(length, k);
  }

  /** The operation touches at least the `length` requested bytes and fewer than 16 more; it
      touches more exactly when the length exceeds 16 and is not a multiple of 16. */
  lemma Overrun(length: nat)
    ensures length <= Span(length) < length + PageSize
    ensures Span(length) > length <==> length > PageSize && length % PageSize != 0
    ensures length > PageSize ==> Span(length) - length == (PageSize - length % PageSize) % PageSize
  {
  }

  /** Twenty bytes at address 10: two 16-byte calls, at addresses 10 and 26, the second
      reading 12 bytes past the data; neither call stops at the page boundary at 16. */
  lemma TwentyBytesAtTen()
    ensures Plan(10, 20) == [Chunk(0, 10, 16), Chunk(16, 26, 16)]
    ensures Span(20) == 32
  {
    assert NumChunks(20) == 2;
  }
}
