/*
 * The paged transfer engine of the N24Cxx driver (n24cxx.c): single-byte
 * write and read, block write and read split into transport calls of at most
 * one page, and the chip-size lookup.
 */
module N24Cxx {
  import opened N24CxxDefs
  import opened N24CxxTypes
  import opened StatusAggregate
  import opened Chunking
  import opened Platform

  /** The transport call that moves chunk `c`. */
  function TransferOf(dir: Direction, c: Chunk): (t: Transfer) {
    Transfer(dir, c.addr, c.size)
  }

  /** Hook calls of a block write: each chunk's write, then a settle delay. */
  function WriteTrace(plan: seq<Chunk>): (trace: seq<Event>)
    decreases |plan|
  {
    if plan == [] then []
    else WriteTrace(plan[..|plan| - 1]) + [Call(TransferOf(ToDevice, plan[|plan| - 1])), Delay(WriteTimeMs)]
  }

  /** Hook calls of a block read: each chunk's read, no delay. */
  function ReadTrace(plan: seq<Chunk>): (trace: seq<Event>)
    decreases |plan|
  {
    if plan == [] then []
    else ReadTrace(plan[..|plan| - 1]) + [Call(TransferOf(FromDevice, plan[|plan| - 1]))]
  }

  /** The status each chunk's transport call returns. */
  function Replies(h: Platform, dir: Direction, plan: seq<Chunk>): (s: seq<Status>)
    ensures |s| == |plan|
    ensures forall i :: 0 <= i < |plan| ==> s[i] == h.Answer(TransferOf(dir, plan[i]))
  {
    seq(|plan|, i requires 0 <= i < |plan| => h.Answer(TransferOf(dir, plan[i])))
  }

  /** EEPROM contents after the chunks of `plan` are written from `data`. */
  function StoreAll(m: seq<Byte>, plan: seq<Chunk>, data: seq<Byte>): (r: seq<Byte>)
    requires |m| == AddressSpace
    requires forall i :: 0 <= i < |plan| ==> plan[i].offset + plan[i].size <= |data|
    ensures |r| == AddressSpace
    decreases |plan|
  {
    if plan == [] then m
    else
      var c := plan[|plan| - 1];
      Store(StoreAll(m, plan[..|plan| - 1], data), c.addr, data[c.offset..c.offset + c.size])
  }

  /** Caller's buffer after the chunks of `plan` are read from EEPROM contents `m`. */
  function FillAll(buf: seq<Byte>, m: seq<Byte>, plan: seq<Chunk>): (r: seq<Byte>)
    requires |m| == AddressSpace
    ensures |r| == |buf|
    decreases |plan|
  {
    if plan == [] then buf
    else
      var c := plan[|plan| - 1];
      Fill(FillAll(buf, m, plan[..|plan| - 1]), m, c.addr, c.offset, c.size)
  }

  // ----- One more chunk -----

  lemma WriteTraceStep(plan: seq<Chunk>, k: nat, t: Transfer)
    requires k < |plan| && t == TransferOf(ToDevice, plan[k])
    ensures WriteTrace(plan[..k + 1]) == WriteTrace(plan[..k]) + [Call(t), Delay(WriteTimeMs)]
  {
    assert plan[..k + 1][..k] == plan[..k];
  }

  lemma ReadTraceStep(plan: seq<Chunk>, k: nat, t: Transfer)
    requires k < |plan| && t == TransferOf(FromDevice, plan[k])
    ensures ReadTrace(plan[..k + 1]) == ReadTrace(plan[..k]) + [Call(t)]
  {
    assert plan[..k + 1][..k] == plan[..k];
  }

  lemma RepliesStep(h: Platform, dir: Direction, plan: seq<Chunk>, k: nat, t: Transfer)
    requires k < |plan| && t == TransferOf(dir, plan[k])
    ensures Aggregate(Replies(h, dir, plan[..k + 1])) == Aggregate(Replies(h, dir, plan[..k])) | h.Answer(t)
  {
    assert Replies(h, dir, plan[..k + 1])[..k] == Replies(h, dir, plan[..k]);
  }

  lemma StoreAllStep(m: seq<Byte>, plan: seq<Chunk>, data: seq<Byte>, k: nat, addr: Addr, bytes: seq<Byte>)
    requires |m| == AddressSpace && k < |plan|
    requires forall i :: 0 <= i < |plan| ==> plan[i].offset + plan[i].size <= |data|
    requires addr == plan[k].addr && bytes == data[plan[k].offset..plan[k].offset + plan[k].size]
    ensures StoreAll(m, plan[..k + 1], data) == Store(StoreAll(m, plan[..k], data), addr, bytes)
  {
    var front := plan[..k + 1];
    assert |front| == k + 1 && front[..k] == plan[..k] && front[k] == plan[k];
    assert front != [] && front[..|front| - 1] == plan[..k] && front[|front| - 1] == plan[k];
  }

  lemma FillAllStep(buf: seq<Byte>, m: seq<Byte>, plan: seq<Chunk>, k: nat)
    requires |m| == AddressSpace && k < |plan|
    ensures FillAll(buf, m, plan[..k + 1]) == Fill(FillAll(buf, m, plan[..k]), m, plan[k].addr, plan[k].offset, plan[k].size)
  {
    assert plan[..k + 1][..k] == plan[..k];
  }

  /** The hook state after the first k chunks of a block write: the calls logged so far,
      the EEPROM contents a linked platform holds, and the status accumulated. */
  ghost predicate WroteChunks(h: Platform, log0: seq<Event>, mem0: seq<Byte>, plan: seq<Chunk>, data: seq<Byte>,
                              k: nat, log: seq<Event>, mem: seq<Byte>, status: Status)
  {
    && k <= |plan| && |mem0| == AddressSpace
    && (forall i :: 0 <= i < |plan| ==> plan[i].offset + plan[i].size <= |data|)
    && log == log0 + WriteTrace(plan[..k])
    && mem == (if h.linked then StoreAll(mem0, plan[..k], data) else mem0)
    && status == Aggregate(Replies(h, ToDevice, plan[..k]))
  }

  /** Writing chunk k and waiting the settle time moves WroteChunks from k to k + 1. */
  lemma WroteNextChunk(h: Platform, log0: seq<Event>, mem0: seq<Byte>, plan: seq<Chunk>, data: seq<Byte>,
                       k: nat, log: seq<Event>, mem: seq<Byte>, status: Status, t: Transfer, bytes: seq<Byte>)
    requires WroteChunks(h, log0, mem0, plan, data, k, log, mem, status)
    requires k < |plan| && t == TransferOf(ToDevice, plan[k])
    requires bytes == data[plan[k].offset..plan[k].offset + plan[k].size]
    ensures WroteChunks(h, log0, mem0, plan, data, k + 1, log + [Call(t)] + [Delay(WriteTimeMs)],
                        if h.linked then Store(mem, t.addr, bytes) else mem, status | h.Answer(t))
  {
    WriteTraceStep(plan, k, t);
    assert log0 + WriteTrace(plan[..k]) + [Call(t)] + [Delay(WriteTimeMs)]
        == log0 + (WriteTrace(plan[..k]) + [Call(t), Delay(WriteTimeMs)]);
    RepliesStep(h, ToDevice, plan, k, t);
    StoreAllStep(mem0, plan, data, k, t.addr, bytes);
  }

  /** The caller's buffer and the hook state after the first k chunks of a block read. */
  ghost predicate ReadChunks(h: Platform, log0: seq<Event>, buf0: seq<Byte>, mem: seq<Byte>, plan: seq<Chunk>,
                             k: nat, log: seq<Event>, buf: seq<Byte>, status: Status)
  {
    && k <= |plan| && |mem| == AddressSpace
    && log == log0 + ReadTrace(plan[..k])
    && buf == (if h.linked then FillAll(buf0, mem, plan[..k]) else buf0)
    && status == Aggregate(Replies(h, FromDevice, plan[..k]))
  }

  /** Reading chunk k moves ReadChunks from k to k + 1. */
  lemma ReadNextChunk(h: Platform, log0: seq<Event>, buf0: seq<Byte>, mem: seq<Byte>, plan: seq<Chunk>,
                      k: nat, log: seq<Event>, buf: seq<Byte>, status: Status, t: Transfer)
    requires ReadChunks(h, log0, buf0, mem, plan, k, log, buf, status)
    requires k < |plan| && t == TransferOf(FromDevice, plan[k])
    ensures ReadChunks(h, log0, buf0, mem, plan, k + 1, log + [Call(t)],
                       if h.linked then Fill(buf, mem, t.addr, plan[k].offset, t.len) else buf, status | h.Answer(t))
  {
    ReadTraceStep(plan, k, t);
    RepliesStep(h, FromDevice, plan, k, t);
    FillAllStep(buf0, mem, plan, k);
  }

  // ----- Operations -----

  /** n24cxx_write: one 1-byte write, then one settle delay whatever the write reported;
      returns the write's status unchanged. */
  method Write(h: Platform, dev: Series, address: Addr, value: Byte) returns (result: Status)
    requires h.Valid()
    modifies h
    ensures h.Valid()
    ensures h.log == old(h.log) + [Call(Transfer(ToDevice, address, 1)), Delay(WriteTimeMs)]
    ensures h.mem == if h.linked then Store(old(h.mem), address, [value]) else old(h.mem)
    ensures result == h.Answer(Transfer(ToDevice, address, 1))
  {
    var cell := new Byte[1];
    cell[0] := value;
    result := h.WriteImpl(dev, address, cell, 0, 1);
    h.DelayMs(dev, WriteTimeMs);
  }

  /** n24cxx_write_block: write `length` bytes of `value` from `address` on, one transport call
      and one settle delay per chunk of the plan; the result is the OR of the chunk statuses.
      The buffer must hold Span(length) bytes: the last chunk reads past `length`. */
  method WriteBlock(h: Platform, dev: Series, address: Addr, value: array<Byte>, length: nat)
    returns (status: Status)
    requires h.Valid()
    requires Span(length) <= value.Length
    modifies h
    ensures h.Valid()
    ensures h.log == old(h.log) + WriteTrace(Plan(address, length))
    ensures h.mem == if h.linked then StoreAll(old(h.mem), Plan(address, length), value[..]) else old(h.mem)
    ensures status == Aggregate(Replies(h, ToDevice, Plan(address, length)))
  {
    ghost var plan := Plan(address, length);
    ghost var data := value[..];
    status := Undefined.Code();
    var pos: nat := 0;
    var writeSize: nat := 0;
    ghost var k: nat := 0;
    while pos < length
      invariant h.Valid() && value[..] == data
      invariant k <= |plan| && pos == Progress(length, k)
      invariant pos < length <==> k < |plan|
      invariant WroteChunks(h, old(h.log), old(h.mem), plan, data, k, h.log, h.mem, status)
      decreases length - pos
    {
      writeSize := length - pos;
      if length > PageSize {
        writeSize := PageSize;
      }
      ProgressStep(length, k);
      assert plan[k] == Chunk(pos, BusAddr(address, pos), writeSize);
      ghost var t := Transfer(ToDevice, BusAddr(address, pos), writeSize);
      WroteNextChunk(h, old(h.log), old(h.mem), plan, data, k, h.log, h.mem, status, t, value[pos..pos + writeSize]);
      var s := h.WriteImpl(dev, BusAddr(address, pos), value, pos, writeSize);
      status := status | s;
      h.DelayMs(dev, WriteTimeMs);
      pos := pos + writeSize;
      k := k + 1;
      ProgressBelowLength(length, k);
    }
    assert plan[..k] == plan;
  }

  /** n24cxx_read: one 1-byte read into value[0], no delay; returns the read's status. */
  method Read(h: Platform, dev: Series, address: Addr, value: array<Byte>) returns (result: Status)
    requires h.Valid()
    requires 1 <= value.Length
    modifies h, value
    ensures h.Valid() && h.mem == old(h.mem)
    ensures h.log == old(h.log) + [Call(Transfer(FromDevice, address, 1))]
    ensures value[0] == if h.linked then h.mem[address] else old(value[0])
    ensures value[1..] == old(value[1..])
    ensures result == h.Answer(Transfer(FromDevice, address, 1))
  {
    result := h.ReadImpl(dev, address, value, 0, 1);
    assert value[..][0] == value[0] && value[..][1..] == value[1..];
  }

  /** n24cxx_read_block: read `length` bytes from `address` on into `value`, one transport call
      per chunk of the plan and no delay; the result is the OR of the chunk statuses.
      The buffer must hold Span(length) bytes: the last chunk writes past `length`. */
  method ReadBlock(h: Platform, dev: Series, address: Addr, value: array<Byte>, length: nat)
    returns (status: Status)
    requires h.Valid()
    requires Span(length) <= value.Length
    modifies h, value
    ensures h.Valid() && h.mem == old(h.mem)
    ensures h.log == old(h.log) + ReadTrace(Plan(address, length))
    ensures value[..] == if h.linked then FillAll(old(value[..]), h.mem, Plan(address, length)) else old(value[..])
    ensures status == Aggregate(Replies(h, FromDevice, Plan(address, length)))
  {
    ghost var plan := Plan(address, length);
    status := Undefined.Code();
    var pos: nat := 0;
    var writeSize: nat := 0;
    ghost var k: nat := 0;
    while pos < length
      invariant h.Valid() && h.mem == old(h.mem)
      invariant k <= |plan| && pos == Progress(length, k)
      invariant pos < length <==> k < |plan|
      invariant ReadChunks(h, old(h.log), old(value[..]), h.mem, plan, k, h.log, value[..], status)
      decreases length - pos
    {
      writeSize := length - pos;
      if length > PageSize {
        writeSize := PageSize;
      }
      ProgressStep(length, k);
      assert plan[k] == Chunk(pos, BusAddr(address, pos), writeSize);
      ghost var t := Transfer(FromDevice, BusAddr(address, pos), writeSize);
      ReadNextChunk(h, old(h.log), old(value[..]), h.mem, plan, k, h.log, value[..], status, t);
      var s := h.ReadImpl(dev, BusAddr(address, pos), value, pos, writeSize);
      status := status | s;
      pos := pos + writeSize;
      k := k + 1;
      ProgressBelowLength(length, k);
    }
    assert plan[..k] == plan;
  }

  /** n24cxx_get_size: the chip type's enum value, its capacity in bits. */
  function GetSize(t: ChipType): (r: nat)
    ensures r == t.Value()
    ensures r in {2048, 4096, 8192, 16384}
    ensures r % (8 * AddressSpace) == 0
  {
    t.Value()
  }

  // ----- What the hook calls add up to -----

  /** Number of transport calls in a trace. */
  function CountCalls(trace: seq<Event>): (n: nat)
    decreases |trace|
  {
    if trace == [] then 0
    else CountCalls(trace[..|trace| - 1]) + if trace[|trace| - 1].Call? then 1 else 0
  }

  /** Number of delays in a trace. */
  function CountDelays(trace: seq<Event>): (n: nat)
    decreases |trace|
  {
    if trace == [] then 0
    else CountDelays(trace[..|trace| - 1]) + if trace[|trace| - 1].Delay? then 1 else 0
  }

  /** A block write alternates the chunks' write calls with settle delays of WriteTimeMs:
      the i-th call is chunk i of the plan and is followed by exactly one delay. */
  lemma {:induction false} WriteTraceShape(plan: seq<Chunk>)
    ensures |WriteTrace(plan)| == 2 * |plan|
    ensures forall i :: 0 <= i < |plan| ==>
      WriteTrace(plan)[2 * i] == Call(TransferOf(ToDevice, plan[i])) && WriteTrace(plan)[2 * i + 1] == Delay(WriteTimeMs)
  {
    if plan != [] {
      var n := |plan| - 1;
      WriteTraceShape(plan[..n]);
      forall i | 0 <= i < n
        ensures plan[..n][i] == plan[i]
      {
      }
    }
  }

  /** A block read makes the chunks' read calls in order and nothing else. */
  lemma {:induction false} ReadTraceShape(plan: seq<Chunk>)
    ensures |ReadTrace(plan)| == |plan|
    ensures forall i :: 0 <= i < |plan| ==> ReadTrace(plan)[i] == Call(TransferOf(FromDevice, plan[i]))
  {
    if plan != [] {
      var n := |plan| - 1;
      ReadTraceShape(plan[..n]);
      forall i | 0 <= i < n
        ensures plan[..n][i] == plan[i]
      {
      }
    }
  }

  /** A block write makes as many delays as transport calls, one per chunk;
      a block read makes one call per chunk and no delay. */
  lemma {:induction false} DelaysMatchCalls(plan: seq<Chunk>)
    ensures CountCalls(WriteTrace(plan)) == CountDelays(WriteTrace(plan)) == |plan|
    ensures CountCalls(ReadTrace(plan)) == |plan| && CountDelays(ReadTrace(plan)) == 0
  {
    if plan != [] {
      var n := |plan| - 1;
      DelaysMatchCalls(plan[..n]);
      var w := WriteTrace(plan[..n]);
      var call := Call(TransferOf(ToDevice, plan[n]));
      assert (w + [call, Delay(WriteTimeMs)])[..|w| + 1] == w + [call];
      assert (w + [call])[..|w|] == w;
      var r := ReadTrace(plan[..n]);
      assert (r + [Call(TransferOf(FromDevice, plan[n]))])[..|r|] == r;
    }
  }

  /** With the weak default hooks, a block operation of at least one byte reports exactly
      "function not implemented", and one of no bytes reports "undefined". */
  lemma WeakDefaultsReport(h: Platform, dir: Direction, address: Addr, length: nat)
    requires !h.linked
    ensures Aggregate(Replies(h, dir, Plan(address, length)))
         == if length == 0 then Undefined.Code() else FunctionNotImpl.Code()
  {
    AggregateOfUniform(Replies(h, dir, Plan(address, length)), FunctionNotImpl.Code());
  }

  // ----- Round trip against the in-memory EEPROM -----

  /** The offset between the bus addresses of buffer positions j and off is j - off, modulo 256. */
  lemma BusAddrDistance(address: Addr, j: nat, off: nat)
    ensures (BusAddr(address, j) as int - BusAddr(address, off) as int) % AddressSpace == (j - off) % AddressSpace
    ensures (BusAddr(address, off) as int + j - off) % AddressSpace == BusAddr(address, j) as int
  {
  }

  /** The n-th chunk of a block write stores buffer positions Progress(length, n - 1) up to
      Progress(length, n) at the bus address of the first of them. */
  lemma StoreAllLast(m: seq<Byte>, address: Addr, length: nat, data: seq<Byte>, n: nat)
    requires |m| == AddressSpace && Span(length) <= |data|
    requires 0 < n <= NumChunks(length)
    ensures Progress(length, n - 1) + ChunkSize(length) == Progress(length, n) <= Span(length)
    ensures StoreAll(m, Plan(address, length)[..n], data)
         == Store(StoreAll(m, Plan(address, length)[..n - 1], data),
                  BusAddr(address, Progress(length, n - 1)), data[Progress(length, n - 1)..Progress(length, n)])
  {
    var plan := Plan(address, length);
    var k := n - 1;
    ProgressStep(length, k);
    assert plan[k] == Chunk(Progress(length, k), BusAddr(address, Progress(length, k)), ChunkSize(length));
    StoreAllStep(m, plan, data, k, plan[k].addr, data[plan[k].offset..plan[k].offset + plan[k].size]);
    assert k + 1 == n;
  }

  /** A store of `bytes` at the bus address of buffer position `off` puts position j's byte
      at j's bus address when j falls in the stored range, and leaves it alone otherwise. */
  lemma StoreOver(prev: seq<Byte>, address: Addr, off: nat, bytes: seq<Byte>, j: nat)
    requires |prev| == AddressSpace && off + |bytes| <= AddressSpace && j < AddressSpace
    ensures Store(prev, BusAddr(address, off), bytes)[BusAddr(address, j)]
         == if off <= j < off + |bytes| then bytes[j - off] else prev[BusAddr(address, j)]
  {
    BusAddrDistance(address, j, off);
  }

  /** After the first n chunks of a block write, each of the first Progress(length, n) bytes
      of the buffer sits at its bus address, as long as the writes do not wrap onto each other. */
  lemma {:induction false} StoreAllAt(m: seq<Byte>, address: Addr, length: nat, data: seq<Byte>, n: nat, j: nat)
    requires |m| == AddressSpace && Span(length) <= |data| && Span(length) <= AddressSpace
    requires n <= NumChunks(length) && j < Progress(length, n)
    ensures StoreAll(m, Plan(address, length)[..n], data)[BusAddr(address, j)] == data[j]
  {
    var off := Progress(length, n - 1);
    StoreAllLast(m, address, length, data, n);
    StoreOver(StoreAll(m, Plan(address, length)[..n - 1], data), address, off, data[off..Progress(length, n)], j);
    if j < off {
      StoreAllAt(m, address, length, data, n - 1, j);
    }
  }

  /** A read of `len` bytes from the bus address of buffer position `off` puts into position j
      the byte at j's bus address when j falls in the read range, and leaves it alone otherwise. */
  lemma FillOver(prev: seq<Byte>, m: seq<Byte>, address: Addr, off: nat, len: nat, j: nat)
    requires |m| == AddressSpace && j < |prev|
    ensures Fill(prev, m, BusAddr(address, off), off, len)[j]
         == if off <= j < off + len then m[BusAddr(address, j)] else prev[j]
  {
    BusAddrDistance(address, j, off);
  }

  /** After the first n chunks of a block read, each of the first Progress(length, n) bytes of
      the buffer holds the EEPROM byte at its bus address, and the rest of the buffer is as before. */
  lemma {:induction false} FillAllAt(buf: seq<Byte>, m: seq<Byte>, address: Addr, length: nat, n: nat, j: nat)
    requires |m| == AddressSpace
    requires n <= NumChunks(length) && j < |buf|
    ensures FillAll(buf, m, Plan(address, length)[..n])[j]
         == if j < Progress(length, n) then m[BusAddr(address, j)] else buf[j]
  {
    if n > 0 {
      var plan := Plan(address, length);
      var c := plan[n - 1];
      ProgressStep(length, n - 1);
      FillAllStep(buf, m, plan, n - 1);
      assert n - 1 + 1 == n;
      var prev := FillAll(buf, m, plan[..n - 1]);
      assert FillAll(buf, m, plan[..n]) == Fill(prev, m, c.addr, c.offset, c.size);
      FillOver(prev, m, address, c.offset, c.size, j);
      FillAllAt(buf, m, address, length, n - 1, j);
    }
  }

  /** A block write stores the first Span(length) bytes of the buffer, the bytes past
      `length` included, at consecutive bus addresses from `address` (modulo 256). */
  lemma WriteBlockStores(m: seq<Byte>, address: Addr, length: nat, data: seq<Byte>, j: nat)
    requires |m| == AddressSpace && Span(length) <= |data| && Span(length) <= AddressSpace
    requires j < Span(length)
    ensures StoreAll(m, Plan(address, length), data)[BusAddr(address, j)] == data[j]
  {
    StoreAllAt(m, address, length, data, NumChunks(length), j);
    assert Plan(address, length)[..NumChunks(length)] == Plan(address, length);
  }

  /** Every EEPROM address is the bus address of some position at most 255 past `off`. */
  lemma BusAddrReaches(address: Addr, off: nat, a: Addr)
    ensures BusAddr(address, off + (a as int - BusAddr(address, off) as int) % AddressSpace) == a
  {
    var x := address as int + off;
    var b := x % AddressSpace;
    var d := (a as int - b) % AddressSpace;
    assert x == AddressSpace * (x / AddressSpace) + b;
    assert a as int - b == AddressSpace * ((a as int - b) / AddressSpace) + d;
    ModOfMultiplePlus(x + d, x / AddressSpace - (a as int - b) / AddressSpace, a as int);
  }

  /** y = 256 q + r with 0 <= r < 256 leaves remainder r. */
  lemma ModOfMultiplePlus(y: int, q: int, r: int)
    requires y == AddressSpace * q + r && 0 <= r < AddressSpace
    ensures y % AddressSpace == r
  {
  }

  /** A store of `bytes` at the bus address of buffer position `off` leaves EEPROM address `a`
      alone when no position of the stored range has `a` as its bus address. */
  lemma StoreMisses(prev: seq<Byte>, address: Addr, off: nat, bytes: seq<Byte>, a: Addr)
    requires |prev| == AddressSpace
    requires forall j :: off <= j < off + |bytes| ==> BusAddr(address, j) != a
    ensures Store(prev, BusAddr(address, off), bytes)[a] == prev[a]
  {
    if (a as int - BusAddr(address, off) as int) % AddressSpace < |bytes| {
      BusAddrReaches(address, off, a);
      assert false;
    }
  }

  /** After the first n chunks of a block write, an EEPROM address that none of the first
      Progress(length, n) buffer positions maps to still holds its old byte. */
  lemma {:induction false} StoreAllKeepsUpTo(m: seq<Byte>, address: Addr, length: nat, data: seq<Byte>, n: nat, a: Addr)
    requires |m| == AddressSpace && Span(length) <= |data|
    requires n <= NumChunks(length)
    requires forall j :: 0 <= j < Progress(length, n) ==> BusAddr(address, j) != a
    ensures StoreAll(m, Plan(address, length)[..n], data)[a] == m[a]
  {
    if n == 0 {
      assert Plan(address, length)[..0] == [];
    } else {
      var off := Progress(length, n - 1);
      StoreAllLast(m, address, length, data, n);
      StoreMisses(StoreAll(m, Plan(address, length)[..n - 1], data), address, off, data[off..Progress(length, n)], a);
      StoreAllKeepsUpTo(m, address, length, data, n - 1, a);
    }
  }

  /** A block write changes no EEPROM address other than the bus addresses of the first
      Span(length) buffer positions: every other address keeps its old byte. */
  lemma WriteBlockKeeps(m: seq<Byte>, address: Addr, length: nat, data: seq<Byte>, a: Addr)
    requires |m| == AddressSpace && Span(length) <= |data|
    requires forall j :: 0 <= j < Span(length) ==> BusAddr(address, j) != a
    ensures StoreAll(m, Plan(address, length), data)[a] == m[a]
  {
    StoreAllKeepsUpTo(m, address, length, data, NumChunks(length), a);
    assert Plan(address, length)[..NumChunks(length)] == Plan(address, length);
  }

  /** A block read fills exactly the first Span(length) bytes of the buffer, the bytes past
      `length` included, from consecutive bus addresses, and leaves the rest alone. */
  lemma ReadBlockFills(buf: seq<Byte>, m: seq<Byte>, address: Addr, length: nat, j: nat)
    requires |m| == AddressSpace && j < |buf|
    ensures FillAll(buf, m, Plan(address, length))[j]
         == if j < Span(length) then m[BusAddr(address, j)] else buf[j]
  {
    FillAllAt(buf, m, address, length, NumChunks(length), j);
    assert Plan(address, length)[..NumChunks(length)] == Plan(address, length);
  }

  /** Reading back what a block write stored, at the same address and length, returns the
      written bytes, both the `length` requested and the overrun up to Span(length). */
  lemma RoundTrip(m: seq<Byte>, buf: seq<Byte>, address: Addr, length: nat, data: seq<Byte>)
    requires |m| == AddressSpace
    requires Span(length) <= |data| && Span(length) <= |buf| && Span(length) <= AddressSpace
    ensures var stored := StoreAll(m, Plan(address, length), data);
      && FillAll(buf, stored, Plan(address, length))[..Span(length)] == data[..Span(length)]
      && FillAll(buf, stored, Plan(address, length))[..length] == data[..length]
  {
    var stored := StoreAll(m, Plan(address, length), data);
    var back := FillAll(buf, stored, Plan(address, length));
    forall j | 0 <= j < Span(length)
      ensures back[j] == data[j]
    {
      ReadBlockFills(buf, stored, address, length, j);
      WriteBlockStores(m, address, length, data, j);
    }
    Overrun(length);
  }
}
