/*
 * The platform hooks the driver calls (n24cxx.c): n24cxx_write_impl,
 * n24cxx_read_impl and n24cxx_delay_ms_impl. The library ships weak defaults
 * (the transport calls report "function not implemented", the delay does
 * nothing); a platform may link its own. Here a linked platform is an
 * in-memory EEPROM of 256 bytes whose reported status is a parameter, and
 * every hook call is recorded in a log, so that what the driver asks of the
 * platform can be stated.
 */
module Platform {
  import opened N24CxxDefs
  import opened N24CxxTypes

  /** Which transport hook was called. */
  datatype Direction = ToDevice | FromDevice

  /** One transport call as the bus sees it: the 8-bit EEPROM address and the byte count. */
  datatype Transfer = Transfer(dir: Direction, addr: Addr, len: nat)

  /** One hook call the driver makes. */
  datatype Event = Call(transfer: Transfer) | Delay(ms: nat)

  /** Memory `m` after `bytes` are stored from `addr` on, the address wrapping at 256. */
  function Store(m: seq<Byte>, addr: Addr, bytes: seq<Byte>): (r: seq<Byte>)
    requires |m| == AddressSpace
    ensures |r| == AddressSpace
  {
    seq(|m|, j requires 0 <= j < |m| =>
      if (j - addr as int) % AddressSpace < |bytes| then bytes[(j - addr as int) % AddressSpace] else m[j])
  }

  /** Buffer `buf` after `len` bytes of memory `m` from `addr` on are copied to it at `off`. */
  function Fill(buf: seq<Byte>, m: seq<Byte>, addr: Addr, off: nat, len: nat): (r: seq<Byte>)
    requires |m| == AddressSpace
    ensures |r| == |buf|
  {
    seq(|buf|, j requires 0 <= j < |buf| =>
      if off <= j < off + len then m[(addr as int + j - off) % AddressSpace] else buf[j])
  }

  /** The hooks linked into the program, observed through their call log. */
  class Platform {
    /** True when the platform links its own transport (here the in-memory EEPROM);
        false when the library's weak defaults are in effect. */
    const linked: bool
    /** The status a linked transport reports for each call. */
    const reply: Transfer -> Status
    /** The EEPROM contents of a linked platform. */
    var mem: seq<Byte>
    /** Every hook call so far, in order. */
    var log: seq<Event>

    ghost predicate Valid()
      reads this
    {
      |mem| == AddressSpace
    }

    /** The status a transport call returns. */
    function Answer(t: Transfer): (s: Status) {
      if linked then reply(t) else FunctionNotImpl.Code()
    }

    constructor (linked: bool, reply: Transfer -> Status, contents: seq<Byte>)
      requires |contents| == AddressSpace
      ensures Valid()
      ensures this.linked == linked && this.reply == reply
      ensures mem == contents && log == []
    {
      this.linked := linked;
      this.reply := reply;
      mem := contents;
      log := [];
    }

    /** n24cxx_write_impl: write `length` bytes taken from `data` at `off` to the EEPROM at `address`. */
    method WriteImpl(dev: Series, address: Addr, data: array<Byte>, off: nat, length: nat) returns (s: Status)
      requires Valid()
      requires off + length <= data.Length && length <= PageSize
      modifies this
      ensures Valid()
      ensures log == old(log) + [Call(Transfer(ToDevice, address, length))]
      ensures mem == if linked then Store(old(mem), address, data[off..off + length]) else old(mem)
      ensures s == Answer(Transfer(ToDevice, address, length))
    {
      log := log + [Call(Transfer(ToDevice, address, length))];
      if linked {
        mem := Store(mem, address, data[off..off + length]);
        s := reply(Transfer(ToDevice, address, length));
      } else {
        s := FunctionNotImpl.Code();
      }
    }

    /** n24cxx_read_impl: read `length` bytes of the EEPROM at `address` into `data` at `off`. */
    method ReadImpl(dev: Series, address: Addr, data: array<Byte>, off: nat, length: nat) returns (s: Status)
      requires Valid()
      requires off + length <= data.Length && length <= PageSize
      modifies this, data
      ensures Valid() && mem == old(mem)
      ensures log == old(log) + [Call(Transfer(FromDevice, address, length))]
      ensures data[..] == if linked then Fill(old(data[..]), mem, address, off, length) else old(data[..])
      ensures s == Answer(Transfer(FromDevice, address, length))
    {
      log := log + [Call(Transfer(FromDevice, address, length))];
      if linked {
        forall j | off <= j < off + length {
          data[j] := mem[(address as int + j - off) % AddressSpace];
        }
        s := reply(Transfer(FromDevice, address, length));
      } else {
        s := FunctionNotImpl.Code();
      }
    }

    /** n24cxx_delay_ms_impl: wait `ms` milliseconds; only the call is recorded. */
    method DelayMs(dev: Series, ms: nat)
      requires Valid()
      modifies this
      ensures Valid() && mem == old(mem)
      ensures log == old(log) + [Delay(ms)]
    {
      log := log + [Delay(ms)];
    }
  }
}
