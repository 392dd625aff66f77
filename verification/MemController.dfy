/** The memory controller in front of the SRAM: control registers, word operations, burst
    transfers and the interrupt line. */
module MemController {
  import opened Bytes
  import opened CimSram

  // Register offsets and bit weights of the register map.
  const REG_CONTROL := 0x00
  const REG_ADDR := 0x04
  const REG_LEN := 0x08
  const REG_WDATA := 0x0C
  const REG_RDATA := 0x10
  const REG_STATUS := 0x14
  const CTRL_SPACE := 0x20

  const CTRL_START := 1
  const CTRL_WRITE := 2
  const CTRL_IRQEN := 8
  const CTRL_COMPUTE := 16

  const STAT_BUSY := 1
  const STAT_DONE := 2
  const STAT_ERR := 4

  const CTRL_REG_NS := 10

  /** `T_fixed + bytes / 0.2` nanoseconds. */
  function DmaTransferNs(len: nat): nat {
    500 + 5 * len
  }

  datatype Regs = Regs(control: u32, addr: u32, len: u32, wdata: u32, rdata: u32,
                       busy: bool, done: bool, err: bool, irq: bool)

  datatype Device = Device(regs: Regs, mem: seq<byte>)

  predicate IsDevice(d: Device) {
    IsSram(d.mem)
  }

  function StatusWord(r: Regs): u32 {
    (if r.busy then STAT_BUSY else 0) + (if r.done then STAT_DONE else 0) + (if r.err then STAT_ERR else 0)
  }

  /** The interrupt manager: sample enable and done. */
  function Resample(r: Regs): Regs {
    r.(irq := Bit(r.control, CTRL_IRQEN) && r.done)
  }

  // ---------------------------------------------------------------- one access

  /** One blocking transaction: `buf` is the memory at the data pointer, `len` the data length. */
  datatype Access = Access(cmd: Command, addr: u32, buf: seq<byte>, len: nat)

  datatype Outcome = Outcome(dev: Device, status: Status, buf: seq<byte>, ns: nat)

  /** Callers pass at least the four bytes that register accesses copy. */
  predicate WellFormed(x: Access) {
    4 <= |x.buf| && x.len <= |x.buf|
  }

  function WordOf(x: Access): u32
    requires WellFormed(x)
  {
    FromLe32(x.buf[..4])
  }

  predicate IsControlWrite(x: Access) {
    x.cmd == Write && x.addr == REG_CONTROL
  }

  predicate IsStart(x: Access)
    requires WellFormed(x)
  {
    IsControlWrite(x) && Bit(WordOf(x), CTRL_START)
  }

  /** The accesses with a defined meaning. */
  predicate Defined(r: Regs, x: Access) {
    && WellFormed(x)
    && (x.addr >= CIM_DATA_REGION ==> Meaningful(x.addr, x.len))
    && (x.cmd == Write ==> StartDefined(r, x.addr, WordOf(x)))
  }

  predicate StartDefined(r: Regs, off: u32, w: u32) {
    off == REG_CONTROL && Bit(w, CTRL_START) ==> WordDefined(w, r.addr, r.len)
  }

  /** A word operation that runs does not wrap its 32-bit end address, or is a write to the address that
      triggers a compute. A read there would load a word that nothing has set. */
  predicate WordDefined(control: u32, addr: u32, len: u32) {
    len == 4 && !Bit(control, CTRL_COMPUTE) ==>
      addr + 4 < TWO32 || (Bit(control, CTRL_WRITE) && addr == SRAM_COMPUTE_CMD)
  }

  datatype Started = Started(dev: Device, ns: nat)

  /** The single operation that a START runs. */
  function StartOperation(d: Device, sh: Shape): (s: Started)
    requires IsDevice(d) && WordDefined(d.regs.control, d.regs.addr, d.regs.len)
    ensures IsDevice(s.dev)
  {
    var r := d.regs;
    if r.len != 4 then Started(Device(Resample(r.(err := true)), d.mem), 0)
    else if Bit(r.control, CTRL_COMPUTE) then
      var t := Transport(d.mem, sh, Write, SRAM_COMPUTE_CMD, []);
      Started(Device(Finish(r, t.status), t.mem), t.ns)
    else if Bit(r.control, CTRL_WRITE) then
      var t := Transport(d.mem, sh, Write, r.addr, Le32(r.wdata));
      Started(Device(Finish(r, t.status), t.mem), t.ns)
    else
      var t := Transport(d.mem, sh, Read, r.addr, [0, 0, 0, 0]);
      var word := if t.status == Okay then FromLe32(t.data) else r.rdata;
      Started(Device(Finish(r.(rdata := word), t.status), t.mem), t.ns)
  }

  function Finish(r: Regs, status: Status): Regs {
    Resample(r.(err := r.err || status != Okay, busy := false, done := true))
  }

  /** A word operation that computes: by its command bit, or as a write to the compute trigger's address. */
  predicate Triggers(control: u32, addr: u32) {
    Bit(control, CTRL_COMPUTE) || (Bit(control, CTRL_WRITE) && addr == SRAM_COMPUTE_CMD)
  }

  /** The registers after an operation that ran, with the word it loaded. */
  function Completed(r: Regs, word: u32): Regs {
    Resample(r.(busy := false, done := true, rdata := word,
                err := r.err || !(Triggers(r.control, r.addr) || r.addr + 4 <= SRAM_SIZE)))
  }

  predicate LoadsRdata(control: u32, addr: u32) {
    !Bit(control, CTRL_COMPUTE) && !Bit(control, CTRL_WRITE) && addr + 4 <= SRAM_SIZE
  }

  lemma StartRegs(d: Device, sh: Shape)
    requires IsDevice(d) && WordDefined(d.regs.control, d.regs.addr, d.regs.len)
    ensures var r := d.regs;
            StartOperation(d, sh).dev.regs ==
            if r.len != 4 then Resample(r.(err := true))
            else Completed(r, if LoadsRdata(r.control, r.addr) then FromLe32(d.mem[r.addr..r.addr + 4]) else r.rdata)
  {
  }

  lemma StartNs(d: Device, sh: Shape)
    requires IsDevice(d) && WordDefined(d.regs.control, d.regs.addr, d.regs.len)
    ensures var r := d.regs;
            StartOperation(d, sh).ns ==
            if r.len != 4 then 0
            else if Triggers(r.control, r.addr) then ComputeNs(sh)
            else if r.addr + 4 <= SRAM_SIZE then SRAM_RW_NS else 0
  {
  }

  function RegisterWrite(d: Device, sh: Shape, addr: u32, w: u32): (s: Started)
    requires IsDevice(d) && StartDefined(d.regs, addr, w)
    ensures IsDevice(s.dev)
  {
    var r := d.regs;
    if addr == REG_CONTROL then
      var d1 := d.(regs := r.(control := w));
      if Bit(w, CTRL_START) then StartOperation(d1, sh) else Started(d1, 0)
    else if addr == REG_ADDR then Started(d.(regs := r.(addr := w)), 0)
    else if addr == REG_LEN then Started(d.(regs := r.(len := w)), 0)
    else if addr == REG_WDATA then Started(d.(regs := r.(wdata := w)), 0)
    else if addr == REG_STATUS then
      Started(d.(regs := Resample(r.(done := r.done && !Bit(w, STAT_DONE), err := r.err && !Bit(w, STAT_ERR)))), 0)
    else Started(d, 0)
  }

  predicate Writable(addr: u32) {
    addr == REG_CONTROL || addr == REG_ADDR || addr == REG_LEN || addr == REG_WDATA || addr == REG_STATUS
  }

  predicate Readable(addr: u32) {
    Writable(addr) || addr == REG_RDATA
  }

  function RegisterRead(r: Regs, addr: u32): u32
    requires Readable(addr)
  {
    if addr == REG_CONTROL then r.control
    else if addr == REG_ADDR then r.addr
    else if addr == REG_LEN then r.len
    else if addr == REG_WDATA then r.wdata
    else if addr == REG_RDATA then r.rdata
    else StatusWord(r)
  }

  function CtrlHandler(d: Device, sh: Shape, x: Access): (o: Outcome)
    requires IsDevice(d) && Defined(d.regs, x) && x.addr < CTRL_SPACE
    ensures IsDevice(o.dev) && |o.buf| == |x.buf|
  {
    match x.cmd
    case Write =>
      if Writable(x.addr) then
        var s := RegisterWrite(d, sh, x.addr, WordOf(x));
        Outcome(s.dev, Okay, x.buf, s.ns + CTRL_REG_NS)
      else Outcome(d, AddressError, x.buf, 0)
    case Read =>
      if Readable(x.addr) then
        Outcome(d, Okay, Splice(x.buf, 0, Le32(RegisterRead(d.regs, x.addr))), CTRL_REG_NS)
      else Outcome(d, AddressError, x.buf, 0)
    case Ignore => Outcome(d, CommandError, x.buf, 0)
  }

  function DmaHandler(d: Device, sh: Shape, x: Access): (o: Outcome)
    requires IsDevice(d) && Defined(d.regs, x) && x.addr >= CIM_DATA_REGION
    ensures IsDevice(o.dev) && |o.buf| == |x.buf|
  {
    if !PassesCheck(x.addr, x.len) || x.len == 0 || x.cmd == Ignore then Outcome(d, CommandError, x.buf, 0)
    else
      var t := Transport(d.mem, sh, x.cmd, x.addr, x.buf[..x.len]);
      Outcome(d.(mem := t.mem), Okay, Splice(x.buf, 0, t.data), DmaTransferNs(x.len))
  }

  /** Address routing. */
  function Step(d: Device, sh: Shape, x: Access): (o: Outcome)
    requires IsDevice(d) && Defined(d.regs, x)
    ensures IsDevice(o.dev) && |o.buf| == |x.buf|
  {
    if x.addr < CTRL_SPACE then CtrlHandler(d, sh, x)
    else if x.addr >= CIM_DATA_REGION then DmaHandler(d, sh, x)
    else Outcome(d, AddressError, x.buf, 0)
  }

  /** A word write START to the address of the compute trigger is a compute, .. */
  lemma WriteTriggers(d: Device, sh: Shape, x: Access)
    requires IsDevice(d) && WellFormed(x) && IsStart(x) && Bit(WordOf(x), CTRL_WRITE)
    requires d.regs.len == 4 && d.regs.addr == SRAM_COMPUTE_CMD
    ensures Defined(d.regs, x)
    ensures var o := Step(d, sh, x);
            && o.dev.mem == Computed(d.mem, sh) && o.dev.regs.done && o.dev.regs.err == d.regs.err
            && o.ns == ComputeNs(sh) + CTRL_REG_NS
  {
    var d1 := d.(regs := d.regs.(control := WordOf(x)));
    assert Step(d, sh, x).dev == StartOperation(d1, sh).dev;
  }

  lemma TriggerPasses(len: nat)
    requires 0 < len <= SRAM_SIZE + 1
    ensures PassesCheck(SRAM_COMPUTE_CMD, len)
  {
    assert SRAM_COMPUTE_CMD + len == TWO32 + (len - 1);
  }

  /** .. and so is a burst there in either direction, which leaves its data alone. */
  lemma BurstTriggers(d: Device, sh: Shape, x: Access)
    requires IsDevice(d) && WellFormed(x) && x.addr == SRAM_COMPUTE_CMD && x.cmd != Ignore
    requires 0 < x.len <= SRAM_SIZE + 1
    ensures Defined(d.regs, x)
    ensures Step(d, sh, x) == Outcome(d.(mem := Computed(d.mem, sh)), Okay, x.buf, DmaTransferNs(x.len))
  {
    SpliceSelf(x.buf, x.len);
    TriggerPasses(x.len);
  }

  /** Which accesses are refused, and how: a refused access changes nothing and costs nothing. */
  lemma AccessStatus(d: Device, sh: Shape, x: Access)
    requires IsDevice(d) && Defined(d.regs, x)
    ensures var o := Step(d, sh, x);
            if x.addr < 0x20 then
              if x.cmd == Ignore then o == Outcome(d, CommandError, x.buf, 0)
              else if x.addr in {0x00, 0x04, 0x08, 0x0C, 0x14} || (x.addr == 0x10 && x.cmd == Read) then
                o.status == Okay && o.ns >= 10
              else o == Outcome(d, AddressError, x.buf, 0)
            else if x.addr < 0x1000 then o == Outcome(d, AddressError, x.buf, 0)
            else if (x.addr + x.len) % 0x1_0000_0000 > 4194304 || x.len == 0 || x.cmd == Ignore then
              o == Outcome(d, CommandError, x.buf, 0)
            else o.status == Okay && o.ns == 500 + 5 * x.len
  {
  }

  /** The bits of the status word. */
  lemma StatusBits(r: Regs)
    ensures StatusWord(r) == One(r.busy) + 2 * One(r.done) + 4 * One(r.err)
  {
  }

  /** The bits of a control word are those of its lowest byte. */
  lemma ControlBits(x: Access)
    requires WellFormed(x)
    ensures var b: int := x.buf[0];
            && (IsStart(x) <==> x.cmd == Write && x.addr == 0x00 && b % 2 == 1)
            && (Bit(WordOf(x), CTRL_WRITE) <==> b / 2 % 2 == 1)
            && (Bit(WordOf(x), CTRL_IRQEN) <==> b / 8 % 2 == 1)
            && (Bit(WordOf(x), CTRL_COMPUTE) <==> b / 16 % 2 == 1)
            && (Bit(WordOf(x), STAT_DONE) <==> b / 2 % 2 == 1)
            && (Bit(WordOf(x), STAT_ERR) <==> b / 4 % 2 == 1)
  {
    var b: int, k: int := x.buf[0], x.buf[1] + 0x100 * x.buf[2] as int + 0x1_0000 * x.buf[3] as int;
    WordIs(x.buf, 0, x.buf[..4], WordOf(x));
    LowBits(b, k, WordOf(x));
  }

  lemma LowBits(b: int, k: int, w: int)
    requires 0 <= b < 256 && 0 <= k && w == b + 256 * k
    ensures w % 2 == b % 2 && w / 2 % 2 == b / 2 % 2 && w / 4 % 2 == b / 4 % 2
    ensures w / 8 % 2 == b / 8 % 2 && w / 16 % 2 == b / 16 % 2
  {
    Quotients16(b, k, w);
    SameParity(w, b, 128 * k);
    SameParity(w / 2, b / 2, 64 * k);
    SameParity(w / 4, b / 4, 32 * k);
    SameParity(w / 8, b / 8, 16 * k);
    SameParity(w / 16, b / 16, 8 * k);
  }

  lemma Quotients16(b: int, k: int, w: int)
    requires w == b + 256 * k
    ensures w / 2 == b / 2 + 128 * k && w / 4 == b / 4 + 64 * k
    ensures w / 8 == b / 8 + 32 * k && w / 16 == b / 16 + 16 * k
  {
  }

  lemma SameParity(x: int, y: int, m: int)
    requires x == y + 2 * m
    ensures x % 2 == y % 2
  {
  }

  // ---------------------------------------------------------------- the controller object

  class Controller {
    const sram: Sram
    var regControl: u32
    var regAddr: u32
    var regLen: u32
    var regWdata: u32
    var regRdata: u32
    var busy: bool
    var done: bool
    var err: bool
    var irq: bool

    ghost predicate Valid() {
      sram.Valid()
    }

    function View(): (r: Regs)
      reads this
    {
      Regs(regControl, regAddr, regLen, regWdata, regRdata, busy, done, err, irq)
    }

    ghost function State(): (d: Device)
      requires Valid()
      reads this, sram.mem
      ensures IsDevice(d)
    {
      Device(View(), sram.mem[..])
    }

    constructor (sh: Shape)
      ensures Valid() && sram.shape == sh && fresh(sram.mem)
      ensures State() == Reset()
    {
      sram := new Sram(sh);
      regControl, regAddr, regLen, regWdata, regRdata := 0, 0, 0, 0, 0;
      busy, done, err, irq := false, false, false, false;
      new;
      assert sram.mem[..] == Reset().mem;
    }

    method IrqManager()
      modifies this`irq
      ensures View() == Resample(old(View()))
    {
      irq := Bit(regControl, CTRL_IRQEN) && done;
    }

    method RunOperation() returns (ns: nat)
      requires Valid() && WordDefined(regControl, regAddr, regLen)
      modifies this, sram.mem
      ensures Started(State(), ns) == StartOperation(old(State()), sram.shape)
    {
      if regLen != 4 {
        err := true;
        IrqManager();
        return 0;
      }
      busy := true;
      done := false;
      IrqManager();
      var status, buf;
      if Bit(regControl, CTRL_COMPUTE) {
        status, buf, ns := sram.BTransport(Write, SRAM_COMPUTE_CMD, []);
      } else if Bit(regControl, CTRL_WRITE) {
        status, buf, ns := sram.BTransport(Write, regAddr, Le32(regWdata));
      } else {
        status, buf, ns := sram.BTransport(Read, regAddr, [0, 0, 0, 0]);
        if status == Okay {
          regRdata := FromLe32(buf);
        }
      }
      if status != Okay {
        err := true;
      }
      busy := false;
      done := true;
      IrqManager();
    }

    method WriteRegister(addr: u32, data: u32) returns (ok: bool, ns: nat)
      requires Valid() && StartDefined(View(), addr, data)
      modifies this, sram.mem
      ensures ok <==> Writable(addr)
      ensures Started(State(), ns) == RegisterWrite(old(State()), sram.shape, addr, data)
    {
      ok, ns := true, 0;
      match addr {
        case 0x00 =>
          regControl := data;
          if Bit(data, CTRL_START) {
            ns := RunOperation();
          }
        case 0x04 => regAddr := data;
        case 0x08 => regLen := data;
        case 0x0C => regWdata := data;
        case 0x14 =>
          if Bit(data, STAT_DONE) {
            done := false;
          }
          if Bit(data, STAT_ERR) {
            err := false;
          }
          IrqManager();
        case _ => ok := false;
      }
    }

    method BTransport(x: Access) returns (status: Status, buf: seq<byte>, ns: nat)
      requires Valid() && Defined(View(), x)
      modifies this, sram.mem
      ensures Outcome(State(), status, buf, ns) == Step(old(State()), sram.shape, x)
    {
      if x.addr < CTRL_SPACE {
        status, buf, ns := HandleCtrl(x);
      } else if x.addr >= CIM_DATA_REGION {
        status, buf, ns := HandleDma(x);
      } else {
        return AddressError, x.buf, 0;
      }
    }

    method HandleCtrl(x: Access) returns (status: Status, buf: seq<byte>, ns: nat)
      requires Valid() && Defined(View(), x) && x.addr < CTRL_SPACE
      modifies this, sram.mem
      ensures Outcome(State(), status, buf, ns) == CtrlHandler(old(State()), sram.shape, x)
    {
      buf, ns := x.buf, 0;
      if x.cmd == Write {
        var ok;
        ok, ns := WriteRegister(x.addr, FromLe32(x.buf[..4]));
        if !ok {
          return AddressError, x.buf, 0;
        }
      } else if x.cmd == Read {
        if !Readable(x.addr) {
          return AddressError, x.buf, 0;
        }
        buf := Le32(RegisterRead(View(), x.addr)) + x.buf[4..];
      } else {
        return CommandError, x.buf, 0;
      }
      return Okay, buf, ns + CTRL_REG_NS;
    }

    method HandleDma(x: Access) returns (status: Status, buf: seq<byte>, ns: nat)
      requires Valid() && Defined(View(), x) && x.addr >= CIM_DATA_REGION
      modifies this, sram.mem
      ensures Outcome(State(), status, buf, ns) == DmaHandler(old(State()), sram.shape, x)
    {
      if !PassesCheck(x.addr, x.len) {
        return CommandError, x.buf, 0;
      }
      if x.len == 0 {
        return CommandError, x.buf, 0;
      }
      if x.cmd == Ignore {
        return CommandError, x.buf, 0;
      }
      var data;
      status, data, ns := sram.BTransport(x.cmd, x.addr, x.buf[..x.len]);
      buf := data + x.buf[x.len..];
      // The same range check has passed here, so the SRAM never refuses.
      assert status == Okay;
      return Okay, buf, DmaTransferNs(x.len);
    }
  }

  function Reset(): (d: Device)
    ensures IsDevice(d)
  {
    Device(Regs(0, 0, 0, 0, 0, false, false, false, false), seq(SRAM_SIZE, _ => 0))
  }
}
