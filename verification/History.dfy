/** Whole runs of the memory controller: every register as a function of what was accessed
    before, the interrupt line, and the simulated time. */
module History {
  import opened Bytes
  import opened CimSram
  import opened MemController

  /** The accesses since reset, latest last. */
  datatype Trace = Start | Then(past: Trace, x: Access)

  function After(t: Trace, sh: Shape): (d: Device)
    requires AllDefined(t, sh)
    ensures IsDevice(d)
    decreases t, 1
  {
    match t
    case Start => Reset()
    case Then(past, x) => Step(After(past, sh), sh, x).dev
  }

  predicate AllDefined(t: Trace, sh: Shape)
    decreases t, 0
  {
    t.Then? ==> AllDefined(t.past, sh) && Defined(After(t.past, sh).regs, t.x)
  }

  // ---------------------------------------------------------------- reading the history

  predicate WritesTo(x: Access, reg: u32) {
    x.cmd == Write && x.addr == reg
  }

  predicate AllWellFormed(t: Trace) {
    t.Then? ==> WellFormed(t.x) && AllWellFormed(t.past)
  }

  /** The last word written to a register, 0 if there was none. */
  function LastWrite(t: Trace, reg: u32): u32
    requires AllWellFormed(t)
  {
    match t
    case Start => 0
    case Then(past, x) => if WritesTo(x, reg) then WordOf(x) else LastWrite(past, reg)
  }

  /** A START that the controller accepts: the transfer length is one word. */
  predicate RunsOperation(past: Trace, x: Access)
    requires AllWellFormed(past) && WellFormed(x)
  {
    IsStart(x) && LastWrite(past, REG_LEN) == 4
  }

  predicate WordInRange(past: Trace)
    requires AllWellFormed(past)
  {
    LastWrite(past, REG_ADDR) + 4 <= SRAM_SIZE
  }

  /** A START that computes: by its command bit, or as a write to the address of the compute trigger. */
  predicate Computes(past: Trace, x: Access)
    requires AllWellFormed(past) && WellFormed(x)
  {
    Triggers(WordOf(x), LastWrite(past, REG_ADDR))
  }

  /** A START that fails: wrong length, or a word outside the memory. */
  predicate FailsOperation(past: Trace, x: Access)
    requires AllWellFormed(past) && WellFormed(x)
  {
    && IsStart(x)
    && (LastWrite(past, REG_LEN) != 4 || (!Computes(past, x) && !WordInRange(past)))
  }

  /** A START that loads `RDATA`. */
  predicate LoadsWord(past: Trace, x: Access)
    requires AllWellFormed(past) && WellFormed(x)
  {
    RunsOperation(past, x) && LoadsRdata(WordOf(x), LastWrite(past, REG_ADDR))
  }

  predicate Clears(x: Access, bit: nat)
    requires WellFormed(x) && bit > 0
  {
    WritesTo(x, REG_STATUS) && Bit(WordOf(x), bit)
  }

  /** DONE: of the accepted STARTs and the write-1-to-clears of DONE, the latest is a START. */
  predicate DoneSince(t: Trace)
    requires AllWellFormed(t)
  {
    t.Then? &&
    (RunsOperation(t.past, t.x) || (!Clears(t.x, STAT_DONE) && DoneSince(t.past)))
  }

  /** ERR: some START failed since the last write-1-to-clear of ERR. */
  predicate FailedSince(t: Trace)
    requires AllWellFormed(t)
  {
    t.Then? &&
    (FailsOperation(t.past, t.x) || (!Clears(t.x, STAT_ERR) && FailedSince(t.past)))
  }

  /** The word loaded by the latest successful read START. */
  function LoadedWord(t: Trace, sh: Shape): u32
    requires AllWellFormed(t) && AllDefined(t, sh)
  {
    match t
    case Start => 0
    case Then(past, x) =>
      if LoadsWord(past, x)
      then var a := LastWrite(past, REG_ADDR); FromLe32(After(past, sh).mem[a..a + 4])
      else LoadedWord(past, sh)
  }

  /** The control word at the latest moment the interrupt manager looked. */
  function SampledControl(t: Trace): u32
    requires AllWellFormed(t)
  {
    match t
    case Start => 0
    case Then(past, x) =>
      if IsStart(x) || WritesTo(x, REG_STATUS) then LastWrite(t, REG_CONTROL) else SampledControl(past)
  }

  function RegsOf(t: Trace, sh: Shape): Regs
    requires AllWellFormed(t) && AllDefined(t, sh)
  {
    Regs(LastWrite(t, REG_CONTROL), LastWrite(t, REG_ADDR), LastWrite(t, REG_LEN), LastWrite(t, REG_WDATA),
         LoadedWord(t, sh), false, DoneSince(t), FailedSince(t),
         DoneSince(t) && Bit(SampledControl(t), CTRL_IRQEN))
  }

  lemma {:induction false} DefinedWellFormed(t: Trace, sh: Shape)
    requires AllDefined(t, sh)
    ensures AllWellFormed(t)
  {
    if t.Then? {
      DefinedWellFormed(t.past, sh);
    }
  }

  /** In every reachable quiescent state BUSY is clear and all the other registers, the status
      bits and the interrupt line are these functions of the history. */
  lemma {:induction false} RegistersFollowHistory(t: Trace, sh: Shape)
    requires AllDefined(t, sh) && AllWellFormed(t)
    ensures After(t, sh).regs == RegsOf(t, sh)
  {
    if t.Then? {
      RegistersFollowHistory(t.past, sh);
      StepFollows(t.past, t.x, sh);
    }
  }

  lemma StepFollows(past: Trace, x: Access, sh: Shape)
    requires AllDefined(Then(past, x), sh) && AllWellFormed(Then(past, x))
    requires After(past, sh).regs == RegsOf(past, sh)
    ensures Step(After(past, sh), sh, x).dev.regs == RegsOf(Then(past, x), sh)
  {
    if IsStart(x) {
      StartFollows(past, x, sh);
    } else if x.cmd == Write && x.addr < CTRL_SPACE {
      WriteFollows(past, x, sh);
    } else {
      OtherFollows(past, x, sh);
    }
  }

  lemma OtherFollows(past: Trace, x: Access, sh: Shape)
    requires AllDefined(Then(past, x), sh) && AllWellFormed(Then(past, x))
    requires !(x.cmd == Write && x.addr < CTRL_SPACE)
    requires After(past, sh).regs == RegsOf(past, sh)
    ensures Step(After(past, sh), sh, x).dev.regs == RegsOf(past, sh) == RegsOf(Then(past, x), sh)
  {
  }

  lemma WriteFollows(past: Trace, x: Access, sh: Shape)
    requires AllDefined(Then(past, x), sh) && AllWellFormed(Then(past, x)) && !IsStart(x)
    requires x.cmd == Write && x.addr < CTRL_SPACE
    requires After(past, sh).regs == RegsOf(past, sh)
    ensures Step(After(past, sh), sh, x).dev.regs == RegsOf(Then(past, x), sh)
  {
    var d := After(past, sh);
    assert Step(d, sh, x).dev == if Writable(x.addr) then RegisterWrite(d, sh, x.addr, WordOf(x)).dev else d;
  }

  lemma StartFollows(past: Trace, x: Access, sh: Shape)
    requires AllDefined(Then(past, x), sh) && AllWellFormed(Then(past, x)) && IsStart(x)
    requires After(past, sh).regs == RegsOf(past, sh)
    ensures Step(After(past, sh), sh, x).dev.regs == RegsOf(Then(past, x), sh)
  {
    var d := After(past, sh);
    var d1 := d.(regs := d.regs.(control := WordOf(x)));
    assert Step(d, sh, x).dev == StartOperation(d1, sh).dev;
    StartRegs(d1, sh);
  }

  /** What a client reads: the status word has 2 for DONE and 4 for ERR, RDATA the word of the latest
      successful read START, and every other register the last word written to it. */
  lemma RegisterReadBack(t: Trace, sh: Shape, x: Access)
    requires AllDefined(t, sh) && AllWellFormed(t) && WellFormed(x)
    requires x.cmd == Read && x.addr in {0x00, 0x04, 0x08, 0x0C, 0x10, 0x14}
    ensures Defined(After(t, sh).regs, x)
    ensures var o := Step(After(t, sh), sh, x);
            && o.dev == After(t, sh) && o.status == Okay && o.ns == 10 && o.buf[4..] == x.buf[4..]
            && IsWord(o.buf, 0,
                 if x.addr == 0x14 then (if DoneSince(t) then 2 else 0) + (if FailedSince(t) then 4 else 0)
                 else if x.addr == 0x10 then LoadedWord(t, sh)
                 else LastWrite(t, x.addr))
  {
    RegistersFollowHistory(t, sh);
    var v := RegisterRead(After(t, sh).regs, x.addr);
    var b := Splice(x.buf, 0, Le32(v));
    assert Step(After(t, sh), sh, x) == Outcome(After(t, sh), Okay, b, 10);
    assert b[..4] == Le32(v);
    WordIs(b, 0, b[..4], v);
  }

  // ---------------------------------------------------------------- the interrupt line

  predicate WantsIrq(r: Regs) {
    Bit(r.control, CTRL_IRQEN) && r.done
  }

  /** The line can be stale, exactly while DONE is set and the enable bit differs from the one last
      sampled. */
  lemma LineExactWhen(t: Trace, sh: Shape)
    requires AllDefined(t, sh) && AllWellFormed(t)
    ensures var r := After(t, sh).regs;
            r.irq == WantsIrq(r) <==>
            (r.done ==> Bit(SampledControl(t), CTRL_IRQEN) == Bit(r.control, CTRL_IRQEN))
  {
    RegistersFollowHistory(t, sh);
  }

  /** Every write to REG_CONTROL carries START, as in all library calls. */
  predicate AlwaysStarts(t: Trace)
    requires AllWellFormed(t)
  {
    t.Then? ==> AlwaysStarts(t.past) && (IsControlWrite(t.x) ==> IsStart(t.x))
  }

  lemma {:induction false} SampledIsControl(t: Trace)
    requires AllWellFormed(t) && AlwaysStarts(t)
    ensures SampledControl(t) == LastWrite(t, REG_CONTROL)
  {
    if t.Then? {
      SampledIsControl(t.past);
    }
  }

  /** In such runs the line always equals IRQEN && DONE. */
  lemma LineFollowsStatus(t: Trace, sh: Shape)
    requires AllDefined(t, sh) && AllWellFormed(t) && AlwaysStarts(t)
    ensures After(t, sh).regs.irq == WantsIrq(After(t, sh).regs)
  {
    SampledIsControl(t);
    LineExactWhen(t, sh);
  }

  function WriteReg(reg: u32, w: u32): Access {
    Access(Write, reg, Le32(w), 4)
  }

  /** Without that discipline it need not: enabling the interrupt after a completion that was not
      sampled with the enable bit, in a write without START, leaves the line low. */
  lemma LateEnableIsStale(t: Trace, sh: Shape, w: u32)
    requires AllDefined(t, sh) && AllWellFormed(t)
    requires After(t, sh).regs.done && !After(t, sh).regs.irq
    requires Bit(w, CTRL_IRQEN) && !Bit(w, CTRL_START)
    ensures var u := Then(t, WriteReg(REG_CONTROL, w));
            AllDefined(u, sh) && !After(u, sh).regs.irq && WantsIrq(After(u, sh).regs)
  {
    var u := Then(t, WriteReg(REG_CONTROL, w));
    DecodeLe32(w);
    assert u.x.buf[..4] == Le32(w);
  }

  /** Such a state is reachable: one compute without the enable bit. */
  lemma StaleLine(sh: Shape)
    ensures exists t: Trace :: AllDefined(t, sh) && !After(t, sh).regs.irq && WantsIrq(After(t, sh).regs)
  {
    var t1 := Then(Start, WriteReg(REG_LEN, 4));
    assert WordOf(t1.x) == 4;
    assert AllDefined(t1, sh) && After(t1, sh).regs.len == 4;
    var t2 := Then(t1, WriteReg(REG_CONTROL, CTRL_COMPUTE + CTRL_START));
    assert WordOf(t2.x) == 17;
    assert AllDefined(t2, sh) && After(t2, sh).regs.done && !After(t2, sh).regs.irq;
    LateEnableIsStale(t2, sh, CTRL_IRQEN);
  }

  // ---------------------------------------------------------------- simulated time

  function TotalNs(t: Trace, sh: Shape): nat
    requires AllDefined(t, sh)
  {
    match t
    case Start => 0
    case Then(past, x) => TotalNs(past, sh) + Step(After(past, sh), sh, x).ns
  }

  /** What a session is billed for. */
  datatype Bill = Bill(registers: nat, words: nat, computes: nat, bursts: nat, burstBytes: nat)

  predicate AcceptedRegister(x: Access) {
    x.addr < CTRL_SPACE && ((x.cmd == Write && Writable(x.addr)) || (x.cmd == Read && Readable(x.addr)))
  }

  predicate AcceptedBurst(x: Access) {
    x.addr >= CIM_DATA_REGION && x.cmd != Ignore && 0 < x.len && PassesCheck(x.addr, x.len)
  }

  function BillOf(t: Trace): Bill
    requires AllWellFormed(t)
  {
    match t
    case Start => Bill(0, 0, 0, 0, 0)
    case Then(past, x) =>
      var b := BillOf(past);
      var runs, compute := RunsOperation(past, x), Computes(past, x);
      Bill(b.registers + One(AcceptedRegister(x)),
           b.words + One(runs && !compute && WordInRange(past)),
           b.computes + One(runs && compute),
           b.bursts + One(AcceptedBurst(x)),
           b.burstBytes + if AcceptedBurst(x) then x.len else 0)
  }

  function Cost(b: Bill, sh: Shape): nat {
    10 * b.registers + 10 * b.words + ComputeNs(sh) * b.computes + 500 * b.bursts + 5 * b.burstBytes
  }

  /** A session's simulated time is the sum of its accepted accesses; rejected ones are free. */
  lemma {:induction false} TimeAccounting(t: Trace, sh: Shape)
    requires AllDefined(t, sh) && AllWellFormed(t)
    ensures TotalNs(t, sh) == Cost(BillOf(t), sh)
  {
    if t.Then? {
      TimeAccounting(t.past, sh);
      RegistersFollowHistory(t.past, sh);
      StepNs(t.past, t.x, sh);
      CostStep(t.past, t.x, sh);
    }
  }

  /** The price of one access. */
  function Price(past: Trace, x: Access, sh: Shape): nat
    requires AllWellFormed(past) && WellFormed(x)
  {
    var runs, compute := RunsOperation(past, x), Computes(past, x);
    10 * One(AcceptedRegister(x)) + 10 * One(runs && !compute && WordInRange(past))
    + (if runs && compute then ComputeNs(sh) else 0)
    + (if AcceptedBurst(x) then 500 + 5 * x.len else 0)
  }

  lemma CostStep(past: Trace, x: Access, sh: Shape)
    requires AllWellFormed(Then(past, x))
    ensures Cost(BillOf(Then(past, x)), sh) == Cost(BillOf(past), sh) + Price(past, x, sh)
  {
    ComputeCost(ComputeNs(sh), BillOf(past).computes, RunsOperation(past, x) && Computes(past, x));
  }

  lemma ComputeCost(ns: nat, k: nat, d: bool)
    ensures ns * (k + One(d)) == ns * k + if d then ns else 0
  {
  }

  lemma StepNs(past: Trace, x: Access, sh: Shape)
    requires AllDefined(Then(past, x), sh) && AllWellFormed(Then(past, x))
    requires After(past, sh).regs == RegsOf(past, sh)
    ensures Step(After(past, sh), sh, x).ns == Price(past, x, sh)
  {
    if IsStart(x) {
      var d := After(past, sh);
      var d1 := d.(regs := d.regs.(control := WordOf(x)));
      assert Step(d, sh, x).ns == StartOperation(d1, sh).ns + 10;
      StartNs(d1, sh);
    }
  }
}
