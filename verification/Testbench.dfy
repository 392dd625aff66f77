/** The word-at-a-time client of the register interface: its waits never block, and loading a
    vector word by word leaves what one burst would leave. */
module Testbench {
  import opened Bytes
  import opened CimSram
  import opened MemController

  // ---------------------------------------------------------------- packing

  function WordsNeeded(size: nat): nat {
    (size + 3) / 4
  }

  function ByteOrZero(v: seq<byte>, i: nat): byte {
    if i < |v| then v[i] else 0
  }

  /** The first `4 * words` bytes of `v`, filled up with zeros. */
  function Padded(v: seq<byte>, words: nat): (p: seq<byte>)
    ensures |p| == 4 * words
    ensures forall i :: 0 <= i < 4 * words ==> p[i] == ByteOrZero(v, i)
  {
    seq(4 * words, i requires 0 <= i < 4 * words => ByteOrZero(v, i))
  }

  function ShiftWeight(k: nat): nat
    requires k <= 4
  {
    if k == 0 then 1 else if k == 1 then 256 else if k == 2 then 65536 else if k == 3 then 16777216 else TWO32
  }

  function Lane(v: seq<byte>, word: nat, k: nat, i: nat): byte {
    if i < k then ByteOrZero(v, 4 * word + i) else 0
  }

  /** Bytes `4*word` to `4*word+3` of the vector, of which only the first `k` are in yet. */
  function Lanes(v: seq<byte>, word: nat, k: nat): (s: seq<byte>)
    ensures |s| == 4
  {
    [Lane(v, word, k, 0), Lane(v, word, k, 1), Lane(v, word, k, 2), Lane(v, word, k, 3)]
  }

  lemma LaneAdded(v: seq<byte>, word: nat, k: nat)
    requires k < 4
    ensures FromLe32(Lanes(v, word, k)) + ByteOrZero(v, 4 * word + k) * ShiftWeight(k) ==
            FromLe32(Lanes(v, word, k + 1))
  {
  }

  /** One word packed byte by byte, each shifted into place. */
  method PackWord(v: seq<byte>, word: nat) returns (packed: u32)
    ensures Le32(packed) == Lanes(v, word, 4)
  {
    packed := 0;
    for k := 0 to 4
      invariant packed == FromLe32(Lanes(v, word, k))
    {
      var index := 4 * word + k;
      LaneAdded(v, word, k);
      if index < |v| {
        packed := packed + v[index] * ShiftWeight(k);
      }
    }
    EncodeLe32(Lanes(v, word, 4));
  }

  // ---------------------------------------------------------------- register accesses

  method MmioWrite(ctl: Controller, off: u32, value: u32)
    requires ctl.Valid() && Writable(off)
    requires StartDefined(ctl.View(), off, value)
    modifies ctl, ctl.sram.mem
    ensures ctl.State() == RegisterWrite(old(ctl.State()), ctl.sram.shape, off, value).dev
  {
    var b := Le32(value);
    assert b[..4] == b;
    DecodeLe32(value);
    var status, buf, ns := ctl.BTransport(Access(Write, off, b, 4));
  }

  /** `ctrl_wait`. With the line low this blocks; every caller must have it high. */
  method CtrlWait(ctl: Controller)
    requires ctl.Valid() && ctl.irq
    modifies ctl, ctl.sram.mem
    ensures ctl.State() == RegisterWrite(old(ctl.State()), ctl.sram.shape, REG_STATUS, STAT_DONE).dev
    ensures !ctl.irq && !ctl.done
  {
    MmioWrite(ctl, REG_STATUS, STAT_DONE);
  }

  /** One word to SRAM. Completion always raises the line, so the wait does not block, even when
      the word is out of range: then nothing is stored and ERR stays set. */
  method StoreWord(ctl: Controller, addr: u32, word: u32)
    requires ctl.Valid() && addr + 4 < TWO32
    modifies ctl, ctl.sram.mem
    ensures addr + 4 <= SRAM_SIZE ==>
              ctl.sram.mem[..] == Splice(old(ctl.sram.mem[..]), addr, Le32(word)) && ctl.err == old(ctl.err)
    ensures addr + 4 > SRAM_SIZE ==> ctl.sram.mem[..] == old(ctl.sram.mem[..]) && ctl.err
    ensures !ctl.irq && !ctl.done && !ctl.busy
  {
    ghost var d := ctl.State();
    MmioWrite(ctl, REG_ADDR, addr);
    MmioWrite(ctl, REG_LEN, 4);
    MmioWrite(ctl, REG_WDATA, word);
    ghost var e := ctl.State();
    assert e == d.(regs := d.regs.(addr := addr, len := 4, wdata := word));
    MmioWrite(ctl, REG_CONTROL, CTRL_IRQEN + CTRL_WRITE + CTRL_START);
    WordStored(e, ctl.sram.shape);
    CtrlWait(ctl);
  }

  lemma WordStored(d: Device, sh: Shape)
    requires IsDevice(d) && d.regs.len == 4 && d.regs.addr + 4 < TWO32
    ensures var s := RegisterWrite(d, sh, REG_CONTROL, CTRL_IRQEN + CTRL_WRITE + CTRL_START).dev;
            && s.regs.irq && !s.regs.busy
            && (d.regs.addr + 4 <= SRAM_SIZE ==>
                  s.mem == Splice(d.mem, d.regs.addr, Le32(d.regs.wdata)) && s.regs.err == d.regs.err)
            && (d.regs.addr + 4 > SRAM_SIZE ==> s.mem == d.mem && s.regs.err)
  {
    StartStores(d.(regs := d.regs.(control := CTRL_IRQEN + CTRL_WRITE + CTRL_START)), sh);
  }

  lemma StartStores(d: Device, sh: Shape)
    requires IsDevice(d) && d.regs.len == 4 && d.regs.addr + 4 < TWO32 && d.regs.control == 11
    ensures var s, t := StartOperation(d, sh).dev, Transport(d.mem, sh, Write, d.regs.addr, Le32(d.regs.wdata));
            s.regs.irq && !s.regs.busy && s.mem == t.mem && s.regs.err == (d.regs.err || t.status != Okay)
  {
    assert Bit(11, CTRL_WRITE) && !Bit(11, CTRL_COMPUTE) && Bit(11, CTRL_IRQEN);
    var t := Transport(d.mem, sh, Write, d.regs.addr, Le32(d.regs.wdata));
    assert StartOperation(d, sh).dev == Device(Finish(d.regs, t.status), t.mem);
  }

  // ---------------------------------------------------------------- loading a vector

  /** Words that fit between `base` and the end of the memory. */
  function Room(base: nat): nat {
    if base > SRAM_SIZE then 0 else (SRAM_SIZE - base) / 4
  }

  /** Memory after the first `words` words: those that fit are stored. */
  function Loaded(m0: seq<byte>, v: seq<byte>, base: nat, words: nat): (m: seq<byte>)
    requires IsSram(m0)
    ensures IsSram(m)
  {
    var k := Min(words, Room(base));
    if k == 0 then m0 else Splice(m0, base, Padded(v, k))
  }

  lemma LoadOneMore(m0: seq<byte>, v: seq<byte>, base: nat, word: nat, b: seq<byte>)
    requires IsSram(m0) && b == Lanes(v, word, 4)
    ensures base + 4 * word + 4 <= SRAM_SIZE <==> word + 1 <= Room(base)
    ensures Loaded(m0, v, base, word + 1) ==
            if word + 1 <= Room(base) then Splice(Loaded(m0, v, base, word), base + 4 * word, b)
            else Loaded(m0, v, base, word)
  {
    if word + 1 <= Room(base) {
      SpliceAppend(m0, base, Padded(v, word), b);
      PaddedOneMore(v, word, b);
      SpliceNothing(m0, base);
    }
  }

  lemma PaddedOneMore(v: seq<byte>, word: nat, b: seq<byte>)
    requires b == Lanes(v, word, 4)
    ensures Padded(v, word) + b == Padded(v, word + 1)
  {
  }

  lemma SpliceNothing(m: seq<byte>, at: nat)
    requires at <= |m|
    ensures Splice(m, at, []) == m
  {
  }

  /** `load_u8_vector`: words beyond the memory are refused one by one, and leave ERR set. */
  method LoadU8Vector(ctl: Controller, v: seq<byte>, base: u32)
    requires ctl.Valid() && base + 4 * WordsNeeded(|v|) < TWO32
    modifies ctl, ctl.sram.mem
    ensures ctl.sram.mem[..] == Loaded(old(ctl.sram.mem[..]), v, base, WordsNeeded(|v|))
    ensures ctl.err == (old(ctl.err) || WordsNeeded(|v|) > Room(base))
  {
    ghost var m0 := ctl.sram.mem[..];
    for word := 0 to WordsNeeded(|v|)
      invariant ctl.sram.mem[..] == Loaded(m0, v, base, word)
      invariant ctl.err == (old(ctl.err) || word > Room(base))
    {
      var packed := PackWord(v, word);
      LoadOneMore(m0, v, base, word, Le32(packed));
      StoreWord(ctl, base + 4 * word, packed);
    }
  }

  /** Loading leaves the vector in memory where it fits, fills its last word up with zeros, and
      changes at most three bytes past it. */
  lemma LoadTouches(m0: seq<byte>, v: seq<byte>, base: nat, r: seq<byte>)
    requires IsSram(m0) && r == Loaded(m0, v, base, WordsNeeded(|v|))
    ensures forall i :: 0 <= i < SRAM_SIZE && !(base <= i < base + |v| + 3) ==> r[i] == m0[i]
    ensures base + 4 * WordsNeeded(|v|) <= SRAM_SIZE ==> r[base..base + |v|] == v
    ensures base + 4 * WordsNeeded(|v|) <= SRAM_SIZE ==>
              forall i :: base + |v| <= i < base + 4 * WordsNeeded(|v|) ==> r[i] == 0
  {
    var words := WordsNeeded(|v|);
    var k := Min(words, Room(base));
    assert |v| <= 4 * words < |v| + 4;
    if base + 4 * words <= SRAM_SIZE {
      assert k == words;
      assert Padded(v, words)[..|v|] == v;
    }
  }

  /** Where the whole vector fits that is the memory after one burst of the padded vector. */
  lemma LoadEqualsBurst(d: Device, sh: Shape, v: seq<byte>, base: u32)
    requires IsDevice(d) && v != [] && CIM_DATA_REGION <= base && base + 4 * WordsNeeded(|v|) <= SRAM_SIZE
    ensures var p := Padded(v, WordsNeeded(|v|));
            var x := Access(Write, base, p, |p|);
            Defined(d.regs, x) && Step(d, sh, x).dev.mem == Loaded(d.mem, v, base, WordsNeeded(|v|))
  {
    var p := Padded(v, WordsNeeded(|v|));
    assert p[..|p|] == p;
  }

  /** Where it does not, the burst is refused whole. */
  lemma BurstRefused(d: Device, sh: Shape, v: seq<byte>, base: u32)
    requires IsDevice(d) && v != [] && CIM_DATA_REGION <= base
    requires SRAM_SIZE < base + 4 * WordsNeeded(|v|) < TWO32
    ensures var p := Padded(v, WordsNeeded(|v|));
            var x := Access(Write, base, p, |p|);
            Defined(d.regs, x) && Step(d, sh, x).dev == d && Step(d, sh, x).status == CommandError
    ensures WordsNeeded(|v|) > Room(base)
  {
  }
}
