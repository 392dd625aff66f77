/** End to end: user buffers through paged DMA into SRAM, one compute, and the logits back. */
module Inference {
  import opened Bytes
  import opened PageTable
  import opened CimSram
  import opened Bridge
  import opened IrqDriver
  import opened PagedCopy
  import opened CimLibrary
  import opened Reference
  import opened SingleRange

  /** The kernel knows every page of the buffer and all are present. */
  predicate Available(a: Space, v: nat, len: nat)
    requires Sane(a)
  {
    Covered(a, v, len) && AllMapped(a, v, len)
  }

  /** A paged-mode platform on which no completion is outstanding. */
  ghost predicate Calm(p: Platform)
    reads p.irqs
  {
    p.Wired() && p.paged && p.irqs.pending == {} && p.irqs.dmaCount == 0 && p.irqs.ctrlCount == 0
  }

  predicate UserBuffer(v: u64, len: nat, pageSize: nat) {
    v != 0 && len > 0 && v + len + pageSize <= TWO64
  }

  /** Write one buffer: all of it arrives, exactly when it is available. */
  method Stage(p: Platform, dst: u32, src: u64, len: u64) returns (rc: Rc)
    requires Calm(p) && UserBuffer(src, len, p.pageSize) && InRegion(dst, len)
    modifies p, p.irqs, p.bridge.ctl, p.bridge.ctl.sram.mem, p.bridge.payload
    ensures Calm(p)
    ensures rc == CimOk <==> Available(p.Pages(), src, len)
    ensures rc == CimOk ==> p.Mem() == Splice(old(p.Mem()), dst, Load(p.ram[..], p.Pages(), src, len))
  {
    ghost var done;
    SucceedsIff(p.Pages(), src, len, false);
    rc, done := p.CimDmaWriteSram(dst, src, len);
  }

  /** What a store of `b` into a buffer means for a program and for the rest of memory. */
  lemma StoreMeans(ram: seq<byte>, a: Space, v: nat, b: seq<byte>)
    requires Sane(a) && Backed(a, |ram|) && AllMapped(a, v, |b|)
    ensures Injective(a, v, |b|) ==> Load(Store(ram, a, v, b), a, v, |b|) == b
    ensures forall q :: 0 <= q < |ram| && OutsideFrames(a, v, |b|, q) ==> Store(ram, a, v, b)[q] == ram[q]
  {
    BackedInRam(a, v, |b|, |ram|);
    if Injective(a, v, |b|) {
      ScatterGather(ram, a, v, b);
    }
    forall q | 0 <= q < |ram| && OutsideFrames(a, v, |b|, q)
      ensures Store(ram, a, v, b)[q] == ram[q]
    {
      ScatterOutside(ram, a, v, b, q);
    }
  }

  /** Read one buffer: the program then sees exactly the SRAM bytes, and memory outside the frames of
      the buffer is as before. */
  method Fetch(p: Platform, src: u32, dst: u64, len: u64) returns (rc: Rc)
    requires Calm(p) && UserBuffer(dst, len, p.pageSize) && InRegion(src, len)
    modifies p, p.ram, p.irqs, p.bridge.ctl, p.bridge.ctl.sram.mem, p.bridge.payload
    ensures Calm(p) && p.Mem() == old(p.Mem())
    ensures rc == CimOk <==> Available(p.Pages(), dst, len)
    ensures rc == CimOk && Injective(p.Pages(), dst, len) ==>
              Load(p.ram[..], p.Pages(), dst, len) == p.Mem()[src..src + len]
    ensures rc == CimOk ==>
              forall q :: 0 <= q < p.ram.Length && OutsideFrames(p.Pages(), dst, len, q) ==> p.ram[q] == old(p.ram[q])
  {
    ghost var done;
    ghost var r0, b := p.ram[..], p.Mem()[src..src + len];
    SucceedsIff(p.Pages(), dst, len, false);
    rc, done := p.CimDmaReadSram(src, dst, len);
    if rc == CimOk {
      StoreMeans(r0, p.Pages(), dst, b);
      assert p.ram[..] == Store(r0, p.Pages(), dst, b);
    }
  }

  // ---------------------------------------------------------------- single-range transfers

  /** A single-range platform with a quiet DMA channel. */
  ghost predicate CalmSingle(p: Platform)
    reads p.irqs
  {
    p.Wired() && !p.paged && p.irqs.pending == {} && p.irqs.dmaCount == 0
  }

  /** The buffer is present and physically contiguous, and does not start at physical address 0. */
  predicate OneRange(a: Space, v: nat, len: nat)
    requires Sane(a)
  {
    Contiguous(a, v, len) && Phys(a, v) != 0
  }

  lemma RangePlaced(a: Space, v: nat, len: nat, size: nat)
    requires Sane(a) && Backed(a, size) && OneRange(a, v, len) && len > 0
    ensures Mapped(a, v) && Placed(a, v, len, size)
  {
    assert Mapped(a, v);
    RunInRam(a, v, len, size);
  }

  /** For such a source the single-range mode stores the buffer as the paged mode does, in one burst. */
  method StageRange(p: Platform, dst: u32, src: u64, len: u64) returns (rc: Rc)
    requires CalmSingle(p) && src != 0 && InRegion(dst, len) && OneRange(p.Pages(), src, len)
    modifies p, p.irqs, p.bridge.ctl, p.bridge.ctl.sram.mem, p.bridge.payload
    ensures rc == CimOk && p.irqs.pending == {} && |p.log| == old(|p.log|) + 1
    ensures p.Mem() == Splice(old(p.Mem()), dst, Load(p.ram[..], p.Pages(), src, len))
  {
    RangePlaced(p.Pages(), src, len, p.ram.Length);
    SmallMod(len, TWO32);
    ghost var q, ram := Phys(p.Pages(), src), p.ram[..];
    ContiguousSlice(p.Pages(), src, len, ram);
    assert p.ram[q..q + len] == ram[q..q + len];
    ghost var done;
    rc, done := p.CimDmaWriteSram(dst, src, len);
  }

  /** And for such a destination it delivers the bytes, and leaves all other memory alone. */
  method FetchRange(p: Platform, src: u32, dst: u64, len: u64) returns (rc: Rc)
    requires CalmSingle(p) && dst != 0 && InRegion(src, len) && OneRange(p.Pages(), dst, len)
    modifies p, p.ram, p.irqs, p.bridge.ctl, p.bridge.ctl.sram.mem, p.bridge.payload
    ensures rc == CimOk && p.irqs.pending == {} && |p.log| == old(|p.log|) + 1 && p.Mem() == old(p.Mem())
    ensures p.ram[..] == Store(old(p.ram[..]), p.Pages(), dst, p.Mem()[src..src + len])
  {
    RangePlaced(p.Pages(), dst, len, p.ram.Length);
    ghost var done;
    ghost var r0, b := p.ram[..], p.Mem()[src..src + len];
    rc, done := p.CimDmaReadSram(src, dst, len);
    ContiguousFill(p.Pages(), dst, len, r0, b);
    assert FillsBuffer(p.Pages(), dst, r0, b);
  }

  // ---------------------------------------------------------------- round trip

  /** Writing a buffer to SRAM and reading that range into another one, with an unrelated page map
      of its own, copies the first buffer to the second and touches no other physical byte. */
  method RoundTrip(p: Platform, sram: u32, src: u64, dst: u64, len: u64) returns (rc: Rc)
    requires Calm(p) && InRegion(sram, len)
    requires UserBuffer(src, len, p.pageSize) && UserBuffer(dst, len, p.pageSize)
    modifies p, p.ram, p.irqs, p.bridge.ctl, p.bridge.ctl.sram.mem, p.bridge.payload
    ensures Calm(p)
    ensures rc == CimOk <==> Available(p.Pages(), src, len) && Available(p.Pages(), dst, len)
    ensures rc == CimOk && Injective(p.Pages(), dst, len) ==>
              Load(p.ram[..], p.Pages(), dst, len) == Load(old(p.ram[..]), p.Pages(), src, len)
    ensures rc == CimOk ==>
              forall q :: 0 <= q < p.ram.Length && OutsideFrames(p.Pages(), dst, len, q) ==> p.ram[q] == old(p.ram[q])
  {
    rc := Stage(p, sram, src, len);
    if rc != CimOk {
      return;
    }
    ghost var b := Load(p.ram[..], p.Pages(), src, len);
    SpliceSlice(old(p.Mem()), sram, b, len, p.Mem());
    rc := Fetch(p, sram, dst, len);
  }

  // ---------------------------------------------------------------- inference

  /** The three buffers as the program sees them. */
  function UserData(ram: seq<byte>, a: Space, sh: Shape, vw: nat, vb: nat, vx: nat): (u: Buffers)
    requires Sane(a) && Backed(a, |ram|)
    requires AllMapped(a, vw, sh.m * sh.n) && AllMapped(a, vb, 4 * sh.m) && AllMapped(a, vx, sh.n)
    ensures Sized(u, sh)
  {
    Buffers(Load(ram, a, vw, sh.m * sh.n), Load(ram, a, vb, 4 * sh.m), Load(ram, a, vx, sh.n))
  }

  predicate AllAvailable(a: Space, sh: Shape, vw: nat, vb: nat, vx: nat)
    requires Sane(a)
  {
    Available(a, vw, sh.m * sh.n) && Available(a, vb, 4 * sh.m) && Available(a, vx, sh.n)
  }

  predicate Addressable(sh: Shape, pageSize: nat, vw: u64, vb: u64, vx: u64) {
    UserBuffer(vw, sh.m * sh.n, pageSize) && UserBuffer(vb, 4 * sh.m, pageSize) && UserBuffer(vx, sh.n, pageSize)
  }

  /** Weights, biases and input to their regions. */
  method StageAll(p: Platform, sh: Shape, vw: u64, vb: u64, vx: u64) returns (rc: Rc)
    requires Calm(p) && Fits(sh) && Addressable(sh, p.pageSize, vw, vb, vx)
    modifies p, p.irqs, p.bridge.ctl, p.bridge.ctl.sram.mem, p.bridge.payload
    ensures Calm(p)
    ensures rc == CimOk <==> AllAvailable(p.Pages(), sh, vw, vb, vx)
    ensures rc == CimOk ==> Holds(p.Mem(), sh, UserData(p.ram[..], p.Pages(), sh, vw, vb, vx))
  {
    ghost var m0 := p.Mem();
    rc := Stage(p, WEIGHT_BASE, vw, sh.m * sh.n);
    if rc != CimOk {
      return;
    }
    ghost var m1 := p.Mem();
    rc := Stage(p, BiasBase(sh), vb, 4 * sh.m);
    if rc != CimOk {
      return;
    }
    ghost var m2 := p.Mem();
    rc := Stage(p, InputBase(sh), vx, sh.n);
    if rc == CimOk {
      Staged(m0, sh, UserData(p.ram[..], p.Pages(), sh, vw, vb, vx), m1, m2, p.Mem());
    }
  }

  /** Output bytes of a device that holds `u`: one little-endian word per reference sum. */
  predicate AreLogits(bytes: seq<byte>, u: Buffers, sh: Shape)
    requires Sized(u, sh) && |bytes| == 4 * sh.m
  {
    forall i :: 0 <= i < sh.m ==> WordAt(bytes, i) == Wrap32(Hypothesis(u, sh, i))
  }

  function WordAt(bytes: seq<byte>, i: nat): int
    requires 4 * i + 4 <= |bytes|
  {
    Signed(FromLe32(bytes[4 * i..4 * i + 4]))
  }

  lemma LogitBytesAreLogits(mem: seq<byte>, sh: Shape, u: Buffers)
    requires IsSram(mem) && Fits(sh) && Sized(u, sh) && Holds(mem, sh, u)
    ensures AreLogits(LogitBytes(mem, sh, sh.m), Clamped(u), sh)
  {
    forall i | 0 <= i < sh.m
      ensures WordAt(LogitBytes(mem, sh, sh.m), i) == Wrap32(Hypothesis(Clamped(u), sh, i))
    {
      LogitBytesAt(mem, sh, sh.m, i);
      DeviceAgrees(mem, sh, u, i);
      DecodeLe32(ToU32(Logit(mem, sh, i)));
    }
  }

  /** Weights, biases and input in, one compute, logits out. It succeeds exactly when all four
      buffers are available, and then the output buffer holds the CPU's logits of the data that was
      in the input buffers (clamped to four bits, where it was not four-bit data), and memory outside
      its frames is as before. */
  method Infer(p: Platform, sh: Shape, vw: u64, vb: u64, vx: u64, vout: u64) returns (rc: Rc)
    requires Calm(p) && sh == p.bridge.ctl.sram.shape && Fits(sh)
    requires Addressable(sh, p.pageSize, vw, vb, vx) && UserBuffer(vout, 4 * sh.m, p.pageSize)
    modifies p, p.ram, p.irqs, p.bridge.ctl, p.bridge.ctl.sram.mem, p.bridge.payload
    ensures Calm(p)
    ensures rc == CimOk <==> AllAvailable(p.Pages(), sh, vw, vb, vx) && Available(p.Pages(), vout, 4 * sh.m)
    ensures rc == CimOk ==>
              var u := UserData(old(p.ram[..]), p.Pages(), sh, vw, vb, vx);
              Injective(p.Pages(), vout, 4 * sh.m) ==>
                && AreLogits(Load(p.ram[..], p.Pages(), vout, 4 * sh.m), Clamped(u), sh)
                && (FourBit(u) ==> AreLogits(Load(p.ram[..], p.Pages(), vout, 4 * sh.m), u, sh))
    ensures rc == CimOk ==>
              forall q :: 0 <= q < p.ram.Length && OutsideFrames(p.Pages(), vout, 4 * sh.m, q) ==>
                p.ram[q] == old(p.ram[q])
  {
    rc := StageAll(p, sh, vw, vb, vx);
    if rc != CimOk {
      return;
    }
    ghost var m := p.Mem();
    rc := p.CimCompute();
    rc := Finish(p, sh, vout, m);
    if rc == CimOk {
      ghost var u := UserData(old(p.ram[..]), p.Pages(), sh, vw, vb, vx);
      LogitBytesAreLogits(m, sh, u);
      ClampedIffFourBit(u);
    }
  }

  /** Read the output region of a computed memory. */
  method Finish(p: Platform, sh: Shape, vout: u64, ghost m: seq<byte>) returns (rc: Rc)
    requires Calm(p) && sh == p.bridge.ctl.sram.shape && Fits(sh) && UserBuffer(vout, 4 * sh.m, p.pageSize)
    requires IsSram(m) && p.Mem() == Computed(m, sh)
    modifies p, p.ram, p.irqs, p.bridge.ctl, p.bridge.ctl.sram.mem, p.bridge.payload
    ensures Calm(p)
    ensures rc == CimOk <==> Available(p.Pages(), vout, 4 * sh.m)
    ensures rc == CimOk && Injective(p.Pages(), vout, 4 * sh.m) ==>
              Load(p.ram[..], p.Pages(), vout, 4 * sh.m) == LogitBytes(m, sh, sh.m)
    ensures rc == CimOk ==>
              forall q :: 0 <= q < p.ram.Length && OutsideFrames(p.Pages(), vout, 4 * sh.m, q) ==>
                p.ram[q] == old(p.ram[q])
  {
    var src, len := OutputBase(sh), 4 * sh.m;
    OutputInRegion(sh, src, len);
    OutputBytes(m, sh, src, len, p.Mem());
    rc := Fetch(p, src, vout, len);
  }

  lemma OutputInRegion(sh: Shape, src: nat, len: nat)
    requires Fits(sh) && sh.m > 0 && src == OutputBase(sh) && len == 4 * sh.m
    ensures InRegion(src, len)
  {
  }

  lemma OutputBytes(m: seq<byte>, sh: Shape, src: nat, len: nat, r: seq<byte>)
    requires IsSram(m) && Fits(sh) && src == OutputBase(sh) && len == 4 * sh.m && r == Computed(m, sh)
    ensures src + len <= |r| && r[src..src + len] == LogitBytes(m, sh, sh.m)
  {
    SpliceSlice(m, src, LogitBytes(m, sh, sh.m), len, r);
  }
}
