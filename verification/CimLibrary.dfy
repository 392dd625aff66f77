/** The userspace library on a platform: physical memory, the emulated DMA engine, the bridge with
    controller and SRAM behind it, and the kernel driver's completion counters. */
module CimLibrary {
  import opened Bytes
  import opened PageTable
  import opened Coalescing
  import opened CimSram
  import opened MemController
  import opened Bridge
  import opened IrqDriver
  import opened PagedCopy

  class Platform {
    const bridge: BridgeServer
    const irqs: ScDev
    const ram: array<byte>
    const pageSize: nat
    const pagemap: seq<u64>
    const paged: bool
    var dmaSrcLo: u32
    var dmaSrcHi: u32
    var dmaDst: u32
    var dmaLen: u32
    ghost var log: seq<Burst>
    ghost var busNs: nat

    function Pages(): Space {
      Space(pageSize, DecodeEntries(pagemap))
    }

    /** Frames exist and the memories are distinct objects. Nothing here can change. */
    ghost predicate Wired() {
      && bridge.Valid()
      && ram != bridge.payload && ram != bridge.ctl.sram.mem
      && ram.Length <= TWO64 && irqs.readable && irqs.copies
      && Sane(Pages()) && Backed(Pages(), ram.Length)
    }

    /** The driver has no interrupt left to handle, and one more completion does not wrap the counter
        of the channel. */
    ghost predicate Quiet(c: Channel)
      reads irqs
    {
      irqs.pending == {} && irqs.Counts().At(c) < UINT32_MAX
    }

    ghost function Mem(): (m: seq<byte>)
      requires bridge.Valid()
      reads bridge.ctl.sram.mem
      ensures IsSram(m)
    {
      bridge.ctl.sram.mem[..]
    }

    constructor (sh: Shape, ramSize: nat, pageSize: nat, pagemap: seq<u64>, paged: bool)
      requires ramSize <= TWO64 && Sane(Space(pageSize, DecodeEntries(pagemap)))
      requires Backed(Space(pageSize, DecodeEntries(pagemap)), ramSize)
      ensures Wired() && irqs.pending == {} && log == [] && busNs == 0 && irqs.Counts() == Tri(0, 0, 0)
      ensures bridge.ctl.sram.shape == sh && bridge.ctl.State() == Reset()
      ensures ram.Length == ramSize && this.pageSize == pageSize && this.pagemap == pagemap && this.paged == paged
    {
      bridge := new BridgeServer(sh);
      irqs := new ScDev(true, true);
      ram := new byte[ramSize](_ => 0);
      this.pageSize, this.pagemap, this.paged := pageSize, pagemap, paged;
      dmaSrcLo, dmaSrcHi, dmaDst, dmaLen := 0, 0, 0, 0;
      log, busNs := [], 0;
    }

    // ------------------------------------------------------------ the DMA engine

    /** One completion interrupt. */
    method Complete(c: Channel)
      requires Quiet(c)
      modifies irqs
      ensures irqs.pending == {} && irqs.signals == old(irqs.signals)
      ensures irqs.Counts() == old(irqs.Counts()).Put(c, old(irqs.Counts()).At(c) + 1)
    {
      irqs.Raise(c);
      var handled := irqs.Isr({});
    }

    /** One block write message to the bridge. */
    method SendBlock(dst: u32, body: seq<byte>) returns (ghost ns: nat)
      requires bridge.Valid() && InRegion(dst, |body|)
      modifies bridge.ctl, bridge.ctl.sram.mem, bridge.payload
      ensures bridge.ctl.View() == old(bridge.ctl.View()) && Mem() == Splice(old(Mem()), dst, body)
      ensures ns == DmaTransferNs(|body|)
    {
      var h := BlockRequest(true, dst, |body|);
      BlockWrite(bridge.State(), bridge.ctl.sram.shape, dst, body, h);
      var answer, data := bridge.Handle(h, body);
      ns := answer.simulatedNs;
    }

    /** One block read message. */
    method FetchBlock(src: u32, len: u32) returns (data: seq<byte>, ghost ns: nat)
      requires bridge.Valid() && InRegion(src, len)
      modifies bridge.ctl, bridge.ctl.sram.mem, bridge.payload
      ensures bridge.ctl.View() == old(bridge.ctl.View()) && Mem() == old(Mem())
      ensures data == Mem()[src..src + len] && ns == DmaTransferNs(len)
    {
      var h := BlockRequest(false, src, len);
      BlockRead(bridge.State(), bridge.ctl.sram.shape, src, len, h);
      var answer;
      answer, data := bridge.Handle(h, []);
      ns := answer.simulatedNs;
    }

    method CopyToRam(p: nat, data: seq<byte>)
      requires p + |data| <= ram.Length
      modifies ram
      ensures ram[..] == Splice(old(ram[..]), p, data)
    {
      forall k | 0 <= k < |data| {
        ram[p + k] := data[k];
      }
    }

    /** Memory to SRAM, as the registers say; then one completion. */
    method StartDmaWrite()
      requires Wired() && Quiet(Dma)
      requires dmaSrcLo + TWO32 * dmaSrcHi + dmaLen <= ram.Length && InRegion(dmaDst, dmaLen)
      modifies this`log, this`busNs, irqs, bridge.ctl, bridge.ctl.sram.mem, bridge.payload
      ensures irqs.pending == {} && bridge.ctl.View() == old(bridge.ctl.View())
      ensures var p := dmaSrcLo + TWO32 * dmaSrcHi;
              Mem() == Splice(old(Mem()), dmaDst, ram[p..p + dmaLen]) &&
              log == old(log) + [Burst(p, dmaDst, dmaLen)]
      ensures busNs == old(busNs) + 500 + 5 * dmaLen
      ensures irqs.Counts() == old(irqs.Counts()).Put(Dma, old(irqs.Counts()).At(Dma) + 1)
    {
      var p := dmaSrcLo + TWO32 * dmaSrcHi;
      ghost var ns := SendBlock(dmaDst, ram[p..p + dmaLen]);
      Complete(Dma);
      log, busNs := log + [Burst(p, dmaDst, dmaLen)], busNs + ns;
    }

    /** SRAM to memory. */
    method StartDmaRead()
      requires Wired() && Quiet(Dma)
      requires dmaSrcLo + TWO32 * dmaSrcHi + dmaLen <= ram.Length && InRegion(dmaDst, dmaLen)
      modifies this`log, this`busNs, ram, irqs, bridge.ctl, bridge.ctl.sram.mem, bridge.payload
      ensures irqs.pending == {} && bridge.ctl.View() == old(bridge.ctl.View()) && Mem() == old(Mem())
      ensures var p := dmaSrcLo + TWO32 * dmaSrcHi;
              ram[..] == Splice(old(ram[..]), p, Mem()[dmaDst..dmaDst + dmaLen]) &&
              log == old(log) + [Burst(p, dmaDst, dmaLen)]
      ensures busNs == old(busNs) + 500 + 5 * dmaLen
      ensures irqs.Counts() == old(irqs.Counts()).Put(Dma, old(irqs.Counts()).At(Dma) + 1)
    {
      var p := dmaSrcLo + TWO32 * dmaSrcHi;
      var data;
      ghost var ns;
      data, ns := FetchBlock(dmaDst, dmaLen);
      CopyToRam(p, data);
      Complete(Dma);
      log, busNs := log + [Burst(p, dmaDst, dmaLen)], busNs + ns;
    }

    // ------------------------------------------------------------ one transaction

    method DmaTransferSinglePhys(srcPhys: u64, dstSram: u32, len: u32) returns (rc: Rc)
      requires Wired() && Quiet(Dma)
      requires len > 0 ==> srcPhys + len <= ram.Length && InRegion(dstSram, len)
      modifies this, irqs, bridge.ctl, bridge.ctl.sram.mem, bridge.payload
      ensures irqs.pending == {} && bridge.ctl.View() == old(bridge.ctl.View())
      ensures len == 0 ==> rc == Inval && Mem() == old(Mem()) && log == old(log) && busNs == old(busNs) &&
                           irqs.Counts() == old(irqs.Counts())
      ensures len > 0 ==>
                && rc == (if old(irqs.dmaCount) == 0 then CimOk else Proto)
                && Mem() == Splice(old(Mem()), dstSram, ram[srcPhys..srcPhys + len])
                && log == old(log) + [Burst(srcPhys, dstSram, len)] && busNs == old(busNs) + 500 + 5 * len
                && irqs.Counts() == old(irqs.Counts()).Put(Dma, 0)
    {
      if len == 0 {
        return Inval;
      }
      Halves(srcPhys);
      dmaSrcLo := srcPhys % TWO32;
      dmaSrcHi := srcPhys / TWO32;
      dmaDst := dstSram;
      dmaLen := len;
      StartDmaWrite();
      rc := irqs.WaitOneIrq(Dma);
    }

    method DmaReadSinglePhys(srcSram: u32, dstPhys: u64, len: u32) returns (rc: Rc)
      requires Wired() && Quiet(Dma)
      requires len > 0 ==> dstPhys + len <= ram.Length && InRegion(srcSram, len)
      modifies this, ram, irqs, bridge.ctl, bridge.ctl.sram.mem, bridge.payload
      ensures irqs.pending == {} && bridge.ctl.View() == old(bridge.ctl.View()) && Mem() == old(Mem())
      ensures len == 0 ==> rc == Inval && ram[..] == old(ram[..]) && log == old(log) && busNs == old(busNs) &&
                           irqs.Counts() == old(irqs.Counts())
      ensures len > 0 ==>
                && rc == (if old(irqs.dmaCount) == 0 then CimOk else Proto)
                && ram[..] == Splice(old(ram[..]), dstPhys, Mem()[srcSram..srcSram + len])
                && log == old(log) + [Burst(dstPhys, srcSram, len)] && busNs == old(busNs) + 500 + 5 * len
                && irqs.Counts() == old(irqs.Counts()).Put(Dma, 0)
    {
      if len == 0 {
        return Inval;
      }
      Halves(dstPhys);
      dmaSrcLo := dstPhys % TWO32;
      dmaSrcHi := dstPhys / TWO32;
      dmaDst := srcSram;
      dmaLen := len;
      StartDmaRead();
      rc := irqs.WaitOneIrq(Dma);
    }

    // ------------------------------------------------------------ paged transfers

    /** One transaction of a paged write whose first `done` bytes are in place. */
    method WriteChunk(ghost j: Copy, phys: nat, sram: u32, c: u32, ghost m0: seq<byte>, ghost done: nat,
                      ghost done': nat)
      returns (rc: Rc)
      requires Wired() && Quiet(Dma) && j.a == Pages() && IsSram(m0) && InRegion(j.sram, j.len)
      requires 0 < c && done' == done + c <= j.len && sram == j.sram + done && phys == Phys(j.a, j.v + done)
      requires AllMapped(j.a, j.v, done') && Contiguous(j.a, j.v + done, c)
      requires Written(j, m0, done)
      modifies this, irqs, bridge.ctl, bridge.ctl.sram.mem, bridge.payload
      ensures irqs.pending == {} && bridge.ctl.View() == old(bridge.ctl.View())
      ensures Written(j, m0, done')
      ensures rc == (if old(irqs.dmaCount) == 0 then CimOk else Proto)
      ensures irqs.Counts() == old(irqs.Counts()).Put(Dma, 0)
      ensures log == old(log) + [Burst(phys, sram, c)] && busNs == old(busNs) + 500 + 5 * c
    {
      WriteStep(m0, j.sram, ram[..], j.a, j.v, done, c, done', phys, sram);
      rc := DmaTransferSinglePhys(phys, sram, c);
    }

    /** Source bytes fetched so far are in SRAM, everything else there is as it was. */
    ghost predicate Written(j: Copy, m0: seq<byte>, done: nat)
      requires Wired() && IsSram(m0) && j.a == Pages() && j.sram + j.len <= SRAM_SIZE && done <= j.len
      reads this, irqs, ram, bridge.ctl.sram.mem
    {
      AllMapped(j.a, j.v, done) && Mem() == Splice(m0, j.sram, Load(ram[..], j.a, j.v, done))
    }

    /** The simulated time the bridge has reported since `ns0`: a setup cost for every burst logged
        after `log0` and a price for every byte. */
    ghost predicate Billed(ns0: nat, log0: seq<Burst>, bytes: nat)
      reads this
    {
      busNs == ns0 + 500 * (|log| - |log0|) + 5 * bytes
    }

    method DmaTransferPaged(src: u64, dst: u32, len: nat) returns (rc: Rc, ghost done: nat)
      requires Wired() && Quiet(Dma) && src + len + pageSize <= TWO64 && InRegion(dst, len)
      modifies this, irqs, bridge.ctl, bridge.ctl.sram.mem, bridge.payload
      ensures irqs.pending == {} && bridge.ctl.View() == old(bridge.ctl.View())
      ensures irqs.ctrlCount == old(irqs.ctrlCount) && irqs.dmaCount <= old(irqs.dmaCount)
      ensures src == 0 ==> rc == Inval && Mem() == old(Mem()) && log == old(log)
      ensures src != 0 ==>
                var j := Copy(Pages(), src, dst, len, old(irqs.dmaCount) != 0, old(log));
                Ended(j, rc, done, log) && done <= len && Written(j, old(Mem()), done)
      ensures Billed(old(busNs), old(log), done)
    {
      if src == 0 {
        return Inval, 0;
      }
      var a := Pages();
      var first := PageOf(a, src);
      var numPages := NumPages(a, src, len);
      ghost var j := Copy(a, src, dst, len, irqs.dmaCount != 0, log);
      if first + numPages > |pagemap| {
        UncoveredEnds(j);
        return Io, 0;
      }
      var pm := pagemap[first..first + numPages];
      SliceReads(a, pagemap, first, numPages, pm);
      LastPageRead(a, src, len);
      rc, done := WritePages(a, first, pm, src, dst, len, j);
    }

    /** The loop over a pagemap that was read in full. The cursor is the loop's four variables. */
    method WritePages(a: Space, first: nat, pm: seq<u64>, src: u64, dst: u32, len: nat, ghost j: Copy)
      returns (rc: Rc, ghost done: nat)
      requires Wired() && Quiet(Dma) && a == Pages() && InRegion(dst, len)
      requires j == Copy(a, src, dst, len, irqs.dmaCount != 0, log) && Prepared(j, pm, first)
      modifies this, irqs, bridge.ctl, bridge.ctl.sram.mem, bridge.payload
      ensures irqs.pending == {} && bridge.ctl.View() == old(bridge.ctl.View())
      ensures irqs.ctrlCount == old(irqs.ctrlCount) && irqs.dmaCount <= old(irqs.dmaCount)
      ensures Ended(j, rc, done, log) && done <= len && Written(j, old(Mem()), done)
      ensures Billed(old(busNs), old(log), done)
    {
      rc := CimOk;
      var c := Cursor(len, src, dst, 0);
      ghost var m0 := Mem();
      done := 0;
      LoopBegins(j);
      while c.rem > 0 && rc == CimOk
        invariant irqs.pending == {} && bridge.ctl.View() == old(bridge.ctl.View())
        invariant irqs.ctrlCount == old(irqs.ctrlCount) && irqs.dmaCount <= old(irqs.dmaCount)
        invariant InLoop(j, rc, c, done, log) && Written(j, m0, done)
        invariant rc == CimOk ==> Quiet(Dma) && (irqs.dmaCount != 0 <==> j.stale)
        invariant Billed(old(busNs), old(log), done)
        decreases c.rem, rc == CimOk
      {
        rc, c, done := WriteTurn(a, first, pm, c, j, m0, done);
      }
      LoopEnds(j, rc, c, done, log);
    }

    /** One turn: find the next contiguous chunk and send it. */
    method WriteTurn(a: Space, first: nat, pm: seq<u64>, c: Cursor, ghost j: Copy, ghost m0: seq<byte>, ghost done: nat)
      returns (rc: Rc, c': Cursor, ghost done': nat)
      requires Wired() && Quiet(Dma) && a == j.a == Pages() && Prepared(j, pm, first) && InRegion(j.sram, j.len)
      requires c.rem > 0 && InLoop(j, CimOk, c, done, log) && IsSram(m0) && Written(j, m0, done)
      requires irqs.dmaCount != 0 <==> j.stale
      modifies this, irqs, bridge.ctl, bridge.ctl.sram.mem, bridge.payload
      ensures irqs.pending == {} && bridge.ctl.View() == old(bridge.ctl.View())
      ensures irqs.ctrlCount == old(irqs.ctrlCount) && irqs.dmaCount <= old(irqs.dmaCount)
      ensures InLoop(j, rc, c', done', log) && Written(j, m0, done')
      ensures rc == CimOk ==> Quiet(Dma) && (irqs.dmaCount != 0 <==> j.stale) && c'.rem < c.rem
      ensures rc != CimOk ==> c' == c
      ensures done <= done' && Billed(old(busNs), old(log), done' - done)
    {
      c', done' := c, done;
      var present, phys, chunkLen, lastIdx := NextChunk(a, pm, first, c.page, c.vaddr, c.rem);
      if !present {
        LoopMeetsAbsent(j, c, done, log);
        return Io, c, done;
      }
      ChunkReady(j, c, done, log, chunkLen);
      ghost var before := log;
      done' := done + chunkLen;
      rc := WriteChunk(j, phys, c.sram, chunkLen, m0, done, done');
      if rc == CimOk {
        c' := Advance(c, chunkLen, lastIdx);
        LoopAdvances(j, c, done, before, chunkLen, lastIdx, c', done', log);
      } else {
        LoopMeetsStale(j, c, done, before, chunkLen, done', log);
      }
    }

    // ------------------------------------------------------------ paged reads

    method ReadChunk(ghost j: Copy, sram: u32, phys: nat, c: u32, ghost r0: seq<byte>, ghost done: nat,
                     ghost done': nat)
      returns (rc: Rc)
      requires Wired() && Quiet(Dma) && j.a == Pages() && |r0| == ram.Length && InRegion(j.sram, j.len)
      requires 0 < c && done' == done + c <= j.len && sram == j.sram + done && phys == Phys(j.a, j.v + done)
      requires AllMapped(j.a, j.v, done') && Contiguous(j.a, j.v + done, c)
      requires Delivered(j, r0, done)
      modifies this, ram, irqs, bridge.ctl, bridge.ctl.sram.mem, bridge.payload
      ensures irqs.pending == {} && bridge.ctl.View() == old(bridge.ctl.View()) && Mem() == old(Mem())
      ensures Delivered(j, r0, done')
      ensures rc == (if old(irqs.dmaCount) == 0 then CimOk else Proto)
      ensures irqs.Counts() == old(irqs.Counts()).Put(Dma, 0)
      ensures log == old(log) + [Burst(phys, sram, c)] && busNs == old(busNs) + 500 + 5 * c
    {
      FilledNext(j, r0, Mem(), ram[..], done, c, done', phys, sram);
      rc := DmaReadSinglePhys(sram, phys, c);
    }

    /** SRAM bytes delivered so far are in the buffer's frames, the rest of memory is as it was. */
    ghost predicate Delivered(j: Copy, r0: seq<byte>, done: nat)
      requires Wired() && |r0| == ram.Length && j.a == Pages() && j.sram + j.len <= SRAM_SIZE && done <= j.len
      reads this, ram, bridge.ctl.sram.mem
    {
      Filled(j, r0, Mem(), ram[..], done)
    }

    method DmaReadPaged(src: u32, dst: u64, len: nat) returns (rc: Rc, ghost done: nat)
      requires Wired() && Quiet(Dma) && dst + len + pageSize <= TWO64 && InRegion(src, len)
      modifies this, ram, irqs, bridge.ctl, bridge.ctl.sram.mem, bridge.payload
      ensures irqs.pending == {} && bridge.ctl.View() == old(bridge.ctl.View()) && Mem() == old(Mem())
      ensures irqs.ctrlCount == old(irqs.ctrlCount) && irqs.dmaCount <= old(irqs.dmaCount)
      ensures dst == 0 ==> rc == Inval && ram[..] == old(ram[..]) && log == old(log)
      ensures dst != 0 ==>
                var j := Copy(Pages(), dst, src, len, old(irqs.dmaCount) != 0, old(log));
                Ended(j, rc, done, log) && done <= len && Delivered(j, old(ram[..]), done)
      ensures Billed(old(busNs), old(log), done)
    {
      if dst == 0 {
        return Inval, 0;
      }
      var a := Pages();
      var first := PageOf(a, dst);
      var numPages := NumPages(a, dst, len);
      ghost var j := Copy(a, dst, src, len, irqs.dmaCount != 0, log);
      if first + numPages > |pagemap| {
        UncoveredEnds(j);
        return Io, 0;
      }
      var pm := pagemap[first..first + numPages];
      SliceReads(a, pagemap, first, numPages, pm);
      LastPageRead(a, dst, len);
      rc, done := ReadPages(a, first, pm, src, dst, len, j);
    }

    method ReadPages(a: Space, first: nat, pm: seq<u64>, src: u32, dst: u64, len: nat, ghost j: Copy)
      returns (rc: Rc, ghost done: nat)
      requires Wired() && Quiet(Dma) && a == Pages() && InRegion(src, len)
      requires j == Copy(a, dst, src, len, irqs.dmaCount != 0, log) && Prepared(j, pm, first)
      modifies this, ram, irqs, bridge.ctl, bridge.ctl.sram.mem, bridge.payload
      ensures irqs.pending == {} && bridge.ctl.View() == old(bridge.ctl.View()) && Mem() == old(Mem())
      ensures irqs.ctrlCount == old(irqs.ctrlCount) && irqs.dmaCount <= old(irqs.dmaCount)
      ensures Ended(j, rc, done, log) && done <= len && Delivered(j, old(ram[..]), done)
      ensures Billed(old(busNs), old(log), done)
    {
      rc := CimOk;
      var c := Cursor(len, dst, src, 0);
      ghost var r0 := ram[..];
      done := 0;
      LoopBegins(j);
      while c.rem > 0 && rc == CimOk
        invariant irqs.pending == {} && bridge.ctl.View() == old(bridge.ctl.View()) && Mem() == old(Mem())
        invariant irqs.ctrlCount == old(irqs.ctrlCount) && irqs.dmaCount <= old(irqs.dmaCount)
        invariant InLoop(j, rc, c, done, log) && Delivered(j, r0, done)
        invariant rc == CimOk ==> Quiet(Dma) && (irqs.dmaCount != 0 <==> j.stale)
        invariant Billed(old(busNs), old(log), done)
        decreases c.rem, rc == CimOk
      {
        rc, c, done := ReadTurn(a, first, pm, c, j, r0, done);
      }
      LoopEnds(j, rc, c, done, log);
    }

    method ReadTurn(a: Space, first: nat, pm: seq<u64>, c: Cursor, ghost j: Copy, ghost r0: seq<byte>, ghost done: nat)
      returns (rc: Rc, c': Cursor, ghost done': nat)
      requires Wired() && Quiet(Dma) && a == j.a == Pages() && Prepared(j, pm, first) && InRegion(j.sram, j.len)
      requires c.rem > 0 && InLoop(j, CimOk, c, done, log) && |r0| == ram.Length && Delivered(j, r0, done)
      requires irqs.dmaCount != 0 <==> j.stale
      modifies this, ram, irqs, bridge.ctl, bridge.ctl.sram.mem, bridge.payload
      ensures irqs.pending == {} && bridge.ctl.View() == old(bridge.ctl.View()) && Mem() == old(Mem())
      ensures irqs.ctrlCount == old(irqs.ctrlCount) && irqs.dmaCount <= old(irqs.dmaCount)
      ensures InLoop(j, rc, c', done', log) && Delivered(j, r0, done')
      ensures rc == CimOk ==> Quiet(Dma) && (irqs.dmaCount != 0 <==> j.stale) && c'.rem < c.rem
      ensures rc != CimOk ==> c' == c
      ensures done <= done' && Billed(old(busNs), old(log), done' - done)
    {
      c', done' := c, done;
      var present, phys, chunkLen, lastIdx := NextChunk(a, pm, first, c.page, c.vaddr, c.rem);
      if !present {
        LoopMeetsAbsent(j, c, done, log);
        return Io, c, done;
      }
      ChunkReady(j, c, done, log, chunkLen);
      ghost var before := log;
      done' := done + chunkLen;
      rc := ReadChunk(j, c.sram, phys, chunkLen, r0, done, done');
      if rc == CimOk {
        c' := Advance(c, chunkLen, lastIdx);
        LoopAdvances(j, c, done, before, chunkLen, lastIdx, c', done', log);
      } else {
        LoopMeetsStale(j, c, done, before, chunkLen, done', log);
      }
    }

    // ------------------------------------------------------------ public transfers

    /** `virt_to_phys`: the physical address of one byte, 0 when there is none. */
    method VirtToPhys(v: u64) returns (phys: nat)
      requires Wired()
      ensures phys == if Mapped(Pages(), v) then Phys(Pages(), v) else 0
      ensures var k := v / pageSize;
              phys == if k < |pagemap| && pagemap[k] >= 0x8000_0000_0000_0000
                      then pagemap[k] % 0x80_0000_0000_0000 * pageSize + v % pageSize else 0
    {
      SliceReads(Pages(), pagemap, 0, |pagemap|, pagemap);
      phys := LookUp(Pages(), pagemap, v);
    }

    /** The single-range mode of a write, whose length is cut to 32 bits unchecked. */
    method WriteSingleRange(dst: u32, src: u64, len: u64) returns (rc: Rc)
      requires Wired() && Quiet(Dma)
      requires Mapped(Pages(), src) && len % TWO32 > 0 ==>
                 Phys(Pages(), src) + len % TWO32 <= ram.Length && InRegion(dst, len % TWO32)
      modifies this, irqs, bridge.ctl, bridge.ctl.sram.mem, bridge.payload
      ensures irqs.pending == {} && bridge.ctl.View() == old(bridge.ctl.View())
      ensures irqs.ctrlCount == old(irqs.ctrlCount) && irqs.dmaCount <= old(irqs.dmaCount)
      ensures var p, n := Phys(Pages(), src), len % TWO32;
              if !Mapped(Pages(), src) || p == 0 then rc == Io && Mem() == old(Mem()) && log == old(log)
              else if n == 0 then rc == Inval && Mem() == old(Mem()) && log == old(log)
              else
                && rc == (if old(irqs.dmaCount) == 0 then CimOk else Proto)
                && Mem() == Splice(old(Mem()), dst, ram[p..p + n])
                && log == old(log) + [Burst(p, dst, n)]
    {
      var phys := VirtToPhys(src);
      if phys == 0 {
        return Io;
      }
      rc := DmaTransferSinglePhys(phys, dst, len % TWO32);
    }

    /** `cim_dma_write_sram`. */
    method CimDmaWriteSram(dst: u32, src: u64, len: u64) returns (rc: Rc, ghost done: nat)
      requires Wired() && Quiet(Dma)
      requires src != 0 && len > 0 && paged ==> InRegion(dst, len) && src + len + pageSize <= TWO64
      requires src != 0 && !paged && Mapped(Pages(), src) && len % TWO32 > 0 ==>
                 Phys(Pages(), src) + len % TWO32 <= ram.Length && InRegion(dst, len % TWO32)
      modifies this, irqs, bridge.ctl, bridge.ctl.sram.mem, bridge.payload
      ensures irqs.pending == {} && bridge.ctl.View() == old(bridge.ctl.View())
      ensures irqs.ctrlCount == old(irqs.ctrlCount) && irqs.dmaCount <= old(irqs.dmaCount)
      ensures src == 0 ==> rc == Inval
      ensures src != 0 && len == 0 ==> rc == CimOk
      ensures src == 0 || len == 0 ==> Mem() == old(Mem()) && log == old(log)
      ensures src != 0 && len > 0 && paged ==>
                var j := Copy(Pages(), src, dst, len, old(irqs.dmaCount) != 0, old(log));
                Ended(j, rc, done, log) && done <= len && Written(j, old(Mem()), done) &&
                Billed(old(busNs), old(log), done)
      ensures src != 0 && len > 0 && !paged ==>
                var p, n := Phys(Pages(), src), len % TWO32;
                if !Mapped(Pages(), src) || p == 0 then rc == Io && Mem() == old(Mem()) && log == old(log)
                else if n == 0 then rc == Inval && Mem() == old(Mem()) && log == old(log)
                else
                  && rc == (if old(irqs.dmaCount) == 0 then CimOk else Proto)
                  && Mem() == Splice(old(Mem()), dst, ram[p..p + n])
                  && log == old(log) + [Burst(p, dst, n)]
    {
      done := 0;
      if src == 0 {
        rc := Inval;
      } else if len == 0 {
        rc := CimOk;
      } else if !paged {
        rc := WriteSingleRange(dst, src, len);
      } else {
        rc, done := DmaTransferPaged(src, dst, len);
      }
    }

    /** The single-range mode of a read, which refuses lengths over 32 bits. */
    method ReadSingleRange(src: u32, dst: u64, len: u64) returns (rc: Rc)
      requires Wired() && Quiet(Dma) && len > 0
      requires Mapped(Pages(), dst) && len <= UINT32_MAX ==>
                 Phys(Pages(), dst) + len <= ram.Length && InRegion(src, len)
      modifies this, ram, irqs, bridge.ctl, bridge.ctl.sram.mem, bridge.payload
      ensures irqs.pending == {} && bridge.ctl.View() == old(bridge.ctl.View()) && Mem() == old(Mem())
      ensures irqs.ctrlCount == old(irqs.ctrlCount) && irqs.dmaCount <= old(irqs.dmaCount)
      ensures var p := Phys(Pages(), dst);
              if !Mapped(Pages(), dst) || p == 0 then rc == Io && ram[..] == old(ram[..]) && log == old(log)
              else if len > UINT32_MAX then rc == Inval && ram[..] == old(ram[..]) && log == old(log)
              else
                && rc == (if old(irqs.dmaCount) == 0 then CimOk else Proto)
                && ram[..] == Splice(old(ram[..]), p, Mem()[src..src + len])
                && log == old(log) + [Burst(p, src, len)]
    {
      var phys := VirtToPhys(dst);
      if phys == 0 {
        return Io;
      }
      if len > UINT32_MAX {
        return Inval;
      }
      rc := DmaReadSinglePhys(src, phys, len);
    }

    /** `cim_dma_read_sram`. */
    method CimDmaReadSram(src: u32, dst: u64, len: u64) returns (rc: Rc, ghost done: nat)
      requires Wired() && Quiet(Dma)
      requires dst != 0 && len > 0 && paged ==> InRegion(src, len) && dst + len + pageSize <= TWO64
      requires dst != 0 && !paged && Mapped(Pages(), dst) && 0 < len <= UINT32_MAX ==>
                 Phys(Pages(), dst) + len <= ram.Length && InRegion(src, len)
      modifies this, ram, irqs, bridge.ctl, bridge.ctl.sram.mem, bridge.payload
      ensures irqs.pending == {} && bridge.ctl.View() == old(bridge.ctl.View()) && Mem() == old(Mem())
      ensures irqs.ctrlCount == old(irqs.ctrlCount) && irqs.dmaCount <= old(irqs.dmaCount)
      ensures dst == 0 ==> rc == Inval
      ensures dst != 0 && len == 0 ==> rc == CimOk
      ensures dst == 0 || len == 0 ==> ram[..] == old(ram[..]) && log == old(log)
      ensures dst != 0 && len > 0 && paged ==>
                var j := Copy(Pages(), dst, src, len, old(irqs.dmaCount) != 0, old(log));
                Ended(j, rc, done, log) && done <= len && Delivered(j, old(ram[..]), done) &&
                Billed(old(busNs), old(log), done)
      ensures dst != 0 && len > 0 && !paged ==>
                var p := Phys(Pages(), dst);
                if !Mapped(Pages(), dst) || p == 0 then rc == Io && ram[..] == old(ram[..]) && log == old(log)
                else if len > UINT32_MAX then rc == Inval && ram[..] == old(ram[..]) && log == old(log)
                else
                  && rc == (if old(irqs.dmaCount) == 0 then CimOk else Proto)
                  && ram[..] == Splice(old(ram[..]), p, Mem()[src..src + len])
                  && log == old(log) + [Burst(p, src, len)]
    {
      done := 0;
      if dst == 0 {
        rc := Inval;
      } else if len == 0 {
        rc := CimOk;
      } else if !paged {
        rc := ReadSingleRange(src, dst, len);
      } else {
        rc, done := DmaReadPaged(src, dst, len);
      }
    }

    // ------------------------------------------------------------ control registers

    /** One register write through the bridge. A START whose reply carries the interrupt line makes
        the device raise one completion. */
    method MmioWrite(off: u32, v: u32)
      requires Wired() && Quiet(Ctrl) && Writable(off)
      requires StartDefined(bridge.ctl.View(), off, v)
      modifies irqs, bridge.ctl, bridge.ctl.sram.mem, bridge.payload
      ensures irqs.pending == {}
      ensures bridge.ctl.State() == RegisterWrite(old(bridge.ctl.State()), bridge.ctl.sram.shape, off, v).dev
      ensures irqs.Counts() ==
              if off == REG_CONTROL && Bit(v, CTRL_START) && bridge.ctl.irq
              then old(irqs.Counts()).Put(Ctrl, old(irqs.Counts()).At(Ctrl) + 1) else old(irqs.Counts())
    {
      var h := RegisterRequest(true, off);
      RegisterWriteServed(bridge.State(), bridge.ctl.sram.shape, off, v, h);
      var answer, data := bridge.Handle(h, Le32(v));
      if off == REG_CONTROL && Bit(v, CTRL_START) && answer.ctrlIrq != 0 {
        Complete(Ctrl);
      }
    }

    method MmioRead(off: u32) returns (v: u32)
      requires Wired() && Readable(off)
      modifies bridge.ctl, bridge.ctl.sram.mem, bridge.payload
      ensures bridge.ctl.State() == old(bridge.ctl.State())
      ensures v == RegisterRead(bridge.ctl.View(), off)
    {
      var h := RegisterRequest(false, off);
      RegisterReadServed(bridge.State(), bridge.ctl.sram.shape, off, h);
      var answer, data := bridge.Handle(h, []);
      v := FromLe32(data);
    }

    /** `cim_compute`. */
    method CimCompute() returns (rc: Rc)
      requires Wired() && Quiet(Ctrl)
      modifies irqs, bridge.ctl, bridge.ctl.sram.mem, bridge.payload
      ensures irqs.pending == {}
      ensures Mem() == Computed(old(Mem()), bridge.ctl.sram.shape)
      ensures rc == if old(irqs.ctrlCount) == 0 then CimOk else Proto
      ensures irqs.ctrlCount == 0 && irqs.dmaCount == old(irqs.dmaCount)
      ensures bridge.ctl.View() ==
              old(bridge.ctl.View()).(control := 25, len := 4, busy := false, done := true, irq := true)
    {
      ghost var d := bridge.ctl.State();
      MmioWrite(REG_LEN, 4);
      ghost var e := bridge.ctl.State();
      assert e == d.(regs := d.regs.(len := 4));
      MmioWrite(REG_CONTROL, CTRL_IRQEN + CTRL_COMPUTE + CTRL_START);
      ComputeStarted(e, bridge.ctl.sram.shape, bridge.ctl.State());
      rc := irqs.WaitOneIrq(Ctrl);
    }

    /** `cim_read_sram_u32_irq`. */
    method CimReadSramU32Irq(addr: u32) returns (rc: Rc, word: u32)
      requires Wired() && Quiet(Ctrl) && addr != 0xFFFF_FFFC
      modifies irqs, bridge.ctl, bridge.ctl.sram.mem, bridge.payload
      ensures irqs.pending == {} && Mem() == old(Mem())
      ensures addr % 4 != 0 ==> rc == Inval && bridge.ctl.View() == old(bridge.ctl.View())
      ensures rc == CimOk <==>
              addr % 4 == 0 && old(irqs.ctrlCount) == 0 && !old(bridge.ctl.err) && addr + 4 <= SRAM_SIZE
      ensures addr % 4 == 0 ==> rc == CimOk || rc == Proto
      ensures rc == CimOk ==> word == FromLe32(Mem()[addr..addr + 4])
      ensures addr % 4 == 0 ==> irqs.ctrlCount == 0 && bridge.ctl.err == (old(bridge.ctl.err) || addr + 4 > SRAM_SIZE)
      ensures irqs.dmaCount == old(irqs.dmaCount)
    {
      if addr % 4 != 0 {
        return Inval, 0;
      }
      StartWordRead(addr);
      rc := irqs.WaitOneIrq(Ctrl);
      if rc != CimOk {
        return rc, 0;
      }
      var st := MmioRead(REG_STATUS);
      if Bit(st, STAT_ERR) {
        return Proto, 0;
      }
      word := MmioRead(REG_RDATA);
    }

    /** The three register writes of a word read, and its completion. */
    method StartWordRead(addr: u32)
      requires Wired() && Quiet(Ctrl) && addr + 4 < TWO32
      modifies irqs, bridge.ctl, bridge.ctl.sram.mem, bridge.payload
      ensures irqs.pending == {} && Mem() == old(Mem())
      ensures irqs.Counts() == old(irqs.Counts()).Put(Ctrl, old(irqs.Counts()).At(Ctrl) + 1)
      ensures bridge.ctl.err == (old(bridge.ctl.err) || addr + 4 > SRAM_SIZE)
      ensures addr + 4 <= SRAM_SIZE ==> bridge.ctl.regRdata == FromLe32(Mem()[addr..addr + 4])
    {
      ghost var d := bridge.ctl.State();
      MmioWrite(REG_ADDR, addr);
      MmioWrite(REG_LEN, 4);
      ghost var e := bridge.ctl.State();
      assert e == d.(regs := d.regs.(addr := addr, len := 4));
      MmioWrite(REG_CONTROL, CTRL_IRQEN + CTRL_START);
      WordRead(e, bridge.ctl.sram.shape);
    }
  }

  lemma ComputeStarted(d: Device, sh: Shape, s: Device)
    requires IsDevice(d) && d.regs.len == 4
    requires s == RegisterWrite(d, sh, REG_CONTROL, CTRL_IRQEN + CTRL_COMPUTE + CTRL_START).dev
    ensures s.mem == Computed(d.mem, sh)
    ensures s.regs == d.regs.(control := 25, busy := false, done := true, irq := true)
  {
  }

  lemma WordRead(d: Device, sh: Shape)
    requires IsDevice(d) && d.regs.len == 4 && d.regs.addr + 4 < TWO32
    ensures var s := RegisterWrite(d, sh, REG_CONTROL, CTRL_IRQEN + CTRL_START).dev;
            && s.mem == d.mem && s.regs.irq
            && s.regs.err == (d.regs.err || d.regs.addr + 4 > SRAM_SIZE)
            && (d.regs.addr + 4 <= SRAM_SIZE ==> s.regs.rdata == FromLe32(d.mem[d.regs.addr..d.regs.addr + 4]))
  {
    StartReads(d.(regs := d.regs.(control := CTRL_IRQEN + CTRL_START)), sh);
  }

  lemma StartReads(d: Device, sh: Shape)
    requires IsDevice(d) && d.regs.len == 4 && d.regs.addr + 4 < TWO32 && d.regs.control == 9
    ensures var s, t := StartOperation(d, sh).dev, Transport(d.mem, sh, Read, d.regs.addr, [0, 0, 0, 0]);
            && s.mem == t.mem && s.regs.irq && s.regs.err == (d.regs.err || t.status != Okay)
            && s.regs.rdata == if t.status == Okay then FromLe32(t.data) else d.regs.rdata
  {
    assert !Bit(9, CTRL_WRITE) && !Bit(9, CTRL_COMPUTE) && Bit(9, CTRL_IRQEN);
  }

  /** What a successful paged copy adds to the reported time, below 4 GiB: 5 ns per byte, 500 ns for
      the buffer, and 500 ns for every frame jump in it. */
  lemma PagedTime(j: Copy, done: nat, log: seq<Burst>)
    requires Sane(j.a) && 0 < j.len <= UINT32_MAX && Ended(j, CimOk, done, log)
    ensures PageOf(j.a, j.v + j.len - 1) < |j.a.pagemap|
    ensures 500 * (|log| - |j.log0|) + 5 * done ==
            500 * (1 + Jumps(j.a, PageOf(j.a, j.v), PageOf(j.a, j.v + j.len - 1))) + 5 * j.len
  {
    SucceedsIff(j.a, j.v, j.len, j.stale);
    LastPageRead(j.a, j.v, j.len);
    GreedyCount(j.a, j.v, j.sram, j.len);
  }

  function RegisterRequest(write: bool, off: u32): Header {
    Header(if write then 1 else 0, 0, 0, 0, off, 4, 0, 0, [0, 0, 0, 0, 0, 0, 0])
  }

  lemma RegisterWriteServed(s: Server, sh: Shape, off: u32, v: u32, h: Header)
    requires IsServer(s) && Writable(off) && h == RegisterRequest(true, off)
    requires StartDefined(s.dev.regs, off, v)
    ensures Servable(s, h, Le32(v))
    ensures var r := Serve(s, sh, h, Le32(v));
            r.server.dev == RegisterWrite(s.dev, sh, off, v).dev &&
            r.header.ctrlIrq == if r.server.dev.regs.irq then 1 else 0
  {
    RegisterAccess(h, Received(s, h, Le32(v)), off, v);
    RegisterStep(s.dev, sh, off, v);
  }

  lemma RegisterAccess(h: Header, p: seq<byte>, off: u32, v: u32)
    requires |p| == DMA_BUFFER_SIZE && p[..4] == Le32(v) && h == RegisterRequest(true, off)
    ensures AccessOf(h, p) == Access(Write, off, Le32(v), 4)
  {
  }

  lemma RegisterStep(d: Device, sh: Shape, off: u32, v: u32)
    requires IsDevice(d) && Writable(off)
    requires StartDefined(d.regs, off, v)
    ensures var x := Access(Write, off, Le32(v), 4);
            Defined(d.regs, x) && Step(d, sh, x).dev == RegisterWrite(d, sh, off, v).dev
  {
    assert Le32(v)[..4] == Le32(v);
    DecodeLe32(v);
  }

  lemma RegisterReadServed(s: Server, sh: Shape, off: u32, h: Header)
    requires IsServer(s) && Readable(off) && h == RegisterRequest(false, off)
    ensures Servable(s, h, [])
    ensures var r := Serve(s, sh, h, []);
            r.server.dev == s.dev && |r.payload| == 4 && FromLe32(r.payload) == RegisterRead(s.dev.regs, off)
  {
    var p := Received(s, h, []);
    ReadAccess(h, p, off);
    RegisterReadStep(s.dev, sh, off, RegisterRead(s.dev.regs, off));
    ReadReply(p, RegisterRead(s.dev.regs, off));
  }

  lemma ReadAccess(h: Header, p: seq<byte>, off: u32)
    requires |p| == DMA_BUFFER_SIZE && h == RegisterRequest(false, off)
    ensures AccessOf(h, p) == Access(Read, off, [0, 0, 0, 0], 4)
  {
  }

  lemma RegisterReadStep(d: Device, sh: Shape, off: u32, v: u32)
    requires IsDevice(d) && Readable(off) && v == RegisterRead(d.regs, off)
    ensures var x := Access(Read, off, [0, 0, 0, 0], 4);
            Defined(d.regs, x) && Step(d, sh, x) == Outcome(d, Okay, Le32(v), CTRL_REG_NS)
  {
    assert Splice([0, 0, 0, 0], 0, Le32(v)) == Le32(v);
  }

  lemma ReadReply(p: seq<byte>, v: u32)
    requires |p| == DMA_BUFFER_SIZE
    ensures Splice(p, 0, Le32(v))[..4] == Le32(v) && FromLe32(Le32(v)) == v
  {
    DecodeLe32(v);
  }

  /** ERR is sticky and the library never clears it: after one word read outside the memory every
      later word read fails, although its word arrives. */
  method ReadAfterFailure(p: Platform, bad: u32, good: u32) returns (rc1: Rc, rc2: Rc)
    requires p.Wired() && p.Quiet(Ctrl) && p.irqs.ctrlCount == 0
    requires bad % 4 == 0 && SRAM_SIZE < bad + 4 < TWO32 && good % 4 == 0 && good + 4 <= SRAM_SIZE
    modifies p.irqs, p.bridge.ctl, p.bridge.ctl.sram.mem, p.bridge.payload
    ensures rc1 == Proto && rc2 == Proto && p.bridge.ctl.err
  {
    var word;
    rc1, word := p.CimReadSramU32Irq(bad);
    rc2, word := p.CimReadSramU32Irq(good);
  }
}
