/** What the library's copies between user memory and SRAM do, and the computation of one chunk. */
module PagedCopy {
  import opened Bytes
  import opened PageTable
  import opened Coalescing
  import opened IrqDriver

  /** The pages that one bulk read of the pagemap asks for. */
  function NumPages(a: Space, v: nat, len: nat): nat
    requires Sane(a)
  {
    (v % a.pageSize + len + a.pageSize - 1) / a.pageSize
  }

  /** The bulk read succeeds: the kernel has an entry for every page. */
  predicate Covered(a: Space, v: nat, len: nat)
    requires Sane(a)
  {
    PageOf(a, v) + NumPages(a, v, len) <= |a.pagemap|
  }

  /** The bulk read reaches the page of the last byte, and no further. */
  lemma LastPageRead(a: Space, v: nat, len: nat)
    requires Sane(a) && len > 0
    ensures PageOf(a, v + len - 1) == PageOf(a, v) + NumPages(a, v, len) - 1
  {
    var p, x := a.pageSize, v % a.pageSize + len - 1;
    assert v == PageOf(a, v) * p + v % p;
    var q, r := x / p, x % p;
    assert x == q * p + r;
    DivUnique(x + p, p, q + 1, r);
    assert (PageOf(a, v) + q) * p == PageOf(a, v) * p + q * p;
    DivUnique(v + len - 1, p, PageOf(a, v) + q, r);
  }

  // ---------------------------------------------------------------- outcome of a paged copy

  /** A copy on a quiet channel stops at the first absent page; with a stale completion count it
      stops after the first transaction. */
  function BytesDone(a: Space, v: nat, len: nat, stale: bool): (d: nat)
    requires Sane(a)
    ensures d <= len
  {
    if !Covered(a, v, len) then 0
    else if stale && len > 0 && Mapped(a, v) then Chunk(a, v, len)
    else Reach(a, v, len)
  }

  function CopyRc(a: Space, v: nat, len: nat, stale: bool): Rc
    requires Sane(a)
  {
    if !Covered(a, v, len) then Io
    else if stale && len > 0 && Mapped(a, v) then Proto
    else if Reach(a, v, len) == len then CimOk
    else Io
  }

  function CopyPlan(a: Space, v: nat, sram: nat, len: nat, stale: bool): Plan
    requires Sane(a)
  {
    if !Covered(a, v, len) then Done
    else if stale && len > 0 && Mapped(a, v) then Plan.Then(Burst(Phys(a, v), sram, Chunk(a, v, len)), Done)
    else Greedy(a, v, sram, len)
  }

  /** A copy succeeds exactly when the channel is quiet (or nothing is to be moved), every page is
      known to the kernel, and every byte's page is present. */
  lemma SucceedsIff(a: Space, v: nat, len: nat, stale: bool)
    requires Sane(a)
    ensures CopyRc(a, v, len, stale) == CimOk <==>
            Covered(a, v, len) && AllMapped(a, v, len) && (stale ==> len == 0)
    ensures CopyRc(a, v, len, stale) == CimOk ==> BytesDone(a, v, len, stale) == len
  {
    ReachIff(a, v, len, len);
  }

  /** Otherwise, on a quiet channel with the entries at hand, it fails after exactly the bytes before
      the first absent page. */
  lemma FailsAtFirstAbsent(a: Space, v: nat, len: nat, r: nat)
    requires Sane(a) && Covered(a, v, len) && r < len
    ensures AllMapped(a, v, r) && !Mapped(a, v + r) <==>
            CopyRc(a, v, len, false) == Io && BytesDone(a, v, len, false) == r
  {
    ReachIff(a, v, len, r);
  }

  /** The bytes of a present buffer. */
  function Load(ram: seq<byte>, a: Space, v: nat, len: nat): (b: seq<byte>)
    requires Sane(a) && Backed(a, |ram|) && AllMapped(a, v, len)
    ensures |b| == len
  {
    BackedInRam(a, v, len, |ram|);
    Gather(ram, a, v, len)
  }

  /** Physical memory after storing to a present buffer. */
  function Store(ram: seq<byte>, a: Space, v: nat, b: seq<byte>): (r: seq<byte>)
    requires Sane(a) && Backed(a, |ram|) && AllMapped(a, v, |b|)
    ensures |r| == |ram|
  {
    BackedInRam(a, v, |b|, |ram|);
    Scatter(ram, a, v, b)
  }

  /** What the program sees, from the raw entries: every page of a present buffer has bit 63 set, and byte
      `i` is in the frame of its page, at its offset. */
  lemma LoadedByte(ram: seq<byte>, a: Space, raw: seq<u64>, v: nat, len: nat, i: nat)
    requires Sane(a) && a.pagemap == DecodeEntries(raw) && Backed(a, |ram|) && AllMapped(a, v, len) && i < len
    ensures var k := (v + i) / a.pageSize;
            && k < |raw| && raw[k] >= 0x8000_0000_0000_0000
            && var p := raw[k] % 0x80_0000_0000_0000 * a.pageSize + (v + i) % a.pageSize;
               p < |ram| && Load(ram, a, v, len)[i] == ram[p]
  {
    BackedInRam(a, v, len, |ram|);
    MappedRaw(a, raw, v + i);
  }

  /** A page is present exactly when it has a raw entry with bit 63 set. */
  lemma MappedRaw(a: Space, raw: seq<u64>, v: nat)
    requires Sane(a) && a.pagemap == DecodeEntries(raw)
    ensures var k := v / a.pageSize;
            && (Mapped(a, v) <==> k < |raw| && raw[k] >= 0x8000_0000_0000_0000)
            && (Mapped(a, v) ==> Phys(a, v) == raw[k] % 0x80_0000_0000_0000 * a.pageSize + v % a.pageSize)
  {
    var k := v / a.pageSize;
    if k < |raw| {
      RawEntry(raw[k]);
    }
  }

  // ---------------------------------------------------------------- one transaction more

  lemma WriteStep(m0: seq<byte>, dst: nat, ram: seq<byte>, a: Space, v: nat, done: nat, c: nat, done': nat,
                  p: nat, at: nat)
    requires Sane(a) && Backed(a, |ram|) && done' == done + c && AllMapped(a, v, done') && c > 0
    requires Contiguous(a, v + done, c) && p == Phys(a, v + done) && at == dst + done && at + c <= |m0|
    ensures p + c <= |ram| && AllMapped(a, v, done)
    ensures Splice(Splice(m0, dst, Load(ram, a, v, done)), at, ram[p..p + c]) == Splice(m0, dst, Load(ram, a, v, done'))
  {
    RunInRam(a, v + done, c, |ram|);
    BackedInRam(a, v, done', |ram|);
    GatherAppend(ram, a, v, done, c);
    SpliceAppend(m0, dst, Gather(ram, a, v, done), ram[p..p + c]);
  }

  lemma ReadStep(mem: seq<byte>, src: nat, ram: seq<byte>, a: Space, v: nat, done: nat, c: nat, done': nat,
                 p: nat, at: nat)
    requires Sane(a) && Backed(a, |ram|) && done' == done + c && AllMapped(a, v, done') && c > 0
    requires Contiguous(a, v + done, c) && p == Phys(a, v + done) && at == src + done && at + c <= |mem|
    ensures p + c <= |ram| && AllMapped(a, v, done)
    ensures Splice(Store(ram, a, v, mem[src..src + done]), p, mem[at..at + c]) ==
            Store(ram, a, v, mem[src..src + done'])
  {
    RunInRam(a, v + done, c, |ram|);
    BackedInRam(a, v, done', |ram|);
    ScatterRun(ram, a, v, mem[src..src + done], mem[at..at + c]);
    assert mem[src..src + done] + mem[at..at + c] == mem[src..src + done'];
  }

  /** A contiguous run of backed bytes ends inside physical memory. */
  lemma RunInRam(a: Space, v: nat, c: nat, size: nat)
    requires Sane(a) && Backed(a, size) && Contiguous(a, v, c) && c > 0
    ensures Phys(a, v) + c <= size
  {
    var last := v + c - 1;
    assert Mapped(a, last) && Phys(a, last) == Phys(a, v) + (c - 1);
    BackedByte(a, size, last);
  }

  // ---------------------------------------------------------------- the chunk computation

  /** The entries `pm` of the bulk read start at page `first`. */
  predicate ReadsPages(a: Space, pm: seq<u64>, first: nat) {
    && first + |pm| <= |a.pagemap|
    && forall k :: 0 <= k < |pm| ==> a.pagemap[first + k] == DecodeEntry(pm[k])
  }

  /** A slice of the raw pagemap gives such entries. */
  lemma SliceReads(a: Space, raw: seq<u64>, first: nat, n: nat, pm: seq<u64>)
    requires a.pagemap == DecodeEntries(raw) && first + n <= |raw| && pm == raw[first..first + n]
    ensures ReadsPages(a, pm, first)
  {
  }

  /** Is the next page present, and in the frame after this one? */
  method NextFrameAdjacent(a: Space, pm: seq<u64>, first: nat, k: nat) returns (b: bool)
    requires ReadsPages(a, pm, first) && k + 1 < |pm|
    ensures b <==> a.pagemap[first + k + 1].present && a.pagemap[first + k].pfn + 1 == a.pagemap[first + k + 1].pfn
  {
    EntryBits(a, pm, first, k);
    EntryBits(a, pm, first, k + 1);
    var next := pm[k + 1];
    if !PresentBit(next) {
      return false;
    }
    b := PfnBits(pm[k]) + 1 == PfnBits(next);
  }

  lemma EntryBits(a: Space, pm: seq<u64>, first: nat, k: nat)
    requires ReadsPages(a, pm, first) && k < |pm|
    ensures a.pagemap[first + k] == Entry(PresentBit(pm[k]), PfnBits(pm[k]))
  {
    assert a.pagemap[first + k] == DecodeEntry(pm[k]);
  }

  /** One pagemap entry, read and translated; 0 stands for failure. */
  method LookUp(a: Space, raw: seq<u64>, v: nat) returns (phys: nat)
    requires Sane(a) && ReadsPages(a, raw, 0) && |raw| == |a.pagemap|
    ensures phys == if Mapped(a, v) then Phys(a, v) else 0
    ensures var k := v / a.pageSize;
            phys == if k < |raw| && raw[k] >= 0x8000_0000_0000_0000
                    then raw[k] % 0x80_0000_0000_0000 * a.pageSize + v % a.pageSize else 0
  {
    var k := PageOf(a, v);
    if k >= |raw| {
      return 0;
    }
    EntryBits(a, raw, 0, k);
    RawEntry(raw[k]);
    var present, pfn := PresentBit(raw[k]), PfnBits(raw[k]);
    assert a.pagemap[k] == Entry(present, pfn);
    if !present {
      return 0;
    }
    phys := pfn * a.pageSize + v % a.pageSize;
  }

  /** The look-ahead loop: starting in page `pageIdx`, take in following pages while they are
      physically adjacent and the hardware length field can hold the sum. */
  method CoalesceChunk(a: Space, pm: seq<u64>, first: nat, pageIdx: nat, v: nat, rem: nat)
    returns (chunkLen: nat, lastIdx: nat)
    requires Sane(a) && ReadsPages(a, pm, first) && rem > 0
    requires PageOf(a, v) == first + pageIdx && PageOf(a, v + rem - 1) == first + |pm| - 1
    ensures chunkLen == Chunk(a, v, rem)
    ensures chunkLen < rem ==> PageOf(a, v + chunkLen) == first + lastIdx + 1
  {
    chunkLen := a.pageSize - v % a.pageSize;
    if chunkLen > rem {
      chunkLen := rem;
    }
    lastIdx := pageIdx;
    FirstPieceEnds(a, v, rem);
    while chunkLen < rem
      invariant EndsIn(a, v, chunkLen, rem, first + lastIdx) && chunkLen <= UINT32_MAX
      invariant Grow(a, first + lastIdx, chunkLen, rem) == Chunk(a, v, rem)
      decreases rem - chunkLen
    {
      NextPage(a, v, first + lastIdx, chunkLen, rem);
      var adjacent := NextFrameAdjacent(a, pm, first, lastIdx);
      var addLen := Min(a.pageSize, rem - chunkLen);
      GrowUnfolds(a, first + lastIdx, chunkLen, rem, addLen);
      if !adjacent || chunkLen + addLen > UINT32_MAX {
        break;
      }
      StepEnds(a, v, first + lastIdx, chunkLen, rem);
      chunkLen := chunkLen + addLen;
      lastIdx := lastIdx + 1;
    }
    if chunkLen < rem {
      NextPage(a, v, first + lastIdx, chunkLen, rem);
    }
  }

  lemma GrowUnfolds(a: Space, k: nat, chunk: nat, rem: nat, add: nat)
    requires Sane(a) && chunk < rem && add == Min(a.pageSize, rem - chunk) && k + 1 < |a.pagemap|
    ensures Grow(a, k, chunk, rem) ==
            if a.pagemap[k + 1].present && a.pagemap[k].pfn + 1 == a.pagemap[k + 1].pfn && chunk + add <= UINT32_MAX
            then Grow(a, k + 1, chunk + add, rem) else chunk
  {
  }

  /** One turn of the outer loop up to the transaction: presence, physical address, length. */
  method NextChunk(a: Space, pm: seq<u64>, first: nat, pageIdx: nat, v: nat, rem: nat)
    returns (present: bool, phys: nat, chunkLen: nat, lastIdx: nat)
    requires Sane(a) && ReadsPages(a, pm, first) && rem > 0
    requires PageOf(a, v) == first + pageIdx && PageOf(a, v + rem - 1) == first + |pm| - 1
    ensures present <==> Mapped(a, v)
    ensures present ==> phys == Phys(a, v) && chunkLen == Chunk(a, v, rem)
    ensures pageIdx < |pm| && (present <==> pm[pageIdx] >= 0x8000_0000_0000_0000)
    ensures present ==> phys == pm[pageIdx] % 0x80_0000_0000_0000 * a.pageSize + v % a.pageSize
    ensures present && chunkLen < rem ==> PageOf(a, v + chunkLen) == first + lastIdx + 1
  {
    DivMono(v, v + rem - 1, a.pageSize);
    EntryBits(a, pm, first, pageIdx);
    RawEntry(pm[pageIdx]);
    present := PresentBit(pm[pageIdx]);
    phys, chunkLen, lastIdx := 0, 0, pageIdx;
    if present {
      phys := PfnBits(pm[pageIdx]) * a.pageSize + v % a.pageSize;
      chunkLen, lastIdx := CoalesceChunk(a, pm, first, pageIdx, v, rem);
    }
  }

  lemma NextPage(a: Space, v: nat, k: nat, chunk: nat, rem: nat)
    requires Sane(a) && chunk < rem && EndsIn(a, v, chunk, rem, k)
    ensures PageOf(a, v + chunk) == k + 1 <= PageOf(a, v + rem - 1)
  {
    assert v + chunk == (k + 1) * a.pageSize;
    InPage(a, k + 1, v + chunk);
    DivMono(v + chunk, v + rem - 1, a.pageSize);
  }

  // ---------------------------------------------------------------- progress of the outer loop

  /** What is left of a copy. */
  datatype Cursor = Cursor(rem: nat, vaddr: nat, sram: nat, page: nat)

  /** A copy of `len` bytes between `v` and `sram`, with the log as it was when the copy began. */
  datatype Copy = Copy(a: Space, v: nat, sram: nat, len: nat, stale: bool, log0: seq<Burst>)

  predicate Feasible(j: Copy) {
    Sane(j.a) && j.len > 0 && Covered(j.a, j.v, j.len)
  }

  /** The raw entries `pm`, from page `first` on, are those of exactly the copy's pages. */
  predicate Prepared(j: Copy, pm: seq<u64>, first: nat) {
    && Feasible(j)
    && ReadsPages(j.a, pm, first)
    && first == PageOf(j.a, j.v) && PageOf(j.a, j.v + j.len - 1) == first + |pm| - 1
  }

  /** The copy has ended as specified, `done` bytes into the buffer. */
  predicate Ended(j: Copy, rc: Rc, done: nat, log: seq<Burst>)
    requires Sane(j.a)
  {
    && rc == CopyRc(j.a, j.v, j.len, j.stale)
    && done == BytesDone(j.a, j.v, j.len, j.stale)
    && log == j.log0 + Bursts(CopyPlan(j.a, j.v, j.sram, j.len, j.stale))
  }

  /** Everything before the cursor is done, on a channel that was quiet, and what the cursor still
      has to do completes the plan. */
  predicate Underway(j: Copy, c: Cursor, log: seq<Burst>)
    requires Sane(j.a)
  {
    && c.rem <= j.len && c.vaddr == j.v + (j.len - c.rem) && c.sram == j.sram + (j.len - c.rem)
    && (c.rem > 0 ==> PageOf(j.a, c.vaddr) == PageOf(j.a, j.v) + c.page)
    && (if c.rem < j.len then !j.stale else log == j.log0)
    && ReachLeft(j, c) && PlanLeft(j, c, log)
  }

  predicate ReachLeft(j: Copy, c: Cursor)
    requires Sane(j.a)
  {
    Reach(j.a, j.v, j.len) + c.rem == j.len + Reach(j.a, c.vaddr, c.rem)
  }

  predicate PlanLeft(j: Copy, c: Cursor, log: seq<Burst>)
    requires Sane(j.a)
  {
    log + Bursts(Greedy(j.a, c.vaddr, c.sram, c.rem)) == j.log0 + Bursts(Greedy(j.a, j.v, j.sram, j.len))
  }

  /** The loop invariant: still under way, or ended with an error. */
  predicate InLoop(j: Copy, rc: Rc, c: Cursor, done: nat, log: seq<Burst>)
    requires Sane(j.a)
  {
    done <= j.len && AllMapped(j.a, j.v, done) &&
    if rc == CimOk then Underway(j, c, log) && done == j.len - c.rem else Ended(j, rc, done, log)
  }

  /** `r` is the physical memory `r0` with the first `done` bytes of a read from the SRAM `m`. */
  predicate Filled(j: Copy, r0: seq<byte>, m: seq<byte>, r: seq<byte>, done: nat)
    requires Sane(j.a) && Backed(j.a, |r0|) && j.sram + done <= |m|
  {
    AllMapped(j.a, j.v, done) && r == Store(r0, j.a, j.v, m[j.sram..j.sram + done])
  }

  lemma FilledNext(j: Copy, r0: seq<byte>, m: seq<byte>, r: seq<byte>, done: nat, c: nat, done': nat, p: nat, at: nat)
    requires Sane(j.a) && Backed(j.a, |r0|) && c > 0 && done' == done + c && j.sram + done' <= |m|
    requires Filled(j, r0, m, r, done) && AllMapped(j.a, j.v, done') && Contiguous(j.a, j.v + done, c)
    requires p == Phys(j.a, j.v + done) && at == j.sram + done
    ensures p + c <= |r| && Filled(j, r0, m, Splice(r, p, m[at..at + c]), done')
  {
    ReadStep(m, j.sram, r0, j.a, j.v, done, c, done', p, at);
  }

  lemma LoopBegins(j: Copy)
    requires Feasible(j)
    ensures InLoop(j, CimOk, Cursor(j.len, j.v, j.sram, 0), 0, j.log0)
  {
  }

  /** Preconditions of the next transaction. */
  lemma ChunkReady(j: Copy, c: Cursor, done: nat, log: seq<Burst>, n: nat)
    requires Feasible(j) && InLoop(j, CimOk, c, done, log) && c.rem > 0
    requires Mapped(j.a, c.vaddr) && n == Chunk(j.a, c.vaddr, c.rem)
    ensures 0 < n <= UINT32_MAX && done + n <= j.len && c.vaddr == j.v + done && c.sram == j.sram + done
    ensures Contiguous(j.a, c.vaddr, n) && AllMapped(j.a, j.v, done + n)
  {
    ChunkReach(j.a, c.vaddr, c.rem, n);
  }

  function Advance(c: Cursor, n: nat, lastIdx: nat): Cursor
    requires n <= c.rem
  {
    Cursor(c.rem - n, c.vaddr + n, c.sram + n, lastIdx + 1)
  }

  lemma LoopAdvances(j: Copy, c: Cursor, done: nat, log: seq<Burst>, n: nat, lastIdx: nat,
                     c': Cursor, done': nat, log': seq<Burst>)
    requires Feasible(j) && InLoop(j, CimOk, c, done, log) && c.rem > 0 && !j.stale
    requires Mapped(j.a, c.vaddr) && n == Chunk(j.a, c.vaddr, c.rem)
    requires n < c.rem ==> PageOf(j.a, c.vaddr + n) == PageOf(j.a, j.v) + lastIdx + 1
    requires c' == Advance(c, n, lastIdx) && done' == done + n
    requires log' == log + [Burst(Phys(j.a, c.vaddr), c.sram, n)]
    ensures InLoop(j, CimOk, c', done', log')
  {
    ChunkReady(j, c, done, log, n);
    ReachAdvances(j, c, n, c');
    PlanAdvances(j, c, log, n, c', log');
  }

  lemma ReachAdvances(j: Copy, c: Cursor, n: nat, c': Cursor)
    requires Sane(j.a) && c.rem > 0 && Mapped(j.a, c.vaddr) && n == Chunk(j.a, c.vaddr, c.rem)
    requires ReachLeft(j, c) && c'.vaddr == c.vaddr + n && c'.rem == c.rem - n
    ensures ReachLeft(j, c')
  {
    ChunkReach(j.a, c.vaddr, c.rem, n);
  }

  lemma PlanAdvances(j: Copy, c: Cursor, log: seq<Burst>, n: nat, c': Cursor, log': seq<Burst>)
    requires Sane(j.a) && c.rem > 0 && Mapped(j.a, c.vaddr) && n == Chunk(j.a, c.vaddr, c.rem) && PlanLeft(j, c, log)
    requires c'.vaddr == c.vaddr + n && c'.sram == c.sram + n && c'.rem == c.rem - n
    requires log' == log + [Burst(Phys(j.a, c.vaddr), c.sram, n)]
    ensures PlanLeft(j, c', log')
  {
    var rest := Greedy(j.a, c'.vaddr, c'.sram, c'.rem);
    GreedyUnfolds(j.a, c.vaddr, c.sram, c.rem, n, rest);
    BurstsShift(log, Burst(Phys(j.a, c.vaddr), c.sram, n), rest);
  }

  lemma BurstsShift(log: seq<Burst>, b: Burst, rest: Plan)
    ensures log + Bursts(Plan.Then(b, rest)) == log + [b] + Bursts(rest)
  {
    assert log + ([b] + Bursts(rest)) == log + [b] + Bursts(rest);
  }

  lemma LoopMeetsAbsent(j: Copy, c: Cursor, done: nat, log: seq<Burst>)
    requires Feasible(j) && InLoop(j, CimOk, c, done, log) && c.rem > 0 && !Mapped(j.a, c.vaddr)
    ensures InLoop(j, Io, c, done, log)
  {
    assert log + [] == log;
  }

  lemma LoopMeetsStale(j: Copy, c: Cursor, done: nat, log: seq<Burst>, n: nat, done': nat, log': seq<Burst>)
    requires Feasible(j) && InLoop(j, CimOk, c, done, log) && c.rem > 0 && j.stale
    requires Mapped(j.a, c.vaddr) && n == Chunk(j.a, c.vaddr, c.rem)
    requires done' == done + n && log' == log + [Burst(Phys(j.a, c.vaddr), c.sram, n)]
    ensures InLoop(j, Proto, c, done', log')
  {
    ChunkReady(j, c, done, log, n);
    StalePlan(j, n);
  }

  lemma StalePlan(j: Copy, n: nat)
    requires Feasible(j) && j.stale && Mapped(j.a, j.v) && n == Chunk(j.a, j.v, j.len)
    ensures Ended(j, Proto, n, j.log0 + [Burst(Phys(j.a, j.v), j.sram, n)])
  {
    var b := Burst(Phys(j.a, j.v), j.sram, n);
    assert CopyPlan(j.a, j.v, j.sram, j.len, true) == Plan.Then(b, Plan.Done);
    assert Bursts(Plan.Then(b, Plan.Done)) == [b] + [];
  }

  /** Without the pagemap entries nothing is moved. */
  lemma UncoveredEnds(j: Copy)
    requires Sane(j.a) && !Covered(j.a, j.v, j.len)
    ensures Ended(j, Io, 0, j.log0)
  {
    assert j.log0 + [] == j.log0;
  }

  lemma LoopEnds(j: Copy, rc: Rc, c: Cursor, done: nat, log: seq<Burst>)
    requires Feasible(j) && InLoop(j, rc, c, done, log) && (rc == CimOk ==> c.rem == 0)
    ensures Ended(j, rc, done, log)
  {
    assert log + [] == log;
  }
}
