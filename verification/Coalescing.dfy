/** The greedy split of a paged buffer into device transactions: what it covers, that it is the
    shortest split possible, and how many transactions it takes. */
module Coalescing {
  import opened Bytes
  import opened PageTable
  import opened Wrappers

  /** One device transaction between `len` bytes of physical memory at `phys` and of SRAM at `sram`. */
  datatype Burst = Burst(phys: nat, sram: nat, len: nat)

  /** The transactions of one copy, in order. */
  datatype Plan = Done | Then(burst: Burst, rest: Plan)

  function Bursts(p: Plan): (bs: seq<Burst>)
    ensures |bs| == Count(p)
  {
    match p
    case Done => []
    case Then(b, rest) => [b] + Bursts(rest)
  }

  function Count(p: Plan): nat {
    match p
    case Done => 0
    case Then(_, rest) => 1 + Count(rest)
  }

  function TotalLen(p: Plan): nat {
    match p
    case Done => 0
    case Then(b, rest) => b.len + TotalLen(rest)
  }

  /** Bytes up to the end of the first page, or the whole remainder. */
  function FirstPiece(a: Space, v: nat, rem: nat): (c: nat)
    requires Sane(a)
    ensures c <= rem && (rem > 0 ==> c > 0) && c <= UINT32_MAX
  {
    Min(a.pageSize - v % a.pageSize, rem)
  }

  /** May a chunk of `chunk` out of `rem` bytes that ends in page `k` take in the next page? */
  predicate CanGrow(a: Space, k: nat, chunk: nat, rem: nat) {
    && chunk < rem
    && k + 1 < |a.pagemap|
    && a.pagemap[k + 1].present
    && a.pagemap[k].pfn + 1 == a.pagemap[k + 1].pfn
    && chunk + Min(a.pageSize, rem - chunk) <= UINT32_MAX
  }

  /** The chunk after looking ahead as far as it can grow. */
  function Grow(a: Space, k: nat, chunk: nat, rem: nat): (c: nat)
    requires Sane(a) && chunk <= rem
    ensures chunk <= c <= rem
    ensures chunk <= UINT32_MAX ==> c <= UINT32_MAX
    decreases rem - chunk
  {
    if CanGrow(a, k, chunk, rem)
    then Grow(a, k + 1, chunk + Min(a.pageSize, rem - chunk), rem)
    else chunk
  }

  function Chunk(a: Space, v: nat, rem: nat): (c: nat)
    requires Sane(a)
    ensures c <= rem && (rem > 0 ==> c > 0) && c <= UINT32_MAX
  {
    Grow(a, PageOf(a, v), FirstPiece(a, v, rem), rem)
  }

  /** The transactions that the paged copy of `[v, v+rem)` issues. */
  function Greedy(a: Space, v: nat, sram: nat, rem: nat): Plan
    requires Sane(a)
    decreases rem
  {
    if rem == 0 || !Mapped(a, v) then Done
    else
      var c := Chunk(a, v, rem);
      Then(Burst(Phys(a, v), sram, c), Greedy(a, v + c, sram + c, rem - c))
  }

  // ---------------------------------------------------------------- every chunk is contiguous

  /** `c` bytes from `v` on end in page `k`, and at its end unless they are all of `rem`. */
  predicate EndsIn(a: Space, v: nat, c: nat, rem: nat, k: nat)
    requires Sane(a)
  {
    && 0 < c <= rem
    && (c < rem ==> v + c == k * a.pageSize + a.pageSize)
    && PageOf(a, v + c - 1) == k
  }

  /** One whole page. */
  lemma InPage(a: Space, k: nat, u: nat)
    requires Sane(a) && k * a.pageSize <= u < k * a.pageSize + a.pageSize
    ensures PageOf(a, u) == k && u % a.pageSize == u - k * a.pageSize
  {
    DivUnique(u, a.pageSize, k, u - k * a.pageSize);
  }

  lemma FirstPieceEnds(a: Space, v: nat, rem: nat)
    requires Sane(a) && rem > 0
    ensures EndsIn(a, v, FirstPiece(a, v, rem), rem, PageOf(a, v))
  {
    var k, c := PageOf(a, v), FirstPiece(a, v, rem);
    assert v == k * a.pageSize + v % a.pageSize;
    InPage(a, k, v + c - 1);
  }

  lemma FirstPieceContiguous(a: Space, v: nat, rem: nat)
    requires Sane(a) && Mapped(a, v)
    ensures Contiguous(a, v, FirstPiece(a, v, rem))
  {
    var k, c := PageOf(a, v), FirstPiece(a, v, rem);
    assert v == k * a.pageSize + v % a.pageSize;
    forall u | v <= u < v + c
      ensures Mapped(a, u) && Phys(a, u) == Phys(a, v) + (u - v)
    {
      InPage(a, k, u);
    }
  }

  lemma StepEnds(a: Space, v: nat, k: nat, chunk: nat, rem: nat)
    requires Sane(a) && chunk < rem && EndsIn(a, v, chunk, rem, k)
    ensures EndsIn(a, v, chunk + Min(a.pageSize, rem - chunk), rem, k + 1)
  {
    var add := Min(a.pageSize, rem - chunk);
    assert v + chunk == (k + 1) * a.pageSize;
    InPage(a, k + 1, v + chunk + add - 1);
  }

  lemma StepContiguous(a: Space, v: nat, k: nat, chunk: nat, rem: nat)
    requires Sane(a) && EndsIn(a, v, chunk, rem, k) && Contiguous(a, v, chunk)
    requires CanGrow(a, k, chunk, rem)
    ensures Contiguous(a, v, chunk + Min(a.pageSize, rem - chunk))
  {
    var p := a.pageSize;
    var last := v + chunk - 1;
    assert v + chunk == (k + 1) * p;
    InPage(a, k, last);
    assert Mapped(a, last) && Phys(a, last) == Phys(a, v) + (chunk - 1);
    assert Phys(a, last) == a.pagemap[k].pfn * p + (p - 1);
    assert a.pagemap[k + 1].pfn * p == a.pagemap[k].pfn * p + p;
    forall u | v <= u < v + chunk + Min(p, rem - chunk)
      ensures Mapped(a, u) && Phys(a, u) == Phys(a, v) + (u - v)
    {
      if u >= v + chunk {
        InPage(a, k + 1, u);
      }
    }
  }

  lemma {:induction false} GrowContiguous(a: Space, v: nat, k: nat, chunk: nat, rem: nat)
    requires Sane(a) && EndsIn(a, v, chunk, rem, k) && Contiguous(a, v, chunk)
    ensures Contiguous(a, v, Grow(a, k, chunk, rem))
    ensures Grow(a, k, chunk, rem) < rem ==> (v + Grow(a, k, chunk, rem)) % a.pageSize == 0
    decreases rem - chunk
  {
    if CanGrow(a, k, chunk, rem) {
      StepEnds(a, v, k, chunk, rem);
      StepContiguous(a, v, k, chunk, rem);
      GrowContiguous(a, v, k + 1, chunk + Min(a.pageSize, rem - chunk), rem);
    } else if chunk < rem {
      assert v + chunk == (k + 1) * a.pageSize + 0;
      PageAt(a, k + 1, 0);
    }
  }

  /** A transaction never leaves a physically contiguous stretch of present pages, and stops
      early only at a page boundary. */
  lemma ChunkContiguous(a: Space, v: nat, rem: nat)
    requires Sane(a) && rem > 0 && Mapped(a, v)
    ensures Contiguous(a, v, Chunk(a, v, rem))
    ensures Chunk(a, v, rem) < rem ==> (v + Chunk(a, v, rem)) % a.pageSize == 0
  {
    FirstPieceEnds(a, v, rem);
    FirstPieceContiguous(a, v, rem);
    GrowContiguous(a, v, PageOf(a, v), FirstPiece(a, v, rem), rem);
  }

  lemma ChunkReach(a: Space, v: nat, rem: nat, c: nat)
    requires Sane(a) && rem > 0 && Mapped(a, v) && c == Chunk(a, v, rem)
    ensures Contiguous(a, v, c)
    ensures Reach(a, v, rem) == c + Reach(a, v + c, rem - c)
  {
    ChunkContiguous(a, v, rem);
    assert AllMapped(a, v, c);
    ReachSkip(a, v, rem, c);
  }

  // ---------------------------------------------------------------- what a run covers

  /** `b` moves a non-empty, physically contiguous piece that starts at `v`. */
  predicate Starts(a: Space, v: nat, sram: nat, b: Burst)
    requires Sane(a)
  {
    && b.phys == Phys(a, v) && b.sram == sram
    && 0 < b.len <= UINT32_MAX
    && Contiguous(a, v, b.len)
  }

  /** Where `p` ends if it walks virtual memory from `v` and SRAM from `sram` in lock step, one
      physically contiguous piece after another. */
  function WalkEnd(a: Space, v: nat, sram: nat, p: Plan): Option<nat>
    requires Sane(a)
    decreases p
  {
    match p
    case Done => Some(v)
    case Then(b, rest) =>
      if Starts(a, v, sram, b) then WalkEnd(a, v + b.len, sram + b.len, rest) else None
  }

  /** The transactions walk the buffer in lock step with SRAM and cover exactly the bytes before
      the first absent page. */
  lemma {:induction false} GreedyWalks(a: Space, v: nat, sram: nat, rem: nat)
    requires Sane(a)
    ensures Covers(a, v, sram, rem, Greedy(a, v, sram, rem))
    decreases rem
  {
    if rem == 0 || !Mapped(a, v) {
      GreedyStops(a, v, sram, rem);
    } else {
      var c := Chunk(a, v, rem);
      GreedyWalks(a, v + c, sram + c, rem - c);
      GreedyWalksOn(a, v, sram, rem, c, Greedy(a, v + c, sram + c, rem - c));
    }
  }

  /** `p` walks exactly the bytes of `[v, v+rem)` before the first absent page. */
  predicate Covers(a: Space, v: nat, sram: nat, rem: nat, p: Plan)
    requires Sane(a)
  {
    WalkEnd(a, v, sram, p) == Some(v + Reach(a, v, rem))
  }

  lemma GreedyStops(a: Space, v: nat, sram: nat, rem: nat)
    requires Sane(a) && (rem == 0 || !Mapped(a, v))
    ensures Covers(a, v, sram, rem, Greedy(a, v, sram, rem))
  {
  }

  lemma GreedyWalksOn(a: Space, v: nat, sram: nat, rem: nat, c: nat, rest: Plan)
    requires Sane(a) && rem > 0 && Mapped(a, v) && c == Chunk(a, v, rem) && rest == Greedy(a, v + c, sram + c, rem - c)
    requires Covers(a, v + c, sram + c, rem - c, rest)
    ensures Covers(a, v, sram, rem, Greedy(a, v, sram, rem))
  {
    WalkStep(a, v, sram, rem, c, rest);
    GreedyUnfolds(a, v, sram, rem, c, rest);
  }

  lemma GreedyUnfolds(a: Space, v: nat, sram: nat, rem: nat, c: nat, rest: Plan)
    requires Sane(a) && rem > 0 && Mapped(a, v) && c == Chunk(a, v, rem) && rest == Greedy(a, v + c, sram + c, rem - c)
    ensures Greedy(a, v, sram, rem) == Then(Burst(Phys(a, v), sram, c), rest)
  {
  }

  lemma WalkStep(a: Space, v: nat, sram: nat, rem: nat, c: nat, rest: Plan)
    requires Sane(a) && rem > 0 && Mapped(a, v) && c == Chunk(a, v, rem)
    ensures WalkEnd(a, v, sram, Then(Burst(Phys(a, v), sram, c), rest)) == WalkEnd(a, v + c, sram + c, rest)
    ensures Reach(a, v, rem) == c + Reach(a, v + c, rem - c)
  {
    ChunkReach(a, v, rem, c);
  }

  lemma {:induction false} WalkTotal(a: Space, v: nat, sram: nat, p: Plan)
    requires Sane(a) && WalkEnd(a, v, sram, p).Some?
    ensures WalkEnd(a, v, sram, p) == Some(v + TotalLen(p))
    decreases p
  {
    if p.Then? {
      WalkTotal(a, v + p.burst.len, sram + p.burst.len, p.rest);
    }
  }

  // ---------------------------------------------------------------- fewest transactions

  /** A way to cut `[v, v+len)` into contiguous pieces the hardware accepts. While more than
      UINT32_MAX bytes are left the cuts are at page boundaries, after that they may be anywhere. */
  predicate LegalSplit(a: Space, v: nat, len: nat, p: Plan)
    requires Sane(a)
    decreases p
  {
    match p
    case Done => len == 0
    case Then(b, rest) =>
      LegalPiece(a, v, b.len, len) && LegalSplit(a, v + b.len, len - b.len, rest)
  }

  predicate LegalPiece(a: Space, v: nat, c: nat, len: nat)
    requires Sane(a)
  {
    && 0 < c <= len && c <= UINT32_MAX
    && Contiguous(a, v, c)
    && (c < len && len > UINT32_MAX ==> (v + c) % a.pageSize == 0)
  }

  lemma ChunkLegal(a: Space, v: nat, rem: nat)
    requires Sane(a) && rem > 0 && Mapped(a, v)
    ensures LegalPiece(a, v, Chunk(a, v, rem), rem)
  {
    ChunkContiguous(a, v, rem);
  }

  /** A legal piece that goes past the chunk lets the chunk grow. */
  lemma LongerPieceGrows(a: Space, v: nat, k: nat, chunk: nat, rem: nat, q: nat)
    requires Sane(a) && EndsIn(a, v, chunk, rem, k) && LegalPiece(a, v, q, rem) && chunk < q
    ensures CanGrow(a, k, chunk, rem)
    ensures rem > UINT32_MAX ==> chunk + Min(a.pageSize, rem - chunk) <= q
  {
    var p := a.pageSize;
    var u := v + chunk;
    assert u == (k + 1) * p;
    InPage(a, k, u - 1);
    InPage(a, k + 1, u);
    assert Mapped(a, u - 1) && Mapped(a, u);
    assert Phys(a, u) == Phys(a, u - 1) + 1;
    assert a.pagemap[k + 1].pfn * p == (a.pagemap[k].pfn + 1) * p;
    MulCancel(a.pagemap[k + 1].pfn, a.pagemap[k].pfn + 1, p);
    if rem > UINT32_MAX && q < rem && q - chunk < p {
      InPage(a, k + 1, v + q);
      assert false;
    }
  }

  lemma MulCancel(x: nat, y: nat, p: nat)
    requires p > 0 && x * p == y * p
    ensures x == y
  {
    DivUnique(x * p, p, x, 0);
    DivUnique(x * p, p, y, 0);
  }

  lemma {:induction false} GrowMaximal(a: Space, v: nat, k: nat, chunk: nat, rem: nat, q: nat)
    requires Sane(a) && EndsIn(a, v, chunk, rem, k) && LegalPiece(a, v, q, rem)
    ensures q <= Grow(a, k, chunk, rem)
    decreases rem - chunk
  {
    if chunk < q {
      LongerPieceGrows(a, v, k, chunk, rem, q);
      StepEnds(a, v, k, chunk, rem);
      GrowMaximal(a, v, k + 1, chunk + Min(a.pageSize, rem - chunk), rem, q);
    }
  }

  /** The chunk is the longest legal piece at its address. */
  lemma ChunkMaximal(a: Space, v: nat, rem: nat, q: nat)
    requires Sane(a) && rem > 0 && LegalPiece(a, v, q, rem)
    ensures q <= Chunk(a, v, rem)
  {
    FirstPieceEnds(a, v, rem);
    GrowMaximal(a, v, PageOf(a, v), FirstPiece(a, v, rem), rem, q);
  }

  /** Greedy stays ahead: from any boundary `w` at or after `v` it needs no more pieces than a
      split of everything from `v`. */
  lemma {:induction false} GreedyAhead(a: Space, v: nat, len: nat, p: Plan, w: nat, rem: nat, sram: nat)
    requires Sane(a) && v <= w && w + rem == v + len && LegalSplit(a, v, len, p)
    ensures GreedyWithin(a, w, sram, rem, Count(p))
    decreases p
  {
    if rem > 0 {
      var n := p.burst.len;
      if v + n <= w {
        GreedyAhead(a, v + n, len - n, p.rest, w, rem, sram);
        assert GreedyWithin(a, w, sram, rem, Count(p.rest));
      } else {
        var c := Chunk(a, w, rem);
        PieceFrom(a, v, len, n, w, rem);
        ChunkMaximal(a, w, rem, v + n - w);
        GreedyAhead(a, v + n, len - n, p.rest, w + c, rem - c, sram + c);
        WithinStep(a, w, sram, rem, c, Count(p.rest));
      }
    }
  }

  predicate GreedyWithin(a: Space, v: nat, sram: nat, rem: nat, k: nat)
    requires Sane(a)
  {
    Count(Greedy(a, v, sram, rem)) <= k
  }

  lemma WithinStep(a: Space, v: nat, sram: nat, rem: nat, c: nat, k: nat)
    requires Sane(a) && rem > 0 && Mapped(a, v) && c == Chunk(a, v, rem)
    requires GreedyWithin(a, v + c, sram + c, rem - c, k)
    ensures GreedyWithin(a, v, sram, rem, 1 + k)
  {
    GreedyUnfolds(a, v, sram, rem, c, Greedy(a, v + c, sram + c, rem - c));
  }

  /** What a legal piece leaves after any of its bytes is a legal piece. */
  lemma PieceFrom(a: Space, v: nat, len: nat, c: nat, w: nat, rem: nat)
    requires Sane(a) && v <= w < v + c && w + rem == v + len && LegalPiece(a, v, c, len)
    ensures Mapped(a, w) && LegalPiece(a, w, v + c - w, rem)
  {
    assert Mapped(a, w);
    assert Contiguous(a, w, v + c - w);
  }

  /** No legal split of the buffer uses fewer transactions than the greedy one .. */
  lemma GreedyOptimal(a: Space, v: nat, sram: nat, len: nat, p: Plan)
    requires Sane(a) && LegalSplit(a, v, len, p)
    ensures Count(Greedy(a, v, sram, len)) <= Count(p)
  {
    GreedyAhead(a, v, len, p, v, len, sram);
  }

  /** .. which is one of the splits it is compared with. */
  lemma {:induction false} GreedyLegal(a: Space, v: nat, sram: nat, len: nat)
    requires Sane(a) && AllMapped(a, v, len)
    ensures LegalSplit(a, v, len, Greedy(a, v, sram, len))
    decreases len
  {
    if len > 0 {
      assert Mapped(a, v);
      var c := Chunk(a, v, len);
      ChunkLegal(a, v, len);
      GreedyLegal(a, v + c, sram + c, len - c);
    }
  }

  /** For buffers below 4 GiB that means: nothing that moves the whole buffer in contiguous pieces,
      cut at any byte, uses fewer transactions. */
  lemma GreedyFewest(a: Space, v: nat, sram: nat, len: nat, p: Plan)
    requires Sane(a) && len <= 0xFFFF_FFFF && WalkEnd(a, v, sram, p) == Some(v + len)
    ensures Count(Greedy(a, v, sram, len)) <= Count(p)
  {
    WalkLegal(a, v, sram, len, p);
    GreedyOptimal(a, v, sram, len, p);
  }

  lemma {:induction false} WalkLegal(a: Space, v: nat, sram: nat, len: nat, p: Plan)
    requires Sane(a) && len <= UINT32_MAX && WalkEnd(a, v, sram, p) == Some(v + len)
    ensures LegalSplit(a, v, len, p)
    decreases p
  {
    if p.Then? {
      WalkTotal(a, v, sram, p);
      WalkLegal(a, v + p.burst.len, sram + p.burst.len, len - p.burst.len, p.rest);
    }
  }

  // ---------------------------------------------------------------- exact count

  /** How many of the page steps `k -> k+1 -> .. -> last` are not steps to the next frame. */
  function Jumps(a: Space, k: nat, last: nat): nat
    requires last < |a.pagemap|
    decreases last - k
  {
    if k >= last then 0
    else (if a.pagemap[k].pfn + 1 == a.pagemap[k + 1].pfn then 0 else 1) + Jumps(a, k + 1, last)
  }

  lemma DivMono(x: nat, y: nat, p: nat)
    requires x <= y && p > 0
    ensures x / p <= y / p
  {
    assert x == (x / p) * p + x % p && y == (y / p) * p + y % p;
    if y / p < x / p {
      MulMono(y / p + 1, x / p, p);
    }
  }

  lemma {:induction false} GrowJumps(a: Space, v: nat, k: nat, chunk: nat, rem: nat, last: nat)
    requires Sane(a) && rem <= UINT32_MAX && EndsIn(a, v, chunk, rem, k)
    requires AllMapped(a, v, rem) && last == PageOf(a, v + rem - 1) && last < |a.pagemap|
    ensures var c := Grow(a, k, chunk, rem);
            Jumps(a, k, last) == if c < rem then 1 + Jumps(a, PageOf(a, v + c), last) else 0
    decreases rem - chunk
  {
    if chunk < rem {
      assert v + chunk == (k + 1) * a.pageSize;
      InPage(a, k + 1, v + chunk);
      DivMono(v + chunk, v + rem - 1, a.pageSize);
      assert Mapped(a, v + chunk);
      if CanGrow(a, k, chunk, rem) {
        StepEnds(a, v, k, chunk, rem);
        GrowJumps(a, v, k + 1, chunk + Min(a.pageSize, rem - chunk), rem, last);
      }
    }
  }

  /** For buffers below 4 GiB the number of transactions is one more than the number of places
      where physical memory is fragmented. */
  lemma {:induction false} GreedyCount(a: Space, v: nat, sram: nat, len: nat)
    requires Sane(a) && AllMapped(a, v, len) && 0 < len <= 0xFFFF_FFFF
    requires PageOf(a, v + len - 1) < |a.pagemap|
    ensures Count(Greedy(a, v, sram, len)) == 1 + Jumps(a, PageOf(a, v), PageOf(a, v + len - 1))
    decreases len
  {
    assert Mapped(a, v);
    var c := Chunk(a, v, len);
    FirstPieceEnds(a, v, len);
    GrowJumps(a, v, PageOf(a, v), FirstPiece(a, v, len), len, PageOf(a, v + len - 1));
    if c < len {
      GreedyCount(a, v + c, sram + c, len - c);
    }
  }

  /** A buffer below 4 GiB goes out as the one transaction of the single-physical-range mode
      exactly when it is physically contiguous. */
  lemma OneBurstIffContiguous(a: Space, v: nat, sram: nat, len: nat)
    requires Sane(a) && 0 < len <= 0xFFFF_FFFF && Mapped(a, v)
    ensures Greedy(a, v, sram, len) == Then(Burst(Phys(a, v), sram, len), Done) <==> Contiguous(a, v, len)
  {
    var c := Chunk(a, v, len);
    ChunkReach(a, v, len, c);
    if Contiguous(a, v, len) {
      ChunkMaximal(a, v, len, len);
    }
  }
}
