/** How few bursts can move a buffer of any length, and when the greedy loop needs no more. */
module FewestBursts {
  import opened Bytes
  import opened Wrappers
  import opened PageTable
  import opened Coalescing

  // ---------------------------------------------------------------- contiguous stretches

  /** Length of the contiguous stretch of `[v, v+len)` that starts at `v`. */
  function Stretch(a: Space, v: nat, len: nat): (s: nat)
    requires Sane(a)
    ensures s <= len && (len > 0 && Mapped(a, v) ==> s > 0)
    decreases len
  {
    if len == 0 || !Mapped(a, v) then 0
    else if len > 1 && Follows(a, v) then 1 + Stretch(a, v + 1, len - 1)
    else 1
  }

  /** The byte after `v` is present and comes next in physical memory. */
  predicate Follows(a: Space, v: nat)
    requires Sane(a)
  {
    Mapped(a, v + 1) && Phys(a, v + 1) == Phys(a, v) + 1
  }

  lemma {:induction false} StretchContiguous(a: Space, v: nat, len: nat)
    requires Sane(a)
    ensures Contiguous(a, v, Stretch(a, v, len))
    decreases len
  {
    if len > 1 && Mapped(a, v) && Follows(a, v) {
      StretchContiguous(a, v + 1, len - 1);
      ContiguousGrows(a, v, Stretch(a, v + 1, len - 1));
    }
  }

  lemma ContiguousGrows(a: Space, v: nat, s: nat)
    requires Sane(a) && Mapped(a, v) && Follows(a, v) && Contiguous(a, v + 1, s)
    ensures Contiguous(a, v, s + 1)
  {
    forall u | v <= u < v + s + 1
      ensures Mapped(a, u) && Phys(a, u) == Phys(a, v) + (u - v)
    {
      if u > v {
        assert Phys(a, u) == Phys(a, v + 1) + (u - (v + 1));
      }
    }
  }

  /** A contiguous piece without its first `n` bytes. */
  lemma ContiguousFrom(a: Space, v: nat, q: nat, n: nat)
    requires Sane(a) && Contiguous(a, v, q) && n < q
    ensures Mapped(a, v) && Mapped(a, v + n) && Phys(a, v + n) == Phys(a, v) + n
    ensures Contiguous(a, v + n, q - n)
  {
    assert Mapped(a, v);
    assert Phys(a, v + n) == Phys(a, v) + (v + n - v);
    forall u | v + n <= u < v + n + (q - n)
      ensures Mapped(a, u) && Phys(a, u) == Phys(a, v + n) + (u - (v + n))
    {
      assert Phys(a, u) == Phys(a, v) + (u - v);
    }
  }

  lemma {:induction false} StretchMaximal(a: Space, v: nat, len: nat, q: nat)
    requires Sane(a) && q <= len && Contiguous(a, v, q)
    ensures q <= Stretch(a, v, len)
    decreases len
  {
    if q > 0 {
      ContiguousFrom(a, v, q, 0);
      if q > 1 {
        ContiguousFrom(a, v, q, 1);
        StretchMaximal(a, v + 1, len - 1, q - 1);
      }
    }
  }

  lemma {:induction false} StretchRest(a: Space, v: nat, len: nat, n: nat)
    requires Sane(a) && n < Stretch(a, v, len)
    ensures Stretch(a, v + n, len - n) == Stretch(a, v, len) - n
    decreases n
  {
    if n > 0 {
      StretchRest(a, v + 1, len - 1, n - 1);
      assert v + 1 + (n - 1) == v + n && len - 1 - (n - 1) == len - n;
    }
  }

  /** A stretch of a present buffer that ends early ends at a page boundary. */
  lemma StretchEnds(a: Space, v: nat, len: nat, s: nat)
    requires Sane(a) && AllMapped(a, v, len) && s == Stretch(a, v, len) && 0 < s < len
    ensures (v + s) % a.pageSize == 0
  {
    StretchContiguous(a, v, len);
    var u := v + s;
    if u % a.pageSize != 0 {
      InsidePage(a, u);
      assert Mapped(a, u);
      assert Phys(a, u - 1) == Phys(a, v) + (u - 1 - v);
      forall w | v <= w < v + (s + 1)
        ensures Mapped(a, w) && Phys(a, w) == Phys(a, v) + (w - v)
      {
      }
      StretchMaximal(a, v, len, s + 1);
    }
  }

  lemma InsidePage(a: Space, u: nat)
    requires Sane(a) && u > 0 && u % a.pageSize != 0 && Mapped(a, u)
    ensures Mapped(a, u - 1) && Phys(a, u) == Phys(a, u - 1) + 1
  {
    var k, o := PageOf(a, u), u % a.pageSize;
    assert u - 1 == k * a.pageSize + (o - 1);
    DivUnique(u - 1, a.pageSize, k, o - 1);
  }

  // ---------------------------------------------------------------- the fewest bursts

  /** Bursts that a stretch of `s` bytes needs if it may be cut anywhere: `s` over UINT32_MAX, rounded up. */
  function Needed(s: nat): nat {
    (s + UINT32_MAX - 1) / UINT32_MAX
  }

  /** It is the least number of bursts of at most 2^32 - 1 bytes that hold `s` bytes. */
  lemma NeededIs(s: nat, k: nat)
    ensures Needed(s) <= k <==> s <= k * 0xFFFF_FFFF
  {
    var u := 0xFFFF_FFFF;
    var q, r := (s + u - 1) / u, (s + u - 1) % u;
    assert s + u - 1 == q * u + r;
    if q <= k {
      MulMono(q, k, u);
    } else {
      MulMono(k + 1, q, u);
    }
  }

  lemma NeededLess(s: nat, n: nat)
    requires 0 < n < s && n <= UINT32_MAX
    ensures Needed(s) <= 1 + Needed(s - n)
    ensures n == UINT32_MAX ==> Needed(s) == 1 + Needed(s - n)
  {
  }

  lemma NeededOne(s: nat)
    requires 0 < s <= UINT32_MAX
    ensures Needed(s) == 1
  {
  }

  function Fewest(a: Space, v: nat, len: nat): nat
    requires Sane(a)
    decreases len
  {
    var s := Stretch(a, v, len);
    if s == 0 then 0 else Needed(s) + Fewest(a, v + s, len - s)
  }

  lemma FewestFrom(a: Space, v: nat, len: nat, n: nat, s: nat)
    requires Sane(a) && s == Stretch(a, v, len) && n < s
    ensures Fewest(a, v + n, len - n) == Needed(s - n) + Fewest(a, v + s, len - s)
  {
    StretchRest(a, v, len, n);
    assert v + n + (s - n) == v + s && len - n - (s - n) == len - s;
  }

  /** A buffer cannot be moved with fewer than `k` bursts. */
  predicate NeedsUpTo(a: Space, v: nat, len: nat, k: nat)
    requires Sane(a)
  {
    Fewest(a, v, len) <= k
  }

  /** No sequence of contiguous bursts that moves the whole buffer is shorter, .. */
  lemma {:induction false} FewestBound(a: Space, v: nat, at: nat, len: nat, p: Plan)
    requires Sane(a) && WalkEnd(a, v, at, p) == Some(v + len)
    ensures NeedsUpTo(a, v, len, Count(p))
    decreases p
  {
    if p.Then? {
      var n := p.burst.len;
      WalkTotal(a, v, at, p);
      StretchMaximal(a, v, len, n);
      FewestBound(a, v + n, at + n, len - n, p.rest);
      OneMore(a, v, len, n, Count(p.rest), Stretch(a, v, len));
    }
  }

  /** A contiguous first burst saves at most one. */
  lemma OneMore(a: Space, v: nat, len: nat, n: nat, k: nat, s: nat)
    requires Sane(a) && s == Stretch(a, v, len) && 0 < n <= s && n <= UINT32_MAX
    requires NeedsUpTo(a, v + n, len - n, k)
    ensures NeedsUpTo(a, v, len, 1 + k)
  {
    if n < s {
      FewestFrom(a, v, len, n, s);
      NeededLess(s, n);
    } else {
      NeededOne(s);
    }
  }

  lemma FewestStep(a: Space, v: nat, len: nat, n: nat, s: nat)
    requires Sane(a) && s == Stretch(a, v, len) && s > 0 && n == Min(s, UINT32_MAX)
    ensures Fewest(a, v, len) == 1 + Fewest(a, v + n, len - n)
  {
    if n < s {
      FewestFrom(a, v, len, n, s);
      NeededLess(s, n);
    } else {
      NeededOne(s);
    }
  }

  /** `p` moves the whole buffer with the fewest bursts possible. */
  predicate IsFewest(a: Space, v: nat, at: nat, len: nat, p: Plan)
    requires Sane(a)
  {
    WalkEnd(a, v, at, p) == Some(v + len) && Count(p) == Fewest(a, v, len)
  }

  lemma FewestOn(a: Space, v: nat, at: nat, len: nat, n: nat, rest: Plan)
    requires Sane(a) && Mapped(a, v) && len > 0 && n == Min(Stretch(a, v, len), UINT32_MAX)
    requires IsFewest(a, v + n, at + n, len - n, rest)
    ensures IsFewest(a, v, at, len, Then(Burst(Phys(a, v), at, n), rest))
  {
    StretchContiguous(a, v, len);
    FewestStep(a, v, len, n, Stretch(a, v, len));
  }

  /** .. and one of that length exists. */
  lemma {:induction false} FewestReached(a: Space, v: nat, at: nat, len: nat) returns (p: Plan)
    requires Sane(a) && AllMapped(a, v, len)
    ensures IsFewest(a, v, at, len, p)
    decreases len
  {
    if len == 0 {
      return Done;
    }
    assert Mapped(a, v);
    var n := Min(Stretch(a, v, len), UINT32_MAX);
    var rest := FewestReached(a, v + n, at + n, len - n);
    FewestOn(a, v, at, len, n, rest);
    p := Then(Burst(Phys(a, v), at, n), rest);
  }

  // ---------------------------------------------------------------- what the greedy loop issues

  /** The longest burst from `v` that ends at a page boundary. */
  function Whole(page: nat, v: nat): (c: nat)
    requires 0 < page <= UINT32_MAX
    ensures 0 < c <= UINT32_MAX
  {
    UINT32_MAX - (v + UINT32_MAX) % page
  }

  /** Bursts of the greedy loop for a stretch of `s` bytes at `v`. */
  function Pieces(page: nat, v: nat, s: nat): nat
    requires 0 < page <= UINT32_MAX
    decreases s
  {
    if s == 0 then 0
    else if s <= UINT32_MAX then 1
    else 1 + Pieces(page, v + Whole(page, v), s - Whole(page, v))
  }

  function AllPieces(a: Space, v: nat, len: nat): nat
    requires Sane(a)
    decreases len
  {
    var s := Stretch(a, v, len);
    if s == 0 then 0 else Pieces(a.pageSize, v, s) + AllPieces(a, v + s, len - s)
  }

  lemma WholeEnds(page: nat, v: nat, c: nat)
    requires 0 < page <= UINT32_MAX && c <= UINT32_MAX
    ensures (v + Whole(page, v)) % page == 0
    ensures (v + c) % page == 0 ==> c <= Whole(page, v)
  {
    var t := v + UINT32_MAX;
    var q, r := t / page, t % page;
    assert t == q * page + r;
    DivUnique(q * page, page, q, 0);
    if (v + c) % page == 0 && c > Whole(page, v) {
      var d := t - (v + c);
      DivUnique(v + c, page, q, r - d);
    }
  }

  /** Within a stretch the chunk is the rest of the stretch, or as many whole pages as fit. */
  lemma ChunkOfStretch(a: Space, v: nat, len: nat, s: nat, c: nat)
    requires Sane(a) && AllMapped(a, v, len) && len > 0 && s == Stretch(a, v, len) && c == Chunk(a, v, len)
    ensures c == if s <= UINT32_MAX then s else Whole(a.pageSize, v)
  {
    assert Mapped(a, v);
    ChunkContiguous(a, v, len);
    StretchMaximal(a, v, len, c);
    StretchContiguous(a, v, len);
    var q := if s <= UINT32_MAX then s else Whole(a.pageSize, v);
    WholeEnds(a.pageSize, v, c);
    if s < len {
      StretchEnds(a, v, len, s);
    }
    assert Contiguous(a, v, q);
    ChunkMaximal(a, v, len, q);
  }

  lemma {:induction false} GreedyPieces(a: Space, v: nat, sram: nat, len: nat)
    requires Sane(a) && AllMapped(a, v, len)
    ensures CountsPieces(a, v, len, Greedy(a, v, sram, len))
    decreases len
  {
    if len > 0 {
      var c := Chunk(a, v, len);
      GreedyPieces(a, v + c, sram + c, len - c);
      PiecesOn(a, v, sram, len, c, Greedy(a, v + c, sram + c, len - c));
    }
  }

  predicate CountsPieces(a: Space, v: nat, len: nat, p: Plan)
    requires Sane(a)
  {
    Count(p) == AllPieces(a, v, len)
  }

  lemma PiecesOn(a: Space, v: nat, sram: nat, len: nat, c: nat, rest: Plan)
    requires Sane(a) && AllMapped(a, v, len) && len > 0 && c == Chunk(a, v, len)
    requires rest == Greedy(a, v + c, sram + c, len - c) && CountsPieces(a, v + c, len - c, rest)
    ensures CountsPieces(a, v, len, Greedy(a, v, sram, len))
  {
    ChunkPieces(a, v, len, c, Stretch(a, v, len));
    GreedyUnfolds(a, v, sram, len, c, rest);
  }

  lemma ChunkPieces(a: Space, v: nat, len: nat, c: nat, s: nat)
    requires Sane(a) && AllMapped(a, v, len) && len > 0 && s == Stretch(a, v, len) && c == Chunk(a, v, len)
    ensures Mapped(a, v) && AllMapped(a, v + c, len - c)
    ensures AllPieces(a, v, len) == 1 + AllPieces(a, v + c, len - c)
  {
    assert Mapped(a, v);
    ChunkOfStretch(a, v, len, s, c);
    PiecesStep(a, v, len, c, s);
  }

  lemma PiecesStep(a: Space, v: nat, len: nat, c: nat, s: nat)
    requires Sane(a) && s == Stretch(a, v, len) && s > 0
    requires c == if s <= UINT32_MAX then s else Whole(a.pageSize, v)
    ensures AllPieces(a, v, len) == 1 + AllPieces(a, v + c, len - c)
  {
    if c < s {
      PiecesFrom(a, v, len, c, s);
    }
  }

  lemma PiecesFrom(a: Space, v: nat, len: nat, n: nat, s: nat)
    requires Sane(a) && s == Stretch(a, v, len) && n < s
    ensures AllPieces(a, v + n, len - n) == Pieces(a.pageSize, v + n, s - n) + AllPieces(a, v + s, len - s)
  {
    StretchRest(a, v, len, n);
    assert v + n + (s - n) == v + s && len - n - (s - n) == len - s;
  }

  // ---------------------------------------------------------------- when they are the same

  /** Bytes that the greedy loop covers with `k` bursts in a stretch that is long enough. */
  function Reachable(page: nat, v: nat, k: nat): nat
    requires 0 < page <= UINT32_MAX
    decreases k
  {
    if k == 0 then 0
    else if k == 1 then UINT32_MAX
    else Whole(page, v) + Reachable(page, v + Whole(page, v), k - 1)
  }

  lemma {:induction false} PiecesIff(page: nat, v: nat, s: nat, k: nat)
    requires 0 < page <= UINT32_MAX && k > 0
    ensures Pieces(page, v, s) <= k <==> s <= Reachable(page, v, k)
    decreases k
  {
    var c := Whole(page, v);
    if k > 1 {
      ReachableBeyond(page, v + c, k - 1);
      if s > UINT32_MAX {
        PiecesIff(page, v + c, s - c, k - 1);
      }
    } else if s > UINT32_MAX {
      PiecesPositive(page, v + c, s - c);
    }
  }

  lemma PiecesPositive(page: nat, v: nat, s: nat)
    requires 0 < page <= UINT32_MAX && s > 0
    ensures Pieces(page, v, s) > 0
  {
  }

  lemma {:induction false} ReachableBeyond(page: nat, v: nat, k: nat)
    requires 0 < page <= UINT32_MAX && k > 0
    ensures UINT32_MAX <= Reachable(page, v, k)
    decreases k
  {
    if k > 1 {
      ReachableBeyond(page, v + Whole(page, v), k - 1);
    }
  }

  /** The bytes by which the bursts before the last one fall short of the length field's maximum. */
  function Shortfall(page: nat, v: nat, k: nat): nat
    requires page > 0
  {
    if k < 2 then 0 else (v + UINT32_MAX) % page + (k - 2) * (UINT32_MAX % page)
  }

  lemma {:induction false} ReachableIs(page: nat, v: nat, k: nat)
    requires 0 < page <= UINT32_MAX && k > 0
    ensures Reachable(page, v, k) + Shortfall(page, v, k) == k * UINT32_MAX
    decreases k
  {
    if k > 1 {
      var w := v + Whole(page, v);
      WholeEnds(page, v, 0);
      ReachableIs(page, w, k - 1);
      AlignedRemainder(page, w);
      var r := UINT32_MAX % page;
      assert k > 2 ==> r + (k - 3) * r == (k - 2) * r;
    }
  }

  lemma AlignedRemainder(page: nat, w: nat)
    requires page > 0 && w % page == 0
    ensures (w + UINT32_MAX) % page == UINT32_MAX % page
  {
    var q, k, r := w / page, UINT32_MAX / page, UINT32_MAX % page;
    assert w == q * page && UINT32_MAX == k * page + r;
    assert (q + k) * page == q * page + k * page;
    DivUnique(w + UINT32_MAX, page, q + k, r);
  }

  /** A stretch loses nothing to page-aligned cuts: the shortfalls fit into what rounding up leaves free. */
  predicate Snug(page: nat, v: nat, s: nat)
    requires page > 0
  {
    s + Shortfall(page, v, Needed(s)) <= Needed(s) * UINT32_MAX
  }

  lemma SnugIff(page: nat, v: nat, s: nat)
    requires 0 < page <= UINT32_MAX && s > 0
    ensures Needed(s) <= Pieces(page, v, s)
    ensures Pieces(page, v, s) == Needed(s) <==> Snug(page, v, s)
  {
    var k := Needed(s);
    PiecesIff(page, v, s, k);
    ReachableIs(page, v, k);
    if k > 1 {
      PiecesIff(page, v, s, k - 1);
      ReachableIs(page, v, k - 1);
    } else {
      PiecesPositive(page, v, s);
    }
  }

  /** Every contiguous stretch of the buffer is snug. */
  predicate AllSnug(a: Space, v: nat, len: nat)
    requires Sane(a)
    decreases len
  {
    var s := Stretch(a, v, len);
    s > 0 ==> Snug(a.pageSize, v, s) && AllSnug(a, v + s, len - s)
  }

  lemma {:induction false} SnugSums(a: Space, v: nat, len: nat)
    requires Sane(a)
    ensures Fewest(a, v, len) <= AllPieces(a, v, len)
    ensures AllPieces(a, v, len) == Fewest(a, v, len) <==> AllSnug(a, v, len)
    decreases len
  {
    var s := Stretch(a, v, len);
    if s > 0 {
      SnugSums(a, v + s, len - s);
      SnugIff(a.pageSize, v, s);
    }
  }

  /** Whatever moves the whole buffer in contiguous bursts, cut at any byte, takes at least `k` of them. */
  ghost predicate NoneShorter(a: Space, v: nat, at: nat, len: nat, k: nat)
    requires Sane(a)
  {
    forall p: Plan | WalkEnd(a, v, at, p) == Some(v + len) :: k <= Count(p)
  }

  lemma NoneShorterIff(a: Space, v: nat, at: nat, len: nat, k: nat)
    requires Sane(a) && AllMapped(a, v, len)
    ensures NoneShorter(a, v, at, len, k) <==> k <= Fewest(a, v, len)
  {
    forall p: Plan | WalkEnd(a, v, at, p) == Some(v + len)
      ensures Fewest(a, v, len) <= Count(p)
    {
      FewestBound(a, v, at, len, p);
      assert NeedsUpTo(a, v, len, Count(p));
    }
    var least := FewestReached(a, v, at, len);
    assert IsFewest(a, v, at, len, least);
  }

  /** The greedy loop is as short as any sequence of contiguous bursts that moves the buffer, of any
      length, exactly when every contiguous stretch is snug. */
  lemma GreedyFewestIff(a: Space, v: nat, sram: nat, len: nat)
    requires Sane(a) && AllMapped(a, v, len)
    ensures NoneShorter(a, v, sram, len, Count(Greedy(a, v, sram, len))) <==> AllSnug(a, v, len)
  {
    GreedyPieces(a, v, sram, len);
    assert CountsPieces(a, v, len, Greedy(a, v, sram, len));
    SnugSums(a, v, len);
    NoneShorterIff(a, v, sram, len, AllPieces(a, v, len));
  }

  /** Stretches below 4 GiB are snug, .. */
  lemma ShortIsSnug(page: nat, v: nat, s: nat)
    requires page > 0 && 0 < s <= UINT32_MAX
    ensures Snug(page, v, s)
  {
  }

  /** .. and one of twice the maximum in pages of 4 KiB is not: the loop takes three bursts for two. */
  lemma TwiceTheMaximum(a: Space, sram: nat)
    requires a == Space(4096, seq(0x20_0000, k requires 0 <= k < 0x20_0000 => Entry(true, k)))
    ensures AllMapped(a, 0, 2 * UINT32_MAX) && Contiguous(a, 0, 2 * UINT32_MAX)
    ensures Fewest(a, 0, 2 * UINT32_MAX) == 2 && Count(Greedy(a, 0, sram, 2 * UINT32_MAX)) == 3
  {
    var len := 2 * UINT32_MAX;
    forall u | 0 <= u < len
      ensures Mapped(a, u) && Phys(a, u) == u
    {
      assert u / 4096 < 0x20_0000;
    }
    assert Contiguous(a, 0, len);
    StretchMaximal(a, 0, len, len);
    OneStretch(a, 0, len);
    PiecesOfTwice();
    GreedyPieces(a, 0, sram, len);
    assert CountsPieces(a, 0, len, Greedy(a, 0, sram, len));
  }

  lemma OneStretch(a: Space, v: nat, len: nat)
    requires Sane(a) && len > 0 && Stretch(a, v, len) == len
    ensures AllPieces(a, v, len) == Pieces(a.pageSize, v, len) && Fewest(a, v, len) == Needed(len)
  {
    assert Stretch(a, v + len, 0) == 0;
  }

  lemma PiecesOfTwice()
    ensures Pieces(4096, 0, 2 * UINT32_MAX) == 3 && Needed(2 * UINT32_MAX) == 2
  {
    var len, c := 2 * UINT32_MAX, UINT32_MAX - 4095;
    assert Whole(4096, 0) == Whole(4096, c) == c;
    assert Pieces(4096, c + c, len - c - c) == 1;
    assert Pieces(4096, c, len - c) == 2;
  }
}
