/** Virtual memory as `/proc/self/pagemap` shows it, and the byte-at-a-time copies that the
    paged DMA has to reproduce. */
module PageTable {
  import opened Bytes

  /** What a 64-bit pagemap entry says: bit 63 is "present", bits 0 to 54 are the frame number. */
  datatype Entry = Entry(present: bool, pfn: nat)

  predicate PresentBit(e: u64) {
    e / 0x8000_0000_0000_0000 % 2 == 1
  }

  function PfnBits(e: u64): nat {
    e % 0x80_0000_0000_0000
  }

  function DecodeEntry(e: u64): Entry {
    Entry(PresentBit(e), PfnBits(e))
  }

  function DecodeEntries(raw: seq<u64>): (es: seq<Entry>)
    ensures |es| == |raw|
    ensures forall k :: 0 <= k < |raw| ==> es[k] == DecodeEntry(raw[k])
  {
    seq(|raw|, k requires 0 <= k < |raw| => DecodeEntry(raw[k]))
  }

  /** An entry is nine flag bits over a 55-bit frame number, and the topmost flag says "present". */
  lemma EntryOf(flags: nat, f: nat)
    requires flags < 512 && f < 0x80_0000_0000_0000
    ensures flags * 0x80_0000_0000_0000 + f < 0x1_0000_0000_0000_0000
    ensures DecodeEntry(flags * 0x80_0000_0000_0000 + f) == Entry(flags >= 256, f)
  {
  }

  /** The same of any raw entry, with its two parts as quotient and remainder. */
  lemma RawEntry(e: u64)
    ensures DecodeEntry(e) == Entry(e >= 0x8000_0000_0000_0000, e % 0x80_0000_0000_0000)
  {
  }

  /** A process address space: the page size and one pagemap entry per virtual page. */
  datatype Space = Space(pageSize: nat, pagemap: seq<Entry>)

  /** `page_sz` comes from `sysconf`: it is positive and a chunk of one page fits `uint32_t`. */
  predicate Sane(a: Space) {
    0 < a.pageSize <= UINT32_MAX
  }

  function PageOf(a: Space, v: nat): nat
    requires Sane(a)
  {
    v / a.pageSize
  }

  /** The virtual address `v` lies on a page that is present. */
  predicate Mapped(a: Space, v: nat)
    requires Sane(a)
  {
    PageOf(a, v) < |a.pagemap| && a.pagemap[PageOf(a, v)].present
  }

  function Phys(a: Space, v: nat): nat
    requires Sane(a)
  {
    if PageOf(a, v) < |a.pagemap|
    then a.pagemap[PageOf(a, v)].pfn * a.pageSize + v % a.pageSize
    else 0
  }

  /** Every present page is backed by a frame of a physical memory of `size` bytes. */
  predicate Backed(a: Space, size: nat) {
    forall k :: 0 <= k < |a.pagemap| && a.pagemap[k].present ==>
      FrameEnd(a, k) <= size
  }

  function FrameEnd(a: Space, k: nat): nat
    requires k < |a.pagemap|
  {
    (a.pagemap[k].pfn + 1) * a.pageSize
  }

  lemma BackedByte(a: Space, size: nat, v: nat)
    requires Sane(a) && Backed(a, size) && Mapped(a, v)
    ensures Phys(a, v) < size
  {
    var k := PageOf(a, v);
    assert FrameEnd(a, k) <= size;
    assert FrameEnd(a, k) == a.pagemap[k].pfn * a.pageSize + a.pageSize;
  }

  /** All of `[v, v+len)` is present. */
  predicate AllMapped(a: Space, v: nat, len: nat)
    requires Sane(a)
  {
    forall u :: v <= u < v + len ==> Mapped(a, u)
  }

  /** `[v, v+len)` is present and physically contiguous. */
  predicate Contiguous(a: Space, v: nat, len: nat)
    requires Sane(a)
  {
    forall u :: v <= u < v + len ==> Mapped(a, u) && Phys(a, u) == Phys(a, v) + (u - v)
  }

  /** How many bytes of `[v, v+len)` come before the first absent page. */
  function Reach(a: Space, v: nat, len: nat): (r: nat)
    requires Sane(a)
    ensures r <= len
    decreases len
  {
    if len == 0 || !Mapped(a, v) then 0 else 1 + Reach(a, v + 1, len - 1)
  }

  /** `Reach` is the one length whose bytes are all present and whose next byte is not. */
  lemma ReachIff(a: Space, v: nat, len: nat, r: nat)
    requires Sane(a) && r <= len
    ensures r == Reach(a, v, len) <==> AllMapped(a, v, r) && (r < len ==> !Mapped(a, v + r))
  {
    var s := Reach(a, v, len);
    ReachSpec(a, v, len);
    assert s < r ==> v <= v + s < v + r;
    assert r < s ==> v <= v + r < v + s;
  }

  lemma {:induction false} ReachSpec(a: Space, v: nat, len: nat)
    requires Sane(a)
    ensures AllMapped(a, v, Reach(a, v, len))
    ensures Reach(a, v, len) < len ==> !Mapped(a, v + Reach(a, v, len))
    decreases len
  {
    if len > 0 && Mapped(a, v) {
      ReachSpec(a, v + 1, len - 1);
    }
  }

  lemma ReachSkip(a: Space, v: nat, len: nat, c: nat)
    requires Sane(a) && c <= len && AllMapped(a, v, c)
    ensures Reach(a, v, len) == c + Reach(a, v + c, len - c)
  {
    var r := Reach(a, v + c, len - c);
    ReachSpec(a, v + c, len - c);
    assert v + c + r == v + (c + r);
    ReachIff(a, v, len, c + r);
  }

  /** Page arithmetic: an address given by page and offset. */
  lemma PageAt(a: Space, k: nat, o: nat)
    requires Sane(a) && o < a.pageSize
    ensures PageOf(a, k * a.pageSize + o) == k
    ensures (k * a.pageSize + o) % a.pageSize == o
  {
    DivUnique(k * a.pageSize + o, a.pageSize, k, o);
  }

  lemma DivUnique(v: nat, p: nat, k: nat, o: nat)
    requires p > 0 && o < p && v == k * p + o
    ensures v / p == k && v % p == o
  {
    var q, r := v / p, v % p;
    assert v == q * p + r;
    if q < k {
      MulMono(q + 1, k, p);
    } else if k < q {
      MulMono(k + 1, q, p);
    }
  }

  lemma MulMono(x: nat, y: nat, p: nat)
    requires x <= y
    ensures x * p <= y * p
  {
  }

  // ---------------------------------------------------------------- byte-wise copies

  /** `[v, v+len)` is present and inside a physical memory of `size` bytes. */
  predicate InRam(a: Space, v: nat, len: nat, size: nat)
    requires Sane(a)
  {
    forall u :: v <= u < v + len ==> Mapped(a, u) && Phys(a, u) < size
  }

  lemma BackedInRam(a: Space, v: nat, len: nat, size: nat)
    requires Sane(a) && Backed(a, size) && AllMapped(a, v, len)
    ensures InRam(a, v, len, size)
  {
    forall u | v <= u < v + len
      ensures Mapped(a, u) && Phys(a, u) < size
    {
      BackedByte(a, size, u);
    }
  }

  /** The bytes a program sees at `[v, v+len)`. */
  function Gather(ram: seq<byte>, a: Space, v: nat, len: nat): (b: seq<byte>)
    requires Sane(a) && InRam(a, v, len, |ram|)
    ensures |b| == len
    ensures forall i :: 0 <= i < len ==> b[i] == ram[Phys(a, v + i)]
  {
    seq(len, i requires 0 <= i < len => ram[Phys(a, v + i)])
  }

  lemma GatherAppend(ram: seq<byte>, a: Space, v: nat, x: nat, y: nat)
    requires Sane(a) && InRam(a, v, x + y, |ram|) && Contiguous(a, v + x, y)
    requires Phys(a, v + x) + y <= |ram|
    ensures Gather(ram, a, v, x + y) ==
            Gather(ram, a, v, x) + ram[Phys(a, v + x)..Phys(a, v + x) + y]
  {
    var l, r := Gather(ram, a, v, x + y),
                Gather(ram, a, v, x) + ram[Phys(a, v + x)..Phys(a, v + x) + y];
    forall i | 0 <= i < x + y
      ensures l[i] == r[i]
    {
      if i >= x {
        assert Phys(a, v + i) == Phys(a, v + x) + (v + i - (v + x));
      }
    }
  }

  /** What a program leaves in physical memory by storing `b` at `v`, one byte after another. */
  function Scatter(ram: seq<byte>, a: Space, v: nat, b: seq<byte>): (r: seq<byte>)
    requires Sane(a) && InRam(a, v, |b|, |ram|)
    ensures |r| == |ram|
    decreases |b|
  {
    if b == [] then ram
    else
      var k := |b| - 1;
      assert Mapped(a, v + k);
      Scatter(ram, a, v, b[..k])[Phys(a, v + k) := b[k]]
  }

  /** Bytes of physical memory outside the destination's frames keep their value. */
  lemma {:induction false} ScatterOutside(ram: seq<byte>, a: Space, v: nat, b: seq<byte>, p: nat)
    requires Sane(a) && InRam(a, v, |b|, |ram|) && p < |ram|
    requires forall u :: v <= u < v + |b| ==> Phys(a, u) != p
    ensures Scatter(ram, a, v, b)[p] == ram[p]
    decreases |b|
  {
    if b != [] {
      var k := |b| - 1;
      assert Phys(a, v + k) != p;
      ScatterOutside(ram, a, v, b[..k], p);
    }
  }

  /** A byte shows the last store to its frame position. */
  lemma {:induction false} ScatterLast(ram: seq<byte>, a: Space, v: nat, b: seq<byte>, j: nat)
    requires Sane(a) && InRam(a, v, |b|, |ram|) && j < |b|
    requires forall u :: v + j < u < v + |b| ==> Phys(a, u) != Phys(a, v + j)
    ensures Phys(a, v + j) < |ram|
    ensures Scatter(ram, a, v, b)[Phys(a, v + j)] == b[j]
    decreases |b|
  {
    assert Mapped(a, v + j);
    var k := |b| - 1;
    if j < k {
      assert Phys(a, v + k) != Phys(a, v + j);
      ScatterLast(ram, a, v, b[..k], j);
    }
  }

  /** No byte of the buffer lives at physical address `q`. */
  predicate OutsideFrames(a: Space, v: nat, len: nat, q: nat)
    requires Sane(a)
  {
    forall u :: v <= u < v + len ==> Phys(a, u) != q
  }

  /** No two bytes of `[v, v+len)` share a physical byte. */
  predicate Injective(a: Space, v: nat, len: nat)
    requires Sane(a)
  {
    forall u, w :: v <= u < w < v + len ==> Phys(a, u) != Phys(a, w)
  }

  lemma OutsideIs(a: Space, v: nat, len: nat, q: nat)
    requires Sane(a)
    ensures OutsideFrames(a, v, len, q) <==> !exists u :: v <= u < v + len && Phys(a, u) == q
  {
  }

  /** Distinct pages of `[v, v+len)` lie in distinct frames. */
  predicate DistinctFrames(a: Space, v: nat, len: nat)
    requires Sane(a)
  {
    forall u, w :: v <= u < w < v + len ==> Frame(a, u) != Frame(a, w) || PageOf(a, u) == PageOf(a, w)
  }

  function Frame(a: Space, v: nat): nat
    requires Sane(a)
  {
    if PageOf(a, v) < |a.pagemap| then a.pagemap[PageOf(a, v)].pfn else 0
  }

  /** Distinct frames for distinct pages are enough for that. */
  lemma DistinctFramesInjective(a: Space, v: nat, len: nat)
    requires Sane(a) && AllMapped(a, v, len) && DistinctFrames(a, v, len)
    ensures Injective(a, v, len)
  {
    forall u, w | v <= u < w < v + len
      ensures Phys(a, u) != Phys(a, w)
    {
      assert Frame(a, u) != Frame(a, w) || PageOf(a, u) == PageOf(a, w);
      assert Mapped(a, u) && Mapped(a, w);
      FramesSeparate(a, u, w);
    }
  }

  lemma FramesSeparate(a: Space, u: nat, w: nat)
    requires Sane(a) && Mapped(a, u) && Mapped(a, w) && u != w
    requires Frame(a, u) != Frame(a, w) || PageOf(a, u) == PageOf(a, w)
    ensures Phys(a, u) != Phys(a, w)
  {
    PhysSplits(a, u);
    PhysSplits(a, w);
    if PageOf(a, u) == PageOf(a, w) && u % a.pageSize == w % a.pageSize {
      SamePage(a, u, w);
    }
  }

  /** Frame number and offset can be read back from a physical address. */
  lemma PhysSplits(a: Space, u: nat)
    requires Sane(a) && Mapped(a, u)
    ensures Phys(a, u) / a.pageSize == a.pagemap[PageOf(a, u)].pfn
    ensures Phys(a, u) % a.pageSize == u % a.pageSize
  {
    DivUnique(Phys(a, u), a.pageSize, a.pagemap[PageOf(a, u)].pfn, u % a.pageSize);
  }

  lemma SamePage(a: Space, u: nat, w: nat)
    requires Sane(a)
    requires PageOf(a, u) == PageOf(a, w) && u % a.pageSize == w % a.pageSize
    ensures u == w
  {
    assert u == PageOf(a, u) * a.pageSize + u % a.pageSize;
    assert w == PageOf(a, w) * a.pageSize + w % a.pageSize;
  }

  /** Storing bytes and loading them back is the identity, whatever the bytes, exactly when the
      buffer has no alias. */
  lemma RoundTripIffInjective(ram: seq<byte>, a: Space, v: nat, len: nat)
    requires Sane(a) && InRam(a, v, len, |ram|)
    ensures Injective(a, v, len) <==>
            forall b: seq<byte> | |b| == len :: Gather(Scatter(ram, a, v, b), a, v, len) == b
  {
    if Injective(a, v, len) {
      forall b: seq<byte> | |b| == len
        ensures Gather(Scatter(ram, a, v, b), a, v, len) == b
      {
        ScatterGather(ram, a, v, b);
      }
    } else {
      var b := AliasedLoses(ram, a, v, len);
    }
  }

  lemma ScatterGather(ram: seq<byte>, a: Space, v: nat, b: seq<byte>)
    requires Sane(a) && InRam(a, v, |b|, |ram|) && Injective(a, v, |b|)
    ensures Gather(Scatter(ram, a, v, b), a, v, |b|) == b
  {
    var g := Gather(Scatter(ram, a, v, b), a, v, |b|);
    forall j | 0 <= j < |b|
      ensures g[j] == b[j]
    {
      ScatterLast(ram, a, v, b, j);
    }
  }

  lemma AliasedLoses(ram: seq<byte>, a: Space, v: nat, len: nat) returns (b: seq<byte>)
    requires Sane(a) && InRam(a, v, len, |ram|) && !Injective(a, v, len)
    ensures |b| == len && Gather(Scatter(ram, a, v, b), a, v, len) != b
  {
    var u, w :| v <= u < w < v + len && Phys(a, u) == Phys(a, w);
    var i, j := u - v, w - v;
    b := seq(len, k requires 0 <= k < len => if k == i then 0 else 1);
    var g := Gather(Scatter(ram, a, v, b), a, v, len);
    assert u == v + i && w == v + j;
    assert g[i] == g[j] && b[i] != b[j];
  }

  /** Storing in two parts is storing the whole. */
  lemma {:induction false} ScatterSplit(ram: seq<byte>, a: Space, v: nat, x: seq<byte>, y: seq<byte>)
    requires Sane(a) && InRam(a, v, |x| + |y|, |ram|)
    ensures Scatter(Scatter(ram, a, v, x), a, v + |x|, y) == Scatter(ram, a, v, x + y)
    decreases |y|
  {
    if y == [] {
      assert x + y == x;
    } else {
      var k := |y| - 1;
      ScatterSplit(ram, a, v, x, y[..k]);
      assert (x + y)[..|x| + k] == x + y[..k];
      assert Mapped(a, v + |x| + k);
    }
  }

  /** A physically contiguous run of stores is one block overwrite. */
  lemma {:induction false} ScatterRun(ram: seq<byte>, a: Space, v: nat, x: seq<byte>, y: seq<byte>)
    requires Sane(a) && InRam(a, v, |x| + |y|, |ram|) && Contiguous(a, v + |x|, |y|)
    requires Phys(a, v + |x|) + |y| <= |ram|
    ensures Scatter(ram, a, v, x + y) == Splice(Scatter(ram, a, v, x), Phys(a, v + |x|), y)
    decreases |y|
  {
    if y == [] {
      assert x + y == x;
    } else {
      var k := |y| - 1;
      ScatterRun(ram, a, v, x, y[..k]);
      RunStep(ram, a, v, x, y, Phys(a, v + |x|), Scatter(ram, a, v, x));
    }
  }

  lemma RunStep(ram: seq<byte>, a: Space, v: nat, x: seq<byte>, y: seq<byte>, p: nat, r: seq<byte>)
    requires Sane(a) && y != [] && InRam(a, v, |x| + |y|, |ram|) && Contiguous(a, v + |x|, |y|)
    requires p == Phys(a, v + |x|) && p + |y| <= |r| && |r| == |ram|
    requires Scatter(ram, a, v, x + y[..|y| - 1]) == Splice(r, p, y[..|y| - 1])
    ensures Scatter(ram, a, v, x + y) == Splice(r, p, y)
  {
    var k := |y| - 1;
    assert (x + y)[..|x| + k] == x + y[..k];
    assert Mapped(a, v + |x| + k);
    assert Phys(a, v + |x| + k) == p + k;
    SpliceLast(r, p, y);
  }
}
