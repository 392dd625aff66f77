/** When the single-range transfers, which take only the physical address of the first byte, move the
    program's buffer. */
module SingleRange {
  import opened Bytes
  import opened PageTable
  import opened CimSram
  import opened Bridge
  import opened PagedCopy

  /** The present buffer `[v, v+len)`, and `len` bytes from its first one on, are in a memory of `size`
      bytes. */
  predicate Placed(a: Space, v: nat, len: nat, size: nat) {
    Sane(a) && Backed(a, size) && len > 0 && AllMapped(a, v, len) && Phys(a, v) + len <= size
  }

  /** A memory of zeros with a one at `q`. */
  function Spike(size: nat, q: nat): (m: seq<byte>)
    ensures |m| == size
    ensures forall i :: 0 <= i < size ==> m[i] == if i == q then 1 else 0
  {
    seq(size, i requires 0 <= i < size => if i == q then 1 else 0)
  }

  /** An address of a buffer that is not contiguous lies elsewhere than the range puts it. */
  lemma Stray(a: Space, v: nat, len: nat) returns (u: nat)
    requires Sane(a) && AllMapped(a, v, len) && !Contiguous(a, v, len)
    ensures v <= u < v + len && Phys(a, u) != Phys(a, v) + (u - v)
  {
    u :| v <= u < v + len && !(Mapped(a, u) && Phys(a, u) == Phys(a, v) + (u - v));
  }

  lemma ContiguousSlice(a: Space, v: nat, len: nat, ram: seq<byte>)
    requires Placed(a, v, len, |ram|) && Contiguous(a, v, len)
    ensures ram[Phys(a, v)..Phys(a, v) + len] == Load(ram, a, v, len)
  {
    var p, b := Phys(a, v), Load(ram, a, v, len);
    BackedInRam(a, v, len, |ram|);
    forall i | 0 <= i < len
      ensures ram[p..p + len][i] == b[i]
    {
      assert Phys(a, v + i) == p + (v + i - v);
    }
  }

  lemma StraySlice(a: Space, v: nat, len: nat, size: nat) returns (ram: seq<byte>)
    requires Placed(a, v, len, size) && !Contiguous(a, v, len)
    ensures |ram| == size && ram[Phys(a, v)..Phys(a, v) + len] != Load(ram, a, v, len)
  {
    var u := Stray(a, v, len);
    BackedInRam(a, v, len, size);
    ram := Spike(size, Phys(a, u));
    assert Mapped(a, u);
    assert Load(ram, a, v, len)[u - v] == ram[Phys(a, v + (u - v))];
    assert ram[Phys(a, v)..Phys(a, v) + len][u - v] == ram[Phys(a, v) + (u - v)];
  }

  /** The physical range at the first byte is the buffer, whatever memory holds, exactly when the
      buffer is contiguous. */
  lemma RangeIsBufferIff(a: Space, v: nat, len: nat, size: nat)
    requires Placed(a, v, len, size)
    ensures Contiguous(a, v, len) <==>
            forall ram: seq<byte> | |ram| == size :: ram[Phys(a, v)..Phys(a, v) + len] == Load(ram, a, v, len)
  {
    if Contiguous(a, v, len) {
      forall ram: seq<byte> | |ram| == size
        ensures ram[Phys(a, v)..Phys(a, v) + len] == Load(ram, a, v, len)
      {
        ContiguousSlice(a, v, len, ram);
      }
    } else {
      var ram := StraySlice(a, v, len, size);
    }
  }

  // ---------------------------------------------------------------- writes

  /** `m` is `m0` with the whole of `b` at `at`. */
  predicate Stored(m0: seq<byte>, m: seq<byte>, at: nat, b: seq<byte>) {
    at + |b| <= |m0| && m == Splice(m0, at, b)
  }

  /** The single-range write of `len` bytes, cut to 32 bits, stores the buffer. */
  predicate StoresBuffer(a: Space, v: nat, len: nat, dst: nat, ram: seq<byte>, m0: seq<byte>)
    requires Sane(a) && Backed(a, |ram|) && AllMapped(a, v, len)
    requires Phys(a, v) + len % TWO32 <= |ram| && dst + len % TWO32 <= |m0|
  {
    Stored(m0, Splice(m0, dst, ram[Phys(a, v)..Phys(a, v) + len % TWO32]), dst, Load(ram, a, v, len))
  }

  /** The memory the single-range write leaves holds the buffer, for all memories, exactly when the
      source is contiguous and its length fits 32 bits. */
  lemma SingleWriteIff(a: Space, v: nat, len: nat, dst: nat, size: nat)
    requires Sane(a) && Backed(a, size) && AllMapped(a, v, len)
    requires len % TWO32 > 0 && Phys(a, v) + len % TWO32 <= size && InRegion(dst, len % TWO32)
    ensures Contiguous(a, v, len) && len <= UINT32_MAX <==>
            forall ram: seq<byte>, m0: seq<byte> | |ram| == size && IsSram(m0) ::
              StoresBuffer(a, v, len, dst, ram, m0)
  {
    if len > UINT32_MAX {
      LongWriteFails(a, v, len, dst, size);
    } else if Contiguous(a, v, len) {
      forall ram: seq<byte>, m0: seq<byte> | |ram| == size && IsSram(m0)
        ensures StoresBuffer(a, v, len, dst, ram, m0)
      {
        ContiguousSlice(a, v, len, ram);
      }
    } else {
      StrayWriteFails(a, v, len, dst, size);
    }
  }

  lemma StrayWriteFails(a: Space, v: nat, len: nat, dst: nat, size: nat)
    requires Placed(a, v, len, size) && !Contiguous(a, v, len) && len <= UINT32_MAX && dst + len <= SRAM_SIZE
    ensures exists ram: seq<byte>, m0: seq<byte> ::
              |ram| == size && IsSram(m0) && !StoresBuffer(a, v, len, dst, ram, m0)
  {
    var ram := StraySlice(a, v, len, size);
    StrayNotStored(a, v, len, dst, ram, Spike(SRAM_SIZE, 0));
  }

  lemma StrayNotStored(a: Space, v: nat, len: nat, dst: nat, ram: seq<byte>, m0: seq<byte>)
    requires Placed(a, v, len, |ram|) && len <= UINT32_MAX && dst + len <= |m0|
    requires ram[Phys(a, v)..Phys(a, v) + len] != Load(ram, a, v, len)
    ensures !StoresBuffer(a, v, len, dst, ram, m0)
  {
    SpliceInjective(m0, dst, ram[Phys(a, v)..Phys(a, v) + len], Load(ram, a, v, len));
  }

  /** A buffer over 4 GiB never fits, but the write of its length modulo 2^32 goes through. */
  lemma LongWriteFails(a: Space, v: nat, len: nat, dst: nat, size: nat)
    requires Sane(a) && Backed(a, size) && AllMapped(a, v, len) && len > UINT32_MAX
    requires Phys(a, v) + len % TWO32 <= size && dst + len % TWO32 <= SRAM_SIZE
    ensures exists ram: seq<byte>, m0: seq<byte> ::
              |ram| == size && IsSram(m0) && !StoresBuffer(a, v, len, dst, ram, m0)
  {
    assert !StoresBuffer(a, v, len, dst, Spike(size, 0), Spike(SRAM_SIZE, 0));
  }

  lemma SpliceInjective(m: seq<byte>, at: nat, b: seq<byte>, c: seq<byte>)
    requires at + |b| <= |m| && |c| == |b| && b != c
    ensures Splice(m, at, b) != Splice(m, at, c)
  {
    var k :| 0 <= k < |b| && b[k] != c[k];
    assert Splice(m, at, b)[at + k] == b[k];
    assert Splice(m, at, c)[at + k] == c[k];
  }

  // ---------------------------------------------------------------- reads

  /** The memory the single-range read leaves is the one that byte-wise stores to the buffer leave. */
  predicate FillsBuffer(a: Space, v: nat, ram: seq<byte>, data: seq<byte>)
    requires Placed(a, v, |data|, |ram|)
  {
    Splice(ram, Phys(a, v), data) == Store(ram, a, v, data)
  }

  lemma ContiguousFill(a: Space, v: nat, len: nat, ram: seq<byte>, data: seq<byte>)
    requires Placed(a, v, len, |ram|) && Contiguous(a, v, len) && |data| == len
    ensures FillsBuffer(a, v, ram, data)
  {
    BackedInRam(a, v, len, |ram|);
    ScatterRun(ram, a, v, [], data);
    assert [] + data == data;
  }

  /** That is so, for all memories and data, exactly when the destination is contiguous. */
  lemma SingleReadIff(a: Space, v: nat, len: nat, size: nat)
    requires Placed(a, v, len, size)
    ensures Contiguous(a, v, len) <==>
            forall ram: seq<byte>, data: seq<byte> | |ram| == size && |data| == len :: FillsBuffer(a, v, ram, data)
  {
    if Contiguous(a, v, len) {
      forall ram: seq<byte>, data: seq<byte> | |ram| == size && |data| == len
        ensures FillsBuffer(a, v, ram, data)
      {
        ContiguousFill(a, v, len, ram, data);
      }
    } else {
      var u := Stray(a, v, len);
      StrayFill(a, v, len, size, u);
    }
  }

  /** One byte that the range puts elsewhere than the buffer does. */
  lemma StrayFill(a: Space, v: nat, len: nat, size: nat, u: nat)
    requires Placed(a, v, len, size) && v <= u < v + len && Phys(a, u) != Phys(a, v) + (u - v)
    ensures |Spike(len, u - v)| == len && !FillsBuffer(a, v, Spike(size, size), Spike(len, u - v))
  {
    var q, ram, data := Phys(a, v) + (u - v), Spike(size, size), Spike(len, u - v);
    BackedInRam(a, v, len, size);
    assert Splice(ram, Phys(a, v), data)[q] == 1;
    ScatterZero(ram, a, v, data, q);
  }

  /** Where no byte but zeros is stored, a zero stays. */
  lemma {:induction false} ScatterZero(ram: seq<byte>, a: Space, v: nat, b: seq<byte>, q: nat)
    requires Sane(a) && InRam(a, v, |b|, |ram|) && q < |ram| && ram[q] == 0
    requires forall k :: 0 <= k < |b| && Phys(a, v + k) == q ==> b[k] == 0
    ensures Scatter(ram, a, v, b)[q] == 0
    decreases |b|
  {
    if b != [] {
      var k := |b| - 1;
      assert Phys(a, v + k) == q ==> b[k] == 0;
      ScatterZero(ram, a, v, b[..k], q);
    }
  }

  /** A single-range read changes a byte outside the buffer's frames, for some memory and data, exactly
      when the range has a byte outside them. */
  lemma SingleReadStraysIff(a: Space, v: nat, len: nat, size: nat)
    requires Placed(a, v, len, size)
    ensures (forall q :: Phys(a, v) <= q < Phys(a, v) + len ==> !OutsideFrames(a, v, len, q)) <==>
            forall ram: seq<byte>, data: seq<byte> | |ram| == size && |data| == len :: KeepsOthers(a, v, ram, data)
  {
    var p := Phys(a, v);
    if q :| p <= q < p + len && OutsideFrames(a, v, len, q) {
      var ram, data := Spike(size, size), Spike(len, q - p);
      assert Splice(ram, p, data)[q] == 1 && ram[q] == 0;
      assert !KeepsOthers(a, v, ram, data);
    }
  }

  predicate KeepsOthers(a: Space, v: nat, ram: seq<byte>, data: seq<byte>)
    requires Sane(a) && Phys(a, v) + |data| <= |ram|
  {
    forall q :: 0 <= q < |ram| && OutsideFrames(a, v, |data|, q) ==> Splice(ram, Phys(a, v), data)[q] == ram[q]
  }

  /** That is weaker than being contiguous: with its second and third frame exchanged, a buffer of three
      pages covers the range, but not in the order of its bytes. */
  lemma ExchangedFrames(a: Space)
    requires a == Space(4096, [Entry(false, 0), Entry(true, 1), Entry(true, 3), Entry(true, 2)])
    ensures Placed(a, 4096, 12288, 16384) && !Contiguous(a, 4096, 12288)
    ensures forall q :: Phys(a, 4096) <= q < Phys(a, 4096) + 12288 ==> !OutsideFrames(a, 4096, 12288, q)
  {
    assert Phys(a, 8192) == 12288 && Phys(a, 12288) == 8192;
    forall q | 4096 <= q < 16384
      ensures !OutsideFrames(a, 4096, 12288, q)
    {
      var u := if q < 8192 then q else if q < 12288 then q + 4096 else q - 4096;
      assert Phys(a, u) == q;
    }
  }
}
