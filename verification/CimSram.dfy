/** The compute-in-memory SRAM: one byte array holds weights, biases, input and output, and the
    tiled multiply-accumulate kernel reads and writes it in place. */
module CimSram {
  import opened Bytes

  const SRAM_SIZE := 4194304
  const CIM_DATA_REGION := 0x1000
  const WEIGHT_BASE := 0x1000
  const SRAM_COMPUTE_CMD := 0xFFFF_FFFF
  const TILE_W := 64
  const SRAM_RW_NS := 10
  const TILE_NS := 40

  datatype Command = Read | Write | Ignore

  datatype Status = Incomplete | Okay | GenericError | AddressError | CommandError | BurstError

  /** A fully connected layer with `n` inputs and `m` outputs. */
  datatype Shape = Shape(n: nat, m: nat)

  function BiasBase(sh: Shape): (a: nat)
    ensures WEIGHT_BASE <= a
  {
    WEIGHT_BASE + sh.m * sh.n
  }

  function InputBase(sh: Shape): (a: nat)
    ensures BiasBase(sh) <= a
  {
    BiasBase(sh) + 4 * sh.m
  }

  function OutputBase(sh: Shape): (a: nat)
    ensures InputBase(sh) <= a
  {
    InputBase(sh) + sh.n
  }

  function LayoutEnd(sh: Shape): nat {
    OutputBase(sh) + 4 * sh.m
  }

  predicate Fits(sh: Shape) {
    LayoutEnd(sh) <= SRAM_SIZE
  }

  /** Both network sizes the repository builds fit the memory. */
  lemma BuiltShapesFit()
    ensures Fits(Shape(784, 10)) && Fits(Shape(1024, 1024))
  {
  }

  function ClampU4(v: int): (r: int)
    ensures 0 <= r <= 15 && (0 <= v <= 15 ==> r == v)
    ensures (v < 0 ==> r == 0) && (v > 15 ==> r == 15)
  {
    if v < 0 then 0 else if v > 15 then 15 else v
  }

  function ClampS4(v: int): (r: int)
    ensures -8 <= r <= 7 && (-8 <= v <= 7 ==> r == v)
    ensures (v < -8 ==> r == -8) && (v > 7 ==> r == 7)
  {
    if v < -8 then -8 else if v > 7 then 7 else v
  }

  // ---------------------------------------------------------------- what the layer computes

  predicate IsSram(mem: seq<byte>) {
    |mem| == SRAM_SIZE
  }

  lemma WeightIndex(sh: Shape, i: nat, j: nat)
    requires i < sh.m && j < sh.n
    ensures i * sh.n + j < sh.m * sh.n
  {
    assert (i + 1) * sh.n <= sh.m * sh.n;
  }

  /** Weights are stored row by row. */
  function WeightOffset(sh: Shape, i: nat, j: nat): (k: nat)
    requires i < sh.m && j < sh.n
    ensures k < sh.m * sh.n
  {
    WeightIndex(sh, i, j);
    i * sh.n + j
  }

  function X(mem: seq<byte>, sh: Shape, j: nat): int
    requires IsSram(mem) && Fits(sh) && j < sh.n
  {
    ClampU4(mem[InputBase(sh) + j])
  }

  function W(mem: seq<byte>, sh: Shape, i: nat, j: nat): int
    requires IsSram(mem) && Fits(sh) && i < sh.m && j < sh.n
  {
    ClampS4(Int8(mem[WEIGHT_BASE + WeightOffset(sh, i, j)]))
  }

  function Bias(mem: seq<byte>, sh: Shape, i: nat): int
    requires IsSram(mem) && Fits(sh) && i < sh.m
  {
    Signed(FromLe32(mem[BiasBase(sh) + 4 * i..BiasBase(sh) + 4 * i + 4]))
  }

  /** Sum of the first `k` products of row `i`. */
  function Mac(mem: seq<byte>, sh: Shape, i: nat, k: nat): int
    requires IsSram(mem) && Fits(sh) && i < sh.m && k <= sh.n
  {
    if k == 0 then 0 else Mac(mem, sh, i, k - 1) + X(mem, sh, k - 1) * W(mem, sh, i, k - 1)
  }

  /** `b[i] + sum_j clamp_u4(x[j]) * clamp_s4(W[i][j])`. */
  function Logit(mem: seq<byte>, sh: Shape, i: nat): int
    requires IsSram(mem) && Fits(sh) && i < sh.m
  {
    Bias(mem, sh, i) + Mac(mem, sh, i, sh.n)
  }

  function Logits(mem: seq<byte>, sh: Shape, k: nat): (l: seq<int>)
    requires IsSram(mem) && Fits(sh) && k <= sh.m
    ensures |l| == k && forall i :: 0 <= i < k ==> l[i] == Logit(mem, sh, i)
  {
    seq(k, i requires 0 <= i < k => Logit(mem, sh, i))
  }

  /** Numbers as little-endian words, one after another. */
  function EncodeWords(l: seq<int>): (b: seq<byte>)
    ensures |b| == 4 * |l|
    decreases |l|
  {
    if l == [] then [] else EncodeWords(l[..|l| - 1]) + Le32(ToU32(l[|l| - 1]))
  }

  function LogitBytes(mem: seq<byte>, sh: Shape, k: nat): (b: seq<byte>)
    requires IsSram(mem) && Fits(sh) && k <= sh.m
    ensures |b| == 4 * k
  {
    EncodeWords(Logits(mem, sh, k))
  }

  /** The memory after one compute command. */
  function Computed(mem: seq<byte>, sh: Shape): (r: seq<byte>)
    requires IsSram(mem)
    ensures IsSram(r)
  {
    if Fits(sh) then Splice(mem, OutputBase(sh), LogitBytes(mem, sh, sh.m)) else mem
  }

  lemma {:induction false} EncodedWord(l: seq<int>, i: nat, b: seq<byte>)
    requires i < |l| && b == EncodeWords(l)
    ensures b[4 * i..4 * i + 4] == Le32(ToU32(l[i]))
    decreases |l|
  {
    var n := |l| - 1;
    LastWord(EncodeWords(l[..n]), Le32(ToU32(l[n])), i);
    if i < n {
      EncodedWord(l[..n], i, EncodeWords(l[..n]));
    }
  }

  lemma LastWord(s: seq<byte>, w: seq<byte>, i: nat)
    requires |w| == 4 && |s| % 4 == 0 && 4 * i <= |s|
    ensures (s + w)[4 * i..4 * i + 4] == if 4 * i == |s| then w else s[4 * i..4 * i + 4]
  {
  }

  lemma LogitBytesAt(mem: seq<byte>, sh: Shape, k: nat, i: nat)
    requires IsSram(mem) && Fits(sh) && i < k <= sh.m
    ensures LogitBytes(mem, sh, k)[4 * i..4 * i + 4] == Le32(ToU32(Logit(mem, sh, i)))
  {
    EncodedWord(Logits(mem, sh, k), i, LogitBytes(mem, sh, k));
  }

  /** The kernel is correct in place: every output word is the clamped dot product over the memory
      before the call, and every byte outside the output region keeps its value. */
  lemma ComputeInPlace(mem: seq<byte>, sh: Shape)
    requires IsSram(mem) && Fits(sh)
    ensures forall i :: 0 <= i < sh.m ==> OutWord(Computed(mem, sh), sh, i) == Wrap32(Logit(mem, sh, i))
    ensures forall p :: 0 <= p < SRAM_SIZE && !(OutputBase(sh) <= p < LayoutEnd(sh)) ==>
              Computed(mem, sh)[p] == mem[p]
  {
    forall i | 0 <= i < sh.m
      ensures OutWord(Computed(mem, sh), sh, i) == Wrap32(Logit(mem, sh, i))
    {
      ComputedWord(mem, sh, i);
    }
  }

  lemma ComputedWord(mem: seq<byte>, sh: Shape, i: nat)
    requires IsSram(mem) && Fits(sh) && i < sh.m
    ensures OutWord(Computed(mem, sh), sh, i) == Wrap32(Logit(mem, sh, i))
  {
    var o, b, r := OutputBase(sh), LogitBytes(mem, sh, sh.m), Computed(mem, sh);
    LogitBytesAt(mem, sh, sh.m, i);
    SpliceWord(mem, o, b, i);
    SignedWord(Logit(mem, sh, i), r[o + 4 * i..o + 4 * i + 4]);
  }

  lemma SignedWord(v: int, b: seq<byte>)
    requires b == Le32(ToU32(v))
    ensures Signed(FromLe32(b)) == Wrap32(v)
  {
    DecodeLe32(ToU32(v));
  }

  /** Output word `i` read as `int32_t`. */
  function OutWord(mem: seq<byte>, sh: Shape, i: nat): int
    requires IsSram(mem) && Fits(sh) && i < sh.m
  {
    Signed(FromLe32(mem[OutputBase(sh) + 4 * i..OutputBase(sh) + 4 * i + 4]))
  }

  // ---------------------------------------------------------------- where the operands are

  /** The regions, in bytes from the start of the memory. */
  lemma Layout(sh: Shape)
    ensures BiasBase(sh) == 0x1000 + sh.m * sh.n
    ensures InputBase(sh) == 0x1000 + sh.m * sh.n + 4 * sh.m
    ensures OutputBase(sh) == 0x1000 + sh.m * sh.n + 4 * sh.m + sh.n
    ensures LayoutEnd(sh) == 0x1000 + sh.m * sh.n + 4 * sh.m + sh.n + 4 * sh.m
    ensures Fits(sh) <==> 0x1000 + sh.m * sh.n + sh.n + 8 * sh.m <= 4194304
  {
  }

  /** Weight `j` of row `i` is the signed byte after `i` rows of `n` weights and `j` more, clamped to four bits. */
  lemma WeightOperand(mem: seq<byte>, sh: Shape, i: nat, j: nat)
    requires IsSram(mem) && Fits(sh) && i < sh.m && j < sh.n
    ensures 0 <= i * sh.n + j < sh.m * sh.n
    ensures var b: int := mem[0x1000 + (i * sh.n + j)];
            var v := if b < 128 then b else b - 256;
            W(mem, sh, i, j) == if v < -8 then -8 else if v > 7 then 7 else v
  {
    WeightIndex(sh, i, j);
    var k := WeightOffset(sh, i, j);
    assert k == i * sh.n + j;
  }

  /** Input `j` is the unsigned byte after weights and biases, clamped to four bits. */
  lemma InputOperand(mem: seq<byte>, sh: Shape, j: nat)
    requires IsSram(mem) && Fits(sh) && j < sh.n
    ensures var b := mem[0x1000 + sh.m * sh.n + 4 * sh.m + j];
            X(mem, sh, j) == if b > 15 then 15 else b
  {
  }

  /** Bias and output `i` are signed little-endian words, in four bytes each. */
  lemma WordOperands(mem: seq<byte>, sh: Shape, i: nat)
    requires IsSram(mem) && Fits(sh) && i < sh.m
    ensures IsSignedWord(mem, 0x1000 + sh.m * sh.n + 4 * i, Bias(mem, sh, i))
    ensures IsSignedWord(mem, 0x1000 + sh.m * sh.n + 4 * sh.m + sh.n + 4 * i, OutWord(mem, sh, i))
  {
    var o, p := BiasBase(sh) + 4 * i, OutputBase(sh) + 4 * i;
    SignedWordIs(mem, o, mem[o..o + 4]);
    SignedWordIs(mem, p, mem[p..p + 4]);
  }

  /** Computing again on the result changes nothing: outputs are not inputs. */
  lemma ComputeIdempotent(mem: seq<byte>, sh: Shape)
    requires IsSram(mem)
    ensures Computed(Computed(mem, sh), sh) == Computed(mem, sh)
  {
    if Fits(sh) {
      var r := Computed(mem, sh);
      LogitBytesSame(mem, r, sh, sh.m);
    }
  }

  lemma LogitBytesSame(mem: seq<byte>, r: seq<byte>, sh: Shape, k: nat)
    requires IsSram(mem) && IsSram(r) && Fits(sh) && k <= sh.m
    requires forall p :: 0 <= p < OutputBase(sh) ==> mem[p] == r[p]
    ensures LogitBytes(mem, sh, k) == LogitBytes(r, sh, k)
  {
    LogitsSame(mem, r, sh, k, Logits(mem, sh, k), Logits(r, sh, k));
  }

  lemma LogitsSame(mem: seq<byte>, r: seq<byte>, sh: Shape, k: nat, x: seq<int>, y: seq<int>)
    requires IsSram(mem) && IsSram(r) && Fits(sh) && k <= sh.m && x == Logits(mem, sh, k) && y == Logits(r, sh, k)
    requires forall p :: 0 <= p < OutputBase(sh) ==> mem[p] == r[p]
    ensures x == y
  {
    forall i | 0 <= i < k
      ensures x[i] == y[i]
    {
      LogitSame(mem, r, sh, i);
    }
  }

  /** One logit more. */
  lemma LastLogit(mem: seq<byte>, sh: Shape, k: nat, v: int)
    requires IsSram(mem) && Fits(sh) && k < sh.m && v == Logit(mem, sh, k)
    ensures LogitBytes(mem, sh, k + 1) == LogitBytes(mem, sh, k) + Le32(ToU32(v))
  {
    var l := Logits(mem, sh, k + 1);
    assert l[..k] == Logits(mem, sh, k);
  }

  /** A logit depends on nothing from the output region on. */
  lemma LogitSame(mem: seq<byte>, r: seq<byte>, sh: Shape, i: nat)
    requires IsSram(mem) && IsSram(r) && Fits(sh) && i < sh.m
    requires forall p :: 0 <= p < OutputBase(sh) ==> mem[p] == r[p]
    ensures Logit(mem, sh, i) == Logit(r, sh, i)
  {
    MacSame(mem, r, sh, i, sh.n);
    var o := BiasBase(sh) + 4 * i;
    assert mem[o..o + 4] == r[o..o + 4];
  }

  lemma {:induction false} MacSame(mem: seq<byte>, r: seq<byte>, sh: Shape, i: nat, k: nat)
    requires IsSram(mem) && IsSram(r) && Fits(sh) && i < sh.m && k <= sh.n
    requires forall p :: 0 <= p < OutputBase(sh) ==> mem[p] == r[p]
    ensures Mac(mem, sh, i, k) == Mac(r, sh, i, k)
  {
    if k > 0 {
      MacSame(mem, r, sh, i, k - 1);
      WeightSame(mem, r, sh, i, k - 1);
      InputSame(mem, r, sh, k - 1);
    }
  }

  lemma ProductOf(mem: seq<byte>, sh: Shape, i: nat, j: nat, x: byte, w: byte)
    requires IsSram(mem) && Fits(sh) && i < sh.m && j < sh.n
    requires x == mem[InputBase(sh) + j] && w == mem[WEIGHT_BASE + WeightOffset(sh, i, j)]
    ensures ClampU4(x) * ClampS4(Int8(w)) == X(mem, sh, j) * W(mem, sh, i, j)
  {
  }

  lemma WeightSame(mem: seq<byte>, r: seq<byte>, sh: Shape, i: nat, j: nat)
    requires IsSram(mem) && IsSram(r) && Fits(sh) && i < sh.m && j < sh.n
    requires forall q :: 0 <= q < OutputBase(sh) ==> mem[q] == r[q]
    ensures W(mem, sh, i, j) == W(r, sh, i, j)
  {
    var k := WeightOffset(sh, i, j);
    assert mem[WEIGHT_BASE + k] == r[WEIGHT_BASE + k];
  }

  lemma InputSame(mem: seq<byte>, r: seq<byte>, sh: Shape, j: nat)
    requires IsSram(mem) && IsSram(r) && Fits(sh) && j < sh.n
    requires forall q :: 0 <= q < OutputBase(sh) ==> mem[q] == r[q]
    ensures X(mem, sh, j) == X(r, sh, j)
  {
    assert mem[InputBase(sh) + j] == r[InputBase(sh) + j];
  }

  // ---------------------------------------------------------------- accumulator range

  lemma {:induction false} MacBound(mem: seq<byte>, sh: Shape, i: nat, k: nat)
    requires IsSram(mem) && Fits(sh) && i < sh.m && k <= sh.n
    ensures -120 * k <= Mac(mem, sh, i, k) <= 105 * k
  {
    if k > 0 {
      MacBound(mem, sh, i, k - 1);
      ProductBound(X(mem, sh, k - 1), W(mem, sh, i, k - 1));
    }
  }

  lemma ProductBound(x: int, w: int)
    requires 0 <= x <= 15 && -8 <= w <= 7
    ensures -120 <= x * w <= 105
  {
    assert x * w <= x * 7 && x * -8 <= x * w;
  }

  /** No partial sum of row `i` leaves `int32_t`. */
  predicate NoOverflow(mem: seq<byte>, sh: Shape, i: nat)
    requires IsSram(mem) && Fits(sh) && i < sh.m
  {
    forall k :: 0 <= k <= sh.n ==> FitsInt32(Bias(mem, sh, i) + Mac(mem, sh, i, k))
  }

  /** `mem` with every input byte `x` and every weight byte `w`. */
  function Saturated(mem: seq<byte>, sh: Shape, x: byte, w: byte): (r: seq<byte>)
    requires IsSram(mem) && Fits(sh)
    ensures IsSram(r)
    ensures forall p :: 0 <= p < SRAM_SIZE ==>
              r[p] == if WEIGHT_BASE <= p < BiasBase(sh) then w
                      else if InputBase(sh) <= p < OutputBase(sh) then x else mem[p]
  {
    seq(SRAM_SIZE, p requires 0 <= p < SRAM_SIZE =>
      if WEIGHT_BASE <= p < BiasBase(sh) then w
      else if InputBase(sh) <= p < OutputBase(sh) then x else mem[p])
  }

  lemma {:induction false} SaturatedMac(mem: seq<byte>, sh: Shape, x: byte, w: byte, i: nat, k: nat, p: int)
    requires IsSram(mem) && Fits(sh) && i < sh.m && k <= sh.n
    requires p == ClampU4(x) * ClampS4(Int8(w))
    ensures Mac(Saturated(mem, sh, x, w), sh, i, k) == k * p
  {
    if k > 0 {
      SaturatedMac(mem, sh, x, w, i, k - 1, p);
      SaturatedTerm(mem, sh, x, w, i, k - 1);
      assert (k - 1) * p + p == k * p;
    }
  }

  lemma SaturatedTerm(mem: seq<byte>, sh: Shape, x: byte, w: byte, i: nat, j: nat)
    requires IsSram(mem) && Fits(sh) && i < sh.m && j < sh.n
    ensures X(Saturated(mem, sh, x, w), sh, j) == ClampU4(x)
    ensures W(Saturated(mem, sh, x, w), sh, i, j) == ClampS4(Int8(w))
  {
    var s := Saturated(mem, sh, x, w);
    SaturatedWeight(s, sh, w, i, j);
    assert s[InputBase(sh) + j] == x;
  }

  lemma SaturatedWeight(s: seq<byte>, sh: Shape, w: byte, i: nat, j: nat)
    requires IsSram(s) && Fits(sh) && i < sh.m && j < sh.n
    requires forall q :: WEIGHT_BASE <= q < BiasBase(sh) ==> s[q] == w
    ensures W(s, sh, i, j) == ClampS4(Int8(w))
  {
    var k := WeightOffset(sh, i, j);
    assert s[WEIGHT_BASE + k] == w;
  }

  lemma SaturatedBias(mem: seq<byte>, sh: Shape, x: byte, w: byte, i: nat)
    requires IsSram(mem) && Fits(sh) && i < sh.m
    ensures Bias(Saturated(mem, sh, x, w), sh, i) == Bias(mem, sh, i)
  {
    var o := BiasBase(sh) + 4 * i;
    assert Saturated(mem, sh, x, w)[o..o + 4] == mem[o..o + 4];
  }

  /** A bias is safe for every input and weight byte exactly in this range. */
  predicate SafeBias(b: int, n: nat) {
    -0x8000_0000 + 120 * n <= b <= 0x7FFF_FFFF - 105 * n
  }

  lemma SafeBiasNoOverflow(mem: seq<byte>, sh: Shape, i: nat)
    requires IsSram(mem) && Fits(sh) && i < sh.m && SafeBias(Bias(mem, sh, i), sh.n)
    ensures NoOverflow(mem, sh, i)
  {
    forall k | 0 <= k <= sh.n
      ensures FitsInt32(Bias(mem, sh, i) + Mac(mem, sh, i, k))
    {
      MacBound(mem, sh, i, k);
    }
  }

  /** The extreme bytes that break an unsafe bias. */
  lemma UnsafeBiasOverflows(mem: seq<byte>, sh: Shape, i: nat, w: byte)
    requires IsSram(mem) && Fits(sh) && i < sh.m
    requires Bias(mem, sh, i) < -0x8000_0000 + 120 * sh.n ==> w == 0xF8
    requires Bias(mem, sh, i) > 0x7FFF_FFFF - 105 * sh.n ==> w == 7
    requires !SafeBias(Bias(mem, sh, i), sh.n)
    ensures !NoOverflow(Saturated(mem, sh, 15, w), sh, i)
  {
    var p := ClampU4(15) * ClampS4(Int8(w));
    assert p == if w == 7 then 105 else -120;
    SaturatedBias(mem, sh, 15, w, i);
    SaturatedMac(mem, sh, 15, w, i, sh.n, p);
    var s := Saturated(mem, sh, 15, w);
    assert !FitsInt32(Bias(s, sh, i) + Mac(s, sh, i, sh.n));
  }

  /** The accumulator cannot overflow, whatever inputs and weights are stored beside the bias,
      exactly when the bias is in `SafeBias`. */
  lemma SafeBiasIff(mem: seq<byte>, sh: Shape, i: nat)
    requires IsSram(mem) && Fits(sh) && i < sh.m
    ensures SafeBias(Bias(mem, sh, i), sh.n) <==>
            forall r: seq<byte> | IsSram(r) && Bias(r, sh, i) == Bias(mem, sh, i) :: NoOverflow(r, sh, i)
  {
    if SafeBias(Bias(mem, sh, i), sh.n) {
      forall r: seq<byte> | IsSram(r) && Bias(r, sh, i) == Bias(mem, sh, i)
        ensures NoOverflow(r, sh, i)
      {
        SafeBiasNoOverflow(r, sh, i);
      }
    } else {
      var w: byte := if Bias(mem, sh, i) < -0x8000_0000 + 120 * sh.n then 0xF8 else 7;
      SaturatedBias(mem, sh, 15, w, i);
      UnsafeBiasOverflows(mem, sh, i, w);
    }
  }

  // ---------------------------------------------------------------- tiling

  function TileCount(n: nat): nat {
    (n + TILE_W - 1) / TILE_W
  }

  predicate InTile(n: nat, t: nat, j: nat) {
    t * TILE_W <= j < Min(t * TILE_W + TILE_W, n)
  }

  /** The tiles cut `[0, n)` into disjoint ranges that leave no index out. */
  lemma TilesPartition(n: nat, j: nat)
    ensures j < n <==> exists t :: 0 <= t < TileCount(n) && InTile(n, t, j)
    ensures forall t, u :: 0 <= t && 0 <= u && InTile(n, t, j) && InTile(n, u, j) ==> t == u
  {
    if j < n {
      assert InTile(n, j / TILE_W, j);
    }
  }

  function TotalTiles(sh: Shape): nat {
    TileCount(sh.n) * TileCount(sh.m)
  }

  function ComputeNs(sh: Shape): nat {
    if Fits(sh) then TILE_NS * TotalTiles(sh) else 0
  }

  /** 40 ns for each pair of a tile of 64 inputs and a tile of 64 outputs, begun tiles included. */
  lemma ComputePrice(sh: Shape)
    ensures ComputeNs(sh) == if Fits(sh) then 40 * ((sh.n + 63) / 64) * ((sh.m + 63) / 64) else 0
  {
    var x, y := TileCount(sh.n), TileCount(sh.m);
    assert 40 * (x * y) == 40 * x * y;
  }

  // ---------------------------------------------------------------- transactions

  datatype Reply = Reply(mem: seq<byte>, status: Status, data: seq<byte>, ns: nat)

  /** The range check adds address and length in 32 bits. */
  predicate PassesCheck(addr: u32, len: nat) {
    (addr + len) % TWO32 <= SRAM_SIZE
  }

  /** The accesses with a defined meaning: compute triggers, those that the range check refuses, and those
      that are in range. For all others the sum has wrapped and the copy would leave the array. */
  predicate Meaningful(addr: u32, len: nat) {
    addr == SRAM_COMPUTE_CMD || !PassesCheck(addr, len) || addr + len <= SRAM_SIZE
  }

  lemma InRangePasses(addr: u32, len: nat)
    requires addr + len <= SRAM_SIZE
    ensures PassesCheck(addr, len) && Meaningful(addr, len)
  {
  }

  /** What one blocking transaction does to memory, to the caller's buffer and to the clock. */
  function Transport(mem: seq<byte>, sh: Shape, cmd: Command, addr: u32, data: seq<byte>): (r: Reply)
    requires IsSram(mem) && Meaningful(addr, |data|)
    ensures IsSram(r.mem) && |r.data| == |data|
  {
    if addr == SRAM_COMPUTE_CMD then Reply(Computed(mem, sh), Okay, data, ComputeNs(sh))
    else if !PassesCheck(addr, |data|) then Reply(mem, AddressError, data, 0)
    else match cmd
      case Read => Reply(mem, Okay, mem[addr..addr + |data|], SRAM_RW_NS)
      case Write => Reply(Splice(mem, addr, data), Okay, data, SRAM_RW_NS)
      case Ignore => Reply(mem, Okay, data, SRAM_RW_NS)
  }

  /** What the caller of a transaction sees, byte by byte. */
  lemma TransactionMeans(mem: seq<byte>, sh: Shape, cmd: Command, addr: u32, data: seq<byte>)
    requires IsSram(mem) && Meaningful(addr, |data|)
    ensures var r := Transport(mem, sh, cmd, addr, data);
            if addr == 0xFFFF_FFFF then r == Reply(Computed(mem, sh), Okay, data, ComputeNs(sh))
            else if (addr + |data|) % 0x1_0000_0000 > 4194304 then r == Reply(mem, AddressError, data, 0)
            else
              && addr + |data| <= 4194304 && r.status == Okay && r.ns == 10
              && (forall k :: 0 <= k < |data| ==> r.data[k] == if cmd == Read then mem[addr + k] else data[k])
              && (forall p :: 0 <= p < |mem| ==>
                    r.mem[p] == if cmd == Write && addr <= p < addr + |data| then data[p - addr] else mem[p])
  {
  }

  /** The 32-bit accumulator after `k` inputs. */
  function Acc(mem: seq<byte>, sh: Shape, i: nat, k: nat): int
    requires IsSram(mem) && Fits(sh) && i < sh.m && k <= sh.n
  {
    if k == 0 then Bias(mem, sh, i)
    else Wrap32(Acc(mem, sh, i, k - 1) + X(mem, sh, k - 1) * W(mem, sh, i, k - 1))
  }

  /** Wrapping at every step gives the exact sum, wrapped once. */
  lemma {:induction false} AccExact(mem: seq<byte>, sh: Shape, i: nat, k: nat)
    requires IsSram(mem) && Fits(sh) && i < sh.m && k <= sh.n
    ensures Acc(mem, sh, i, k) == Wrap32(Bias(mem, sh, i) + Mac(mem, sh, i, k))
  {
    if k == 0 {
      Wrap32Exact(Bias(mem, sh, i));
    } else {
      AccExact(mem, sh, i, k - 1);
      var s, p := Bias(mem, sh, i) + Mac(mem, sh, i, k - 1), X(mem, sh, k - 1) * W(mem, sh, i, k - 1);
      Wrap32Add(s, p);
      assert s + p == Bias(mem, sh, i) + Mac(mem, sh, i, k);
    }
  }

  lemma AccWord(mem: seq<byte>, sh: Shape, i: nat)
    requires IsSram(mem) && Fits(sh) && i < sh.m
    ensures ToU32(Acc(mem, sh, i, sh.n)) == ToU32(Logit(mem, sh, i))
  {
    AccExact(mem, sh, i, sh.n);
    Wrap32Exact(Logit(mem, sh, i));
  }

  /** Storing the accumulator after the first `i` logits stores the next one. */
  lemma WordStored(m0: seq<byte>, sh: Shape, i: nat, acc: int, w: seq<byte>)
    requires IsSram(m0) && Fits(sh) && i < sh.m && acc == Acc(m0, sh, i, sh.n) && w == Le32(ToU32(acc))
    ensures OutputBase(sh) + 4 * i + 4 <= SRAM_SIZE
    ensures Splice(Splice(m0, OutputBase(sh), LogitBytes(m0, sh, i)), OutputBase(sh) + 4 * i, w) ==
            Splice(m0, OutputBase(sh), LogitBytes(m0, sh, i + 1))
  {
    AccWord(m0, sh, i);
    LastLogit(m0, sh, i, Logit(m0, sh, i));
    SpliceAppend(m0, OutputBase(sh), LogitBytes(m0, sh, i), w);
  }

  class Sram {
    const shape: Shape
    const mem: array<byte>

    ghost predicate Valid() {
      mem.Length == SRAM_SIZE
    }

    constructor (sh: Shape)
      ensures Valid() && shape == sh && fresh(mem)
      ensures forall p :: 0 <= p < SRAM_SIZE ==> mem[p] == 0
    {
      shape := sh;
      mem := new byte[SRAM_SIZE](_ => 0);
    }

    /** The in-place kernel, with the 32-bit accumulator of the source. */
    method ComputeInMemory() returns (ns: nat)
      requires Valid()
      modifies mem
      ensures mem[..] == Computed(old(mem[..]), shape)
      ensures ns == ComputeNs(shape)
    {
      if LayoutEnd(shape) > SRAM_SIZE {
        return 0;
      }
      ghost var m0 := mem[..];
      for i := 0 to shape.m
        invariant mem[..] == Splice(m0, OutputBase(shape), LogitBytes(m0, shape, i))
        invariant forall p :: 0 <= p < OutputBase(shape) ==> mem[p] == m0[p]
      {
        var acc := RowSum(i, m0);
        StoreWord(i, acc, m0);
      }
      ns := TILE_NS * TotalTiles(shape);
    }

    /** One output neuron: bias, then tile after tile of the input. */
    method RowSum(i: nat, ghost m0: seq<byte>) returns (acc: int)
      requires Valid() && IsSram(m0) && Fits(shape) && i < shape.m
      requires forall p :: 0 <= p < OutputBase(shape) ==> mem[p] == m0[p]
      ensures acc == Acc(m0, shape, i, shape.n)
    {
      var n, tilesIn := shape.n, TileCount(shape.n);
      var b := BiasBase(shape) + 4 * i;
      assert mem[b..b + 4] == m0[b..b + 4];
      acc := Signed(FromLe32(mem[b..b + 4]));
      var t := 0;
      while t < tilesIn
        invariant 0 <= t <= tilesIn
        invariant acc == Acc(m0, shape, i, Min(t * TILE_W, n))
      {
        acc := TileSum(i, m0, acc, t * TILE_W, Min(t * TILE_W + TILE_W, n));
        t := t + 1;
      }
    }

    /** One tile: inputs `[base, end)` added to the accumulator. */
    method TileSum(i: nat, ghost m0: seq<byte>, acc0: int, base: nat, end: nat) returns (acc: int)
      requires Valid() && IsSram(m0) && Fits(shape) && i < shape.m && base <= end <= shape.n
      requires forall p :: 0 <= p < OutputBase(shape) ==> mem[p] == m0[p]
      requires acc0 == Acc(m0, shape, i, base)
      ensures acc == Acc(m0, shape, i, end)
    {
      acc := acc0;
      var j := base;
      while j < end
        invariant base <= j <= end
        invariant acc == Acc(m0, shape, i, j)
      {
        var p := Product(i, j, m0);
        acc := Wrap32(acc + p);
        j := j + 1;
      }
    }

    method Product(i: nat, j: nat, ghost m0: seq<byte>) returns (prod: int)
      requires Valid() && IsSram(m0) && Fits(shape) && i < shape.m && j < shape.n
      requires forall p :: 0 <= p < OutputBase(shape) ==> mem[p] == m0[p]
      ensures prod == X(m0, shape, j) * W(m0, shape, i, j)
    {
      var xb := LoadByte(InputBase(shape) + j, m0);
      var wb := LoadByte(WEIGHT_BASE + WeightOffset(shape, i, j), m0);
      ProductOf(m0, shape, i, j, xb, wb);
      prod := ClampU4(xb) * ClampS4(Int8(wb));
    }

    method LoadByte(p: nat, ghost m0: seq<byte>) returns (b: byte)
      requires Valid() && IsSram(m0) && Fits(shape) && p < OutputBase(shape)
      requires forall q :: 0 <= q < OutputBase(shape) ==> mem[q] == m0[q]
      ensures b == m0[p]
    {
      b := mem[p];
    }

    /** `y[i] = acc`, four little-endian bytes. */
    method StoreWord(i: nat, acc: int, ghost m0: seq<byte>)
      requires Valid() && IsSram(m0) && Fits(shape) && i < shape.m
      requires acc == Acc(m0, shape, i, shape.n)
      requires mem[..] == Splice(m0, OutputBase(shape), LogitBytes(m0, shape, i))
      modifies mem
      ensures mem[..] == Splice(m0, OutputBase(shape), LogitBytes(m0, shape, i + 1))
      ensures forall p :: 0 <= p < OutputBase(shape) ==> mem[p] == m0[p]
    {
      var o := OutputBase(shape) + 4 * i;
      var w := Le32(ToU32(acc));
      WordStored(m0, shape, i, acc, w);
      CopyIn(o, w);
    }

    method CopyIn(at: nat, data: seq<byte>)
      requires Valid() && at + |data| <= SRAM_SIZE
      modifies mem
      ensures mem[..] == Splice(old(mem[..]), at, data)
    {
      forall k | 0 <= k < |data| {
        mem[at + k] := data[k];
      }
    }

    method BTransport(cmd: Command, addr: u32, data: seq<byte>)
      returns (status: Status, out: seq<byte>, ns: nat)
      requires Valid() && Meaningful(addr, |data|)
      modifies mem
      ensures Reply(mem[..], status, out, ns) == Transport(old(mem[..]), shape, cmd, addr, data)
    {
      if addr == SRAM_COMPUTE_CMD {
        ns := ComputeInMemory();
        return Okay, data, ns;
      }
      if !PassesCheck(addr, |data|) {
        return AddressError, data, 0;
      }
      out := data;
      if cmd == Read {
        out := mem[addr..addr + |data|];
      } else if cmd == Write {
        CopyIn(addr, data);
      }
      return Okay, out, SRAM_RW_NS;
    }
  }
}
