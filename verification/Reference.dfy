/** The integer forward pass on the CPU, and its agreement with what the SRAM computes. */
module Reference {
  import opened Bytes
  import opened CimSram

  /** A network and an input as byte buffers: weights row by row, biases as little-endian words. */
  datatype Buffers = Buffers(w: seq<byte>, b: seq<byte>, x: seq<byte>)

  predicate Sized(u: Buffers, sh: Shape) {
    |u.w| == sh.m * sh.n && |u.b| == 4 * sh.m && |u.x| == sh.n
  }

  function Weight(u: Buffers, sh: Shape, i: nat, j: nat): int
    requires Sized(u, sh) && i < sh.m && j < sh.n
  {
    WeightIndex(sh, i, j);
    Int8(u.w[i * sh.n + j])
  }

  function BiasOf(u: Buffers, sh: Shape, i: nat): int
    requires Sized(u, sh) && i < sh.m
  {
    Signed(FromLe32(u.b[4 * i..4 * i + 4]))
  }

  /** The CPU's operands in its buffers: weights row by row as signed bytes, biases as little-endian words. */
  lemma CpuOperands(u: Buffers, sh: Shape, i: nat, j: nat)
    requires Sized(u, sh) && i < sh.m && j < sh.n
    ensures 0 <= i * sh.n + j < |u.w|
    ensures IsSignedByte(u.w[i * sh.n + j], Weight(u, sh, i, j))
    ensures IsSignedWord(u.b, 4 * i, BiasOf(u, sh, i))
  {
    WeightIndex(sh, i, j);
    SignedWordIs(u.b, 4 * i, u.b[4 * i..4 * i + 4]);
  }

  /** Sum of the first `k` products of row `i`. */
  function Dot(u: Buffers, sh: Shape, i: nat, k: nat): int
    requires Sized(u, sh) && i < sh.m && k <= sh.n
  {
    if k == 0 then 0 else Dot(u, sh, i, k - 1) + Weight(u, sh, i, k - 1) * u.x[k - 1]
  }

  /** `b[i] + sum_j W[i][j] * x[j]`, exactly. */
  function Hypothesis(u: Buffers, sh: Shape, i: nat): int
    requires Sized(u, sh) && i < sh.m
  {
    BiasOf(u, sh, i) + Dot(u, sh, i, sh.n)
  }

  /** Weights are signed and inputs unsigned four-bit values, as the quantiser leaves them. */
  predicate FourBit(u: Buffers) {
    && (forall k :: 0 <= k < |u.w| ==> -8 <= Int8(u.w[k]) <= 7)
    && (forall k :: 0 <= k < |u.x| ==> u.x[k] <= 15)
  }

  /** The byte of a signed four-bit clamp. */
  function S4Byte(b: byte): (c: byte)
    ensures Int8(c) == ClampS4(Int8(b))
  {
    var v := ClampS4(Int8(b));
    if v < 0 then v + 256 else v
  }

  function U4Byte(b: byte): byte {
    ClampU4(b)
  }

  /** What the macro makes of arbitrary bytes. */
  function Clamped(u: Buffers): (c: Buffers)
    ensures |c.w| == |u.w| && c.b == u.b && |c.x| == |u.x|
    ensures forall k :: 0 <= k < |u.w| ==> c.w[k] == S4Byte(u.w[k])
    ensures forall k :: 0 <= k < |u.x| ==> c.x[k] == U4Byte(u.x[k])
  {
    Buffers(seq(|u.w|, k requires 0 <= k < |u.w| => S4Byte(u.w[k])), u.b,
            seq(|u.x|, k requires 0 <= k < |u.x| => U4Byte(u.x[k])))
  }

  /** Clamping changes nothing exactly on four-bit data. */
  lemma ClampedIffFourBit(u: Buffers)
    ensures Clamped(u) == u <==> FourBit(u)
    ensures FourBit(Clamped(u))
  {
    var c := Clamped(u);
    if FourBit(u) {
      assert c.w == u.w && c.x == u.x;
    }
  }

  // ---------------------------------------------------------------- agreement with the device

  /** The SRAM holds these buffers in their regions. */
  predicate Holds(mem: seq<byte>, sh: Shape, u: Buffers)
    requires IsSram(mem) && Fits(sh)
  {
    && mem[WEIGHT_BASE..BiasBase(sh)] == u.w
    && mem[BiasBase(sh)..InputBase(sh)] == u.b
    && mem[InputBase(sh)..OutputBase(sh)] == u.x
  }

  lemma WeightAgrees(mem: seq<byte>, sh: Shape, u: Buffers, c: Buffers, i: nat, j: nat, k: nat)
    requires IsSram(mem) && Fits(sh) && Sized(u, sh) && Holds(mem, sh, u) && c == Clamped(u) && i < sh.m && j < sh.n
    requires k == WeightOffset(sh, i, j)
    ensures W(mem, sh, i, j) == Weight(c, sh, i, j)
  {
    SliceByte(mem, WEIGHT_BASE, BiasBase(sh), u.w, k);
    assert c.w[k] == S4Byte(u.w[k]);
  }

  lemma SliceByte(mem: seq<byte>, lo: nat, hi: nat, w: seq<byte>, k: nat)
    requires lo <= hi <= |mem| && w == mem[lo..hi] && k < hi - lo
    ensures w[k] == mem[lo + k]
  {
  }

  lemma InputAgrees(mem: seq<byte>, sh: Shape, u: Buffers, c: Buffers, j: nat)
    requires IsSram(mem) && Fits(sh) && Sized(u, sh) && Holds(mem, sh, u) && c == Clamped(u) && j < sh.n
    ensures X(mem, sh, j) == c.x[j]
  {
    SliceByte(mem, InputBase(sh), OutputBase(sh), u.x, j);
  }

  lemma TermAgrees(mem: seq<byte>, sh: Shape, u: Buffers, c: Buffers, i: nat, j: nat)
    requires IsSram(mem) && Fits(sh) && Sized(u, sh) && Holds(mem, sh, u) && c == Clamped(u) && i < sh.m && j < sh.n
    ensures X(mem, sh, j) * W(mem, sh, i, j) == Weight(c, sh, i, j) * c.x[j]
  {
    WeightAgrees(mem, sh, u, c, i, j, WeightOffset(sh, i, j));
    InputAgrees(mem, sh, u, c, j);
    Commutes(X(mem, sh, j), W(mem, sh, i, j), c.x[j], Weight(c, sh, i, j));
  }

  lemma Commutes(x: int, y: int, p: int, q: int)
    requires x == p && y == q
    ensures x * y == q * p
  {
  }

  lemma {:induction false} DotAgrees(mem: seq<byte>, sh: Shape, u: Buffers, c: Buffers, i: nat, k: nat)
    requires IsSram(mem) && Fits(sh) && Sized(u, sh) && Holds(mem, sh, u) && c == Clamped(u) && i < sh.m && k <= sh.n
    ensures Mac(mem, sh, i, k) == Dot(c, sh, i, k)
  {
    if k > 0 {
      DotAgrees(mem, sh, u, c, i, k - 1);
      TermAgrees(mem, sh, u, c, i, k - 1);
    }
  }

  /** The device computes the CPU's sums of the clamped data; on four-bit data, which clamping
      leaves alone, those are the CPU's sums. */
  lemma DeviceAgrees(mem: seq<byte>, sh: Shape, u: Buffers, i: nat)
    requires IsSram(mem) && Fits(sh) && Sized(u, sh) && Holds(mem, sh, u) && i < sh.m
    ensures Logit(mem, sh, i) == Hypothesis(Clamped(u), sh, i)
    ensures FourBit(u) ==> Logit(mem, sh, i) == Hypothesis(u, sh, i)
  {
    DotAgrees(mem, sh, u, Clamped(u), i, sh.n);
    BiasAgrees(mem, sh, u, i);
    ClampedIffFourBit(u);
  }

  lemma BiasAgrees(mem: seq<byte>, sh: Shape, u: Buffers, i: nat)
    requires IsSram(mem) && Fits(sh) && Sized(u, sh) && Holds(mem, sh, u) && i < sh.m
    ensures Bias(mem, sh, i) == BiasOf(u, sh, i)
  {
    SliceWord(mem, BiasBase(sh), InputBase(sh), u.b, 4 * i);
  }

  lemma SliceWord(mem: seq<byte>, lo: nat, hi: nat, b: seq<byte>, k: nat)
    requires lo <= hi <= |mem| && b == mem[lo..hi] && k + 4 <= hi - lo
    ensures mem[lo + k..lo + k + 4] == b[k..k + 4]
  {
    var x, y := mem[lo + k..lo + k + 4], b[k..k + 4];
    forall i | 0 <= i < 4
      ensures x[i] == y[i]
    {
      assert b[k + i] == mem[lo + (k + i)];
    }
  }

  /** Writing the three buffers one after the other leaves all three in place. */
  lemma Staged(m0: seq<byte>, sh: Shape, u: Buffers, m1: seq<byte>, m2: seq<byte>, m3: seq<byte>)
    requires IsSram(m0) && Fits(sh) && Sized(u, sh)
    requires m1 == Splice(m0, WEIGHT_BASE, u.w)
    requires m2 == Splice(m1, BiasBase(sh), u.b)
    requires m3 == Splice(m2, InputBase(sh), u.x)
    ensures Holds(m3, sh, u)
  {
    assert m3[WEIGHT_BASE..BiasBase(sh)] == m1[WEIGHT_BASE..BiasBase(sh)];
    assert m3[BiasBase(sh)..InputBase(sh)] == m2[BiasBase(sh)..InputBase(sh)];
  }

  lemma {:induction false} DotBound(u: Buffers, sh: Shape, i: nat, k: nat)
    requires Sized(u, sh) && FourBit(u) && i < sh.m && k <= sh.n
    ensures -120 * k <= Dot(u, sh, i, k) <= 105 * k
  {
    if k > 0 {
      DotBound(u, sh, i, k - 1);
      assert -8 <= Int8(u.w[WeightOffset(sh, i, k - 1)]) <= 7;
      ProductBound(u.x[k - 1], Weight(u, sh, i, k - 1));
    }
  }

  /** With safe biases no 32-bit sum wraps. */
  lemma SafeIsExact(u: Buffers, sh: Shape, i: nat)
    requires Sized(u, sh) && FourBit(u) && i < sh.m && SafeBias(BiasOf(u, sh, i), sh.n)
    ensures Wrap32(Hypothesis(u, sh, i)) == Hypothesis(u, sh, i)
  {
    DotBound(u, sh, i, sh.n);
    Wrap32Exact(Hypothesis(u, sh, i));
  }

  // ---------------------------------------------------------------- the CPU loops

  /** `neural_network_hypothesis_q4`, with the `int32_t` accumulator of the source. */
  method NeuralNetworkHypothesisQ4(u: Buffers, sh: Shape, acc: array<int>)
    requires Sized(u, sh) && acc.Length == sh.m
    modifies acc
    ensures forall i :: 0 <= i < sh.m ==> acc[i] == Wrap32(Hypothesis(u, sh, i))
  {
    for i := 0 to sh.m
      invariant forall k :: 0 <= k < i ==> acc[k] == Wrap32(Hypothesis(u, sh, k))
    {
      var sum := RowHypothesis(u, sh, i);
      acc[i] := sum;
    }
  }

  method RowHypothesis(u: Buffers, sh: Shape, i: nat) returns (sum: int)
    requires Sized(u, sh) && i < sh.m
    ensures sum == Wrap32(Hypothesis(u, sh, i))
  {
    sum := Signed(FromLe32(u.b[4 * i..4 * i + 4]));
    Wrap32Exact(sum);
    for j := 0 to sh.n
      invariant sum == Wrap32(BiasOf(u, sh, i) + Dot(u, sh, i, j))
    {
      HypothesisStep(u, sh, i, j, sum);
      sum := Wrap32(sum + Weight(u, sh, i, j) * u.x[j]);
    }
  }

  lemma HypothesisStep(u: Buffers, sh: Shape, i: nat, j: nat, sum: int)
    requires Sized(u, sh) && i < sh.m && j < sh.n && sum == Wrap32(BiasOf(u, sh, i) + Dot(u, sh, i, j))
    ensures Wrap32(sum + Weight(u, sh, i, j) * u.x[j]) == Wrap32(BiasOf(u, sh, i) + Dot(u, sh, i, j + 1))
  {
    var s, p := BiasOf(u, sh, i) + Dot(u, sh, i, j), Weight(u, sh, i, j) * u.x[j];
    Wrap32Add(s, p);
    assert s + p == BiasOf(u, sh, i) + Dot(u, sh, i, j + 1);
  }
}
