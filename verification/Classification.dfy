/** From a floating-point network and an image to the class the device predicts. */
module Classification {
  import opened Bytes
  import opened PageTable
  import opened CimSram
  import opened IrqDriver
  import opened CimLibrary
  import opened PagedCopy
  import opened Reference
  import opened Inference
  import opened Quantize

  /** `u` holds the quantised network and the quantised image. */
  predicate Packed(u: Buffers, f: FloatNet, sh: Shape, px: seq<byte>) {
    && Sized(u, sh) && Shaped(f, sh) && |px| == sh.n
    && (forall i, j :: 0 <= i < sh.m && 0 <= j < sh.n ==> Weight(u, sh, i, j) == QWeight(f.w[i], j))
    && (forall i :: 0 <= i < sh.m ==> BiasOf(u, sh, i) == QBias(f.w[i], f.b[i]))
    && (forall j :: 0 <= j < sh.n ==> u.x[j] == QPixel(px[j]))
  }

  lemma RowAndColumn(k: nat, m: nat, n: nat) returns (i: nat, j: nat)
    requires k < m * n
    ensures i < m && j < n && k == i * n + j
  {
    i, j := k / n, k % n;
    if i >= m {
      MulMono(m, i, n);
    }
  }

  lemma PackedFourBit(u: Buffers, f: FloatNet, sh: Shape, px: seq<byte>)
    requires Packed(u, f, sh, px)
    ensures FourBit(u)
  {
    forall k | 0 <= k < |u.w|
      ensures -8 <= Int8(u.w[k]) <= 7
    {
      var i, j := RowAndColumn(k, sh.m, sh.n);
      assert Weight(u, sh, i, j) == QWeight(f.w[i], j);
    }
  }

  lemma {:induction false} PackedDot(u: Buffers, f: FloatNet, sh: Shape, px: seq<byte>, i: nat, k: nat, z: seq<int>)
    requires Packed(u, f, sh, px) && i < sh.m && k <= sh.n && z == QTerms(QWeights(f.w[i]), px)[..k]
    ensures Dot(u, sh, i, k) == IntSum(z)
  {
    if k > 0 {
      assert z[..k - 1] == QTerms(QWeights(f.w[i]), px)[..k - 1];
      PackedDot(u, f, sh, px, i, k - 1, z[..k - 1]);
      assert Weight(u, sh, i, k - 1) == QWeight(f.w[i], k - 1);
    }
  }

  /** The CPU's integer sums are the quantised logits. */
  lemma PackedHypothesis(u: Buffers, f: FloatNet, sh: Shape, px: seq<byte>, i: nat)
    requires Packed(u, f, sh, px) && i < sh.m
    ensures Hypothesis(u, sh, i) == QLogit(f.w[i], f.b[i], px)
  {
    var z := QTerms(QWeights(f.w[i]), px);
    assert z[..sh.n] == z;
    PackedDot(u, f, sh, px, i, sh.n, z);
    assert BiasOf(u, sh, i) == QBias(f.w[i], f.b[i]);
  }

  predicate AllSafe(u: Buffers, sh: Shape)
    requires Sized(u, sh)
  {
    forall i :: 0 <= i < sh.m ==> SafeBias(BiasOf(u, sh, i), sh.n)
  }

  function Words(bytes: seq<byte>, m: nat): (a: seq<int>)
    requires |bytes| == 4 * m
    ensures |a| == m && forall i :: 0 <= i < m ==> a[i] == WordAt(bytes, i)
  {
    seq(m, i requires 0 <= i < m => WordAt(bytes, i))
  }

  /** Logits read back from the device are the quantised network's, exactly. */
  lemma WordsAreLogits(out: seq<byte>, u: Buffers, f: FloatNet, sh: Shape, px: seq<byte>, i: nat)
    requires Packed(u, f, sh, px) && |out| == 4 * sh.m && AreLogits(out, u, sh) && AllSafe(u, sh) && i < sh.m
    ensures Words(out, sh.m)[i] == QLogit(f.w[i], f.b[i], px)
  {
    PackedFourBit(u, f, sh, px);
    PackedHypothesis(u, f, sh, px, i);
    SafeIsExact(u, sh, i);
  }

  /** The factors the client compares with: `x_scale * w_scale[i]`. */
  function Factors(f: FloatNet): (k: seq<real>)
    ensures |k| == |f.w| && forall i :: 0 <= i < |f.w| ==> k[i] == Unit(f.w[i])
  {
    seq(|f.w|, i requires 0 <= i < |f.w| => Unit(f.w[i]))
  }

  lemma ScaledAreScores(acc: seq<int>, f: FloatNet, sh: Shape, px: seq<byte>)
    requires Shaped(f, sh) && |px| == sh.n && |acc| == sh.m
    requires forall i :: 0 <= i < sh.m ==> acc[i] == QLogit(f.w[i], f.b[i], px)
    ensures Scaled(acc, Factors(f)) == Scores(f, sh, px)
  {
    var a, b, k := Scaled(acc, Factors(f)), Scores(f, sh, px), Factors(f);
    forall i | 0 <= i < sh.m
      ensures a[i] == b[i]
    {
      TimesCommutes(Unit(f.w[i]), acc[i]);
    }
  }

  lemma TimesCommutes(d: real, x: int)
    ensures x as real * d == Times(d, x)
  {
  }

  /** When the floating-point network has a clear winner, the argmax over the words the device
      returned is that winner. */
  lemma DeviceClassifies(out: seq<byte>, u: Buffers, f: FloatNet, sh: Shape, px: seq<byte>, k: nat, pred: nat)
    requires Packed(u, f, sh, px) && |out| == 4 * sh.m && AreLogits(out, u, sh) && AllSafe(u, sh)
    requires k < sh.m && ClearWinner(f, sh, px, k)
    requires IsArgmax(Scaled(Words(out, sh.m), Factors(f)), pred)
    ensures pred == k && IsArgmax(FloatLogits(f, sh, px), k)
  {
    var acc := Words(out, sh.m);
    forall i | 0 <= i < sh.m
      ensures acc[i] == QLogit(f.w[i], f.b[i], px)
    {
      WordsAreLogits(out, u, f, sh, px, i);
    }
    ScaledAreScores(acc, f, sh, px);
    ClearWinnerAgrees(f, sh, px, k);
    ArgmaxUnique(Scores(f, sh, px), k, pred);
  }

  /** Inference and argmax, as the client program runs them. */
  method Classify(p: Platform, sh: Shape, vw: u64, vb: u64, vx: u64, vout: u64, factors: seq<real>,
                  ghost f: FloatNet, ghost px: seq<byte>, ghost k: nat)
    returns (rc: Rc, pred: nat)
    requires Calm(p) && sh == p.bridge.ctl.sram.shape && Fits(sh)
    requires Addressable(sh, p.pageSize, vw, vb, vx) && UserBuffer(vout, 4 * sh.m, p.pageSize)
    requires Shaped(f, sh) && |px| == sh.n && factors == Factors(f) && Injective(p.Pages(), vout, 4 * sh.m)
    requires k < sh.m && ClearWinner(f, sh, px, k)
    requires AllAvailable(p.Pages(), sh, vw, vb, vx) ==>
               var u := UserData(p.ram[..], p.Pages(), sh, vw, vb, vx);
               Packed(u, f, sh, px) && AllSafe(u, sh)
    modifies p, p.ram, p.irqs, p.bridge.ctl, p.bridge.ctl.sram.mem, p.bridge.payload
    ensures Calm(p)
    ensures rc == CimOk <==> AllAvailable(p.Pages(), sh, vw, vb, vx) && Available(p.Pages(), vout, 4 * sh.m)
    ensures rc == CimOk ==> pred == k && IsArgmax(FloatLogits(f, sh, px), pred)
  {
    pred := 0;
    ghost var r0 := p.ram[..];
    rc := Infer(p, sh, vw, vb, vx, vout);
    if rc == CimOk {
      var out := Load(p.ram[..], p.Pages(), vout, 4 * sh.m);
      ghost var u := UserData(r0, p.Pages(), sh, vw, vb, vx);
      PackedFourBit(u, f, sh, px);
      pred := ScaledArgmax(Words(out, sh.m), factors);
      DeviceClassifies(out, u, f, sh, px, k, pred);
    }
  }
}
