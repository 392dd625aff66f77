/** Post-training quantisation to four bits, over exact reals: the loops, the error bound, and when
    the quantised classifier agrees with the floating-point one. */
module Quantize {
  import opened Bytes
  import opened CimSram

  function Abs(x: real): (r: real)
    ensures r >= 0.0
  {
    if x < 0.0 then -x else x
  }

  /** `lrintf` in the default rounding mode: to nearest, ties to even. */
  function RoundEven(x: real): int {
    var f := x.Floor;
    var d := x - f as real;
    if d < 0.5 || (d == 0.5 && f % 2 == 0) then f else f + 1
  }

  /** A nearest integer, and the even one of two. */
  predicate IsNearest(x: real, q: int) {
    && x - 0.5 <= q as real <= x + 0.5
    && (q as real == x - 0.5 || q as real == x + 0.5 ==> q % 2 == 0)
  }

  lemma RoundIs(x: real, q: int)
    ensures q == RoundEven(x) <==> IsNearest(x, q)
  {
  }

  lemma RoundError(x: real)
    ensures Abs(RoundEven(x) as real - x) <= 0.5
    ensures -7.0 <= x <= 7.0 ==> -7 <= RoundEven(x) <= 7
  {
  }

  // ---------------------------------------------------------------- scales

  /** Largest magnitude of a row, 0 for an empty one. */
  function MaxAbs(w: seq<real>): (m: real)
    ensures m >= 0.0
  {
    if w == [] then 0.0
    else
      var m, a := MaxAbs(w[..|w| - 1]), Abs(w[|w| - 1]);
      if a > m then a else m
  }

  lemma {:induction false} MaxAbsBounds(w: seq<real>, j: nat)
    requires j < |w|
    ensures Abs(w[j]) <= MaxAbs(w)
  {
    if j < |w| - 1 {
      MaxAbsBounds(w[..|w| - 1], j);
    }
  }

  /** `x` units of size `d`. */
  function Times(d: real, x: int): real {
    d * x as real
  }

  const X_SCALE: real := 1.0 / 15.0

  /** Per-channel weight scale: the largest magnitude maps to 7, an all-zero row counts as 1. */
  function Scale(w: seq<real>): (s: real)
    ensures s > 0.0
  {
    (if MaxAbs(w) == 0.0 then 1.0 else MaxAbs(w)) / 7.0
  }

  lemma ScaleBounds(w: seq<real>, j: nat)
    requires j < |w|
    ensures Abs(w[j]) <= 7.0 * Scale(w)
  {
    MaxAbsBounds(w, j);
  }

  /** The scale of a row: a seventh of its largest magnitude, or a seventh if all its weights are zero. */
  predicate IsRowScale(w: seq<real>, s: real) {
    && (forall k :: 0 <= k < |w| ==> -7.0 * s <= w[k] <= 7.0 * s)
    && if exists k :: 0 <= k < |w| && w[k] != 0.0
       then exists k :: 0 <= k < |w| && (w[k] == 7.0 * s || w[k] == -7.0 * s)
       else s == 1.0 / 7.0
  }

  lemma {:induction false} MaxAbsAttained(w: seq<real>)
    ensures w == [] || exists k :: 0 <= k < |w| && Abs(w[k]) == MaxAbs(w)
    decreases |w|
  {
    if w != [] {
      var v := w[..|w| - 1];
      MaxAbsAttained(v);
      if MaxAbs(w) != Abs(w[|w| - 1]) {
        if v != [] {
          var k :| 0 <= k < |v| && Abs(v[k]) == MaxAbs(v);
          assert Abs(w[k]) == MaxAbs(w);
        }
      }
    }
  }

  lemma ScaleIsRowScale(w: seq<real>)
    ensures IsRowScale(w, Scale(w))
  {
    forall k | 0 <= k < |w|
      ensures -7.0 * Scale(w) <= w[k] <= 7.0 * Scale(w)
    {
      ScaleBounds(w, k);
    }
    MaxAbsAttained(w);
    if k :| 0 <= k < |w| && w[k] != 0.0 {
      MaxAbsBounds(w, k);
      var l :| 0 <= l < |w| && Abs(w[l]) == MaxAbs(w);
      assert w[l] == 7.0 * Scale(w) || w[l] == -7.0 * Scale(w);
    }
  }

  /** There is only one such scale. */
  lemma RowScaleUnique(w: seq<real>, s: real)
    ensures s == Scale(w) <==> IsRowScale(w, s)
  {
    ScaleIsRowScale(w);
  }

  function QWeight(w: seq<real>, j: nat): (q: int)
    requires j < |w|
    ensures -8 <= q <= 7
  {
    ClampS4(RoundEven(w[j] / Scale(w)))
  }

  /** The value of one unit of the integer accumulator: `x_scale * w_scale`. */
  function Unit(w: seq<real>): (d: real)
    ensures d > 0.0
  {
    X_SCALE * Scale(w)
  }

  function QBias(w: seq<real>, b: real): int {
    RoundEven(b / Unit(w))
  }

  function QPixel(p: byte): (u: byte)
    ensures u <= 15
  {
    p / 16
  }

  /** The upper four bits of a pixel. */
  lemma PixelBits(p: byte, u: byte)
    ensures u == QPixel(p) <==> 16 * u as int <= p as int < 16 * u as int + 16
  {
  }

  /** A weight of the row's largest magnitude becomes 7 or -7. */
  lemma LargestIsSeven(w: seq<real>, k: nat)
    requires k < |w| && w[k] != 0.0 && forall l :: 0 <= l < |w| ==> Abs(w[l]) <= Abs(w[k])
    ensures QWeight(w, k) == if w[k] > 0.0 then 7 else -7
  {
    ScaleIsRowScale(w);
    var s := Scale(w);
    var l :| 0 <= l < |w| && (w[l] == 7.0 * s || w[l] == -7.0 * s);
    assert Abs(w[l]) <= Abs(w[k]) && Abs(w[k]) <= 7.0 * s;
    SevenTimes(w[k], s);
  }

  lemma SevenTimes(x: real, s: real)
    requires s > 0.0 && (x == 7.0 * s || x == -7.0 * s)
    ensures x / s == if x > 0.0 then 7.0 else -7.0
    ensures ClampS4(RoundEven(x / s)) == if x > 0.0 then 7 else -7
  {
    DivMul(x, s);
  }

  // ---------------------------------------------------------------- one term

  lemma MulBound(x: real, y: real, mx: real, my: real)
    requires Abs(x) <= mx && Abs(y) <= my
    ensures Abs(x * y) <= mx * my
  {
    AbsMul(x, y);
    assert Abs(x) * Abs(y) <= mx * Abs(y);
    assert mx * Abs(y) <= mx * my;
  }

  lemma AbsMul(x: real, y: real)
    ensures Abs(x * y) == Abs(x) * Abs(y)
  {
  }

  lemma DivMul(x: real, s: real)
    requires s > 0.0
    ensures x / s * s == x
  {
  }

  lemma ScaledRange(x: real, s: real, k: real)
    requires s > 0.0 && Abs(x) <= k * s
    ensures Abs(x / s) <= k
  {
    DivMul(x, s);
    var q := x / s;
    if q > k {
      assert q * s > k * s;
    } else if -q > k {
      assert -q * s > k * s;
    }
  }

  /** With the channel's own scale the clamp never fires. */
  lemma ClampNeverFires(w: seq<real>, j: nat)
    requires j < |w|
    ensures QWeight(w, j) == RoundEven(w[j] / Scale(w)) && -7 <= QWeight(w, j) <= 7
  {
    ScaleBounds(w, j);
    ScaledRange(w[j], Scale(w), 7.0);
    RoundError(w[j] / Scale(w));
  }

  /** Rounding at scale `s` costs at most half of `s`. */
  lemma RoundScaled(x: real, s: real)
    requires s > 0.0
    ensures Abs(x - s * RoundEven(x / s) as real) <= s / 2.0
  {
    RoundError(x / s);
    DivMul(x, s);
    var d := x / s - RoundEven(x / s) as real;
    assert Abs(d) <= 0.5;
    MulBound(s, d, s, 0.5);
    assert s * d == s * (x / s) - s * RoundEven(x / s) as real;
  }

  lemma WeightError(w: seq<real>, j: nat, s: real, q: int)
    requires j < |w| && s == Scale(w) && q == QWeight(w, j)
    ensures Abs(w[j] - s * q as real) <= s / 2.0
  {
    ClampNeverFires(w, j);
    RoundScaled(w[j], s);
  }

  lemma PixelError(p: byte)
    ensures Abs(p as real / 255.0 - QPixel(p) as real / 15.0) <= 1.0 / 17.0
  {
    var u := QPixel(p);
    var r := p - 16 * u;
    assert 0 <= r <= 15;
    assert p as real / 255.0 - u as real / 15.0 == (r - u) as real / 255.0;
  }

  lemma BiasError(w: seq<real>, b: real, s: real, d: real, q: int, dq: real)
    requires s == Scale(w) && d == Unit(w) && q == QBias(w, b) && dq == Times(d, q)
    ensures Abs(b - dq) <= s / 30.0
  {
    RoundScaled(b, d);
  }

  lemma PixelNear(p: byte, a: real, c: real)
    requires a == p as real / 255.0 && c == QPixel(p) as real / 15.0
    ensures 0.0 <= c <= 1.0 && Abs(a - c) <= 1.0 / 17.0
  {
    PixelError(p);
  }

  /** Error of one product, against `31/34` of the scale. */
  lemma TermError(w: real, v: real, s: real, a: real, c: real, f: real, g: real)
    requires s > 0.0 && Abs(w) <= 7.0 * s && Abs(w - v) <= s / 2.0
    requires 0.0 <= c <= 1.0 && Abs(a - c) <= 1.0 / 17.0
    requires f == w * a && g == v * c
    ensures Abs(f - g) <= 31.0 * s / 34.0
  {
    var e, d := w - v, a - c;
    MulBound(e, c, s / 2.0, 1.0);
    MulBound(w, d, 7.0 * s, 1.0 / 17.0);
    assert f - g == e * c + w * d;
  }

  lemma Regroup(d: real, s: real, q: int, u: int, c: real, z: int)
    requires d == X_SCALE * s && c == u as real / 15.0 && z == q * u
    ensures s * q as real * c == Times(d, z)
  {
    assert z as real == q as real * u as real;
  }

  /** One product `f` against its dequantised counterpart `g`; `d` is the value of one integer unit. */
  lemma ProductError(w: real, s: real, q: int, p: byte, d: real, z: int, f: real, g: real, e: real)
    requires s > 0.0 && NearWeight(w, q, s) && e == 31.0 * s / 34.0
    requires d == X_SCALE * s && z == q * QPixel(p)
    requires f == w * (p as real / 255.0) && g == Times(d, z)
    ensures Abs(f - g) <= e
  {
    var a, c, v := p as real / 255.0, QPixel(p) as real / 15.0, s * q as real;
    PixelNear(p, a, c);
    Regroup(d, s, q, QPixel(p), c, z);
    TermError(w, v, s, a, c, f, g);
  }

  // ---------------------------------------------------------------- sums

  function Sum(s: seq<real>): real {
    if s == [] then 0.0 else Sum(s[..|s| - 1]) + s[|s| - 1]
  }

  function IntSum(s: seq<int>): int {
    if s == [] then 0 else IntSum(s[..|s| - 1]) + s[|s| - 1]
  }

  /** `e`, `n` times. */
  function Repeat(n: nat, e: real): real {
    if n == 0 then 0.0 else Repeat(n - 1, e) + e
  }

  lemma {:induction false} RepeatIsProduct(n: nat, e: real)
    ensures Repeat(n, e) == n as real * e
  {
    if n > 0 {
      RepeatIsProduct(n - 1, e);
      assert (n - 1) as real * e + e == n as real * e;
    }
  }

  lemma Triangle(x: real, x': real, ex: real, y: real, y': real, ey: real)
    requires Abs(x - x') <= ex && Abs(y - y') <= ey
    ensures Abs(x + y - (x' + y')) <= ex + ey
  {
  }

  /** Termwise errors add up. */
  lemma {:induction false} SumNear(f: seq<real>, g: seq<real>, e: real)
    requires |f| == |g| && forall j :: 0 <= j < |f| ==> Abs(f[j] - g[j]) <= e
    ensures Abs(Sum(f) - Sum(g)) <= Repeat(|f|, e)
  {
    if f != [] {
      var k := |f| - 1;
      SumNear(f[..k], g[..k], e);
      Triangle(Sum(f[..k]), Sum(g[..k]), Repeat(k, e), f[k], g[k], e);
    }
  }

  lemma Distributes(d: real, x: int, y: int, z: int)
    requires z == x + y
    ensures d * z as real == Times(d, x) + Times(d, y)
  {
    assert z as real == x as real + y as real;
  }

  lemma {:induction false} SumScaled(g: seq<real>, z: seq<int>, d: real)
    requires |g| == |z| && forall j :: 0 <= j < |g| ==> g[j] == Times(d, z[j])
    ensures Sum(g) == Times(d, IntSum(z))
  {
    if g != [] {
      var k := |g| - 1;
      SumScaled(g[..k], z[..k], d);
      Distributes(d, IntSum(z[..k]), z[k], IntSum(z));
    }
  }

  // ---------------------------------------------------------------- logits

  /** The products `W[j] * (pixel[j] / 255)`. */
  function FloatTerms(w: seq<real>, px: seq<byte>): (t: seq<real>)
    requires |w| == |px|
    ensures |t| == |w| && forall j :: 0 <= j < |w| ==> t[j] == w[j] * (px[j] as real / 255.0)
  {
    seq(|w|, j requires 0 <= j < |w| => w[j] * (px[j] as real / 255.0))
  }

  function FloatLogit(w: seq<real>, b: real, px: seq<byte>): real
    requires |w| == |px|
  {
    b + Sum(FloatTerms(w, px))
  }

  function QWeights(w: seq<real>): (q: seq<int>)
    ensures |q| == |w| && forall j :: 0 <= j < |w| ==> q[j] == QWeight(w, j)
  {
    seq(|w|, j requires 0 <= j < |w| => QWeight(w, j))
  }

  /** The products `W_q[j] * (pixel[j] >> 4)`. */
  function QTerms(q: seq<int>, px: seq<byte>): (t: seq<int>)
    requires |q| == |px|
    ensures |t| == |q| && forall j :: 0 <= j < |q| ==> t[j] == q[j] * QPixel(px[j])
  {
    seq(|q|, j requires 0 <= j < |q| => q[j] * QPixel(px[j]))
  }

  /** The integer logit of the quantised network. */
  function QLogit(w: seq<real>, b: real, px: seq<byte>): int
    requires |w| == |px|
  {
    QBias(w, b) + IntSum(QTerms(QWeights(w), px))
  }

  /** The score the classifier compares: integer logit times `x_scale * w_scale`. */
  function Score(w: seq<real>, b: real, px: seq<byte>): real
    requires |w| == |px|
  {
    Times(Unit(w), QLogit(w, b, px))
  }

  function Bound(n: nat, s: real): real {
    n as real * (31.0 * s / 34.0) + s / 30.0
  }

  /** The weights `q` are within half a scale of the weights they stand for. */
  predicate Rounded(w: seq<real>, q: seq<int>, s: real) {
    && |w| == |q| && s > 0.0
    && forall j :: 0 <= j < |w| ==> NearWeight(w[j], q[j], s)
  }

  predicate NearWeight(w: real, q: int, s: real) {
    Abs(w) <= 7.0 * s && Abs(w - s * q as real) <= s / 2.0
  }

  lemma QWeightsRounded(w: seq<real>, s: real)
    requires s == Scale(w)
    ensures Rounded(w, QWeights(w), s)
  {
    var q := QWeights(w);
    forall j | 0 <= j < |w|
      ensures NearWeight(w[j], q[j], s)
    {
      QWeightRounded(w, j, s, q[j]);
    }
  }

  lemma QWeightRounded(w: seq<real>, j: nat, s: real, q: int)
    requires j < |w| && s == Scale(w) && q == QWeight(w, j)
    ensures NearWeight(w[j], q, s)
  {
    ScaleBounds(w, j);
    WeightError(w, j, s, q);
  }

  lemma Combine(f: seq<real>, g: seq<real>, z: seq<int>, d: real, e: real, dy: real)
    requires |f| == |g| == |z| && dy == Times(d, IntSum(z))
    requires forall j :: 0 <= j < |f| ==> Abs(f[j] - g[j]) <= e
    requires forall j :: 0 <= j < |g| ==> g[j] == Times(d, z[j])
    ensures Abs(Sum(f) - dy) <= Repeat(|f|, e)
  {
    SumNear(f, g, e);
    SumScaled(g, z, d);
  }

  lemma TermNear(w: seq<real>, q: seq<int>, px: seq<byte>, s: real, d: real, e: real, j: nat, f: real, g: real)
    requires Rounded(w, q, s) && j < |w| == |px| && d == X_SCALE * s && e == 31.0 * s / 34.0
    requires f == w[j] * (px[j] as real / 255.0) && g == Times(d, q[j] * QPixel(px[j]))
    ensures Abs(f - g) <= e
  {
    ProductError(w[j], s, q[j], px[j], d, q[j] * QPixel(px[j]), f, g, e);
  }

  /** The terms dequantised one by one. */
  function Dequantised(z: seq<int>, d: real): (g: seq<real>)
    ensures |g| == |z| && forall j :: 0 <= j < |z| ==> g[j] == Times(d, z[j])
  {
    seq(|z|, j requires 0 <= j < |z| => Times(d, z[j]))
  }

  lemma DotError(w: seq<real>, q: seq<int>, px: seq<byte>, s: real, d: real, e: real, dy: real)
    requires Rounded(w, q, s) && |w| == |px| && d == X_SCALE * s && e == 31.0 * s / 34.0
    requires dy == Times(d, IntSum(QTerms(q, px)))
    ensures Abs(Sum(FloatTerms(w, px)) - dy) <= Repeat(|w|, e)
  {
    var f, z := FloatTerms(w, px), QTerms(q, px);
    var g := Dequantised(z, d);
    forall j | 0 <= j < |f|
      ensures Abs(f[j] - g[j]) <= e
    {
      TermNear(w, q, px, s, d, e, j, f[j], g[j]);
    }
    Combine(f, g, z, d, e, dy);
  }

  lemma LogitError(w: seq<real>, b: real, px: seq<byte>, s: real, d: real, e: real, x: int, y: int, dx: real, dy: real)
    requires |w| == |px| && s == Scale(w) && d == Unit(w) && e == 31.0 * s / 34.0
    requires x == QBias(w, b) && y == IntSum(QTerms(QWeights(w), px))
    requires dx == Times(d, x) && dy == Times(d, y)
    ensures Abs(FloatLogit(w, b, px) - (dx + dy)) <= s / 30.0 + Repeat(|w|, e)
  {
    QWeightsRounded(w, s);
    DotError(w, QWeights(w), px, s, d, e, dy);
    BiasError(w, b, s, d, x, dx);
    Triangle(b, dx, s / 30.0, Sum(FloatTerms(w, px)), dy, Repeat(|w|, e));
  }

  /** The quantised score differs from the floating-point logit by at most
      `n * s * 31/34 + s/30`. */
  lemma QuantisationError(w: seq<real>, b: real, px: seq<byte>)
    requires |w| == |px|
    ensures Abs(FloatLogit(w, b, px) - Score(w, b, px)) <= Bound(|w|, Scale(w))
  {
    var s, d := Scale(w), Unit(w);
    var x, y, e := QBias(w, b), IntSum(QTerms(QWeights(w), px)), 31.0 * s / 34.0;
    var dx, dy := Times(d, x), Times(d, y);
    LogitError(w, b, px, s, d, e, x, y, dx, dy);
    ScoreSplits(d, x, y, QLogit(w, b, px), dx, dy);
    BoundIs(|w|, s, e);
  }

  lemma BoundIs(n: nat, s: real, e: real)
    requires e == 31.0 * s / 34.0
    ensures Bound(n, s) == s / 30.0 + Repeat(n, e)
    ensures Bound(n, s) == n as real * (s * 31.0 / 34.0) + s / 30.0
  {
    RepeatIsProduct(n, e);
  }

  lemma ScoreSplits(d: real, x: int, y: int, z: int, dx: real, dy: real)
    requires z == x + y && dx == Times(d, x) && dy == Times(d, y)
    ensures Times(d, z) == dx + dy
  {
    Distributes(d, x, y, z);
  }

  // ---------------------------------------------------------------- the classifier

  datatype FloatNet = FloatNet(b: seq<real>, w: seq<seq<real>>)

  predicate Shaped(f: FloatNet, sh: Shape) {
    |f.b| == sh.m && |f.w| == sh.m && forall i :: 0 <= i < sh.m ==> |f.w[i]| == sh.n
  }

  function FloatLogits(f: FloatNet, sh: Shape, px: seq<byte>): (l: seq<real>)
    requires Shaped(f, sh) && |px| == sh.n
    ensures |l| == sh.m
    ensures forall i :: 0 <= i < sh.m ==> l[i] == FloatLogit(f.w[i], f.b[i], px)
  {
    seq(sh.m, i requires 0 <= i < sh.m => FloatLogit(f.w[i], f.b[i], px))
  }

  function Scores(f: FloatNet, sh: Shape, px: seq<byte>): (l: seq<real>)
    requires Shaped(f, sh) && |px| == sh.n
    ensures |l| == sh.m
    ensures forall i :: 0 <= i < sh.m ==> l[i] == Score(f.w[i], f.b[i], px)
  {
    seq(sh.m, i requires 0 <= i < sh.m => Score(f.w[i], f.b[i], px))
  }

  /** The first index of a largest element. */
  predicate IsArgmax(a: seq<real>, k: nat) {
    && k < |a|
    && (forall i :: 0 <= i < |a| ==> a[i] <= a[k])
    && (forall i :: 0 <= i < k ==> a[i] < a[k])
  }

  lemma ArgmaxUnique(a: seq<real>, k: nat, l: nat)
    requires IsArgmax(a, k) && IsArgmax(a, l)
    ensures k == l
  {
    assert a[k] <= a[l] && a[l] <= a[k];
  }

  /** `argmax_f32`. */
  method Argmax(a: seq<real>) returns (idx: nat)
    requires |a| > 0
    ensures IsArgmax(a, idx)
  {
    idx := 0;
    var maxv := a[0];
    for i := 1 to |a|
      invariant idx < i && maxv == a[idx]
      invariant forall k :: 0 <= k < i ==> a[k] <= maxv
      invariant forall k :: 0 <= k < idx ==> a[k] < maxv
    {
      if a[i] > maxv {
        maxv := a[i];
        idx := i;
      }
    }
  }

  function Scaled(acc: seq<int>, k: seq<real>): (s: seq<real>)
    requires |acc| == |k|
    ensures |s| == |acc| && forall i :: 0 <= i < |acc| ==> s[i] == acc[i] as real * k[i]
  {
    seq(|acc|, i requires 0 <= i < |acc| => acc[i] as real * k[i])
  }

  /** The argmax loop with built-in dequantisation: integer logits times per-class factors. */
  method ScaledArgmax(acc: seq<int>, k: seq<real>) returns (pred: nat)
    requires |acc| == |k| > 0
    ensures IsArgmax(Scaled(acc, k), pred)
  {
    pred := 0;
    var best := acc[0] as real * k[0];
    for i := 1 to |acc|
      invariant pred < i && best == acc[pred] as real * k[pred]
      invariant forall j :: 0 <= j < i ==> acc[j] as real * k[j] <= best
      invariant forall j :: 0 <= j < pred ==> acc[j] as real * k[j] < best
    {
      var s := acc[i] as real * k[i];
      if s > best {
        best := s;
        pred := i;
      }
    }
  }

  /** The floating-point winner beats every other class by more than the two channels' bounds. */
  predicate ClearWinner(f: FloatNet, sh: Shape, px: seq<byte>, k: nat)
    requires Shaped(f, sh) && |px| == sh.n && k < sh.m
  {
    forall i :: 0 <= i < sh.m && i != k ==>
      FloatLogit(f.w[k], f.b[k], px) - FloatLogit(f.w[i], f.b[i], px) >
      Bound(sh.n, Scale(f.w[k])) + Bound(sh.n, Scale(f.w[i]))
  }

  /** The condition compares different classes only: a single one always wins. */
  lemma SingleClassWins(f: FloatNet, sh: Shape, px: seq<byte>)
    requires Shaped(f, sh) && |px| == sh.n && sh.m == 1
    ensures ClearWinner(f, sh, px, 0)
  {
  }

  /** Then both classifiers pick it. */
  lemma ClearWinnerAgrees(f: FloatNet, sh: Shape, px: seq<byte>, k: nat)
    requires Shaped(f, sh) && |px| == sh.n && k < sh.m && ClearWinner(f, sh, px, k)
    ensures IsArgmax(FloatLogits(f, sh, px), k) && IsArgmax(Scores(f, sh, px), k)
  {
    var l, s := FloatLogits(f, sh, px), Scores(f, sh, px);
    forall i | 0 <= i < sh.m && i != k
      ensures l[i] < l[k] && s[i] < s[k]
    {
      QuantisationError(f.w[i], f.b[i], px);
      QuantisationError(f.w[k], f.b[k], px);
      BoundPositive(sh.n, Scale(f.w[i]));
      BoundPositive(sh.n, Scale(f.w[k]));
    }
  }

  lemma BoundPositive(n: nat, s: real)
    requires s > 0.0
    ensures Bound(n, s) > 0.0
  {
  }

  // ---------------------------------------------------------------- the quantiser's loops

  /** The magnitude scan of one row. */
  method ScanMaxAbs(w: seq<real>) returns (maxAbs: real)
    ensures maxAbs == MaxAbs(w)
  {
    maxAbs := 0.0;
    for j := 0 to |w|
      invariant maxAbs == MaxAbs(w[..j])
    {
      assert w[..j + 1][..j] == w[..j];
      var a := Abs(w[j]);
      if a > maxAbs {
        maxAbs := a;
      }
    }
    assert w[..|w|] == w;
  }

  /** `main` of the quantiser: scale, weights and bias, channel after channel. */
  method QuantizeNetwork(f: FloatNet, sh: Shape, wScale: array<real>, qw: array2<int>, qb: array<int>)
    requires Shaped(f, sh) && wScale.Length == sh.m && qb.Length == sh.m
    requires qw.Length0 == sh.m && qw.Length1 == sh.n
    modifies wScale, qw, qb
    ensures forall i :: 0 <= i < sh.m ==> wScale[i] == Scale(f.w[i]) && qb[i] == QBias(f.w[i], f.b[i])
    ensures forall i, j :: 0 <= i < sh.m && 0 <= j < sh.n ==> qw[i, j] == QWeight(f.w[i], j)
    ensures forall i :: 0 <= i < sh.m ==> IsRowScale(f.w[i], wScale[i]) && wScale[i] > 0.0
    ensures forall i :: 0 <= i < sh.m ==> IsNearest(f.b[i] / (1.0 / 15.0 * wScale[i]), qb[i])
    ensures forall i, j :: 0 <= i < sh.m && 0 <= j < sh.n ==>
              -7 <= qw[i, j] <= 7 && IsNearest(f.w[i][j] / wScale[i], qw[i, j])
  {
    for i := 0 to sh.m
      invariant forall k :: 0 <= k < i ==> wScale[k] == Scale(f.w[k]) && qb[k] == QBias(f.w[k], f.b[k])
      invariant forall k, j :: 0 <= k < i && 0 <= j < sh.n ==> qw[k, j] == QWeight(f.w[k], j)
    {
      var maxAbs := ScanMaxAbs(f.w[i]);
      if maxAbs == 0.0 {
        maxAbs := 1.0;
      }
      wScale[i] := maxAbs / 7.0;
      for j := 0 to sh.n
        invariant wScale[i] == Scale(f.w[i])
        invariant forall k :: 0 <= k < i ==> wScale[k] == Scale(f.w[k]) && qb[k] == QBias(f.w[k], f.b[k])
        invariant forall k, l :: 0 <= k < i && 0 <= l < sh.n ==> qw[k, l] == QWeight(f.w[k], l)
        invariant forall l :: 0 <= l < j ==> qw[i, l] == QWeight(f.w[i], l)
      {
        qw[i, j] := ClampS4(RoundEven(f.w[i][j] / wScale[i]));
      }
      qb[i] := RoundEven(f.b[i] / (X_SCALE * wScale[i]));
    }
    forall i | 0 <= i < sh.m
      ensures IsRowScale(f.w[i], wScale[i]) && IsNearest(f.b[i] / (1.0 / 15.0 * wScale[i]), qb[i])
    {
      ScaleIsRowScale(f.w[i]);
      RoundIs(f.b[i] / (1.0 / 15.0 * wScale[i]), qb[i]);
    }
    forall i, j | 0 <= i < sh.m && 0 <= j < sh.n
      ensures -7 <= qw[i, j] <= 7 && IsNearest(f.w[i][j] / wScale[i], qw[i, j])
    {
      ClampNeverFires(f.w[i], j);
      RoundIs(f.w[i][j] / wScale[i], qw[i, j]);
    }
  }

  /** `quantize_image_to_u4`. */
  method QuantizeImage(px: seq<byte>, out: array<byte>)
    requires out.Length == |px|
    modifies out
    ensures forall j :: 0 <= j < |px| ==> out[j] == QPixel(px[j])
    ensures forall j :: 0 <= j < |px| ==> 16 * out[j] as int <= px[j] as int < 16 * out[j] as int + 16
  {
    for j := 0 to |px|
      invariant forall k :: 0 <= k < j ==> out[k] == QPixel(px[k])
    {
      out[j] := px[j] / 16;
    }
  }
}
