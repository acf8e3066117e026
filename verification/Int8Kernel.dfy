/** The AVX2 block kernel with 8-bit activations (kernel_avx2.cpp): exact integer dots and its error bound. */
module Int8Kernel {
  import opened Bytes
  import opened Bitplane
  import opened RecordFile
  import opened Packing
  import opened BlockKernel
  import opened Vectors

  // ----- quantising the activations

  const TINY := 0.0000000001

  /** Conversion to int, towards zero. */
  function Truncate(r: real): int {
    if r >= 0.0 then r.Floor else -(-r).Floor
  }

  function Clamp(v: int, low: int, high: int): int {
    if v < low then low else if v > high then high else v
  }

  predicate IsInt8(v: int) {
    -128 <= v <= 127
  }

  /** The largest entry, or zero. */
  function MaxOf(v: Vec): (m: real)
    ensures m >= 0.0
  {
    if v == [] then 0.0 else MaxReal(MaxOf(v[..|v| - 1]), v[|v| - 1])
  }

  function Magnitudes(x: Vec): (v: Vec)
    ensures |v| == |x|
  {
    seq(|x|, i requires 0 <= i < |x| => Abs(x[i]))
  }

  lemma {:induction false} MaxOfBounds(v: Vec, i: nat)
    requires i < |v|
    ensures v[i] <= MaxOf(v)
  {
    if i + 1 < |v| {
      MaxOfBounds(v[..|v| - 1], i);
    }
  }

  lemma {:induction false} MaxOfAppend(a: Vec, b: Vec)
    ensures MaxOf(a + b) == MaxReal(MaxOf(a), MaxOf(b))
  {
    if b == [] {
      assert a + b == a;
    } else {
      MaxOfAppend(a, b[..|b| - 1]);
      assert (a + b)[..|a + b| - 1] == a + b[..|b| - 1];
    }
  }

  /** Lane by lane maximum (_mm256_max_ps). */
  function MaxLanes(a: Vec, b: Vec): (v: Vec)
    requires |a| == |b|
    ensures |v| == |a|
  {
    seq(|a|, l requires 0 <= l < |a| => MaxReal(a[l], b[l]))
  }

  lemma {:induction false} MaxOfLanes(a: Vec, b: Vec)
    requires |a| == |b|
    ensures MaxOf(MaxLanes(a, b)) == MaxReal(MaxOf(a), MaxOf(b))
  {
    if a != [] {
      var n := |a| - 1;
      MaxOfLanes(a[..n], b[..n]);
      assert MaxLanes(a, b)[..n] == MaxLanes(a[..n], b[..n]);
    }
  }

  lemma {:induction false} MaxOfZeros(n: nat)
    ensures MaxOf(Zeros(n)) == 0.0
  {
    if n > 0 {
      MaxOfZeros(n - 1);
      assert Zeros(n)[..n - 1] == Zeros(n - 1);
    }
  }

  /** The eight-lane scan, its scalar tail and the maximum of the lanes. */
  method PeakMagnitude(x: Vec) returns (m: real)
    ensures m == MaxOf(Magnitudes(x))
  {
    hide MaxOf, Abs, MaxReal, Magnitudes;
    ghost var all := Magnitudes(x);
    MagnitudesSlice(x);
    var vmax := Zeros(8);
    MaxOfZeros(8);
    NoMagnitudes();
    var done := 0;
    while done + 8 <= |x|
      invariant done <= |x| && |vmax| == 8 && MaxOf(vmax) == MaxOf(all[..done])
    {
      var eight := Magnitudes(x[done..done + 8]);
      MaxOfLanes(vmax, eight);
      MaxOfAppend(all[..done], eight);
      assert all[..done + 8] == all[..done] + all[done..done + 8];
      vmax := MaxLanes(vmax, eight);
      done := done + 8;
    }
    m := 0.0;
    assert all[done..done] == [];
    for i := done to |x|
      invariant m == MaxOf(all[done..i])
    {
      NextMagnitude(x, done, i);
      m := MaxReal(m, Abs(x[i]));
    }
    MaxOfAppend(all[..done], all[done..]);
    assert all[done..|x|] == all[done..] && all == all[..done] + all[done..];
    MaxCommutes(m, MaxOf(vmax));
    m := MaxReal(m, MaxOf(vmax));
  }

  lemma MagnitudesSlice(x: Vec)
    ensures |Magnitudes(x)| == |x|
    ensures forall i, j :: 0 <= i <= j <= |x| ==> Magnitudes(x[i..j]) == Magnitudes(x)[i..j]
  {
  }

  lemma NoMagnitudes()
    ensures MaxOf([]) == 0.0
  {
  }

  lemma NextMagnitude(x: Vec, done: nat, i: nat)
    requires done <= i < |x|
    ensures MaxOf(Magnitudes(x)[done..i + 1]) == MaxReal(MaxOf(Magnitudes(x)[done..i]), Abs(x[i]))
  {
    var v := Magnitudes(x)[done..i + 1];
    assert v[..|v| - 1] == Magnitudes(x)[done..i];
  }

  lemma MaxCommutes(a: real, b: real)
    ensures MaxReal(a, b) == MaxReal(b, a)
  {
  }

  /** The value that step q stands for. */
  function Level(scale: real, q: int): real {
    scale * (q as real)
  }

  /** Signed 8-bit steps of the given size, none further than one step from the activation and never past it. */
  ghost predicate Quantised(x: Vec, q: seq<int>, scale: real) {
    && |q| == |x| && scale > 0.0
    && forall i :: 0 <= i < |x| ==> QuantisedAt(x[i], q[i], scale)
  }

  predicate QuantisedAt(x: real, q: int, scale: real) {
    -127 <= q <= 127 && Abs(x - Level(scale, q)) < scale && Abs(Level(scale, q)) <= Abs(x)
  }

  /** The activation scale for a peak magnitude. */
  function ScaleOf(peak: real): real {
    if peak < TINY then 1.0 else peak / 127.0
  }

  function ActScale(x: Vec): real {
    ScaleOf(MaxOf(Magnitudes(x)))
  }

  /** The step of one activation. */
  function StepOf(x: real, peak: real): int {
    if peak < TINY then 0 else Clamp(Truncate(x / (peak / 127.0)), -128, 127)
  }

  function Steps(x: Vec): (q: seq<int>)
    ensures |q| == |x|
  {
    seq(|x|, i requires 0 <= i < |x| => StepOf(x[i], MaxOf(Magnitudes(x))))
  }

  /** quantize_activations_to_i8 */
  method QuantizeActivations(x: Vec) returns (q: array<int>, scale: real)
    ensures fresh(q) && q[..] == Steps(x) && scale == ActScale(x)
    ensures Quantised(x, q[..], scale)
  {
    hide MaxOf, Magnitudes, QuantisedAt, Clamp, Truncate;
    var maxVal := PeakMagnitude(x);
    StepsQuantise(x);
    q := new int[|x|];
    if maxVal < TINY {
      for i := 0 to |x|
        invariant forall k :: 0 <= k < i ==> q[k] == 0
      {
        q[i] := 0;
      }
      assert q[..] == Steps(x);
      return q, 1.0;
    }
    scale := maxVal / 127.0;
    for i := 0 to |x|
      invariant forall k :: 0 <= k < i ==> q[k] == StepOf(x[k], maxVal)
    {
      q[i] := Clamp(Truncate(x[i] / scale), -128, 127);
    }
    assert q[..] == Steps(x);
  }

  lemma StepsQuantise(x: Vec)
    ensures Quantised(x, Steps(x), ActScale(x))
  {
    hide MaxOf, QuantisedAt, StepOf, ScaleOf, Abs;
    var peak := MaxOf(Magnitudes(x));
    PositiveScale(peak);
    forall i | 0 <= i < |x| ensures QuantisedAt(x[i], StepOf(x[i], peak), ScaleOf(peak)) {
      MaxOfBounds(Magnitudes(x), i);
      StepQuantises(x[i], peak);
    }
  }

  lemma PositiveScale(peak: real)
    ensures ScaleOf(peak) > 0.0
  {
  }

  lemma StepQuantises(x: real, peak: real)
    requires Abs(x) <= peak
    ensures QuantisedAt(x, StepOf(x, peak), ScaleOf(peak))
  {
    hide QuantisedAt;
    if peak < TINY {
      ZeroStep(x);
    } else {
      TruncateQuantises(x, peak / 127.0);
    }
  }

  lemma ZeroStep(x: real)
    requires Abs(x) < TINY
    ensures QuantisedAt(x, 0, 1.0)
  {
  }

  lemma ScaledOrder(r: real, b: real, scale: real)
    requires scale > 0.0
    ensures r * scale < b * scale <==> r < b
  {
    assert b * scale - r * scale == (b - r) * scale;
    if r < b {
      assert (b - r) * scale > 0.0;
    } else {
      assert (b - r) * scale <= 0.0;
    }
  }

  /** Truncation stays within one step; the clamp changes nothing. */
  lemma TruncateQuantises(x: real, scale: real)
    requires scale > 0.0 && Abs(x) <= 127.0 * scale
    ensures QuantisedAt(x, Clamp(Truncate(x / scale), -128, 127), scale)
  {
    var r := x / scale;
    assert r * scale == x;
    ScaledOrder(127.0, r, scale);
    ScaledOrder(r, -127.0, scale);
    RatioQuantises(r, scale);
  }

  lemma RatioQuantises(r: real, scale: real)
    requires scale > 0.0 && -127.0 <= r <= 127.0
    ensures Clamp(Truncate(r), -128, 127) == Truncate(r) && QuantisedAt(r * scale, Truncate(r), scale)
  {
    var q := Truncate(r);
    NearestBelow(r, q, scale, r * scale, q as real * scale);
  }

  lemma NearestBelow(r: real, q: int, scale: real, x: real, level: real)
    requires scale > 0.0 && -127 <= q <= 127 && x == r * scale && level == q as real * scale
    requires 0.0 <= q as real <= r || r <= q as real <= 0.0
    requires -1.0 < r - q as real < 1.0
    ensures QuantisedAt(x, q, scale)
  {
    WithinStep(r, q as real, scale, x, level);
    Shrinks(r, q as real, scale, x, level);
    assert Level(scale, q) == level;
    hide Level;
  }

  lemma WithinStep(r: real, k: real, scale: real, x: real, level: real)
    requires scale > 0.0 && -1.0 < r - k < 1.0 && x == r * scale && level == k * scale
    ensures -scale < x - level < scale
  {
    SmallMultiple(r - k, scale, x - level);
  }

  lemma SmallMultiple(d: real, s: real, e: real)
    requires s > 0.0 && -1.0 < d < 1.0 && e == d * s
    ensures -s < e < s
  {
    assert (1.0 - d) * s > 0.0;
    assert (1.0 + d) * s > 0.0;
  }

  lemma Shrinks(r: real, k: real, scale: real, x: real, level: real)
    requires scale > 0.0 && (0.0 <= k <= r || r <= k <= 0.0) && x == r * scale && level == k * scale
    ensures Abs(level) <= Abs(x)
  {
    ScaledOrder(k, 0.0, scale);
    ScaledOrder(0.0, k, scale);
    ScaledOrder(r, k, scale);
    ScaledOrder(k, r, scale);
    assert 0.0 * scale == 0.0;
  }

  // ----- integer vector instructions

  function Saturate16(v: int): int {
    Clamp(v, -32768, 32767)
  }

  function Wrap32(v: int): (r: int)
    ensures -0x8000_0000 <= r < 0x8000_0000
    ensures -0x8000_0000 <= v < 0x8000_0000 ==> r == v
  {
    (v + 0x8000_0000) % 0x1_0000_0000 - 0x8000_0000
  }

  /** Adding the bias byte 0x80 and reading the result as unsigned. */
  function BiasedByte(a: int): int {
    (a + 128) % 256
  }

  type Ints = seq<int>

  /** _mm256_maddubs_epi16: unsigned times signed bytes, pairs added with saturation. */
  function MulAddBytes(u: Ints, w: Ints): (p: Ints)
    requires |u| == |w| == 32
    ensures |p| == 16
  {
    seq(16, k requires 0 <= k < 16 => Saturate16(u[2 * k] * w[2 * k] + u[2 * k + 1] * w[2 * k + 1]))
  }

  /** _mm256_madd_epi16 with ones: pairs added into 32 bits. */
  function AddPairs(p: Ints): (s: Ints)
    requires |p| == 16
    ensures |s| == 8
  {
    seq(8, k requires 0 <= k < 8 => Wrap32(p[2 * k] * 1 + p[2 * k + 1] * 1))
  }

  function AddInts(a: Ints, b: Ints): (s: Ints)
    requires |a| == |b|
    ensures |s| == |a|
  {
    seq(|a|, k requires 0 <= k < |a| => Wrap32(a[k] + b[k]))
  }

  /** hsum_epi32: halves, then neighbours, then pairs. */
  function HorizontalSum(v: Ints): int
    requires |v| == 8
  {
    var four := seq(4, k requires 0 <= k < 4 => Wrap32(v[k] + v[k + 4]));
    var two := [Wrap32(four[0] + four[1]), Wrap32(four[1] + four[0]), Wrap32(four[2] + four[3]), Wrap32(four[3] + four[2])];
    Wrap32(two[0] + two[2])
  }

  function IntSum(v: Ints): int {
    if v == [] then 0 else IntSum(v[..|v| - 1]) + v[|v| - 1]
  }

  predicate Bounded(v: Ints, m: int) {
    forall k :: 0 <= k < |v| ==> -m <= v[k] <= m
  }

  lemma EightSum(v: Ints)
    requires |v| == 8
    ensures IntSum(v) == v[0] + v[1] + v[2] + v[3] + v[4] + v[5] + v[6] + v[7]
  {
    assert v[..7][..6] == v[..6] && v[..6][..5] == v[..5] && v[..5][..4] == v[..4];
    assert v[..4][..3] == v[..3] && v[..3][..2] == v[..2] && v[..2][..1] == v[..1] && v[..1][..0] == [];
    assert IntSum(v) == IntSum(v[..7]) + v[7];
    assert IntSum(v[..7]) == IntSum(v[..6]) + v[6];
    assert IntSum(v[..6]) == IntSum(v[..5]) + v[5];
    assert IntSum(v[..5]) == IntSum(v[..4]) + v[4];
    assert IntSum(v[..4]) == IntSum(v[..3]) + v[3];
    assert IntSum(v[..3]) == IntSum(v[..2]) + v[2];
    assert IntSum(v[..2]) == IntSum(v[..1]) + v[1];
    assert IntSum(v[..1]) == IntSum([]) + v[0];
  }

  /** No lane overflows while the lanes are small. */
  lemma HorizontalIsSum(v: Ints)
    requires |v| == 8 && Bounded(v, 100_000)
    ensures HorizontalSum(v) == IntSum(v)
  {
    hide IntSum;
    EightSum(v);
  }

  lemma AddIntsSum(a: Ints, b: Ints)
    requires |a| == |b| == 8 && Bounded(a, 100_000) && Bounded(b, 100_000)
    ensures IntSum(AddInts(a, b)) == IntSum(a) + IntSum(b)
  {
    hide IntSum;
    assert forall k :: 0 <= k < 8 ==> AddInts(a, b)[k] == a[k] + b[k];
    SumOfSums(a, b, AddInts(a, b));
  }

  lemma {:induction false} SumOfSums(a: Ints, b: Ints, c: Ints)
    requires |a| == |b| == |c| && forall k :: 0 <= k < |c| ==> c[k] == a[k] + b[k]
    ensures IntSum(c) == IntSum(a) + IntSum(b)
  {
    if c != [] {
      SumOfSums(a[..|a| - 1], b[..|b| - 1], c[..|c| - 1]);
    }
  }

  // ----- one block

  /** decode_block_ternary_avx2 */
  method DecodeBlock(packed: seq<Byte>) returns (w: array<int>)
    requires |packed| == CODE_BYTES
    ensures fresh(w) && w.Length == QK
    ensures forall j :: 0 <= j < QK ==> w[j] == Signed(CodeAt(packed, j))
  {
    hide Field;
    w := new int[QK];
    for i := 0 to CODE_BYTES
      invariant forall j :: 0 <= j < 4 * i ==> w[j] == Signed(CodeAt(packed, j))
    {
      var byte := packed[i];
      w[4 * i + 0] := Field(byte, 0) - 1;
      w[4 * i + 1] := Field(byte, 1) - 1;
      w[4 * i + 2] := Field(byte, 2) - 1;
      w[4 * i + 3] := Field(byte, 3) - 1;
      FourDecoded(packed, i);
    }
  }

  lemma FourDecoded(packed: seq<Byte>, i: nat)
    requires i < |packed|
    ensures forall f :: 0 <= f < 4 ==> CodeAt(packed, 4 * i + f) == Field(packed[i], f)
  {
    hide Field;
    forall f | 0 <= f < 4 ensures CodeAt(packed, 4 * i + f) == Field(packed[i], f) {
      assert (4 * i + f) / 4 == i && (4 * i + f) % 4 == f;
    }
  }

  /** Plain signed dot product of m elements. */
  function PlainDot(a: Ints, w: Ints, m: nat): int
    requires m <= |a| && m <= |w|
  {
    if m == 0 then 0 else PlainDot(a, w, m - 1) + a[m - 1] * w[m - 1]
  }

  predicate Int8s(a: Ints) {
    forall k :: 0 <= k < |a| ==> IsInt8(a[k])
  }

  /** Decoded codes: -1, 0, 1, and 2 for code 3. */
  predicate Decoded(w: Ints) {
    forall k :: 0 <= k < |w| ==> -1 <= w[k] <= 2
  }

  function Biased(a: Ints): (u: Ints)
    ensures |u| == |a|
  {
    seq(|a|, k requires 0 <= k < |a| => BiasedByte(a[k]))
  }

  function AllOnes(n: nat): (u: Ints)
    ensures |u| == n
  {
    seq(n, _ => 1)
  }

  predicate UnsignedBytes(u: Ints) {
    forall k :: 0 <= k < |u| ==> 0 <= u[k] <= 255
  }

  lemma ProductBound(u: int, w: int)
    requires 0 <= u <= 255 && -1 <= w <= 2
    ensures -255 <= u * w <= 510
  {
  }

  /** Nothing saturates: the 16-bit pairs are the exact pair sums, and small. */
  lemma PairsExact(u: Ints, w: Ints, k: nat)
    requires |u| == |w| == 32 && UnsignedBytes(u) && Decoded(w) && k < 16
    ensures MulAddBytes(u, w)[k] == PairDot(u, w, k)
    ensures -510 <= MulAddBytes(u, w)[k] <= 1020
  {
    ProductBound(u[2 * k], w[2 * k]);
    ProductBound(u[2 * k + 1], w[2 * k + 1]);
  }

  /** One 32-element step adds exactly the products, without overflow. */
  lemma StepExact(u: Ints, w: Ints)
    requires |u| == |w| == 32 && UnsignedBytes(u) && Decoded(w)
    ensures Bounded(AddPairs(MulAddBytes(u, w)), 2040)
    ensures IntSum(AddPairs(MulAddBytes(u, w))) == PlainDot(u, w, 32)
  {
    hide MulAddBytes, IntSum, PlainDot, PairDot;
    AddPairsLength(u, w);
    var p := MulAddBytes(u, w);
    forall k | 0 <= k < 16 ensures p[k] == PairDot(u, w, k) && -510 <= p[k] <= 1020 {
      PairsExact(u, w, k);
    }
    var s := AddPairs(p);
    assert forall k :: 0 <= k < 8 ==> s[k] == p[2 * k] + p[2 * k + 1];
    PairLanes(p, s, 8);
    PairLaneSums(p, u, w, 16);
    PairDots(u, w, 16);
    assert s[..8] == s && p[..16] == p;
  }

  lemma {:induction false} PairLanes(p: Ints, s: Ints, m: nat)
    requires |p| == 16 && |s| == 8 && m <= 8
    requires forall k :: 0 <= k < 8 ==> s[k] == p[2 * k] + p[2 * k + 1]
    ensures IntSum(s[..m]) == IntSum(p[..2 * m])
  {
    if m > 0 {
      PairLanes(p, s, m - 1);
      assert s[..m][..m - 1] == s[..m - 1];
      assert p[..2 * m][..2 * m - 1][..2 * m - 2] == p[..2 * (m - 1)];
      assert IntSum(p[..2 * m]) == IntSum(p[..2 * m][..2 * m - 1]) + p[2 * m - 1];
    }
  }

  lemma {:induction false} PairLaneSums(p: Ints, u: Ints, w: Ints, m: nat)
    requires |p| == 16 && |u| == |w| == 32 && m <= 16
    requires forall k :: 0 <= k < 16 ==> p[k] == PairDot(u, w, k)
    ensures IntSum(p[..m]) == PairDotSum(u, w, m)
  {
    if m > 0 {
      PairLaneSums(p, u, w, m - 1);
      assert p[..m][..m - 1] == p[..m - 1];
    }
  }

  function PairDot(u: Ints, w: Ints, k: nat): int
    requires 2 * k + 1 < |u| && 2 * k + 1 < |w|
  {
    u[2 * k] * w[2 * k] + u[2 * k + 1] * w[2 * k + 1]
  }

  function PairDotSum(u: Ints, w: Ints, m: nat): int
    requires 2 * m <= |u| && 2 * m <= |w|
  {
    if m == 0 then 0 else PairDotSum(u, w, m - 1) + PairDot(u, w, m - 1)
  }

  lemma {:induction false} PairDots(u: Ints, w: Ints, m: nat)
    requires 2 * m <= |u| && 2 * m <= |w|
    ensures PairDotSum(u, w, m) == PlainDot(u, w, 2 * m)
  {
    if m > 0 {
      PairDots(u, w, m - 1);
      assert PlainDot(u, w, 2 * m - 1) == PlainDot(u, w, 2 * m - 2) + u[2 * m - 2] * w[2 * m - 2];
    }
  }

  lemma {:induction false} PlainDotSplit(a: Ints, w: Ints, at: nat, m: nat)
    requires at + m <= |a| && at + m <= |w|
    ensures PlainDot(a, w, at + m) == PlainDot(a, w, at) + PlainDot(a[at..at + m], w[at..at + m], m)
  {
    if m > 0 {
      PlainDotSplit(a, w, at, m - 1);
      PlainDotPrefix(a[at..at + m - 1], w[at..at + m - 1], a[at..at + m], w[at..at + m], m - 1);
    }
  }

  lemma {:induction false} PlainDotPrefix(a: Ints, w: Ints, a': Ints, w': Ints, m: nat)
    requires m <= |a| && m <= |w| && a <= a' && w <= w'
    ensures PlainDot(a, w, m) == PlainDot(a', w', m)
  {
    if m > 0 {
      PlainDotPrefix(a, w, a', w', m - 1);
    }
  }

  /** Removing the bias: (a + 128) * w - 128 * w = a * w. */
  lemma {:induction false} BiasCancels(a: Ints, w: Ints, m: nat)
    requires m <= |a| && m <= |w| && Int8s(a)
    ensures PlainDot(Biased(a), w, m) - 128 * PlainDot(AllOnes(|w|), w, m) == PlainDot(a, w, m)
  {
    if m > 0 {
      BiasCancels(a, w, m - 1);
      assert Biased(a)[m - 1] == a[m - 1] + 128;
      assert (a[m - 1] + 128) * w[m - 1] == a[m - 1] * w[m - 1] + 128 * w[m - 1];
    }
  }

  lemma BiasedRange(a: Ints)
    requires Int8s(a)
    ensures UnsignedBytes(Biased(a))
  {
  }

  /** The biased dot product of one block; a holds the block's activations and w its decoded digits. */
  method BlockDotInt8(a: Ints, w: Ints) returns (dot: int)
    requires |a| <= |w| && |a| <= QK && Int8s(a) && Decoded(w)
    ensures dot == PlainDot(a, w, |a|)
  {
    hide MulAddBytes, AddPairs, AddInts, IntSum, PlainDot, HorizontalSum, BiasedByte, Wrap32, Bounded, Biased, AllOnes;
    var size := |a|;
    var u, ones := Biased(a), AllOnes(|w|);
    BytesInRange(a, |w|);
    var dot32, sw32 := seq(8, _ => 0), seq(8, _ => 0);
    EmptySums(u, ones, w);
    var j := 0;
    while j + 32 <= size
      invariant j <= size && j % 32 == 0
      invariant Accumulates(dot32, u, w, j) && Accumulates(sw32, ones, w, j)
    {
      OnesSlice(|w|, j);
      StepAdds(dot32, u, w, j);
      StepAdds(sw32, ones, w, j);
      dot32 := AddInts(dot32, AddPairs(MulAddBytes(u[j..j + 32], w[j..j + 32])));
      sw32 := AddInts(sw32, AddPairs(MulAddBytes(AllOnes(32), w[j..j + 32])));
      j := j + 32;
    }
    UnbiasedDot(dot32, sw32, a, w, j);
    dot := Wrap32(HorizontalSum(dot32) - Wrap32(128 * HorizontalSum(sw32)));
    while j < size
      invariant j <= size && dot == PlainDot(a, w, j)
    {
      TailStep(a, w, j);
      dot := Wrap32(dot + a[j] * w[j]);
      j := j + 1;
    }
  }

  /** Eight lanes that hold the products of the first j elements. */
  predicate Accumulates(sum: Ints, u: Ints, w: Ints, j: nat) {
    |sum| == 8 && j <= |u| && j <= |w| && Bounded(sum, 64 * j) && IntSum(sum) == PlainDot(u, w, j)
  }

  lemma BytesInRange(a: Ints, n: nat)
    requires Int8s(a)
    ensures |Biased(a)| == |a| && UnsignedBytes(Biased(a)) && |AllOnes(n)| == n && UnsignedBytes(AllOnes(n))
  {
    BiasedRange(a);
  }

  lemma OnesSlice(n: nat, j: nat)
    requires j + 32 <= n
    ensures |AllOnes(n)| == n && |AllOnes(32)| == 32 && AllOnes(n)[j..j + 32] == AllOnes(32)
  {
  }

  /** One 32-element step of an accumulator. */
  lemma StepAdds(sum: Ints, u: Ints, w: Ints, j: nat)
    requires j + 32 <= |u| && j + 32 <= |w| && j <= 96 && UnsignedBytes(u) && Decoded(w) && Accumulates(sum, u, w, j)
    ensures |MulAddBytes(u[j..j + 32], w[j..j + 32])| == 16 && |AddPairs(MulAddBytes(u[j..j + 32], w[j..j + 32]))| == 8
    ensures Accumulates(AddInts(sum, AddPairs(MulAddBytes(u[j..j + 32], w[j..j + 32]))), u, w, j + 32)
  {
    hide MulAddBytes, AddPairs, AddInts, IntSum, PlainDot;
    var us, ws := u[j..j + 32], w[j..j + 32];
    StepExact(us, ws);
    PlainDotSplit(u, w, j, 32);
    AddPairsLength(us, ws);
    AddIntsBound(sum, AddPairs(MulAddBytes(us, ws)), 64 * j);
    AddIntsSum(sum, AddPairs(MulAddBytes(us, ws)));
  }

  /** The horizontal sums, less 128 times the digit sum, are the signed dot product. */
  lemma UnbiasedDot(dot32: Ints, sw32: Ints, a: Ints, w: Ints, j: nat)
    requires j <= |a| <= |w| && j <= QK && Int8s(a) && Decoded(w)
    requires Accumulates(dot32, Biased(a), w, j) && Accumulates(sw32, AllOnes(|w|), w, j)
    ensures Wrap32(HorizontalSum(dot32) - Wrap32(128 * HorizontalSum(sw32))) == PlainDot(a, w, j)
  {
    hide HorizontalSum, IntSum, PlainDot, Wrap32, Biased, AllOnes;
    BytesInRange(a, |w|);
    HorizontalIsSum(dot32);
    HorizontalIsSum(sw32);
    DotBound(AllOnes(|w|), w, j);
    WrapExact(128 * HorizontalSum(sw32));
    BiasCancels(a, w, j);
    DotBound(a, w, j);
    WrapExact(PlainDot(a, w, j));
  }

  lemma TailStep(a: Ints, w: Ints, j: nat)
    requires j < |a| <= |w| && |a| <= QK && Int8s(a) && Decoded(w)
    ensures Wrap32(PlainDot(a, w, j) + a[j] * w[j]) == PlainDot(a, w, j + 1)
  {
    hide Wrap32;
    OneProduct(a, w, j);
    DotBound(a, w, j + 1);
    WrapExact(PlainDot(a, w, j + 1));
  }

  lemma WrapExact(v: int)
    requires -0x8000_0000 <= v < 0x8000_0000
    ensures Wrap32(v) == v
  {
  }

  lemma OneProduct(a: Ints, w: Ints, j: nat)
    requires j < |a| && j < |w|
    ensures PlainDot(a, w, j + 1) == PlainDot(a, w, j) + a[j] * w[j]
  {
  }

  lemma EmptySums(u: Ints, ones: Ints, w: Ints)
    ensures Accumulates(seq(8, _ => 0), u, w, 0) && Accumulates(seq(8, _ => 0), ones, w, 0)
  {
    hide IntSum;
    EightSum(seq(8, _ => 0));
  }

  lemma AddPairsLength(u: Ints, w: Ints)
    requires |u| == |w| == 32
    ensures |MulAddBytes(u, w)| == 16 && |AddPairs(MulAddBytes(u, w))| == 8
  {
  }

  lemma AddIntsBound(a: Ints, b: Ints, m: nat)
    requires |a| == |b| == 8 && Bounded(a, m) && Bounded(b, 2040) && m <= 90_000
    ensures |AddInts(a, b)| == 8 && Bounded(AddInts(a, b), m + 2048)
  {
  }

  /** Dots of a block stay far below 2^31. */
  lemma {:induction false} DotBound(a: Ints, w: Ints, m: nat)
    requires m <= |a| && m <= |w| && Decoded(w)
    requires forall k :: 0 <= k < |a| ==> -255 <= a[k] <= 255
    ensures -510 * m <= PlainDot(a, w, m) <= 510 * m
  {
    if m > 0 {
      DotBound(a, w, m - 1);
      SignedProductBound(a[m - 1], w[m - 1]);
    }
  }

  lemma SignedProductBound(a: int, w: int)
    requires -255 <= a <= 255 && -1 <= w <= 2
    ensures -510 <= a * w <= 510
  {
  }

  // ----- the kernel

  function Reals(q: Ints): (x: Vec)
    ensures |x| == |q|
  {
    seq(|q|, i requires 0 <= i < |q| => q[i] as real)
  }

  /** The integer block dot is the block sum over the same numbers as reals. */
  lemma {:induction false} IntegerBlock(a: Ints, w: Ints, packed: seq<Byte>, x: Vec, start: nat, m: nat)
    requires m <= |a| <= |w| <= 4 * |packed| && start + |a| <= |x|
    requires forall j :: 0 <= j < |w| ==> w[j] == Signed(CodeAt(packed, j))
    requires forall k :: 0 <= k < |a| ==> x[start + k] == a[k] as real
    ensures PlainDot(a, w, m) as real == BlockDot(packed, Signed, x, start, m)
  {
    hide CodeAt, Signed;
    if m > 0 {
      IntegerBlock(a, w, packed, x, start, m - 1);
      hide PlainDot, BlockDot;
      OneProduct(a, w, m - 1);
      NextOfBlock(packed, Signed, x, start, m);
      ProductOfInts(a[m - 1], w[m - 1]);
    } else {
      NoElements(a, w, packed, x, start);
    }
  }

  lemma NoElements(a: Ints, w: Ints, packed: seq<Byte>, x: Vec, start: nat)
    requires start <= |x|
    ensures PlainDot(a, w, 0) == 0 && BlockDot(packed, Signed, x, start, 0) == 0.0
  {
  }

  lemma ProductOfInts(a: int, b: int)
    ensures (a * b) as real == (b as real) * (a as real)
  {
  }

  lemma NextOfBlock(packed: seq<Byte>, decode: nat -> int, x: Vec, start: nat, m: nat)
    requires 0 < m <= 4 * |packed| && start + m <= |x|
    ensures BlockDot(packed, decode, x, start, m)
         == BlockDot(packed, decode, x, start, m - 1) + (decode(CodeAt(packed, m - 1)) as real) * x[start + m - 1]
  {
  }

  method Int8Block(packed: seq<Byte>, q: Ints, start: nat, size: nat) returns (dot: int)
    requires |packed| == CODE_BYTES && size <= QK && start + size <= |q| && Int8s(q)
    ensures dot as real == BlockDot(packed, Signed, Reals(q), start, size)
  {
    hide CodeAt;
    var w := DecodeBlock(packed);
    CodesDecode(packed, w[..]);
    dot := BlockDotInt8(q[start..start + size], w[..]);
    IntegerBlock(q[start..start + size], w[..], packed, Reals(q), start, size);
  }

  lemma CodesDecode(packed: seq<Byte>, w: Ints)
    requires |packed| == CODE_BYTES && |w| == QK
    requires forall j :: 0 <= j < QK ==> w[j] == Signed(CodeAt(packed, j))
    ensures Decoded(w)
  {
  }

  method Int8TermRow(c: TermCache, value: Word -> real, outF: nat, inF: nat, row: nat, q: Ints, start: real) returns (sum: real)
    requires ValidCache(c, outF, inF) && row < outF && |q| == inF && Int8s(q)
    ensures sum == start + Dot(WeightRow(c, value, Signed, outF, inF, row), Reals(q))
  {
    hide PackedBlock, BlockDot, WeightRow, BlockSize, Reals;
    RealsLength(q);
    sum := start;
    WeightRowLength(c, value, Signed, outF, inF, row);
    for b := 0 to BlockCount(inF)
      invariant sum == start + DotRange(WeightRow(c, value, Signed, outF, inF, row), Reals(q), 0, Reached(inF, b))
    {
      NextBlock(c, value, Signed, outF, inF, row, b, Reals(q));
      var k := row * BlockCount(inF) + b;
      PackedBlockLength(c, k);
      BlockSizeFits(inF, b);
      var dot := Int8Block(PackedBlock(c, k), q, b * QK, BlockSize(inF, b));
      sum := sum + dot as real * value(c.scales[k]);
    }
    AllReached(inF);
  }

  lemma RealsLength(q: Ints)
    ensures |Reals(q)| == |q|
  {
  }

  method Int8Row(cs: seq<TermCache>, value: Word -> real, outF: nat, inF: nat, row: nat, q: Ints) returns (sum: real)
    requires ValidCaches(cs, outF, inF) && row < outF && |q| == inF && Int8s(q)
    ensures sum == DenseRow(cs, value, Signed, outF, inF, row, Reals(q), |cs|)
  {
    hide WeightRow, Reals;
    RealsLength(q);
    sum := 0.0;
    for t := 0 to |cs|
      invariant sum == DenseRow(cs, value, Signed, outF, inF, row, Reals(q), t)
    {
      WeightRowLength(cs[t], value, Signed, outF, inF, row);
      sum := Int8TermRow(cs[t], value, outF, inF, row, q, sum);
    }
  }

  /** The integer row sums: the dense product of the quantised activations. */
  function RowSums(cs: seq<TermCache>, value: Word -> real, outF: nat, inF: nat, x: Vec): (sums: Vec)
    requires ValidCaches(cs, outF, inF) && |x| == inF
    ensures |sums| == outF
  {
    DenseProduct(cs, value, Signed, outF, inF, Reals(Steps(x)))
  }

  /** What the kernel returns: the row sums over the activation scale. */
  function Int8Output(cs: seq<TermCache>, value: Word -> real, outF: nat, inF: nat, x: Vec): (y: Vec)
    requires ValidCaches(cs, outF, inF) && |x| == inF
    ensures |y| == outF
  {
    Scale(1.0 / ActScale(x), RowSums(cs, value, outF, inF, x))
  }

  /** What dequantising gives: the row sums times the activation scale. */
  function Dequantised(cs: seq<TermCache>, value: Word -> real, outF: nat, inF: nat, x: Vec): (y: Vec)
    requires ValidCaches(cs, outF, inF) && |x| == inF
    ensures |y| == outF
  {
    Scale(ActScale(x), RowSums(cs, value, outF, inF, x))
  }

  /**
   ternary_mul_avx2_blocks. The row sums are exact over the quantised activations; the last
   multiplication divides them by the activation scale.
   */
  method Int8Blocks(cs: seq<TermCache>, value: Word -> real, outF: nat, inF: nat, x: Vec) returns (output: array<real>)
    requires ValidCaches(cs, outF, inF) && |x| == inF
    ensures output[..] == Int8Output(cs, value, outF, inF, x)
  {
    hide DenseRow, Steps, ActScale, Quantised, Reals, RowSums;
    var steps, actScale := QuantizeActivations(x);
    QuantisedInt8(x, steps[..], actScale);
    ghost var sums := RowSums(cs, value, outF, inF, x);
    RowSumsAre(cs, value, outF, inF, x);
    var inverse := 1.0 / actScale;
    output := new real[outF];
    for row := 0 to outF
      invariant steps[..] == Steps(x)
      invariant forall r :: 0 <= r < row ==> output[r] == inverse * sums[r]
    {
      var sum := Int8Row(cs, value, outF, inF, row, steps[..]);
      output[row] := sum * inverse;
    }
    ScaledEntries(output[..], inverse, sums);
  }

  lemma ScaledEntries(v: Vec, c: real, u: Vec)
    requires |v| == |u| && forall r :: 0 <= r < |u| ==> v[r] == c * u[r]
    ensures v == Scale(c, u)
  {
    forall r | 0 <= r < |u| ensures v[r] == Scale(c, u)[r] {
    }
  }

  lemma RowSumsAre(cs: seq<TermCache>, value: Word -> real, outF: nat, inF: nat, x: Vec)
    requires ValidCaches(cs, outF, inF) && |x| == inF
    ensures |Steps(x)| == inF && |Reals(Steps(x))| == inF && |RowSums(cs, value, outF, inF, x)| == outF
    ensures forall row :: 0 <= row < outF ==>
      RowSums(cs, value, outF, inF, x)[row] == DenseRow(cs, value, Signed, outF, inF, row, Reals(Steps(x)), |cs|)
  {
    hide DenseRow, StepOf, MaxOf;
  }

  lemma QuantisedInt8(x: Vec, q: Ints, scale: real)
    requires Quantised(x, q, scale)
    ensures |q| == |x| && scale > 0.0 && Int8s(q)
  {
    forall i | 0 <= i < |q| ensures IsInt8(q[i]) {
      assert QuantisedAt(x[i], q[i], scale);
    }
  }

  // ----- how far the row sums are from the scalar kernel

  /** Sum of |w_scale| times the magnitude of the digits, over all terms: 1 per non-zero weight, 2 at code 3. */
  function WeightMass(cs: seq<TermCache>, value: Word -> real, outF: nat, inF: nat, row: nat, m: nat): real
    requires ValidCaches(cs, outF, inF) && row < outF && m <= |cs|
  {
    if m == 0 then 0.0
    else WeightMass(cs, value, outF, inF, row, m - 1) + Mass(WeightRow(cs[m - 1], value, Signed, outF, inF, row), inF)
  }

  function Mass(w: Vec, n: nat): real
    requires n <= |w|
  {
    if n == 0 then 0.0 else Mass(w, n - 1) + Abs(w[n - 1])
  }

  /** scale * a is within scale * m of b. */
  predicate Close(scale: real, a: real, b: real, m: real) {
    Abs(scale * a - b) <= scale * m
  }

  lemma CloseAdds(scale: real, a: real, b: real, m: real, a': real, b': real, m': real)
    requires Close(scale, a, b, m) && Close(scale, a', b', m')
    ensures Close(scale, a + a', b + b', m + m')
  {
    assert scale * (a + a') == scale * a + scale * a' && scale * (m + m') == scale * m + scale * m';
  }

  lemma CloseAtZero(scale: real)
    ensures Close(scale, 0.0, 0.0, 0.0)
  {
  }

  /** Replacing every activation by scale * q moves a dot product by at most scale times its mass. */
  lemma {:induction false} DotError(w: Vec, x: Vec, q: Ints, scale: real, n: nat)
    requires |w| == |x| == |q| && n <= |w| && Quantised(x, q, scale)
    ensures Close(scale, DotRange(w, Reals(q), 0, n), DotRange(w, x, 0, n), Mass(w, n))
  {
    hide QuantisedAt, Close, Abs;
    if n > 0 {
      var k := n - 1;
      DotError(w, x, q, scale, k);
      assert QuantisedAt(x[k], q[k], scale);
      var p, r := w[k] * Reals(q)[k], w[k] * x[k];
      OneError(w[k], x[k], q[k], scale, p, r);
      CloseAdds(scale, DotRange(w, Reals(q), 0, k), DotRange(w, x, 0, k), Mass(w, k), p, r, Abs(w[k]));
      assert DotRange(w, Reals(q), 0, n) == DotRange(w, Reals(q), 0, k) + p;
      assert DotRange(w, x, 0, n) == DotRange(w, x, 0, k) + r;
      assert Mass(w, n) == Mass(w, k) + Abs(w[k]);
    } else {
      CloseAtZero(scale);
    }
  }

  lemma OneError(w: real, x: real, q: int, scale: real, p: real, r: real)
    requires QuantisedAt(x, q, scale) && p == w * (q as real) && r == w * x
    ensures Close(scale, p, r, Abs(w))
  {
    var level := Level(scale, q);
    var d := level - x;
    ProductWithin(w, d, scale);
    Reassociate(scale, w, q as real);
    Factor(w, level, x);
    hide Level;
  }

  lemma Factor(w: real, a: real, b: real)
    ensures w * (a - b) == w * a - w * b
  {
  }

  lemma Reassociate(a: real, b: real, c: real)
    ensures a * (b * c) == b * (a * c)
  {
  }

  lemma ProductWithin(w: real, d: real, s: real)
    requires -s < d < s
    ensures Abs(w * d) <= s * Abs(w)
  {
    if w >= 0.0 {
      assert w * (s - d) >= 0.0 && w * (s + d) >= 0.0;
    } else {
      assert -w * (s - d) >= 0.0 && -w * (s + d) >= 0.0;
    }
  }

  /** scale times the integer row sum is within scale * mass of the scalar kernel's row. */
  lemma {:induction false} RowError(cs: seq<TermCache>, value: Word -> real, outF: nat, inF: nat, row: nat, x: Vec, q: Ints, scale: real, m: nat)
    requires ValidCaches(cs, outF, inF) && row < outF && |x| == inF && m <= |cs| && Quantised(x, q, scale)
    ensures Close(scale, DenseRow(cs, value, Signed, outF, inF, row, Reals(q), m),
      DenseRow(cs, value, Signed, outF, inF, row, x, m), WeightMass(cs, value, outF, inF, row, m))
  {
    hide WeightRow, Reals, QuantisedAt, Close;
    RealsLength(q);
    if m > 0 {
      RowError(cs, value, outF, inF, row, x, q, scale, m - 1);
      WeightRowLength(cs[m - 1], value, Signed, outF, inF, row);
      var w := WeightRow(cs[m - 1], value, Signed, outF, inF, row);
      DotError(w, x, q, scale, inF);
      CloseAdds(scale, DenseRow(cs, value, Signed, outF, inF, row, Reals(q), m - 1), DenseRow(cs, value, Signed, outF, inF, row, x, m - 1),
        WeightMass(cs, value, outF, inF, row, m - 1), Dot(w, Reals(q)), Dot(w, x), Mass(w, inF));
    } else {
      CloseAtZero(scale);
    }
  }

  // ----- the last multiplication

  /** Dividing by the scale instead of multiplying is harmless exactly for zero sums and scale 1. */
  lemma RescaleExactly(sum: real, scale: real)
    requires scale > 0.0
    ensures 1.0 / scale * sum == scale * sum <==> sum == 0.0 || scale == 1.0
  {
    var inverse := 1.0 / scale;
    assert inverse * scale == 1.0;
    if inverse * sum == scale * sum && sum != 0.0 {
      assert (inverse - scale) * sum == 0.0;
      assert inverse == scale;
      assert (scale - 1.0) * (scale + 1.0) == 0.0;
    }
  }

  /** The largest magnitude is 127, or so small that all activations count as zero. */
  predicate UnitPeak(x: Vec) {
    MaxOf(Magnitudes(x)) == 127.0 || MaxOf(Magnitudes(x)) < TINY
  }

  lemma UnitScale(x: Vec)
    ensures ActScale(x) > 0.0 && (ActScale(x) == 1.0 <==> UnitPeak(x))
  {
    hide MaxOf, Magnitudes;
  }

  /** The kernel returns the dequantised product exactly when all row sums vanish or the peak is 127 or tiny. */
  lemma DequantisesExactly(cs: seq<TermCache>, value: Word -> real, outF: nat, inF: nat, x: Vec)
    requires ValidCaches(cs, outF, inF) && |x| == inF
    ensures Int8Output(cs, value, outF, inF, x) == Dequantised(cs, value, outF, inF, x)
      <==> UnitPeak(x) || RowSums(cs, value, outF, inF, x) == Zeros(outF)
  {
    hide RowSums, ActScale, UnitPeak;
    var got, want, sums := Int8Output(cs, value, outF, inF, x), Dequantised(cs, value, outF, inF, x), RowSums(cs, value, outF, inF, x);
    UnitScale(x);
    RowSumsAre(cs, value, outF, inF, x);
    forall row | 0 <= row < outF ensures got[row] == want[row] <==> sums[row] == 0.0 || ActScale(x) == 1.0 {
      RescaleExactly(sums[row], ActScale(x));
    }
    if got == want && !UnitPeak(x) {
      assert forall row :: 0 <= row < outF ==> got[row] == want[row];
      assert sums == Zeros(outF);
    }
  }

  // ----- an input on which it does not

  /** The 1 x 1 layer whose only digit is 1. */
  function OneDigit(): TermCache {
    TermCache(seq(CODE_BYTES, i => if i == 0 then 128 else 0), [0])
  }

  function UnitValue(w: Word): real {
    1.0
  }

  lemma OneDigitRow()
    ensures ValidCache(OneDigit(), 1, 1) && WeightRow(OneDigit(), UnitValue, Signed, 1, 1, 0) == [1.0]
  {
    hide WeightRow;
    var c := OneDigit();
    WeightRowLength(c, UnitValue, Signed, 1, 1, 0);
    WeightAt(c, UnitValue, Signed, 1, 1, 0, 0, 0);
    assert PackedBlock(c, 0)[0] == 128;
  }

  lemma OneDigitProduct(y: real)
    requires ValidCaches([OneDigit()], 1, 1)
    ensures DenseProduct([OneDigit()], UnitValue, Signed, 1, 1, [y]) == [y]
  {
    hide WeightRow, OneDigit;
    OneDigitRow();
    DotRangeSingle([1.0], [y], 0);
    assert DenseRow([OneDigit()], UnitValue, Signed, 1, 1, 0, [y], 0) == 0.0;
    assert DenseRow([OneDigit()], UnitValue, Signed, 1, 1, 0, [y], 1) == y;
  }

  lemma OneStep()
    ensures Steps([1.0]) == [127] && 1.0 / ActScale([1.0]) == 127.0
  {
    assert Magnitudes([1.0]) == [1.0] && [1.0][..0] == [];
    assert MaxOf([1.0]) == 1.0;
    assert 1.0 / (1.0 / 127.0) == 127.0;
  }

  /** 1 times 1: the scalar kernel returns 1, the integer kernel 127 * 127. */
  lemma OneComesOutWrong()
    ensures ValidCaches([OneDigit()], 1, 1)
    ensures DenseProduct([OneDigit()], UnitValue, Signed, 1, 1, [1.0]) == [1.0]
    ensures Int8Output([OneDigit()], UnitValue, 1, 1, [1.0]) == [16129.0]
  {
    hide OneDigit, DenseProduct, Steps, ActScale, ValidCache;
    OneDigitRow();
    OneDigitProduct(1.0);
    OneDigitProduct(127.0);
    OneStep();
    assert Reals([127]) == [127.0];
  }
}
