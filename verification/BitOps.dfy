/** Machine words as bit sequences, lowest bit first, and vector registers as sequences of lanes. */
module BitOps {
  import opened Bytes
  import opened Bitplane

  type Bits = seq<bool>

  function BitsOf(v: nat, n: nat): (bs: Bits)
    ensures |bs| == n
  {
    seq(n, k requires 0 <= k < n => Bit(v, k))
  }

  function And(a: Bits, b: Bits): (r: Bits)
    requires |a| == |b|
    ensures |r| == |a|
  {
    seq(|a|, k requires 0 <= k < |a| => a[k] && b[k])
  }

  function Or(a: Bits, b: Bits): (r: Bits)
    requires |a| == |b|
    ensures |r| == |a|
  {
    seq(|a|, k requires 0 <= k < |a| => a[k] || b[k])
  }

  function Not(a: Bits): (r: Bits)
    ensures |r| == |a|
  {
    seq(|a|, k requires 0 <= k < |a| => !a[k])
  }

  /** Towards the higher bits; what leaves the word is lost. */
  function ShiftLeft(a: Bits, n: nat): (r: Bits)
    ensures |r| == |a|
  {
    seq(|a|, k requires 0 <= k < |a| => k >= n && a[k - n])
  }

  function ShiftRight(a: Bits, n: nat): (r: Bits)
    ensures |r| == |a|
  {
    seq(|a|, k requires 0 <= k < |a| => k + n < |a| && a[k + n])
  }

  /** The mask with bits lo up to hi set. */
  function Ones(lo: nat, hi: nat, n: nat): (r: Bits)
    ensures |r| == n
  {
    seq(n, k requires 0 <= k < n => lo <= k < hi)
  }

  /** The bits that the mask selects, packed together. */
  function Pext(a: Bits, mask: Bits): Bits
    requires |a| == |mask|
  {
    if a == [] then [] else (if mask[0] then [a[0]] else []) + Pext(a[1..], mask[1..])
  }

  /** Every second bit, starting at phase 0 or 1. */
  function Alternate(phase: nat, n: nat): (r: Bits)
    ensures |r| == n
  {
    seq(n, k requires 0 <= k < n => k % 2 == phase)
  }

  lemma {:induction false} PextAlternate(a: Bits, phase: nat)
    requires |a| % 2 == 0 && phase < 2
    ensures Pext(a, Alternate(phase, |a|)) == seq(|a| / 2, k requires 0 <= k < |a| / 2 => a[2 * k + phase])
  {
    if a != [] {
      var m := Alternate(phase, |a|);
      assert m[1..][1..] == Alternate(phase, |a| - 2);
      assert Pext(a, m) == [a[phase]] + Pext(a[1..][1..], m[1..][1..]);
      PextAlternate(a[2..], phase);
      assert a[1..][1..] == a[2..];
    }
  }

  // ----- lanes

  type Lanes = seq<real>

  function ZeroLanes(n: nat): (v: Lanes)
    ensures |v| == n
  {
    seq(n, _ => 0.0)
  }

  /** Horizontal sum. */
  function LaneSum(v: Lanes): real {
    if v == [] then 0.0 else LaneSum(v[..|v| - 1]) + v[|v| - 1]
  }

  function AddLanes(a: Lanes, b: Lanes): (v: Lanes)
    requires |a| == |b|
    ensures |v| == |a|
  {
    seq(|a|, k requires 0 <= k < |a| => a[k] + b[k])
  }

  function ScaleLanes(w: real, b: Lanes): (v: Lanes)
    ensures |v| == |b|
  {
    seq(|b|, k requires 0 <= k < |b| => w * b[k])
  }

  /** w * b + a in every lane. */
  function FusedMultiplyAdd(w: real, b: Lanes, a: Lanes): (v: Lanes)
    requires |a| == |b|
    ensures |v| == |a|
  {
    AddLanes(ScaleLanes(w, b), a)
  }

  lemma {:induction false} ZeroLaneSum(n: nat)
    ensures LaneSum(ZeroLanes(n)) == 0.0
  {
    if n > 0 {
      ZeroLaneSum(n - 1);
      assert ZeroLanes(n)[..n - 1] == ZeroLanes(n - 1);
    }
  }

  lemma {:induction false} AddLaneSum(a: Lanes, b: Lanes)
    requires |a| == |b|
    ensures LaneSum(AddLanes(a, b)) == LaneSum(a) + LaneSum(b)
  {
    if a != [] {
      var n := |a| - 1;
      AddLaneSum(a[..n], b[..n]);
      assert AddLanes(a, b)[..n] == AddLanes(a[..n], b[..n]);
    }
  }

  lemma {:induction false} ScaleLaneSum(w: real, b: Lanes)
    ensures LaneSum(ScaleLanes(w, b)) == w * LaneSum(b)
  {
    if b != [] {
      var n := |b| - 1;
      ScaleLaneSum(w, b[..n]);
      ScaledFront(w, b);
      LaneSumLast(b);
      LaneSumLast(ScaleLanes(w, b));
      hide LaneSum, ScaleLanes;
      Times(w, LaneSum(b[..n]), b[n]);
    } else {
      assert w * 0.0 == 0.0;
    }
  }

  lemma ScaledFront(w: real, b: Lanes)
    requires b != []
    ensures |ScaleLanes(w, b)| == |b| && ScaleLanes(w, b)[|b| - 1] == w * b[|b| - 1]
    ensures ScaleLanes(w, b)[..|b| - 1] == ScaleLanes(w, b[..|b| - 1])
  {
    var n := |b| - 1;
    forall k | 0 <= k < n ensures ScaleLanes(w, b)[..n][k] == ScaleLanes(w, b[..n])[k] {
    }
  }

  lemma LaneSumLast(v: Lanes)
    requires v != []
    ensures LaneSum(v) == LaneSum(v[..|v| - 1]) + v[|v| - 1]
  {
  }

  lemma Times(w: real, x: real, y: real)
    ensures w * (x + y) == w * x + w * y
  {
  }

  lemma FusedLaneSum(w: real, b: Lanes, a: Lanes)
    requires |a| == |b|
    ensures LaneSum(FusedMultiplyAdd(w, b, a)) == w * LaneSum(b) + LaneSum(a)
  {
    hide LaneSum;
    ScaleLaneSum(w, b);
    AddLaneSum(ScaleLanes(w, b), a);
  }
}
