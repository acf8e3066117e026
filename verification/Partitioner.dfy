/** Memory-proportional layer allocation and shard plans (distributed/partitioner.h, plan adoption in coordinator.cpp). */
module Partitioner {
  import opened Bytes
  import opened ModelLoader

  function Sum(s: seq<int>): int {
    if s == [] then 0 else Sum(s[..|s| - 1]) + s[|s| - 1]
  }

  function SumReal(s: seq<real>): real {
    if s == [] then 0.0 else SumReal(s[..|s| - 1]) + s[|s| - 1]
  }

  lemma {:induction false} SumUpdate(s: seq<int>, i: nat, v: int)
    requires i < |s|
    ensures Sum(s[i := v]) == Sum(s) - s[i] + v
  {
    var n := |s| - 1;
    if i == n {
      assert s[i := v][..n] == s[..n];
    } else {
      assert s[i := v][..n] == s[..n][i := v];
      SumUpdate(s[..n], i, v);
    }
  }

  lemma SumAppend(s: seq<int>, x: int)
    ensures Sum(s + [x]) == Sum(s) + x
  {
    assert (s + [x])[..|s|] == s;
  }

  /** Entries that are all at most 1, one of them 0, cannot add up to their number. */
  lemma {:induction false} SumOfSmall(s: seq<int>)
    requires forall i :: 0 <= i < |s| ==> s[i] <= 1
    ensures Sum(s) <= |s| && ((exists i :: 0 <= i < |s| && s[i] < 1) ==> Sum(s) < |s|)
  {
    if s != [] {
      SumOfSmall(s[..|s| - 1]);
    }
  }

  function Clamp(x: real): real {
    if x < 0.0 then 0.0 else x
  }

  function Quota(fraction: real, layers: nat): (q: real)
    ensures q >= 0.0
  {
    Clamp(fraction) * layers as real
  }

  /** What exact proportionality would give each node. */
  function Quotas(fractions: seq<real>, layers: nat): seq<real> {
    seq(|fractions|, i requires 0 <= i < |fractions| => Quota(fractions[i], layers))
  }

  function Floors(quotas: seq<real>): seq<int> {
    seq(|quotas|, i requires 0 <= i < |quotas| => quotas[i].Floor)
  }

  function Clamped(fractions: seq<real>): seq<real> {
    seq(|fractions|, i requires 0 <= i < |fractions| => Clamp(fractions[i]))
  }

  lemma {:induction false} QuotaSum(fractions: seq<real>, layers: nat)
    ensures SumReal(Quotas(fractions, layers)) == SumReal(Clamped(fractions)) * layers as real
  {
    if fractions != [] {
      var f := fractions[..|fractions| - 1];
      QuotaSum(f, layers);
      LastQuota(fractions, layers);
      hide Clamp, Quotas, Clamped;
      Distribute(SumReal(Clamped(f)), Clamp(fractions[|f|]), layers as real);
    }
  }

  lemma LastQuota(fractions: seq<real>, layers: nat)
    requires fractions != []
    ensures var f := fractions[..|fractions| - 1];
      && |Quotas(fractions, layers)| == |Clamped(fractions)| == |fractions|
      && Quotas(fractions, layers)[..|f|] == Quotas(f, layers) && Clamped(fractions)[..|f|] == Clamped(f)
      && Quotas(fractions, layers)[|f|] == Clamp(fractions[|f|]) * layers as real && Clamped(fractions)[|f|] == Clamp(fractions[|f|])
  {
    hide Clamp;
  }

  lemma Distribute(a: real, b: real, c: real)
    ensures (a + b) * c == a * c + b * c
  {
  }

  lemma {:induction false} FloorSum(quotas: seq<real>)
    ensures Sum(Floors(quotas)) as real <= SumReal(quotas)
    ensures quotas != [] ==> SumReal(quotas) < (Sum(Floors(quotas)) + |quotas|) as real
  {
    if quotas != [] {
      var q := quotas[..|quotas| - 1];
      FloorSum(q);
      assert Floors(quotas)[..|q|] == Floors(q);
    }
  }

  /** How many layers are left after rounding down: fewer than there are nodes. */
  lemma RemainderIsSmall(fractions: seq<real>, layers: nat)
    requires fractions != [] && SumReal(Clamped(fractions)) >= 1.0
    ensures layers - Sum(Floors(Quotas(fractions, layers))) < |fractions|
    ensures SumReal(Clamped(fractions)) == 1.0 ==> 0 <= layers - Sum(Floors(Quotas(fractions, layers)))
  {
    hide SumReal, Sum, Quotas, Floors, Clamped;
    QuotaSum(fractions, layers);
    var quotas, s := Quotas(fractions, layers), SumReal(Clamped(fractions));
    QuotaCount(fractions, layers);
    FloorSum(quotas);
    assert s * layers as real == layers as real + (s - 1.0) * layers as real;
    assert (s - 1.0) * layers as real >= 0.0;
  }

  lemma QuotaCount(fractions: seq<real>, layers: nat)
    ensures |Quotas(fractions, layers)| == |fractions|
  {
  }

  // ----- the order in which remainders are handed out

  /** Larger fractional part first, then lower index. */
  predicate Precedes(quotas: seq<real>, a: nat, b: nat)
    requires a < |quotas| && b < |quotas|
  {
    var ra, rb := quotas[a] - quotas[a].Floor as real, quotas[b] - quotas[b].Floor as real;
    ra > rb || (ra == rb && a < b)
  }

  predicate Indices(order: seq<nat>, n: nat) {
    && (forall p :: 0 <= p < |order| ==> order[p] < n)
    && (forall p, q :: 0 <= p < q < |order| ==> order[p] != order[q])
  }

  predicate Complete(order: seq<nat>, n: nat) {
    forall i :: 0 <= i < n ==> i in order
  }

  predicate Ordered(order: seq<nat>, quotas: seq<real>)
    requires Indices(order, |quotas|)
  {
    forall p, q :: 0 <= p < q < |order| ==> Precedes(quotas, order[p], order[q])
  }

  /** Where index i belongs in an ordered list. */
  method InsertionPoint(order: seq<nat>, quotas: seq<real>, i: nat) returns (at: nat)
    requires Indices(order, |quotas|) && Ordered(order, quotas) && i < |quotas| && i !in order
    ensures at <= |order|
    ensures forall p :: 0 <= p < at ==> Precedes(quotas, order[p], i)
    ensures forall p :: at <= p < |order| ==> Precedes(quotas, i, order[p])
  {
    at := 0;
    while at < |order| && Precedes(quotas, order[at], i)
      invariant at <= |order| && forall p :: 0 <= p < at ==> Precedes(quotas, order[p], i)
    {
      at := at + 1;
    }
    if at < |order| {
      assert Precedes(quotas, i, order[at]);
      assert forall p :: at < p < |order| ==> Precedes(quotas, order[at], order[p]);
    }
  }

  function Inserted(order: seq<nat>, at: nat, i: nat): (r: seq<nat>)
    requires at <= |order|
    ensures |r| == |order| + 1
    ensures forall p :: 0 <= p < |r| ==> r[p] == if p < at then order[p] else if p == at then i else order[p - 1]
  {
    order[..at] + [i] + order[at..]
  }

  lemma InsertionKeepsOrder(order: seq<nat>, quotas: seq<real>, at: nat, i: nat)
    requires Indices(order, |quotas|) && Ordered(order, quotas) && Complete(order, i) && i < |quotas| && at <= |order|
    requires forall p :: 0 <= p < |order| ==> order[p] < i
    requires forall p :: 0 <= p < at ==> Precedes(quotas, order[p], i)
    requires forall p :: at <= p < |order| ==> Precedes(quotas, i, order[p])
    ensures var r := Inserted(order, at, i);
      Indices(r, |quotas|) && Ordered(r, quotas) && Complete(r, i + 1) && forall p :: 0 <= p < |r| ==> r[p] < i + 1
  {
    hide Precedes;
    var r := Inserted(order, at, i);
    forall k | 0 <= k < i + 1 ensures k in r {
      if k == i {
        assert r[at] == i;
      } else {
        assert k in order;
        var p :| 0 <= p < |order| && order[p] == k;
        assert r[if p < at then p else p + 1] == k;
      }
    }
  }

  /** The stable sort of the node indices. */
  method SortByRemainder(quotas: seq<real>) returns (order: seq<nat>)
    ensures |order| == |quotas| && Indices(order, |quotas|) && Ordered(order, quotas) && Complete(order, |quotas|)
  {
    hide Precedes;
    order := [];
    for i := 0 to |quotas|
      invariant |order| == i && Indices(order, |quotas|) && Ordered(order, quotas)
      invariant Complete(order, i) && forall p :: 0 <= p < |order| ==> order[p] < i
    {
      var at := InsertionPoint(order, quotas, i);
      InsertionKeepsOrder(order, quotas, at, i);
      order := Inserted(order, at, i);
    }
  }

  // ----- allocation

  /** Rounded down or up. */
  predicate WithinOne(counts: seq<int>, quotas: seq<real>) {
    |counts| == |quotas| && forall i :: 0 <= i < |counts| ==> quotas[i].Floor <= counts[i] <= quotas[i].Floor + 1
  }

  /** A strictly larger quota never gets fewer layers. */
  predicate FollowsQuotas(counts: seq<int>, quotas: seq<real>)
    requires |counts| == |quotas|
  {
    forall i, j :: 0 <= i < |counts| && 0 <= j < |counts| && quotas[i] > quotas[j] ==> counts[j] <= counts[i]
  }

  /** A quota that is at least as large gets at most one layer fewer. */
  predicate FollowsWithinOne(counts: seq<int>, quotas: seq<real>)
    requires |counts| == |quotas|
  {
    forall i, j :: 0 <= i < |counts| && 0 <= j < |counts| && quotas[i] >= quotas[j] ==> counts[j] <= counts[i] + 1
  }

  predicate AllPositive(counts: seq<int>) {
    forall i :: 0 <= i < |counts| ==> counts[i] >= 1
  }

  /** Floors plus one more layer for the first `remaining` nodes of the order. */
  predicate HandedOut(counts: seq<int>, quotas: seq<real>, order: seq<nat>, k: nat)
    requires k <= |order| && Indices(order, |quotas|)
  {
    && |counts| == |quotas|
    && (forall p :: 0 <= p < k ==> counts[order[p]] == quotas[order[p]].Floor + 1)
    && (forall i :: 0 <= i < |quotas| && i !in order[..k] ==> counts[i] == quotas[i].Floor)
  }

  lemma HandedOutFollows(counts: seq<int>, quotas: seq<real>, order: seq<nat>, k: nat)
    requires k <= |order| && Indices(order, |quotas|) && Ordered(order, quotas) && Complete(order, |quotas|)
    requires HandedOut(counts, quotas, order, k)
    ensures WithinOne(counts, quotas) && FollowsQuotas(counts, quotas)
  {
    forall i | 0 <= i < |counts| ensures quotas[i].Floor <= counts[i] <= quotas[i].Floor + 1 {
      if i in order[..k] {
        var p :| 0 <= p < k && order[..k][p] == i;
        assert order[p] == i;
      }
    }
    forall i, j | 0 <= i < |counts| && 0 <= j < |counts| && quotas[i] > quotas[j] ensures counts[j] <= counts[i] {
      if quotas[i].Floor == quotas[j].Floor && j in order[..k] {
        var p :| 0 <= p < k && order[..k][p] == j;
        assert i in order;
        var q :| 0 <= q < |order| && order[q] == i;
        assert Precedes(quotas, i, j) && !Precedes(quotas, j, i);
        assert q < p;
      }
    }
  }

  /** The extra layers go to those that come first in the order of remainders. */
  predicate RemaindersFirst(counts: seq<int>, quotas: seq<real>)
    requires |counts| == |quotas|
  {
    forall i, j :: 0 <= i < |counts| && 0 <= j < |counts| && counts[i] == quotas[i].Floor + 1 && counts[j] == quotas[j].Floor
      ==> Precedes(quotas, i, j)
  }

  lemma HandedOutFirst(counts: seq<int>, quotas: seq<real>, order: seq<nat>, k: nat)
    requires k <= |order| && Indices(order, |quotas|) && Ordered(order, quotas) && Complete(order, |quotas|)
    requires HandedOut(counts, quotas, order, k)
    ensures RemaindersFirst(counts, quotas)
  {
    hide Precedes;
    forall i, j | 0 <= i < |counts| && 0 <= j < |counts| && counts[i] == quotas[i].Floor + 1 && counts[j] == quotas[j].Floor
      ensures Precedes(quotas, i, j)
    {
      assert i in order[..k];
      var p :| 0 <= p < k && order[..k][p] == i;
      assert j in order;
      var q :| 0 <= q < |order| && order[q] == j;
      assert q >= k && order[p] == i;
    }
  }

  method RoundDown(quotas: seq<real>) returns (counts: seq<int>, sum: int)
    ensures counts == Floors(quotas) && sum == Sum(counts)
  {
    counts, sum := [], 0;
    for i := 0 to |quotas|
      invariant counts == Floors(quotas)[..i] && sum == Sum(counts)
    {
      SumAppend(counts, quotas[i].Floor);
      counts := counts + [quotas[i].Floor];
      sum := sum + quotas[i].Floor;
    }
    assert counts == Floors(quotas);
  }

  lemma HandOutStep(counts: seq<int>, quotas: seq<real>, order: seq<nat>, k: nat)
    requires k < |order| && Indices(order, |quotas|) && HandedOut(counts, quotas, order, k)
    ensures HandedOut(counts[order[k] := counts[order[k]] + 1], quotas, order, k + 1)
    ensures Sum(counts[order[k] := counts[order[k]] + 1]) == Sum(counts) + 1
  {
    var at := order[k];
    SumUpdate(counts, at, counts[at] + 1);
    assert at !in order[..k];
    var next := counts[at := counts[at] + 1];
    assert order[..k + 1] == order[..k] + [at];
    forall p | 0 <= p < k ensures next[order[p]] == quotas[order[p]].Floor + 1 {
      assert order[p] != order[k];
    }
  }

  /** What the nodes get in all: the layers, or more when the floors alone exceed them. */
  function HandedTotal(quotas: seq<real>, layers: nat): int {
    if layers >= Sum(Floors(quotas)) then layers else Sum(Floors(quotas))
  }

  /** Floors, then one more layer each in order of descending fractional part. */
  method HandOut(quotas: seq<real>, layers: nat) returns (counts: seq<int>)
    requires layers - Sum(Floors(quotas)) <= |quotas|
    ensures WithinOne(counts, quotas) && FollowsQuotas(counts, quotas) && RemaindersFirst(counts, quotas)
    ensures Sum(counts) == HandedTotal(quotas, layers)
  {
    hide Sum, Precedes;
    var sum;
    counts, sum := RoundDown(quotas);
    var order := SortByRemainder(quotas);
    var remaining := layers - sum;
    var k := 0;
    while k < remaining
      invariant 0 <= k <= |order| && (k == 0 || k <= remaining)
      invariant HandedOut(counts, quotas, order, k) && Sum(counts) == sum + k
    {
      HandOutStep(counts, quotas, order, k);
      counts := counts[order[k] := counts[order[k]] + 1];
      k := k + 1;
    }
    HandedOutFollows(counts, quotas, order, k);
    HandedOutFirst(counts, quotas, order, k);
  }

  /** The first largest count above 1 other than that of node i. */
  method LargestDonor(counts: seq<int>, i: nat) returns (donor: int)
    requires i < |counts|
    ensures donor < 0 <==> forall j :: 0 <= j < |counts| && j != i ==> counts[j] <= 1
    ensures donor >= 0 ==> donor < |counts| && donor != i && counts[donor] > 1
    ensures donor >= 0 ==> forall j :: 0 <= j < |counts| && j != i ==> counts[j] <= counts[donor]
    ensures forall j :: 0 <= j < donor && j != i ==> counts[j] < counts[donor]
  {
    donor := -1;
    for j := 0 to |counts|
      invariant donor < |counts| && (donor < 0 <==> forall k :: 0 <= k < j && k != i ==> counts[k] <= 1)
      invariant donor >= 0 ==> donor != i && counts[donor] > 1
      invariant donor >= 0 ==> forall k :: 0 <= k < j && k != i ==> counts[k] <= counts[donor]
      invariant forall k :: 0 <= k < donor && k != i ==> counts[k] < counts[donor]
    {
      if j == i || counts[j] <= 1 {
        continue;
      }
      if donor < 0 || counts[j] > counts[donor] {
        donor := j;
      }
    }
  }

  predicate NonNegative(counts: seq<int>) {
    forall i :: 0 <= i < |counts| ==> counts[i] >= 0
  }

  /** One layer moved from the largest allocation to an empty node. */
  function Donated(counts: seq<int>, donor: nat, i: nat): (r: seq<int>)
    requires donor < |counts| && i < |counts|
  {
    counts[donor := counts[donor] - 1][i := 1]
  }

  lemma DonationKeeps(counts: seq<int>, quotas: seq<real>, donor: nat, i: nat)
    requires |counts| == |quotas| && NonNegative(counts) && FollowsWithinOne(counts, quotas)
    requires donor < |counts| && i < |counts| && donor != i && counts[i] == 0 && counts[donor] > 1
    requires forall j :: 0 <= j < |counts| ==> counts[j] <= counts[donor]
    ensures NonNegative(Donated(counts, donor, i)) && FollowsWithinOne(Donated(counts, donor, i), quotas)
    ensures Sum(Donated(counts, donor, i)) == Sum(counts)
  {
    SumUpdate(counts, donor, counts[donor] - 1);
    SumUpdate(counts[donor := counts[donor] - 1], i, 1);
    var r := Donated(counts, donor, i);
    forall a, b | 0 <= a < |r| && 0 <= b < |r| && quotas[a] >= quotas[b] ensures r[b] <= r[a] + 1 {
      assert counts[b] <= counts[a] + 1;
    }
  }

  /**
   Giving every node its first layer at the cost of the largest: nodes without one end with one, the others keep some of
   theirs, and who gave layers away ends with no fewer than anyone else, except that a later node may have one more.
   */
  predicate Levelled(start: seq<int>, counts: seq<int>) {
    |counts| == |start| && LevelledTo(start, counts, |start|)
  }

  predicate LevelledTo(start: seq<int>, counts: seq<int>, n: nat)
    requires |counts| == |start|
  {
    && (forall i :: 0 <= i < |start| && start[i] == 0 ==> counts[i] == if i < n then 1 else 0)
    && (forall i :: 0 <= i < |start| && start[i] > 0 ==> 1 <= counts[i] <= start[i])
    && forall i, j :: 0 <= i < |start| && 0 <= j < |start| && counts[i] < start[i] ==> AtLevel(counts, i, j)
  }

  predicate AtLevel(counts: seq<int>, i: nat, j: nat)
    requires i < |counts| && j < |counts|
  {
    counts[j] <= if i < j then counts[i] + 1 else counts[i]
  }

  lemma DonationLevels(start: seq<int>, counts: seq<int>, donor: nat, i: nat)
    requires |counts| == |start| && NonNegative(start) && LevelledTo(start, counts, i)
    requires donor < |counts| && i < |counts| && donor != i && counts[i] == 0 && counts[donor] > 1
    requires forall j :: 0 <= j < |counts| ==> counts[j] <= counts[donor]
    requires forall j :: 0 <= j < donor ==> counts[j] < counts[donor]
    ensures LevelledTo(start, Donated(counts, donor, i), i + 1)
  {
    var r := Donated(counts, donor, i);
    assert start[i] == 0;
    forall a, b | 0 <= a < |start| && 0 <= b < |start| && r[a] < start[a] ensures AtLevel(r, a, b) {
      if a != donor {
        assert AtLevel(counts, a, b) && AtLevel(counts, a, donor);
      }
    }
  }

  lemma NothingLevelled(start: seq<int>)
    requires NonNegative(start)
    ensures LevelledTo(start, start, 0)
  {
  }

  lemma LevelsSkip(start: seq<int>, counts: seq<int>, i: nat)
    requires |counts| == |start| && i < |start| && LevelledTo(start, counts, i) && counts[i] > 0
    ensures LevelledTo(start, counts, i + 1)
  {
    hide AtLevel;
  }

  /** Moves one layer at a time from the largest allocation to every node that has none. */
  method EnsureOneEach(start: seq<int>, quotas: seq<real>) returns (counts: Option<seq<int>>)
    requires |start| == |quotas| && NonNegative(start) && FollowsWithinOne(start, quotas)
    requires Sum(start) >= |start|
    ensures counts.Some?
    ensures |counts.value| == |start| && AllPositive(counts.value) && Sum(counts.value) == Sum(start)
    ensures FollowsWithinOne(counts.value, quotas) && Levelled(start, counts.value)
    ensures AllPositive(start) ==> counts.value == start
  {
    hide FollowsWithinOne, LevelledTo;
    var result := start;
    NothingLevelled(start);
    for i := 0 to |start|
      invariant |result| == |start| && NonNegative(result) && Sum(result) == Sum(start)
      invariant forall k :: 0 <= k < i ==> result[k] >= 1
      invariant FollowsWithinOne(result, quotas) && LevelledTo(start, result, i)
      invariant AllPositive(start) ==> result == start
    {
      if result[i] > 0 {
        LevelsSkip(start, result, i);
        continue;
      }
      var donor := LargestDonor(result, i);
      if donor < 0 {
        SumOfSmall(result);
        assert false;
        return None;
      }
      DonationKeeps(result, quotas, donor, i);
      DonationLevels(start, result, donor, i);
      ghost var before := result;
      result := result[donor := result[donor] - 1];
      result := result[i := result[i] + 1];
      assert result == Donated(before, donor, i);
    }
    counts := Some(result);
  }

  /**
   allocate_layers_proportionally: fails exactly when there are no nodes or fewer layers than nodes;
   `base` is the allocation before every node is given at least one layer. The remainder is dealt out once
   around, so it must not exceed the number of nodes.
   */
  method Allocate(layers: nat, fractions: seq<real>) returns (counts: Option<seq<int>>, ghost base: seq<int>)
    requires |fractions| <= layers ==> layers - Sum(Floors(Quotas(fractions, layers))) <= |fractions|
    ensures counts.None? <==> fractions == [] || layers < |fractions|
    ensures counts.Some? ==> |counts.value| == |fractions| && AllPositive(counts.value)
    ensures counts.Some? ==> WithinOne(base, Quotas(fractions, layers)) && FollowsQuotas(base, Quotas(fractions, layers))
    ensures counts.Some? ==> RemaindersFirst(base, Quotas(fractions, layers)) && Levelled(base, counts.value)
    ensures counts.Some? ==> Sum(counts.value) == Sum(base) && FollowsWithinOne(counts.value, Quotas(fractions, layers))
    ensures counts.Some? && AllPositive(base) ==> counts.value == base
    ensures counts.Some? ==> Sum(counts.value) == HandedTotal(Quotas(fractions, layers), layers)
  {
    base := [];
    if fractions == [] || layers < |fractions| {
      return None, base;
    }
    var quotas := Quotas(fractions, layers);
    var result := HandOut(quotas, layers);
    base := result;
    counts := EnsureOneEach(result, quotas);
  }

  // ----- shard plans

  function Reals(rams: seq<int>): seq<real> {
    seq(|rams|, i requires 0 <= i < |rams| => rams[i] as real)
  }

  /** Each node's share of the reported memory; equal shares when there is none. */
  function Fractions(rams: seq<int>): seq<real>
    requires rams != []
  {
    var total := SumReal(Reals(rams));
    if total > 0.0 then seq(|rams|, i requires 0 <= i < |rams| => rams[i] as real / total)
    else seq(|rams|, _ => 1.0 / |rams| as real)
  }

  lemma {:induction false} SharesSum(rams: seq<int>, total: real)
    requires total > 0.0
    ensures SumReal(seq(|rams|, i requires 0 <= i < |rams| => rams[i] as real / total)) == SumReal(Reals(rams)) / total
  {
    var shares := seq(|rams|, i requires 0 <= i < |rams| => rams[i] as real / total);
    if rams != [] {
      var r := rams[..|rams| - 1];
      SharesSum(r, total);
      assert Reals(rams)[..|r|] == Reals(r);
      assert shares[..|r|] == seq(|r|, i requires 0 <= i < |r| => r[i] as real / total);
      DivideSum(SumReal(Reals(r)), rams[|r|] as real, total);
    }
  }

  lemma DivideSum(a: real, b: real, c: real)
    requires c > 0.0
    ensures a / c + b / c == (a + b) / c
  {
  }

  lemma {:induction false} EqualSharesSum(n: nat, share: real)
    ensures SumReal(seq(n, _ => share)) == n as real * share
  {
    if n > 0 {
      EqualSharesSum(n - 1, share);
      assert seq(n, _ => share)[..n - 1] == seq(n - 1, _ => share);
      Distribute((n - 1) as real, 1.0, share);
    }
  }

  lemma FractionsSum(rams: seq<int>)
    requires rams != []
    ensures SumReal(Fractions(rams)) == 1.0
  {
    var total := SumReal(Reals(rams));
    if total > 0.0 {
      SharesSum(rams, total);
    } else {
      EqualSharesSum(|rams|, 1.0 / |rams| as real);
    }
  }

  lemma {:induction false} ClampedSum(fractions: seq<real>)
    ensures SumReal(Clamped(fractions)) >= SumReal(fractions)
    ensures (forall i :: 0 <= i < |fractions| ==> fractions[i] >= 0.0) ==> Clamped(fractions) == fractions
  {
    if fractions != [] {
      var f := fractions[..|fractions| - 1];
      ClampedSum(f);
      assert Clamped(fractions)[..|f|] == Clamped(f);
    }
  }

  /** Memory orders the quotas when it is reported as non-negative. */
  lemma QuotasFollowMemory(rams: seq<int>, layers: nat, i: nat, j: nat)
    requires i < |rams| && j < |rams| && rams[i] >= rams[j] && forall k :: 0 <= k < |rams| ==> rams[k] >= 0
    ensures |Fractions(rams)| == |rams|
    ensures Quotas(Fractions(rams), layers)[i] >= Quotas(Fractions(rams), layers)[j]
  {
    var total := SumReal(Reals(rams));
    var f := Fractions(rams);
    if total > 0.0 {
      assert f[i] - f[j] == (rams[i] - rams[j]) as real / total;
    }
    assert f[i] >= f[j];
    assert Clamp(f[i]) * layers as real - Clamp(f[j]) * layers as real == (Clamp(f[i]) - Clamp(f[j])) * layers as real;
  }

  // ----- the same in whole numbers: largest remainders over the reported memory

  /** What the nodes divide the layers by: their memory, or one part each when none is reported. */
  function Parts(rams: seq<int>): (parts: seq<nat>)
    ensures |parts| == |rams|
  {
    seq(|rams|, i requires 0 <= i < |rams| => if Sum(rams) <= 0 then 1 else if rams[i] < 0 then 0 else rams[i])
  }

  function Whole(rams: seq<int>): (whole: nat)
    requires rams != []
    ensures whole > 0
  {
    if Sum(rams) > 0 then Sum(rams) else |rams|
  }

  /** The share of a node rounded down, and what rounding leaves, in parts of the whole. */
  function ShareOf(layers: nat, part: nat, whole: nat): nat
    requires whole > 0
  {
    layers * part / whole
  }

  function LeftOf(layers: nat, part: nat, whole: nat): nat
    requires whole > 0
  {
    layers * part % whole
  }

  /** Everyone has the share rounded down or one more, and one more goes to the larger remainder, at a tie to the first. */
  predicate LargestRemainders(counts: seq<int>, rams: seq<int>, layers: nat)
    requires rams != []
  {
    var parts, whole := Parts(rams), Whole(rams);
    && |counts| == |rams|
    && (forall i :: 0 <= i < |counts| ==> ShareOf(layers, parts[i], whole) <= counts[i] <= ShareOf(layers, parts[i], whole) + 1)
    && forall i, j ::
      (0 <= i < |counts| && 0 <= j < |counts|
       && counts[i] == ShareOf(layers, parts[i], whole) + 1 && counts[j] == ShareOf(layers, parts[j], whole))
      ==> ComesFirst(LeftOf(layers, parts[i], whole), LeftOf(layers, parts[j], whole), i, j)
  }

  predicate ComesFirst(a: int, b: int, i: nat, j: nat) {
    a > b || (a == b && i < j)
  }

  lemma {:induction false} RealSum(rams: seq<int>)
    ensures SumReal(Reals(rams)) == Sum(rams) as real
  {
    if rams != [] {
      RealSum(rams[..|rams| - 1]);
      assert Reals(rams)[..|rams| - 1] == Reals(rams[..|rams| - 1]);
    }
  }

  lemma RatioFloor(a: nat, b: nat, q: real)
    requires b > 0 && q == a as real / b as real
    ensures q.Floor == a / b && (q - q.Floor as real) * b as real == (a % b) as real
  {
    var whole, left := a / b, a % b;
    assert a == whole * b + left;
    RatioSplits(a, b, whole, left, q);
    FractionBelowOne(left, b, q - whole as real);
  }

  lemma RatioSplits(a: nat, b: nat, whole: nat, left: nat, q: real)
    requires b > 0 && q == a as real / b as real && a == whole * b + left
    ensures (q - whole as real) * b as real == left as real
  {
    assert q * b as real == a as real;
    assert (whole * b) as real == whole as real * b as real;
  }

  lemma FractionBelowOne(left: nat, b: nat, f: real)
    requires left < b && f * b as real == left as real
    ensures 0.0 <= f < 1.0
  {
  }

  /** A quota is the exact share of the node. */
  lemma QuotaIsShare(rams: seq<int>, layers: nat, i: nat)
    requires i < |rams|
    ensures |Fractions(rams)| == |rams|
    ensures Quotas(Fractions(rams), layers)[i] == (layers * Parts(rams)[i]) as real / Whole(rams) as real
  {
    hide Sum, SumReal;
    RealSum(rams);
    var part, whole := Parts(rams)[i], Whole(rams);
    var f := Clamp(Fractions(rams)[i]);
    assert f == part as real / whole as real by {
      if Sum(rams) > 0 {
        SignOfShare(rams[i], whole);
      }
    }
    ScaledShare(part, whole, layers, f);
  }

  lemma SignOfShare(ram: int, whole: nat)
    requires whole > 0
    ensures ram < 0 ==> ram as real / whole as real < 0.0
    ensures ram >= 0 ==> ram as real / whole as real >= 0.0
  {
  }

  lemma ScaledShare(part: nat, whole: nat, layers: nat, f: real)
    requires whole > 0 && f == part as real / whole as real
    ensures f * layers as real == (layers * part) as real / whole as real
  {
    assert (layers * part) as real == layers as real * part as real;
  }

  /** Comparing fractional parts of quotas is comparing remainders. */
  lemma PrecedesByRemainder(rams: seq<int>, layers: nat, i: nat, j: nat)
    requires i < |rams| && j < |rams|
    ensures |Quotas(Fractions(rams), layers)| == |rams|
    ensures var parts, whole := Parts(rams), Whole(rams);
      Precedes(Quotas(Fractions(rams), layers), i, j)
      ==> ComesFirst(LeftOf(layers, parts[i], whole), LeftOf(layers, parts[j], whole), i, j)
  {
    hide Quotas, Fractions, Parts, Whole, LeftOf;
    QuotaCount(Fractions(rams), layers);
    var a := LeftIsFraction(rams, layers, i);
    var b := LeftIsFraction(rams, layers, j);
    ScaledOrder(a, b, Whole(rams) as real);
  }

  /** What rounding leaves of a quota, as a fraction of one layer. */
  lemma LeftIsFraction(rams: seq<int>, layers: nat, i: nat) returns (f: real)
    requires i < |rams|
    ensures |Quotas(Fractions(rams), layers)| == |rams|
    ensures f == Quotas(Fractions(rams), layers)[i] - Quotas(Fractions(rams), layers)[i].Floor as real
    ensures f * Whole(rams) as real == LeftOf(layers, Parts(rams)[i], Whole(rams)) as real
  {
    hide Quotas, Fractions, Parts, Whole;
    QuotaIsShare(rams, layers, i);
    QuotaCount(Fractions(rams), layers);
    var q := Quotas(Fractions(rams), layers)[i];
    RatioFloor(layers * Parts(rams)[i], Whole(rams), q);
    f := q - q.Floor as real;
  }

  lemma ScaledOrder(a: real, b: real, whole: real)
    requires whole > 0.0
    ensures a > b ==> a * whole > b * whole
    ensures a == b ==> a * whole == b * whole
  {
    if a > b {
      assert (a - b) * whole > 0.0;
    }
  }

  /** Rounding the quotas of the fractions is rounding the shares of the memory. */
  lemma RoundedShares(base: seq<int>, rams: seq<int>, layers: nat)
    requires rams != [] && |Quotas(Fractions(rams), layers)| == |rams|
    requires WithinOne(base, Quotas(Fractions(rams), layers)) && RemaindersFirst(base, Quotas(Fractions(rams), layers))
    ensures LargestRemainders(base, rams, layers)
  {
    hide Quotas, Fractions, Parts, Whole, Precedes, ComesFirst;
    var parts, whole, quotas := Parts(rams), Whole(rams), Quotas(Fractions(rams), layers);
    forall i | 0 <= i < |rams| ensures quotas[i].Floor == ShareOf(layers, parts[i], whole) {
      QuotaIsShare(rams, layers, i);
      RatioFloor(layers * parts[i], whole, quotas[i]);
    }
    forall i, j | 0 <= i < |base| && 0 <= j < |base|
        && base[i] == ShareOf(layers, parts[i], whole) + 1 && base[j] == ShareOf(layers, parts[j], whole)
      ensures ComesFirst(LeftOf(layers, parts[i], whole), LeftOf(layers, parts[j], whole), i, j)
    {
      PrecedesByRemainder(rams, layers, i, j);
      assert Precedes(quotas, i, j);
    }
  }

  /** A node's memory covers its proportional share of the weights. */
  predicate Fits(ram: int, count: int, layers: nat, modelSize: int)
    requires layers > 0
  {
    ram as real >= modelSize as real * count as real / layers as real
  }

  /** The same without division: memory times layers covers model size times the node's layers. */
  lemma FitsExactly(ram: int, count: int, layers: nat, modelSize: int)
    requires layers > 0
    ensures Fits(ram, count, layers, modelSize) <==> ram * layers >= modelSize * count
  {
    var need := modelSize as real * count as real;
    assert need == (modelSize * count) as real;
    assert ram as real * layers as real == (ram * layers) as real;
    QuotientBelow(need, ram as real, layers as real);
  }

  lemma QuotientBelow(a: real, b: real, c: real)
    requires c > 0.0
    ensures b >= a / c <==> b * c >= a
  {
    var q := a / c;
    assert q * c == a;
    if b >= q {
      assert (b - q) * c >= 0.0;
    } else {
      assert (q - b) * c > 0.0;
    }
  }

  /** Consecutive ranges of the given sizes, cut where the counts say. */
  predicate CutBy(shards: seq<ShardSpec>, counts: seq<int>, layers: nat) {
    |shards| <= |counts| && forall i :: 0 <= i < |shards| ==> CutAt(shards[i], counts, layers, i)
  }

  predicate CutAt(shard: ShardSpec, counts: seq<int>, layers: nat, i: nat)
    requires i < |counts|
  {
    shard == ShardSpec(Sum(counts[..i]), Sum(counts[..i + 1]), Sum(counts[..i]) == 0, Sum(counts[..i + 1]) == layers)
  }

  lemma PrefixStep(counts: seq<int>, i: nat)
    requires i < |counts|
    ensures Sum(counts[..i + 1]) == Sum(counts[..i]) + counts[i]
  {
    assert counts[..i + 1] == counts[..i] + [counts[i]];
    SumAppend(counts[..i], counts[i]);
  }

  lemma CutsTile(shards: seq<ShardSpec>, counts: seq<int>, layers: nat)
    requires CutBy(shards, counts, layers) && |shards| == |counts| > 0 && AllPositive(counts) && Sum(counts) == layers
    ensures TilingSpecs(shards, layers)
    ensures forall i :: 0 <= i < |shards| ==> shards[i].end - shards[i].start == counts[i]
  {
    hide Sum;
    forall i | 0 <= i < |shards| ensures shards[i].end - shards[i].start == counts[i] {
      PrefixStep(counts, i);
      assert CutAt(shards[i], counts, layers, i);
    }
    EmptySum(counts);
    var last := |shards| - 1;
    assert counts[..last + 1] == counts && CutAt(shards[last], counts, layers, last);
    forall i | 0 < i < |shards| ensures shards[i].start == shards[i - 1].end {
      var p := i - 1;
      assert CutAt(shards[p], counts, layers, p) && counts[..p + 1] == counts[..i];
      assert CutAt(shards[i], counts, layers, i);
    }
    assert CutAt(shards[0], counts, layers, 0);
  }

  lemma EmptySum(counts: seq<int>)
    ensures Sum(counts[..0]) == 0
  {
  }

  /** More memory never means two or more layers fewer. */
  predicate FollowsMemory(shards: seq<ShardSpec>, rams: seq<int>)
    requires |shards| == |rams|
  {
    forall i, j :: 0 <= i < |rams| && 0 <= j < |rams| && rams[i] >= rams[j] ==>
      shards[j].end - shards[j].start <= shards[i].end - shards[i].start + 1
  }

  /** Cuts the layers by the given counts; fails at the first node that cannot hold its share. */
  method CutShards(counts: seq<int>, layers: nat, rams: seq<int>, modelSize: int) returns (shards: Option<seq<ShardSpec>>)
    requires layers > 0 && |rams| == |counts|
    ensures shards.None? <==> exists i :: 0 <= i < |rams| && !Fits(rams[i], counts[i], layers, modelSize)
    ensures shards.Some? ==> |shards.value| == |counts| && CutBy(shards.value, counts, layers)
  {
    hide Sum;
    EmptySum(counts);
    var specs: seq<ShardSpec> := [];
    var start := 0;
    for i := 0 to |counts|
      invariant |specs| == i && CutBy(specs, counts, layers) && start == Sum(counts[..i])
      invariant forall k :: 0 <= k < i ==> Fits(rams[k], counts[k], layers, modelSize)
    {
      PrefixStep(counts, i);
      var end := start + counts[i];
      specs := specs + [ShardSpec(start, end, start == 0, end == layers)];
      if rams[i] as real < modelSize as real * counts[i] as real / layers as real {
        assert !Fits(rams[i], counts[i], layers, modelSize);
        return None;
      }
      start := end;
    }
    shards := Some(specs);
  }

  lemma FractionsShape(rams: seq<int>)
    requires rams != []
    ensures |Fractions(rams)| == |rams| && SumReal(Clamped(Fractions(rams))) >= 1.0
  {
    FractionsSum(rams);
    ClampedSum(Fractions(rams));
  }

  /**
   compute_shards: fails exactly on bad sizes or when some node cannot hold its share; otherwise the
   shards tile [0, layers), follow the reported memory and fit. `base` rounds the exact shares of the
   memory by largest remainder, `counts` is the same once every node has a layer.
   */
  method ComputeShards(layers: int, worldSize: int, rams: seq<int>, modelSize: int)
    returns (shards: Option<seq<ShardSpec>>, ghost counts: seq<int>, ghost base: seq<int>)
    requires modelSize >= 0
    ensures worldSize <= 0 || layers < worldSize || |rams| != worldSize ==> shards.None?
    ensures worldSize > 0 && layers >= worldSize && |rams| == worldSize ==>
      |counts| == worldSize && AllPositive(counts) &&
      LargestRemainders(base, rams, layers) && Levelled(base, counts) && Sum(counts) == Sum(base) &&
      (AllPositive(base) ==> counts == base) &&
      (shards.None? <==> exists i :: 0 <= i < worldSize && !Fits(rams[i], counts[i], layers, modelSize))
    ensures shards.Some? ==> |shards.value| == worldSize && TilingSpecs(shards.value, layers)
    ensures shards.Some? ==> forall i :: 0 <= i < worldSize ==> shards.value[i].end - shards.value[i].start == counts[i]
    ensures shards.Some? ==> FollowsMemory(shards.value, rams)
    ensures shards.Some? ==> forall i :: 0 <= i < worldSize ==>
      Fits(rams[i], shards.value[i].end - shards.value[i].start, layers, modelSize)
  {
    hide Sum, SumReal, Clamped, Floors, Fractions, Quotas, Fits, FollowsQuotas, FollowsWithinOne, WithinOne, FollowsMemory,
         RemaindersFirst, Levelled, LargestRemainders;
    counts, base := [], [];
    if worldSize <= 0 || layers < worldSize || worldSize != |rams| {
      return None, counts, base;
    }
    FractionsShape(rams);
    RemainderIsSmall(Fractions(rams), layers);
    var given;
    given, base := Allocate(layers, Fractions(rams));
    counts := given.value;
    QuotaCount(Fractions(rams), layers);
    RoundedShares(base, rams, layers);
    shards := CutShards(given.value, layers, rams, modelSize);
    if shards.Some? {
      PlanIsSound(shards.value, counts, layers, rams, modelSize);
    }
  }

  lemma ShareIsNonNegative(modelSize: int, count: int, layers: nat)
    requires modelSize >= 0 && count >= 0 && layers > 0
    ensures modelSize as real * count as real / layers as real >= 0.0
  {
    assert modelSize as real * count as real >= 0.0;
  }

  /** Once every node fits, all memories are non-negative and the counts add up. */
  lemma PlanIsSound(specs: seq<ShardSpec>, counts: seq<int>, layers: nat, rams: seq<int>, modelSize: int)
    requires modelSize >= 0 && layers > 0 && |specs| == |counts| == |rams| > 0
    requires CutBy(specs, counts, layers) && AllPositive(counts)
    requires forall k :: 0 <= k < |rams| ==> Fits(rams[k], counts[k], layers, modelSize)
    requires |Fractions(rams)| == |rams| && FollowsWithinOne(counts, Quotas(Fractions(rams), layers))
    requires SumReal(Clamped(Fractions(rams))) == 1.0 ==> Sum(counts) == layers
    ensures TilingSpecs(specs, layers) && FollowsMemory(specs, rams)
    ensures forall i :: 0 <= i < |specs| ==> specs[i].end - specs[i].start == counts[i]
    ensures forall i :: 0 <= i < |specs| ==> Fits(rams[i], specs[i].end - specs[i].start, layers, modelSize)
  {
    hide Sum, SumReal, Quotas, Fits, CutAt, Fractions, Clamped;
    forall k | 0 <= k < |rams| ensures rams[k] >= 0 {
      FittingIsNonNegative(rams[k], counts[k], layers, modelSize);
    }
    FractionsSum(rams);
    NonNegativeFractions(rams);
    ClampedSum(Fractions(rams));
    CutsTile(specs, counts, layers);
    forall i, j | 0 <= i < |rams| && 0 <= j < |rams| && rams[i] >= rams[j]
      ensures specs[j].end - specs[j].start <= specs[i].end - specs[i].start + 1
    {
      QuotasFollowMemory(rams, layers, i, j);
      assert counts[j] <= counts[i] + 1;
    }
  }

  lemma FittingIsNonNegative(ram: int, count: int, layers: nat, modelSize: int)
    requires modelSize >= 0 && count >= 0 && layers > 0 && Fits(ram, count, layers, modelSize)
    ensures ram >= 0
  {
    ShareIsNonNegative(modelSize, count, layers);
  }

  lemma NonNegativeFractions(rams: seq<int>)
    requires rams != [] && forall k :: 0 <= k < |rams| ==> rams[k] >= 0
    ensures forall i :: 0 <= i < |Fractions(rams)| ==> Fractions(rams)[i] >= 0.0
  {
  }

  // ----- adopting a plan that the workers already hold

  /** What a worker reports about itself. */
  datatype Health = Health(modelLoaded: bool, shard: ShardSpec)

  /** The reported ranges are nonempty, all loaded, and follow one another through all layers. */
  predicate IsTilingPlan(health: seq<Health>, layers: int) {
    && (forall i :: 0 <= i < |health| ==> health[i].modelLoaded && health[i].shard.start < health[i].shard.end)
    && (|health| == 0 ==> layers == 0)
    && (|health| > 0 ==> health[0].shard.start == 0 && health[|health| - 1].shard.end == layers)
    && (forall i :: 0 < i < |health| ==> health[i].shard.start == health[i - 1].shard.end)
  }

  /** The coordinator keeps the workers' plan exactly when it tiles the model with nonempty shards. */
  method AdoptsPlan(health: seq<Health>, layers: int) returns (validPlan: bool)
    ensures validPlan <==> IsTilingPlan(health, layers)
  {
    var allPreloaded := true;
    for i := 0 to |health|
      invariant allPreloaded <==> forall k :: 0 <= k < i ==> health[k].modelLoaded && health[k].shard.start < health[k].shard.end
    {
      if !health[i].modelLoaded || health[i].shard.end <= health[i].shard.start {
        allPreloaded := false;
      }
    }
    validPlan := allPreloaded;
    if validPlan {
      var expected := 0;
      for i := 0 to |health|
        invariant validPlan && expected == if i == 0 then 0 else health[i - 1].shard.end
        invariant i > 0 ==> health[0].shard.start == 0
        invariant forall k :: 0 < k < i ==> health[k].shard.start == health[k - 1].shard.end
      {
        if health[i].shard.start != expected {
          return false;
        }
        expected := health[i].shard.end;
      }
      if expected != layers {
        validPlan := false;
      }
    }
  }
}
