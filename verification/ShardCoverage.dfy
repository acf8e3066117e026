/** Over a tiling plan, every layer record and the output head land in exactly one shard, in file order. */
module ShardCoverage {
  import opened Bytes
  import opened LayerNames
  import opened RecordFile
  import opened ShardFile
  import opened ModelLoader

  /** Whether the shard of a spec keeps a record of this name. */
  predicate Keeps(spec: ShardSpec, name: string) {
    InShard(name, spec.start, spec.end, spec.isLast)
  }

  /** The records that some shard should hold: those of layers 0 to layers - 1, and the output head. */
  predicate Needed(name: string, layers: nat) {
    (ParseLayerIndex(name).Layer? && ParseLayerIndex(name).n < layers) || name == LM_HEAD
  }

  ghost predicate OnlyShard(specs: seq<ShardSpec>, name: string, w: nat) {
    && w < |specs| && Keeps(specs[w], name)
    && forall v :: 0 <= v < |specs| && Keeps(specs[v], name) ==> v == w
  }

  /** The shard whose range holds a layer, searched among the first m. */
  function Owner(specs: seq<ShardSpec>, n: nat, m: nat): (w: nat)
    requires 0 < m <= |specs|
    ensures w < m
  {
    if m == 1 || specs[m - 1].start <= n then m - 1 else Owner(specs, n, m - 1)
  }

  lemma {:induction false} OwnerHolds(specs: seq<ShardSpec>, layers: nat, n: nat, m: nat)
    requires TilingSpecs(specs, layers) && 0 < m <= |specs| && n < specs[m - 1].end
    ensures var w := Owner(specs, n, m); specs[w].start <= n < specs[w].end
  {
    if m > 1 && n < specs[m - 1].start {
      OwnerHolds(specs, layers, n, m - 1);
    }
  }

  /** Ranges of different shards do not meet, and only the last one reaches the end. */
  lemma RangesApart(specs: seq<ShardSpec>, layers: nat, v: nat, w: nat)
    requires TilingSpecs(specs, layers) && v < w < |specs|
    ensures specs[v].end <= specs[w].start && specs[v].end < layers && !specs[v].isLast
  {
    SpecsIncrease(specs, layers, v + 1, w);
    SpecBounds(specs, layers, w);
  }

  /** A record is kept by exactly one shard if it is needed, and by none otherwise. */
  lemma NeededOnce(specs: seq<ShardSpec>, layers: nat, name: string)
    requires TilingSpecs(specs, layers)
    ensures Needed(name, layers) ==> exists w :: OnlyShard(specs, name, w)
    ensures !Needed(name, layers) ==> forall w :: 0 <= w < |specs| ==> !Keeps(specs[w], name)
  {
    hide ParseLayerIndex;
    HeadIsNotLayer();
    forall w | 0 <= w < |specs| ensures specs[w].end <= layers && (specs[w].isLast <==> w == |specs| - 1) {
      SpecBounds(specs, layers, w);
      if w < |specs| - 1 {
        RangesApart(specs, layers, w, |specs| - 1);
      }
    }
    if Needed(name, layers) {
      var w := if name == LM_HEAD then |specs| - 1 else Owner(specs, ParseLayerIndex(name).n, |specs|);
      if name != LM_HEAD {
        OwnerHolds(specs, layers, ParseLayerIndex(name).n, |specs|);
      }
      forall v | 0 <= v < |specs| && Keeps(specs[v], name) ensures v == w {
        if v < w {
          RangesApart(specs, layers, v, w);
        } else if w < v {
          RangesApart(specs, layers, w, v);
        }
      }
      assert OnlyShard(specs, name, w);
    }
  }

  // ----- the slices of a file

  /** Positions from k on of the records that a shard keeps. */
  function Kept(ls: seq<LayerData>, spec: ShardSpec, k: nat): (ps: seq<nat>)
    requires k <= |ls|
    ensures forall i :: 0 <= i < |ps| ==> k <= ps[i] < |ls|
    ensures forall i, j :: 0 <= i < j < |ps| ==> ps[i] < ps[j]
    ensures forall p :: k <= p < |ls| ==> (p in ps <==> Keeps(spec, ls[p].name))
    decreases |ls| - k
  {
    if k == |ls| then []
    else if Keeps(spec, ls[k].name) then [k] + Kept(ls, spec, k + 1)
    else Kept(ls, spec, k + 1)
  }

  function RecordsAt(ls: seq<LayerData>, ps: seq<nat>): seq<LayerData>
    requires forall i :: 0 <= i < |ps| ==> ps[i] < |ls|
  {
    seq(|ps|, i requires 0 <= i < |ps| => ls[ps[i]])
  }

  lemma {:induction false} SelectIsKept(ls: seq<LayerData>, spec: ShardSpec, k: nat)
    requires k <= |ls|
    ensures Select(ls[k..], ShardKeeps(spec.start, spec.end, spec.isLast)) == RecordsAt(ls, Kept(ls, spec, k))
    decreases |ls| - k
  {
    hide InShard, RecordsAt;
    if k == |ls| {
      NoRecords(ls);
    } else {
      SelectIsKept(ls, spec, k + 1);
      assert ls[k..][1..] == ls[k + 1..];
      if Keeps(spec, ls[k].name) {
        ConsRecords(ls, k, Kept(ls, spec, k + 1));
      }
    }
  }

  lemma NoRecords(ls: seq<LayerData>)
    ensures RecordsAt(ls, []) == []
  {
  }

  lemma ConsRecords(ls: seq<LayerData>, k: nat, ps: seq<nat>)
    requires k < |ls| && forall i :: 0 <= i < |ps| ==> ps[i] < |ls|
    ensures forall i :: 0 <= i < |[k] + ps| ==> ([k] + ps)[i] < |ls|
    ensures RecordsAt(ls, [k] + ps) == [ls[k]] + RecordsAt(ls, ps)
  {
  }

  /** Record k of the file is in the slice of shard w. */
  predicate Holds(ls: seq<LayerData>, specs: seq<ShardSpec>, w: nat, k: nat)
    requires w < |specs|
  {
    k in Kept(ls, specs[w], 0)
  }

  ghost predicate HeldOnce(ls: seq<LayerData>, specs: seq<ShardSpec>, k: nat) {
    exists w :: 0 <= w < |specs| && Holds(ls, specs, w, k) && forall v :: 0 <= v < |specs| && Holds(ls, specs, v, k) ==> v == w
  }

  ghost predicate HeldNowhere(ls: seq<LayerData>, specs: seq<ShardSpec>, k: nat) {
    forall w :: 0 <= w < |specs| ==> !Holds(ls, specs, w, k)
  }

  /**
   The slices that the shards of a tiling plan read from one file, as increasing lists of positions in it:
   every record of a layer of the model, and every lm_head record, is in exactly one of them, any other in none.
   */
  lemma ShardsPartitionFile(file: seq<Byte>, specs: seq<ShardSpec>, layers: nat)
    requires TilingSpecs(specs, layers)
    ensures Load(file).Some? && !SomeTooLarge(Load(file).value) ==>
      var ls := Load(file).value;
      && (forall w :: 0 <= w < |specs| ==>
            LoadRange(file, specs[w].start, specs[w].end, specs[w].isLast) == Some(RecordsAt(ls, Kept(ls, specs[w], 0))))
      && (forall k :: 0 <= k < |ls| ==> if Needed(ls[k].name, layers) then HeldOnce(ls, specs, k) else HeldNowhere(ls, specs, k))
  {
    hide Load, LoadRange, SomeTooLarge, InShard, Needed, Select, TilingSpecs;
    if Load(file).Some? && !SomeTooLarge(Load(file).value) {
      var ls := Load(file).value;
      forall w | 0 <= w < |specs|
        ensures LoadRange(file, specs[w].start, specs[w].end, specs[w].isLast) == Some(RecordsAt(ls, Kept(ls, specs[w], 0)))
      {
        SpecBounds(specs, layers, w);
        LoadRangeSelects(file, specs[w].start, specs[w].end, specs[w].isLast);
        SelectIsKept(ls, specs[w], 0);
        assert ls[0..] == ls;
      }
      forall k | 0 <= k < |ls|
        ensures if Needed(ls[k].name, layers) then HeldOnce(ls, specs, k) else HeldNowhere(ls, specs, k)
      {
        NeededOnce(specs, layers, ls[k].name);
        KeptWhereKeeps(ls, specs, k);
      }
    }
  }

  lemma KeptWhereKeeps(ls: seq<LayerData>, specs: seq<ShardSpec>, k: nat)
    requires k < |ls|
    ensures forall w :: 0 <= w < |specs| ==> (Holds(ls, specs, w, k) <==> Keeps(specs[w], ls[k].name))
    ensures (exists w :: OnlyShard(specs, ls[k].name, w)) ==> HeldOnce(ls, specs, k)
  {
    hide Keeps;
    forall w | 0 <= w < |specs| ensures Holds(ls, specs, w, k) <==> Keeps(specs[w], ls[k].name) {
    }
    hide Holds;
    if w: nat :| OnlyShard(specs, ls[k].name, w) {
      assert Holds(ls, specs, w, k);
    }
  }
}
