/**
 What the key/value caches hold over whole runs: exactly the rows projected at the positions of this run. Inference with
 caches is therefore inference without them, on the single device and on every worker.
 */
module CacheHistory {
  import opened Bytes
  import opened LayerNames
  import opened RecordFile
  import opened ModelLoader
  import opened ShardFile
  import opened Float32
  import opened Protocol
  import opened Inference
  import opened Cluster

  // ----- the reference: everything recomputed from the tokens

  function WeightsOf(m: Model, i: nat): BlockWeights
    requires Complete(m) && i < m.cfg.layers
  {
    Resolve(m, i).value
  }

  /** The hidden state of position p before layer i, from the tokens up to p and no cache. */
  function Hidden(e: Engine, m: Model, toks: seq<int>, p: nat, i: nat): (x: Floats)
    requires ValidModel(m) && Complete(m) && p < |toks| && i <= m.cfg.layers
    ensures |x| == m.cfg.hidden
    decreases i, 0
  {
    if i == 0 then Embed(m, toks[p])
    else
      var w, x := WeightsOf(m, i - 1), Hidden(e, m, toks, p, i - 1);
      Resize(e.attend(w, m.cfg, x, e.project(w, m.cfg, p, x).0, Keys(e, m, toks, i - 1, p + 1), Values(e, m, toks, i - 1, p + 1)),
             m.cfg.hidden)
  }

  /** The key rows of layer i that the first n positions project. */
  function Keys(e: Engine, m: Model, toks: seq<int>, i: nat, n: nat): (rows: seq<Floats>)
    requires ValidModel(m) && Complete(m) && n <= |toks| && i < m.cfg.layers
    ensures |rows| == n
    decreases i, 1
  {
    seq(n, t requires 0 <= t < n => Resize(e.project(WeightsOf(m, i), m.cfg, t, Hidden(e, m, toks, t, i)).1, Width(m.cfg)))
  }

  function Values(e: Engine, m: Model, toks: seq<int>, i: nat, n: nat): (rows: seq<Floats>)
    requires ValidModel(m) && Complete(m) && n <= |toks| && i < m.cfg.layers
    ensures |rows| == n
    decreases i, 1
  {
    seq(n, t requires 0 <= t < n => Resize(e.project(WeightsOf(m, i), m.cfg, t, Hidden(e, m, toks, t, i)).2, Width(m.cfg)))
  }

  /** Later tokens do not change the states of earlier positions. */
  lemma {:induction false} HiddenIsCausal(e: Engine, m: Model, toks: seq<int>, more: seq<int>, p: nat, i: nat)
    requires ValidModel(m) && Complete(m) && p < |toks| && i <= m.cfg.layers
    ensures Hidden(e, m, toks + more, p, i) == Hidden(e, m, toks, p, i)
    decreases i, 0
  {
    hide Complete, Resize, WeightsOf, Embed;
    if i > 0 {
      HiddenIsCausal(e, m, toks, more, p, i - 1);
      RowsAreCausal(e, m, toks, more, i - 1, p + 1);
    }
  }

  lemma {:induction false} RowsAreCausal(e: Engine, m: Model, toks: seq<int>, more: seq<int>, i: nat, n: nat)
    requires ValidModel(m) && Complete(m) && n <= |toks| && i < m.cfg.layers
    ensures Keys(e, m, toks + more, i, n) == Keys(e, m, toks, i, n)
    ensures Values(e, m, toks + more, i, n) == Values(e, m, toks, i, n)
    decreases i, 1
  {
    hide Complete, Resize, WeightsOf, Hidden;
    forall t | 0 <= t < n ensures Hidden(e, m, toks + more, t, i) == Hidden(e, m, toks, t, i) {
      HiddenIsCausal(e, m, toks, more, t, i);
    }
  }

  // ----- the caches hold the reference rows

  ghost predicate LayerHolds(e: Engine, m: Model, toks: seq<int>, c: LayerCache, i: nat, n: nat)
    requires ValidModel(m) && Complete(m) && n <= |toks| && i < m.cfg.layers
  {
    ValidLayer(c, m.cfg) && HoldsHistory(c, m.cfg, Keys(e, m, toks, i, n), Values(e, m, toks, i, n))
  }

  /** After the given tokens every layer's cache holds exactly the rows of their positions. */
  ghost predicate HoldsRun(e: Engine, m: Model, toks: seq<int>, kv: seq<LayerCache>)
    requires ValidModel(m) && Complete(m)
  {
    |kv| == m.cfg.layers && forall i :: 0 <= i < m.cfg.layers ==> LayerHolds(e, m, toks, kv[i], i, |toks|)
  }

  lemma FreshHolds(e: Engine, m: Model)
    requires ValidModel(m) && Complete(m)
    ensures HoldsRun(e, m, [], FreshCaches(m.cfg))
  {
    hide Complete;
    forall i | 0 <= i < m.cfg.layers ensures LayerHolds(e, m, [], FreshCaches(m.cfg)[i], i, 0) {
      assert Keys(e, m, [], i, 0) == [] && Values(e, m, [], i, 0) == [];
    }
  }

  lemma RunIsValid(e: Engine, m: Model, toks: seq<int>, kv: seq<LayerCache>)
    requires ValidModel(m) && Complete(m) && HoldsRun(e, m, toks, kv)
    ensures ValidCaches(kv, m.cfg)
  {
    hide Complete, HoldsHistory;
  }

  lemma NextRows(e: Engine, m: Model, toks: seq<int>, i: nat, p: nat)
    requires ValidModel(m) && Complete(m) && p < |toks| && i < m.cfg.layers
    ensures var r := e.project(WeightsOf(m, i), m.cfg, p, Hidden(e, m, toks, p, i));
      && Keys(e, m, toks, i, p + 1) == Keys(e, m, toks, i, p) + [Resize(r.1, Width(m.cfg))]
      && Values(e, m, toks, i, p + 1) == Values(e, m, toks, i, p) + [Resize(r.2, Width(m.cfg))]
  {
    hide Complete, Resize, WeightsOf, Hidden, Width;
  }

  /** One block, from a cache that holds positions 0 to p - 1, does what the reference does. */
  lemma BlockIsReference(e: Engine, m: Model, toks: seq<int>, c: LayerCache, p: nat, i: nat)
    requires ValidModel(m) && Complete(m) && p < |toks| && p < m.cfg.maxPos && i < m.cfg.layers
    requires LayerHolds(e, m, toks, c, i, p)
    ensures var r := Block(e, m.cfg, WeightsOf(m, i), Hidden(e, m, toks, p, i), p, c);
      r.0 == Hidden(e, m, toks, p, i + 1) && LayerHolds(e, m, toks, r.1, i, p + 1)
  {
    hide Complete, Append, RowsOf, Keys, Values, Resize, WeightsOf, Width, Embed;
    var cfg := m.cfg;
    var (q, k, v) := e.project(WeightsOf(m, i), cfg, p, Hidden(e, m, toks, p, i));
    ResizedLength(k, Width(cfg));
    ResizedLength(v, Width(cfg));
    RowCounts(e, m, toks, i, p);
    AppendExtendsHistory(c, cfg, Keys(e, m, toks, i, p), Values(e, m, toks, i, p), Resize(k, Width(cfg)), Resize(v, Width(cfg)));
    NextRows(e, m, toks, i, p);
    AppendKeepsValid(c, cfg, Resize(k, Width(cfg)), Resize(v, Width(cfg)), p);
  }

  lemma ResizedLength(row: Floats, n: nat)
    ensures |Resize(row, n)| == n
  {
  }

  lemma RowCounts(e: Engine, m: Model, toks: seq<int>, i: nat, n: nat)
    requires ValidModel(m) && Complete(m) && n <= |toks| && i < m.cfg.layers
    ensures |Keys(e, m, toks, i, n)| == |Values(e, m, toks, i, n)| == n
  {
  }

  lemma AppendKeepsValid(c: LayerCache, cfg: Config, k: Floats, v: Floats, pos: int)
    requires ValidLayer(c, cfg) && |k| == |v| == Width(cfg)
    ensures ValidLayer(Append(c, cfg, k, v, pos), cfg)
  {
  }

  /** Blocks i to the last one at position p: earlier layers already hold it, the others follow. */
  lemma {:induction false} ChainIsReference(e: Engine, m: Model, toks: seq<int>, kv: seq<LayerCache>, p: nat, i: nat)
    requires ValidModel(m) && Complete(m) && p < |toks| && p < m.cfg.maxPos && i <= m.cfg.layers
    requires ValidCaches(kv, m.cfg)
    requires forall l :: 0 <= l < m.cfg.layers ==> LayerHolds(e, m, toks, kv[l], l, if l < i then p + 1 else p)
    ensures var r := Chain(e, m, kv, Hidden(e, m, toks, p, i), p, i, m.cfg.layers);
      && r.Some? && r.value.1 == Hidden(e, m, toks, p, m.cfg.layers)
      && forall l :: 0 <= l < m.cfg.layers ==> LayerHolds(e, m, toks, r.value.0[l], l, p + 1)
    decreases m.cfg.layers - i
  {
    hide LayerHolds, Hidden, Block, ValidLayer;
    if i < m.cfg.layers {
      BlockIsReference(e, m, toks, kv[i], p, i);
      var (x, c) := Block(e, m.cfg, WeightsOf(m, i), Hidden(e, m, toks, p, i), p, kv[i]);
      LayerIsValid(e, m, toks, c, i, p + 1);
      ChainIsReference(e, m, toks, kv[i := c], p, i + 1);
    }
  }

  lemma LayerIsValid(e: Engine, m: Model, toks: seq<int>, c: LayerCache, i: nat, n: nat)
    requires ValidModel(m) && Complete(m) && n <= |toks| && i < m.cfg.layers && LayerHolds(e, m, toks, c, i, n)
    ensures ValidLayer(c, m.cfg)
  {
    hide HoldsHistory;
  }

  /** One more token: the caches hold its rows too, and the logits are the reference's. */
  lemma ForwardIsReference(e: Engine, m: Model, kv: seq<LayerCache>, toks: seq<int>, tok: int)
    requires ValidModel(m) && Complete(m) && HoldsRun(e, m, toks, kv) && |toks| < m.cfg.maxPos
    ensures ValidCaches(kv, m.cfg)
    ensures var r := Forward(e, m, kv, tok, |toks|);
      && r.Some? && HoldsRun(e, m, toks + [tok], r.value.0)
      && r.value.1 == Logits(e, m, Hidden(e, m, toks + [tok], |toks|, m.cfg.layers))
  {
    var all, p := toks + [tok], |toks|;
    hide Chain, Logits, HoldsHistory, Keys, Values, Complete;
    RunIsValid(e, m, toks, kv);
    forall l | 0 <= l < m.cfg.layers ensures LayerHolds(e, m, all, kv[l], l, p) {
      RowsAreCausal(e, m, toks, [tok], l, p);
    }
    hide LayerHolds;
    ChainIsReference(e, m, all, kv, p, 0);
    assert Hidden(e, m, all, p, 0) == Embed(m, tok);
  }

  lemma {:induction false} PrefillIsReference(e: Engine, m: Model, kv: seq<LayerCache>, toks: seq<int>, pos: nat, n: nat)
    requires ValidModel(m) && Complete(m) && pos <= n <= |toks| && n <= m.cfg.maxPos
    requires HoldsRun(e, m, toks[..pos], kv)
    ensures ValidCaches(kv, m.cfg)
    ensures Prefill(e, m, kv, toks, pos, n).Some? && HoldsRun(e, m, toks[..n], Prefill(e, m, kv, toks, pos, n).value)
    decreases n - pos
  {
    hide Forward, HoldsRun, Hidden, Complete;
    RunIsValid(e, m, toks[..pos], kv);
    if pos < n {
      ForwardIsReference(e, m, kv, toks[..pos], toks[pos]);
      assert toks[..pos] + [toks[pos]] == toks[..pos + 1];
      PrefillIsReference(e, m, Forward(e, m, kv, toks[pos], pos).value.0, toks, pos + 1, n);
    }
  }

  /**
   From a fresh cache, after any tokens at positions 0 to n - 1: every layer's cache has length n and its strided
   reads are exactly the key and value rows projected at those positions in this run.
   */
  lemma CachesHoldRun(e: Engine, m: Model, toks: seq<int>)
    requires ValidModel(m) && Complete(m) && |toks| <= m.cfg.maxPos
    ensures var kv := Prefill(e, m, FreshCaches(m.cfg), toks, 0, |toks|);
      && kv.Some? && |kv.value| == m.cfg.layers
      && forall i :: 0 <= i < m.cfg.layers ==>
           && ValidLayer(kv.value[i], m.cfg) && kv.value[i].len == |toks|
           && HoldsHistory(kv.value[i], m.cfg, Keys(e, m, toks, i, |toks|), Values(e, m, toks, i, |toks|))
  {
    hide Complete, Keys, Values, Prefill, FreshCaches;
    FreshHolds(e, m);
    assert toks[..0] == [] && toks[..|toks|] == toks;
    PrefillIsReference(e, m, FreshCaches(m.cfg), toks, 0, |toks|);
  }

  /** What attention reads at any position of the run: element j of head h of the row of time t. */
  lemma AttentionReads(e: Engine, m: Model, toks: seq<int>, c: LayerCache, i: nat, n: nat, t: nat, h: nat, j: nat)
    requires ValidModel(m) && Complete(m) && n <= |toks| && i < m.cfg.layers && LayerHolds(e, m, toks, c, i, n)
    requires t < n && h < m.cfg.kvHeads && j < m.cfg.headDim
    ensures var at, el := HeadOffset(m.cfg, h) + RowStart(m.cfg, t) + j, HeadOffset(m.cfg, h) + j;
      && at < |c.k| && at < |c.v| && el < |Keys(e, m, toks, i, n)[t]| && el < |Values(e, m, toks, i, n)[t]|
      && c.k[at] == Keys(e, m, toks, i, n)[t][el] && c.v[at] == Values(e, m, toks, i, n)[t][el]
  {
    hide Complete, Keys, Values, HoldsHistory, HeadOffset, RowStart;
    RowCounts(e, m, toks, i, n);
    HistoryLength(c, m.cfg, Keys(e, m, toks, i, n), Values(e, m, toks, i, n));
    StridedRead(c, m.cfg, Keys(e, m, toks, i, n), Values(e, m, toks, i, n), t, h, j);
  }

  lemma HistoryLength(c: LayerCache, cfg: Config, ks: seq<Floats>, vs: seq<Floats>)
    requires ValidLayer(c, cfg) && HoldsHistory(c, cfg, ks, vs)
    ensures c.len == |ks| == |vs|
  {
  }

  // ----- generation without caches

  /** The tokens that follow, each the first maximum of the reference logits. */
  function ReferenceDecode(e: Engine, m: Model, toks: seq<int>, next: int, budget: nat, goOn: int -> bool): seq<int>
    requires ValidModel(m) && Complete(m)
    decreases budget
  {
    if budget == 0 then []
    else
      var all := toks + [next];
      var t := MaxElement(e.less, Logits(e, m, Hidden(e, m, all, |toks|, m.cfg.layers)), m.cfg.vocab);
      if !goOn(t) || t == m.cfg.eos then [t] else [t] + ReferenceDecode(e, m, all, t, budget - 1, goOn)
  }

  function ReferenceGenerate(e: Engine, m: Model, prompt: seq<int>, maxTokens: int, goOn: int -> bool): seq<int>
    requires ValidModel(m) && Complete(m)
  {
    var n := PromptLength(m.cfg, prompt);
    var next := if n > 0 then prompt[n - 1] else if m.cfg.eos >= 0 then m.cfg.eos else 0;
    ReferenceDecode(e, m, prompt[..n], next, Budget(m.cfg, n, maxTokens), goOn)
  }

  lemma {:induction false} DecodeIsReference(
      e: Engine, m: Model, kv: seq<LayerCache>, toks: seq<int>, next: int, budget: nat, goOn: int -> bool)
    requires ValidModel(m) && Complete(m) && HoldsRun(e, m, toks, kv) && |toks| + budget <= m.cfg.maxPos
    ensures ValidCaches(kv, m.cfg)
    ensures Decode(e, m, kv, next, |toks|, budget, goOn) == Some(ReferenceDecode(e, m, toks, next, budget, goOn))
    decreases budget
  {
    hide Forward, HoldsRun, Hidden, Complete, Logits, MaxElement;
    RunIsValid(e, m, toks, kv);
    if budget > 0 {
      ForwardIsReference(e, m, kv, toks, next);
      var (kv', logits) := Forward(e, m, kv, next, |toks|).value;
      DecodeIsReference(e, m, kv', toks + [next], MaxElement(e.less, logits, m.cfg.vocab), budget - 1, goOn);
    }
  }

  /** Generating with key/value caches is generating without them, for every prompt and budget. */
  lemma GenerateIsReference(e: Engine, m: Model, prompt: seq<int>, maxTokens: int, goOn: int -> bool)
    requires ValidModel(m) && Complete(m)
    ensures Generate(e, m, prompt, maxTokens, goOn) == Some(ReferenceGenerate(e, m, prompt, maxTokens, goOn))
  {
    hide Complete, Prefill, Decode, ReferenceDecode, FreshCaches, HoldsRun;
    var n := PromptLength(m.cfg, prompt);
    FreshHolds(e, m);
    assert prompt[..0] == [];
    PrefillIsReference(e, m, FreshCaches(m.cfg), prompt, 0, n);
    var kv := Prefill(e, m, FreshCaches(m.cfg), prompt, 0, n).value;
    var next := if n > 0 then prompt[n - 1] else if m.cfg.eos >= 0 then m.cfg.eos else 0;
    DecodeIsReference(e, m, kv, prompt[..n], next, Budget(m.cfg, n, maxTokens), goOn);
  }

  // ----- the workers

  /** The cluster generates what inference without caches does exactly on supported prompts. */
  lemma ClusterIsReference(e: Engine, shards: seq<Shard>, m: Model, prompt: seq<int>, maxTokens: int, goOn: int -> bool)
    requires ValidPlan(shards, m) && Complete(m) && Portable(m.cfg) && m.cfg.maxPos <= INT_MAX && AllInt32(prompt)
    ensures ValidModel(m) && forall w :: 0 <= w < |shards| ==> ValidShard(shards[w])
    ensures ClusterGenerate(e, shards, m.cfg, prompt, maxTokens, goOn) == Some(ReferenceGenerate(e, m, prompt, maxTokens, goOn))
      <==> Supported(m, prompt, maxTokens)
  {
    hide Complete, Represents, ClusterGenerate, Generate, ReferenceGenerate, Supported, ValidShard;
    ClusterMatchesSingleDevice(e, shards, m, prompt, maxTokens, goOn);
    GenerateIsReference(e, m, prompt, maxTokens, goOn);
  }

  /** After any tokens through the pipeline every worker's caches hold the run's rows for its own layers. */
  lemma WorkersHoldRun(e: Engine, shards: seq<Shard>, m: Model, toks: seq<int>)
    requires ValidPlan(shards, m) && Complete(m) && Portable(m.cfg) && m.cfg.maxPos <= INT_MAX
    requires AllInt32(toks) && |toks| <= m.cfg.maxPos
    ensures ValidModel(m) && forall w :: 0 <= w < |shards| ==> ValidShard(shards[w]) && shards[w].end <= m.cfg.layers
    ensures var got := ClusterPrefill(e, shards, FreshWorkers(shards), toks, 0);
      && (got.Some? <==> toks == [] || (Lookup(m.layers, LM_HEAD).Some? && PromptInVocab(m.cfg, toks, 0)))
      && (got.Some? ==> |got.value| == |shards| && forall w :: 0 <= w < |shards| ==> OwnLayersHold(e, m, toks, shards[w], got.value[w]))
  {
    hide Complete, Lookup, InVocab, ClusterPrefill, Prefill, HoldsRun, FreshCaches, FreshWorkers;
    PlanIsValid(shards, m);
    FreshInStep(shards, m);
    forall w | 0 <= w < |shards| ensures shards[w].end <= m.cfg.layers {
      assert Represents(shards[w], m);
    }
    hide ValidPlan, InStep;
    PrefillRefines(e, shards, m, FreshWorkers(shards), FreshCaches(m.cfg), toks, 0);
    FreshHolds(e, m);
    assert toks[..0] == [] && toks[..|toks|] == toks;
    PrefillIsReference(e, m, FreshCaches(m.cfg), toks, 0, |toks|);
    var got := ClusterPrefill(e, shards, FreshWorkers(shards), toks, 0);
    if got.Some? {
      var kv := Prefill(e, m, FreshCaches(m.cfg), toks, 0, |toks|).value;
      forall w | 0 <= w < |shards| ensures OwnLayersHold(e, m, toks, shards[w], got.value[w]) {
        InStepAt(shards, got.value, kv, w);
        StepHolds(e, m, toks, shards[w], got.value[w], kv);
      }
    }
  }

  ghost predicate OwnLayersHold(e: Engine, m: Model, toks: seq<int>, s: Shard, mine: seq<LayerCache>)
    requires ValidModel(m) && Complete(m) && s.end <= m.cfg.layers
  {
    s.end <= |mine| && forall i :: s.start <= i < s.end ==> LayerHolds(e, m, toks, mine[i], i, |toks|)
  }

  lemma StepHolds(e: Engine, m: Model, toks: seq<int>, s: Shard, mine: seq<LayerCache>, kv: seq<LayerCache>)
    requires ValidModel(m) && Complete(m) && s.end <= m.cfg.layers
    requires OwnsSameCaches(s, mine, kv) && HoldsRun(e, m, toks, kv)
    ensures OwnLayersHold(e, m, toks, s, mine)
  {
    hide LayerHolds, Complete;
  }

  /** Each step of the decoding loop is one more token of such a run. */
  lemma {:induction false} StepsAreRuns(e: Engine, shards: seq<Shard>, kvs: seq<seq<LayerCache>>, toks: seq<int>, tok: int, pos: nat)
    requires ValidWorkers(shards, kvs) && AllInt32(toks) && IsInt32(tok) && pos <= |toks| < INT_MAX
    ensures ClusterPrefill(e, shards, kvs, toks + [tok], pos)
      == match ClusterPrefill(e, shards, kvs, toks, pos)
         case None => None
         case Some(reached) =>
           match TokenStep(e, shards, reached, tok, |toks|) { case None => None case Some((after, _)) => Some(after) }
    decreases |toks| - pos
  {
    hide TokenStep;
    if pos < |toks| {
      var r := TokenStep(e, shards, kvs, toks[pos], pos);
      if r.Some? {
        StepsAreRuns(e, shards, r.value.0, toks, tok, pos + 1);
      }
    }
  }
}
