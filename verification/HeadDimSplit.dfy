/**
 The other half of the cluster's promise: when only the first shard learns the model's head dimension, some
 arithmetic of the blocks and the head tells the cluster's tokens from a single device's.
 */
module HeadDimSplit {
  import opened Bytes
  import opened LayerNames
  import opened RecordFile
  import opened ShardFile
  import opened ModelLoader
  import opened Inference
  import opened Float32
  import opened Protocol
  import opened Cluster

  /** An interpretation whose output head prefers token 0 at head dimension d and token 1 at any other. */
  function Telling(d: nat): Engine {
    Engine(
      (w: BlockWeights, cfg: Config, pos: int, x: Floats) => ([], [], []),
      (w: BlockWeights, cfg: Config, x: Floats, q: Floats, ks: seq<Floats>, vs: seq<Floats>) => [],
      (l: LayerData, cfg: Config, norm: Floats, x: Floats) => if cfg.headDim == d then [1, 0] else [0, 1],
      (embedding: Floats, cfg: Config, norm: Floats, x: Floats) => [],
      (a: Word, b: Word) => a < b)
  }

  /** Logits with a one at index k and zeros elsewhere. */
  predicate OneAt(logits: Floats, k: nat) {
    k < |logits| && forall i :: 0 <= i < |logits| ==> logits[i] == if i == k then 1 else 0
  }

  lemma {:induction false} MaxIsOne(logits: Floats, k: nat, n: nat, d: nat)
    requires OneAt(logits, k) && k < 2 <= n <= |logits|
    ensures MaxElement(Telling(d).less, logits, n) == k
  {
    if n > 2 {
      MaxIsOne(logits, k, n - 1, d);
    } else {
      assert MaxElement(Telling(d).less, logits, 1) == 0;
    }
  }

  // ----- the single device

  lemma SingleLogits(m: Model, x: Floats)
    requires Lookup(m.layers, LM_HEAD).Some? && m.cfg.vocab >= 2
    ensures OneAt(Logits(Telling(m.cfg.headDim), m, x), 0)
  {
    hide Lookup;
  }

  /** The first token that a nonempty decoding returns. */
  lemma SingleStartsWithZero(m: Model, kv: seq<LayerCache>, next: int, pos: nat, budget: nat, goOn: int -> bool)
    requires ValidModel(m) && ValidCaches(kv, m.cfg) && budget > 0
    requires Lookup(m.layers, LM_HEAD).Some? && m.cfg.vocab >= 2
    ensures var r := Decode(Telling(m.cfg.headDim), m, kv, next, pos, budget, goOn); r.Some? ==> r.value != [] && r.value[0] == 0
  {
    hide Chain, Lookup, Logits, MaxElement, Telling;
    var e := Telling(m.cfg.headDim);
    var r := Chain(e, m, kv, Embed(m, next), pos, 0, m.cfg.layers);
    if r.Some? {
      SingleLogits(m, r.value.1);
      MaxIsOne(Logits(e, m, r.value.1), 0, m.cfg.vocab, m.cfg.headDim);
    }
  }

  // ----- the cluster

  /** What the last worker answers with arrives unchanged. */
  lemma LastHop(s: Shard, kv: seq<LayerCache>, pos: int, kind: Word, data: Floats, d: nat)
    requires ValidShard(s) && ValidCaches(kv, s.model.cfg) && IsInt32(pos)
    requires s.isLast && s.model.cfg.headDim != d && 2 <= s.model.cfg.vocab <= 0x100_0000
    ensures var o := Hop(Telling(d), s, kv, pos, kind, data); o.Some? ==> OneAt(o.value.1, 1)
  {
    hide ParseRequest, RequestBytes, ResponseBytes, ParseResponse, InputState, Chain, Lookup, Telling, OneAt, OutputState;
    var r := Delivered(Request(pos, kind, data));
    if r.Some? && WorkerForward(Telling(d), s, kv, r.value).Some? {
      LastOutput(s, WorkerForward(Telling(d), s, kv, r.value).value.1, d);
    }
  }

  lemma LastOutput(s: Shard, out: Floats, d: nat)
    requires s.isLast && s.model.cfg.headDim != d && s.model.cfg.vocab >= 2
    requires exists x :: OutputState(Telling(d), s, x) == Some(out)
    ensures |out| == s.model.cfg.vocab && OneAt(out, 1)
  {
    hide Lookup;
  }

  /** From any worker on: if the pipeline answers, it prefers token 1. */
  lemma {:induction false} PipelinePrefersOne(
      shards: seq<Shard>, kvs: seq<seq<LayerCache>>, w: nat, pos: int, kind: Word, data: Floats, d: nat)
    requires w < |shards| && ValidWorkers(shards, kvs) && IsInt32(pos)
    requires var s := shards[|shards| - 1]; s.isLast && s.model.cfg.headDim != d && 2 <= s.model.cfg.vocab <= 0x100_0000
    ensures var o := PipelineFrom(Telling(d), shards, kvs, w, pos, kind, data); o.Some? ==> OneAt(o.value.1, 1)
    decreases |shards| - w
  {
    hide Hop, Telling, OneAt, ValidCaches, ValidShard;
    var o := Hop(Telling(d), shards[w], kvs[w], pos, kind, data);
    if o.Some? {
      if w + 1 < |shards| {
        PipelinePrefersOne(shards, kvs[w := o.value.0], w + 1, pos, INPUT_HIDDEN, o.value.1, d);
      } else {
        LastHop(shards[w], kvs[w], pos, kind, data, d);
      }
    }
  }

  lemma ClusterStartsWithOne(
      shards: seq<Shard>, cfg: Config, kvs: seq<seq<LayerCache>>, next: int, pos: nat, budget: nat, goOn: int -> bool, d: nat)
    requires ValidWorkers(shards, kvs) && pos + budget <= INT_MAX && IsInt32(next) && 2 <= cfg.vocab <= INT_MAX
    requires |shards| > 0 && budget > 0
    requires var s := shards[|shards| - 1]; s.isLast && s.model.cfg.headDim != d && 2 <= s.model.cfg.vocab <= 0x100_0000
    ensures var r := ClusterDecode(Telling(d), shards, cfg, kvs, next, pos, budget, goOn);
      r.Some? ==> r.value != [] && r.value[0] == 1
  {
    hide PipelineFrom, MaxElement, Telling, ValidCaches, ValidShard;
    PipelinePrefersOne(shards, kvs, 0, pos, INPUT_TOKEN, [FloatOfInt(next)], d);
    var o := TokenStep(Telling(d), shards, kvs, next, pos);
    if o.Some? && |o.value.1| >= cfg.vocab {
      MaxIsOne(o.value.1, 1, cfg.vocab, d);
    }
  }

  /** If the last shard works with another head dimension, this interpretation gives other tokens. */
  lemma TokensDiffer(shards: seq<Shard>, m: Model, prompt: seq<int>, maxTokens: int, goOn: int -> bool)
    requires (forall w :: 0 <= w < |shards| ==> ValidShard(shards[w])) && |shards| > 0 && ValidCoordinatorConfig(m.cfg)
    requires ValidModel(m) && Complete(m) && AllInt32(prompt) && Supported(m, prompt, maxTokens) && maxTokens > 0
    requires var s := shards[|shards| - 1];
      s.isLast && s.model.cfg.headDim != m.cfg.headDim && 2 <= s.model.cfg.vocab <= 0x100_0000 && m.cfg.vocab >= 2
    ensures ClusterGenerate(Telling(m.cfg.headDim), shards, m.cfg, prompt, maxTokens, goOn)
         != Generate(Telling(m.cfg.headDim), m, prompt, maxTokens, goOn)
  {
    hide Telling, ClusterPrefill, ClusterDecode, Prefill, Decode, FreshCaches, FreshWorkers, Complete, Lookup, PromptInVocab;
    var d, n, e := m.cfg.headDim, |prompt|, Telling(m.cfg.headDim);
    GenerateTotal(e, m, prompt, maxTokens, goOn);
    var budget := Budget(m.cfg, n, maxTokens);
    var kv := Prefill(e, m, FreshCaches(m.cfg), prompt, 0, n).value;
    SingleStartsWithZero(m, kv, prompt[n - 1], n, budget, goOn);
    var kvs := ClusterPrefill(e, shards, FreshWorkers(shards), prompt, 0);
    if kvs.Some? {
      ClusterStartsWithOne(shards, m.cfg, kvs.value, prompt[n - 1], n, budget, goOn, d);
    }
  }

  // ----- shards loaded from files

  /** A shard that does not own layer 0 keeps the head dimension of the configuration file. */
  lemma LaterShard(x: Extra, file: seq<Byte>, spec: ShardSpec)
    requires ValidExtra(x) && Load(file).Some? && !SomeTooLarge(Load(file).value)
    requires 0 < spec.start <= spec.end <= x.cfg.layers && LoadShard(x, file, spec).Some?
    ensures LoadShard(x, file, spec).value.model.cfg == x.cfg
  {
    hide Load, LoadRange, SomeTooLarge, Lookup, SomeNormTooLarge, ParseLayerIndex;
    LoadRangeSelects(file, spec.start, spec.end, spec.isLast);
    FirstLayerName();
    DroppedNameIsAbsent(Load(file).value, ShardKeeps(spec.start, spec.end, spec.isLast), FIRST_Q_PROJ);
  }

  lemma LoadedShardIsValid(x: Extra, file: seq<Byte>, spec: ShardSpec)
    requires ValidExtra(x) && LoadShard(x, file, spec).Some?
    requires 0 <= spec.start < spec.end <= x.cfg.layers && (spec.isFirst <==> spec.start == 0)
    ensures ValidShard(LoadShard(x, file, spec).value)
    ensures LoadShard(x, file, spec).value.isLast <==> spec.end == x.cfg.layers
  {
    hide LoadRange, Lookup, SomeNormTooLarge;
  }

  /** The fix-up changes at most the head dimension. */
  lemma FixupIsHeadDim(x: Extra, file: seq<Byte>)
    requires ValidExtra(x) && LoadModel(x, file).Some?
    ensures LoadModel(x, file).value.cfg == x.cfg <==> LoadModel(x, file).value.cfg.headDim == x.cfg.headDim
  {
    hide Load, Lookup, SomeNormTooLarge;
    FixupKeepsRest(x.cfg, Load(file).value);
  }

  lemma LoadedShardsAreValid(x: Extra, file: seq<Byte>, specs: seq<ShardSpec>, shards: seq<Shard>)
    requires ValidExtra(x) && TilingSpecs(specs, x.cfg.layers) && |shards| == |specs|
    requires forall w :: 0 <= w < |specs| ==> LoadShard(x, file, specs[w]) == Some(shards[w])
    ensures forall w :: 0 <= w < |shards| ==> ValidShard(shards[w])
    ensures shards[|shards| - 1].isLast
  {
    hide LoadShard, ValidShard;
    forall w | 0 <= w < |shards| ensures ValidShard(shards[w]) {
      SpecBounds(specs, x.cfg.layers, w);
      LoadedShardIsValid(x, file, specs[w]);
    }
    SpecBounds(specs, x.cfg.layers, |specs| - 1);
    LoadedShardIsValid(x, file, specs[|specs| - 1]);
  }

  /** With the fix-up in effect and more than one shard, one interpretation tells the cluster from the model. */
  lemma SplitTokensDiffer(
      x: Extra, file: seq<Byte>, specs: seq<ShardSpec>, shards: seq<Shard>, prompt: seq<int>, maxTokens: int, goOn: int -> bool)
    requires ValidExtra(x) && LoadModel(x, file).Some? && !SomeTooLarge(Load(file).value)
    requires TilingSpecs(specs, x.cfg.layers) && |shards| == |specs| > 1
    requires forall w :: 0 <= w < |specs| ==> LoadShard(x, file, specs[w]) == Some(shards[w])
    requires LoadModel(x, file).value.cfg != x.cfg
    requires Complete(LoadModel(x, file).value) && Portable(x.cfg) && AllInt32(prompt) && x.cfg.vocab >= 2
    requires Supported(LoadModel(x, file).value, prompt, maxTokens) && maxTokens > 0
    ensures forall w :: 0 <= w < |shards| ==> ValidShard(shards[w])
    ensures var m := LoadModel(x, file).value;
      && ValidModel(m) && ValidCoordinatorConfig(m.cfg)
      && ClusterGenerate(Telling(m.cfg.headDim), shards, m.cfg, prompt, maxTokens, goOn)
         != Generate(Telling(m.cfg.headDim), m, prompt, maxTokens, goOn)
  {
    hide Load, LoadModel, LoadShard, SomeTooLarge, Complete, Supported, ClusterGenerate, Generate, ValidShard, Telling;
    LoadedShardsAreValid(x, file, specs, shards);
    LoadedModel(x, file);
    LoadedSizes(x, file);
    FixupIsHeadDim(x, file);
    var last := |specs| - 1;
    SpecBounds(specs, x.cfg.layers, last);
    SpecBounds(specs, x.cfg.layers, last - 1);
    LoadedFile(x, file);
    LaterShard(x, file, specs[last]);
    TokensDiffer(shards, LoadModel(x, file).value, prompt, maxTokens, goOn);
  }

  lemma LoadedFile(x: Extra, file: seq<Byte>)
    requires LoadModel(x, file).Some?
    ensures Load(file).Some?
  {
  }

  /** The tokens agree whatever the arithmetic of blocks and head. */
  ghost predicate AlwaysSameTokens(shards: seq<Shard>, m: Model, prompt: seq<int>, maxTokens: int, goOn: int -> bool)
    requires (forall w :: 0 <= w < |shards| ==> ValidShard(shards[w])) && ValidCoordinatorConfig(m.cfg)
    requires ValidModel(m) && AllInt32(prompt)
  {
    forall e: Engine :: ClusterGenerate(e, shards, m.cfg, prompt, maxTokens, goOn) == Generate(e, m, prompt, maxTokens, goOn)
  }

  /**
   From files to tokens, in both directions: for a supported prompt and something to generate, shards loaded by a
   tiling plan give the tokens of the whole model under every interpretation of the arithmetic if and only if there
   is one shard or the head-dimension fix-up changes nothing.
   */
  lemma LoadedClusterMatchesExactly(
      x: Extra, file: seq<Byte>, specs: seq<ShardSpec>, shards: seq<Shard>, prompt: seq<int>, maxTokens: int, goOn: int -> bool)
    requires ValidExtra(x) && LoadModel(x, file).Some? && !SomeTooLarge(Load(file).value)
    requires TilingSpecs(specs, x.cfg.layers) && |shards| == |specs|
    requires forall w :: 0 <= w < |specs| ==> LoadShard(x, file, specs[w]) == Some(shards[w])
    requires Complete(LoadModel(x, file).value) && Portable(x.cfg) && AllInt32(prompt) && x.cfg.vocab >= 2
    requires Supported(LoadModel(x, file).value, prompt, maxTokens) && maxTokens > 0
    ensures forall w :: 0 <= w < |shards| ==> ValidShard(shards[w])
    ensures var m := LoadModel(x, file).value;
      && ValidModel(m) && ValidCoordinatorConfig(m.cfg)
      && (AlwaysSameTokens(shards, m, prompt, maxTokens, goOn) <==> |specs| == 1 || m.cfg == x.cfg)
  {
    hide Load, LoadModel, LoadShard, SomeTooLarge, Complete, Supported, ClusterGenerate, Generate, ValidShard, Telling;
    var m := LoadModel(x, file).value;
    LoadedShardsAreValid(x, file, specs, shards);
    LoadedModel(x, file);
    LoadedSizes(x, file);
    if |specs| == 1 || m.cfg == x.cfg {
      forall e: Engine
        ensures ClusterGenerate(e, shards, m.cfg, prompt, maxTokens, goOn) == Generate(e, m, prompt, maxTokens, goOn)
      {
        LoadedClusterMatches(e, x, file, specs, shards, prompt, maxTokens, goOn);
      }
    } else {
      SplitTokensDiffer(x, file, specs, shards, prompt, maxTokens, goOn);
    }
  }

  /** Qwen3 dimensions, 16 heads of 128 against a hidden size of 1024, break the promise on every cluster of two or more. */
  lemma WideHeadsChangeTokens(
      x: Extra, file: seq<Byte>, specs: seq<ShardSpec>, shards: seq<Shard>, prompt: seq<int>, maxTokens: int, goOn: int -> bool)
    requires ValidExtra(x) && LoadModel(x, file).Some? && !SomeTooLarge(Load(file).value)
    requires TilingSpecs(specs, x.cfg.layers) && |shards| == |specs| > 1
    requires forall w :: 0 <= w < |specs| ==> LoadShard(x, file, specs[w]) == Some(shards[w])
    requires x.cfg.heads == 16 && x.cfg.headDim == 64
    requires Lookup(Load(file).value, FIRST_Q_PROJ).Some? && Lookup(Load(file).value, FIRST_Q_PROJ).value.outF == 2048
    requires Complete(LoadModel(x, file).value) && Portable(x.cfg) && AllInt32(prompt) && x.cfg.vocab >= 2
    requires Supported(LoadModel(x, file).value, prompt, maxTokens) && maxTokens > 0
    ensures forall w :: 0 <= w < |shards| ==> ValidShard(shards[w])
    ensures var m := LoadModel(x, file).value;
      && ValidModel(m) && ValidCoordinatorConfig(m.cfg) && m.cfg.headDim == 128
      && ClusterGenerate(Telling(128), shards, m.cfg, prompt, maxTokens, goOn) != Generate(Telling(128), m, prompt, maxTokens, goOn)
  {
    hide Load, LoadShard, SomeTooLarge, Complete, Supported, ClusterGenerate, Generate, ValidShard, Telling, Lookup;
    WideHeads(x, file);
    SplitTokensDiffer(x, file, specs, shards, prompt, maxTokens, goOn);
  }

  lemma WideHeads(x: Extra, file: seq<Byte>)
    requires LoadModel(x, file).Some? && x.cfg.heads == 16
    requires Load(file).Some? && Lookup(Load(file).value, FIRST_Q_PROJ).Some?
    requires Lookup(Load(file).value, FIRST_Q_PROJ).value.outF == 2048
    ensures LoadModel(x, file).value.cfg.headDim == 128
  {
    hide Load, Lookup, SomeNormTooLarge;
  }
}
