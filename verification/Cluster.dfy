/**
 Layer-sharded inference as functions of the workers' shards and caches, and its agreement with a
 single device (distributed/coordinator.cpp, distributed/worker.cpp).
 */
module Cluster {
  import opened Bytes
  import opened Float32
  import opened LayerNames
  import opened RecordFile
  import opened ShardFile
  import opened ModelLoader
  import opened Inference
  import opened Protocol

  // ----- one worker

  predicate ValidShard(s: Shard) {
    && s.start <= s.end <= s.model.cfg.layers == |s.model.norms|
    && (s.isFirst ==> |s.model.embedding| == s.model.cfg.vocab * s.model.cfg.hidden)
  }

  /** The hidden state a request starts from; None where the worker answers with an error. */
  function InputState(s: Shard, r: Request): (x: Option<Floats>)
    requires ValidShard(s)
    ensures x.Some? ==> |x.value| == s.model.cfg.hidden
  {
    if s.isFirst && r.kind == INPUT_TOKEN then
      if r.data == [] || !InVocab(s.model.cfg, IntOfFloat(r.data[0])) then None
      else Some(EmbeddingRow(s.model.cfg, s.model.embedding, IntOfFloat(r.data[0])))
    else if r.kind == INPUT_HIDDEN && |r.data| == s.model.cfg.hidden then Some(r.data)
    else None
  }

  /** What leaves the worker after its blocks: logits from the last shard, the hidden state otherwise. */
  function OutputState(e: Engine, s: Shard, x: Floats): Option<Floats> {
    if s.isLast then
      match Lookup(s.model.layers, LM_HEAD)
      case None => None
      case Some(l) => Some(Resize(e.head(l, s.model.cfg, s.model.finalNorm, x), s.model.cfg.vocab))
    else Some(x)
  }

  /** handle_forward on a parsed request: the new caches and the reply. */
  function WorkerForward(e: Engine, s: Shard, kv: seq<LayerCache>, r: Request): (o: Option<(seq<LayerCache>, Floats)>)
    requires ValidShard(s) && ValidCaches(kv, s.model.cfg)
    ensures o.Some? ==> ValidCaches(o.value.0, s.model.cfg)
  {
    match InputState(s, r)
    case None => None
    case Some(x) =>
      match Chain(e, s.model, kv, x, r.seqPos, s.start, s.end)
      case None => None
      case Some((kv', x')) =>
        match OutputState(e, s, x')
        case None => None
        case Some(out) => Some((kv', out))
  }

  // ----- the pipeline

  predicate ValidWorkers(shards: seq<Shard>, kvs: seq<seq<LayerCache>>) {
    |kvs| == |shards| && forall w :: 0 <= w < |shards| ==> ValidShard(shards[w]) && ValidCaches(kvs[w], shards[w].model.cfg)
  }

  /** One hop: request and reply cross the wire as bytes. */
  function Hop(e: Engine, s: Shard, kv: seq<LayerCache>, pos: int, kind: Word, data: Floats)
    : (o: Option<(seq<LayerCache>, Floats)>)
    requires ValidShard(s) && ValidCaches(kv, s.model.cfg) && IsInt32(pos)
    ensures o.Some? ==> ValidCaches(o.value.0, s.model.cfg)
  {
    match Delivered(Request(pos, kind, data))
    case None => None
    case Some(r) =>
      match WorkerForward(e, s, kv, r)
      case None => None
      case Some((kv', out)) =>
        match Answered(out)
        case None => None
        case Some(got) => Some((kv', got))
  }

  /** The pipeline from worker w on. */
  function PipelineFrom(
      e: Engine, shards: seq<Shard>, kvs: seq<seq<LayerCache>>, w: nat, pos: int, kind: Word, data: Floats)
    : (o: Option<(seq<seq<LayerCache>>, Floats)>)
    requires w <= |shards| && ValidWorkers(shards, kvs) && IsInt32(pos)
    ensures o.Some? ==> ValidWorkers(shards, o.value.0)
    decreases |shards| - w
  {
    if w == |shards| then Some((kvs, data))
    else
      match Hop(e, shards[w], kvs[w], pos, kind, data)
      case None => None
      case Some((kv', out)) => PipelineFrom(e, shards, kvs[w := kv'], w + 1, pos, INPUT_HIDDEN, out)
  }

  /** One token through all workers; ids travel as floats. */
  function TokenStep(e: Engine, shards: seq<Shard>, kvs: seq<seq<LayerCache>>, token: int, pos: int)
    : (o: Option<(seq<seq<LayerCache>>, Floats)>)
    requires ValidWorkers(shards, kvs) && IsInt32(pos) && IsInt32(token)
    ensures o.Some? ==> ValidWorkers(shards, o.value.0)
  {
    PipelineFrom(e, shards, kvs, 0, pos, INPUT_TOKEN, [FloatOfInt(token)])
  }

  function FreshWorkers(shards: seq<Shard>): (kvs: seq<seq<LayerCache>>)
    requires forall w :: 0 <= w < |shards| ==> ValidShard(shards[w])
    ensures ValidWorkers(shards, kvs)
  {
    seq(|shards|, w requires 0 <= w < |shards| => FreshCaches(shards[w].model.cfg))
  }

  predicate AllInt32(prompt: seq<int>) {
    forall k :: 0 <= k < |prompt| ==> IsInt32(prompt[k])
  }

  function ClusterPrefill(e: Engine, shards: seq<Shard>, kvs: seq<seq<LayerCache>>, prompt: seq<int>, pos: nat)
    : (o: Option<seq<seq<LayerCache>>>)
    requires ValidWorkers(shards, kvs) && pos <= |prompt| <= INT_MAX && AllInt32(prompt)
    ensures o.Some? ==> ValidWorkers(shards, o.value)
    decreases |prompt| - pos
  {
    if pos == |prompt| then Some(kvs)
    else
      match TokenStep(e, shards, kvs, prompt[pos], pos)
      case None => None
      case Some((kvs', _)) => ClusterPrefill(e, shards, kvs', prompt, pos + 1)
  }

  /** The coordinator's sampling needs logits for the whole vocabulary. */
  function ClusterDecode(
      e: Engine, shards: seq<Shard>, cfg: Config, kvs: seq<seq<LayerCache>>, next: int, pos: nat, budget: nat, goOn: int -> bool)
    : Option<seq<int>>
    requires ValidWorkers(shards, kvs) && pos + budget <= INT_MAX && IsInt32(next) && 0 < cfg.vocab <= INT_MAX
    decreases budget
  {
    if budget == 0 then Some([])
    else
      match TokenStep(e, shards, kvs, next, pos)
      case None => None
      case Some((kvs', logits)) =>
        if |logits| < cfg.vocab then None
        else
          var t := MaxElement(e.less, logits, cfg.vocab);
          if !goOn(t) || t == cfg.eos then Some([t])
          else
            match ClusterDecode(e, shards, cfg, kvs', t, pos + 1, budget - 1, goOn)
            case None => None
            case Some(more) => Some([t] + more)
  }

  predicate ValidCoordinatorConfig(cfg: Config) {
    0 < cfg.vocab <= INT_MAX && 0 < cfg.maxPos <= INT_MAX
  }

  /** Coordinator::generate at temperature 0; None when some worker fails. */
  function ClusterGenerate(e: Engine, shards: seq<Shard>, cfg: Config, prompt: seq<int>, maxTokens: int, goOn: int -> bool)
    : Option<seq<int>>
    requires (forall w :: 0 <= w < |shards| ==> ValidShard(shards[w])) && ValidCoordinatorConfig(cfg) && AllInt32(prompt)
  {
    if prompt == [] || maxTokens <= 0 || |prompt| >= cfg.maxPos then Some([])
    else
      match ClusterPrefill(e, shards, FreshWorkers(shards), prompt, 0)
      case None => None
      case Some(kvs) =>
        var budget := if maxTokens > cfg.maxPos - |prompt| then cfg.maxPos - |prompt| else maxTokens;
        ClusterDecode(e, shards, cfg, kvs, prompt[|prompt| - 1], |prompt|, budget, goOn)
  }

  // ----- plans

  /** Nonempty ranges that follow one another from layer 0 to the last layer. */
  predicate Tiles(shards: seq<Shard>, layers: nat) {
    && |shards| > 0 && shards[0].start == 0 && shards[|shards| - 1].end == layers
    && (forall w :: 0 <= w < |shards| ==> shards[w].start < shards[w].end)
    && (forall w :: 0 < w < |shards| ==> shards[w].start == shards[w - 1].end)
  }

  /** A tiling plan whose shards all see the model's weights. */
  ghost predicate ValidPlan(shards: seq<Shard>, m: Model) {
    && Tiles(shards, m.cfg.layers) && ValidModel(m)
    && forall w :: 0 <= w < |shards| ==> Represents(shards[w], m)
  }

  lemma {:induction false} StartsIncrease(shards: seq<Shard>, layers: nat, v: nat, w: nat)
    requires Tiles(shards, layers) && v <= w < |shards|
    ensures shards[v].start <= shards[w].start && (v < w ==> shards[v].end <= shards[w].start)
    decreases w - v
  {
    if v < w {
      StartsIncrease(shards, layers, v, w - 1);
    }
  }

  /** Only the first shard takes tokens and only the last one answers with logits. */
  lemma FlagsFollowRanks(shards: seq<Shard>, m: Model, w: nat)
    requires ValidPlan(shards, m) && w < |shards|
    ensures ValidShard(shards[w]) && shards[w].model.cfg == m.cfg
    ensures shards[w].isFirst <==> w == 0
    ensures shards[w].isLast <==> w == |shards| - 1
  {
    var last := |shards| - 1;
    StartsIncrease(shards, m.cfg.layers, 0, w);
    StartsIncrease(shards, m.cfg.layers, w, last);
    assert Represents(shards[w], m);
  }

  /** Every worker's caches for its own layers are the single device's. */
  ghost predicate InStep(shards: seq<Shard>, kvs: seq<seq<LayerCache>>, kv: seq<LayerCache>)
  {
    |kvs| == |shards| && forall w :: 0 <= w < |shards| ==> OwnsSameCaches(shards[w], kvs[w], kv)
  }

  ghost predicate OwnsSameCaches(s: Shard, mine: seq<LayerCache>, kv: seq<LayerCache>) {
    s.end <= |mine| && s.end <= |kv| && forall i :: s.start <= i < s.end ==> mine[i] == kv[i]
  }

  /** Hidden states and logits are short enough for the count field of a message. */
  predicate Portable(cfg: Config) {
    cfg.hidden < 0x1_0000_0000 && cfg.vocab <= 0x100_0000
  }

  lemma HopIsForward(e: Engine, s: Shard, kv: seq<LayerCache>, pos: int, kind: Word, data: Floats)
    requires ValidShard(s) && ValidCaches(kv, s.model.cfg) && IsInt32(pos) && Sendable(data) && Portable(s.model.cfg)
    ensures Hop(e, s, kv, pos, kind, data) == WorkerForward(e, s, kv, Request(pos, kind, data))
  {
    hide RequestBytes, ResponseBytes, ParseRequest, ParseResponse, Chain, Lookup;
  }

  /**
   The heart of the refinement: from worker w on, with the hidden state and caches that the single
   device has before layer start(w), the pipeline does what the remaining blocks and the head do,
   and every worker stays in step.
   */
  lemma {:induction false} PipelineRefines(
      e: Engine, shards: seq<Shard>, m: Model, kvs: seq<seq<LayerCache>>, kv: seq<LayerCache>, w: nat, pos: int, x: Floats)
    requires ValidPlan(shards, m) && Complete(m) && Portable(m.cfg) && 0 < w < |shards|
    requires ValidWorkers(shards, kvs) && ValidCaches(kv, m.cfg) && IsInt32(pos) && |x| == m.cfg.hidden
    requires InStep(shards, kvs, kv)
    ensures var rest := Chain(e, m, kv, x, pos, shards[w].start, m.cfg.layers);
      var got := PipelineFrom(e, shards, kvs, w, pos, INPUT_HIDDEN, x);
      && rest.Some? && (got.Some? <==> Lookup(m.layers, LM_HEAD).Some?)
      && (got.Some? ==> got.value.1 == Logits(e, m, rest.value.1) && InStep(shards, got.value.0, rest.value.0))
    decreases |shards| - w
  {
    hide Chain, Lookup, Hop, InVocab, ValidCaches, Resize;
    FlagsFollowRanks(shards, m, w);
    WorkerRefines(e, shards, m, kvs, kv, w, pos, INPUT_HIDDEN, x, x);
    var s := shards[w];
    ChainCompletes(e, m, kv, x, pos, s.start, m.cfg.layers);
    ChainSplits(e, m, kv, x, pos, s.start, s.end, m.cfg.layers);
    if w + 1 < |shards| {
      var (kv', x') := Chain(e, m, kv, x, pos, s.start, s.end).value;
      var mine := Hop(e, s, kvs[w], pos, INPUT_HIDDEN, x).value.0;
      PipelineRefines(e, shards, m, kvs[w := mine], kv', w + 1, pos, x');
      assert shards[w + 1].start == s.end;
    } else {
      ChainEnds(e, m, kv, x, pos, s.start);
    }
  }

  lemma ChainEnds(e: Engine, m: Model, kv: seq<LayerCache>, x: Floats, pos: int, i: nat)
    requires i <= m.cfg.layers == |m.norms| && ValidCaches(kv, m.cfg)
    ensures Chain(e, m, kv, x, pos, m.cfg.layers, m.cfg.layers) == Some((kv, x))
  {
  }

  /** One worker of a plan, given the state x0 that its request stands for. */
  lemma WorkerRefines(
      e: Engine, shards: seq<Shard>, m: Model, kvs: seq<seq<LayerCache>>, kv: seq<LayerCache>,
      w: nat, pos: int, kind: Word, data: Floats, x0: Floats)
    requires ValidPlan(shards, m) && Complete(m) && Portable(m.cfg) && w < |shards|
    requires ValidWorkers(shards, kvs) && ValidCaches(kv, m.cfg) && IsInt32(pos) && InStep(shards, kvs, kv)
    requires Sendable(data) && |x0| == m.cfg.hidden && ValidShard(shards[w])
    requires InputState(shards[w], Request(pos, kind, data)) == Some(x0)
    ensures var s := shards[w];
      var mine := Hop(e, s, kvs[w], pos, kind, data);
      var whole := Chain(e, m, kv, x0, pos, s.start, s.end);
      && whole.Some? && ValidCaches(whole.value.0, m.cfg) && |whole.value.1| == m.cfg.hidden
      && (mine.Some? <==> w < |shards| - 1 || Lookup(m.layers, LM_HEAD).Some?)
      && (mine.Some? ==>
            && mine.value.1 == (if w < |shards| - 1 then whole.value.1 else Logits(e, m, whole.value.1))
            && ValidCaches(mine.value.0, m.cfg)
            && InStep(shards, kvs[w := mine.value.0], whole.value.0))
  {
    hide Chain, Lookup, Hop, InputState, Resize, InStep, ValidCaches, Resolve;
    var s := shards[w];
    FlagsFollowRanks(shards, m, w);
    HopIsForward(e, s, kvs[w], pos, kind, data);
    ChainCompletes(e, m, kv, x0, pos, s.start, s.end);
    InStepAt(shards, kvs, kv, w);
    CachesCover(kv, m.cfg);
    CachesCover(kvs[w], m.cfg);
    assert Represents(s, m);
    ChainsAgree(e, m, s.model, kv, kvs[w], x0, pos, s.start, s.end);
    var whole := Chain(e, m, kv, x0, pos, s.start, s.end).value;
    var own := Chain(e, s.model, kvs[w], x0, pos, s.start, s.end).value;
    CachesCover(whole.0, m.cfg);
    CachesCover(own.0, m.cfg);
    StepKeepsOthers(shards, m, kvs, kv, w, own.0, whole.0);
  }

  lemma CachesCover(kv: seq<LayerCache>, cfg: Config)
    requires ValidCaches(kv, cfg)
    ensures |kv| == cfg.layers
  {
  }

  lemma InStepAt(shards: seq<Shard>, kvs: seq<seq<LayerCache>>, kv: seq<LayerCache>, w: nat)
    requires InStep(shards, kvs, kv) && w < |shards|
    ensures |kvs| == |shards| && OwnsSameCaches(shards[w], kvs[w], kv)
  {
  }

  /** Layers of other shards are untouched on both sides. */
  lemma StepKeepsOthers(
      shards: seq<Shard>, m: Model, kvs: seq<seq<LayerCache>>, kv: seq<LayerCache>, w: nat,
      own: seq<LayerCache>, whole: seq<LayerCache>)
    requires Tiles(shards, m.cfg.layers) && w < |shards| && InStep(shards, kvs, kv)
    requires |kv| == |own| == |whole| == m.cfg.layers && shards[w].end <= m.cfg.layers
    requires forall l :: shards[w].start <= l < shards[w].end ==> own[l] == whole[l]
    requires forall l :: 0 <= l < |kv| && !(shards[w].start <= l < shards[w].end) ==> whole[l] == kv[l]
    ensures InStep(shards, kvs[w := own], whole)
  {
    forall v | 0 <= v < |shards| ensures OwnsSameCaches(shards[v], kvs[w := own][v], whole) {
      assert OwnsSameCaches(shards[v], kvs[v], kv);
      if v < w {
        StartsIncrease(shards, m.cfg.layers, v, w);
      } else if v > w {
        StartsIncrease(shards, m.cfg.layers, w, v);
      }
    }
  }

  // ----- whole steps and whole runs

  /** The token that the first worker reads off the wire is in the vocabulary exactly when the sent one is. */
  lemma TokenArrives(cfg: Config, token: int)
    requires IsInt32(token) && Portable(cfg)
    ensures InVocab(cfg, IntOfFloat(FloatOfInt(token))) <==> InVocab(cfg, token)
    ensures InVocab(cfg, token) ==> IntOfFloat(FloatOfInt(token)) == token
  {
    hide FloatOfInt, IntOfFloat;
    TokensSurvive(token);
  }

  lemma PipelineEnds(e: Engine, shards: seq<Shard>, kvs: seq<seq<LayerCache>>, pos: int, out: Floats)
    requires ValidWorkers(shards, kvs) && IsInt32(pos)
    ensures PipelineFrom(e, shards, kvs, |shards|, pos, INPUT_HIDDEN, out) == Some((kvs, out))
  {
  }

  /**
   One token through the whole pipeline: it fails exactly when the id is outside the vocabulary or
   there is no output head, and otherwise equals the single device's forward pass, logits and caches.
   */
  lemma StepRefines(
      e: Engine, shards: seq<Shard>, m: Model, kvs: seq<seq<LayerCache>>, kv: seq<LayerCache>, token: int, pos: int)
    requires ValidPlan(shards, m) && Complete(m) && Portable(m.cfg)
    requires ValidWorkers(shards, kvs) && ValidCaches(kv, m.cfg) && InStep(shards, kvs, kv)
    requires IsInt32(pos) && IsInt32(token)
    ensures var got, one := TokenStep(e, shards, kvs, token, pos), Forward(e, m, kv, token, pos);
      && one.Some? && (got.Some? <==> InVocab(m.cfg, token) && Lookup(m.layers, LM_HEAD).Some?)
      && (got.Some? ==> got.value.1 == one.value.1 && InStep(shards, got.value.0, one.value.0))
  {
    hide Chain, Lookup, Hop, FloatOfInt, IntOfFloat, InStep, ValidCaches, Resize, InVocab;
    var s, data := shards[0], [FloatOfInt(token)];
    FlagsFollowRanks(shards, m, 0);
    TokenArrives(m.cfg, token);
    var x := Embed(m, token);
    ChainCompletes(e, m, kv, x, pos, 0, m.cfg.layers);
    assert Represents(s, m);
    if InVocab(m.cfg, token) {
      WorkerRefines(e, shards, m, kvs, kv, 0, pos, INPUT_TOKEN, data, x);
      ChainSplits(e, m, kv, x, pos, 0, s.end, m.cfg.layers);
      var (kv', x') := Chain(e, m, kv, x, pos, 0, s.end).value;
      if |shards| > 1 {
        var mine := Hop(e, s, kvs[0], pos, INPUT_TOKEN, data).value.0;
        assert shards[1].start == s.end;
        PipelineRefines(e, shards, m, kvs[0 := mine], kv', 1, pos, x');
      } else {
        assert s.end == m.cfg.layers;
        ChainEnds(e, m, kv', x', pos, s.end);
        var mine := Hop(e, s, kvs[0], pos, INPUT_TOKEN, data);
        if mine.Some? {
          PipelineEnds(e, shards, kvs[0 := mine.value.0], pos, mine.value.1);
        }
      }
    } else {
      HopIsForward(e, s, kvs[0], pos, INPUT_TOKEN, data);
    }
  }

  /** Prefill succeeds exactly when every prompt id is in the vocabulary and there is an output head. */
  lemma {:induction false} PrefillRefines(
      e: Engine, shards: seq<Shard>, m: Model, kvs: seq<seq<LayerCache>>, kv: seq<LayerCache>, prompt: seq<int>, pos: nat)
    requires ValidPlan(shards, m) && Complete(m) && Portable(m.cfg)
    requires ValidWorkers(shards, kvs) && ValidCaches(kv, m.cfg) && InStep(shards, kvs, kv)
    requires pos <= |prompt| <= INT_MAX && AllInt32(prompt)
    ensures var got, one := ClusterPrefill(e, shards, kvs, prompt, pos), Prefill(e, m, kv, prompt, pos, |prompt|);
      && one.Some?
      && (got.Some? <==> pos == |prompt| || (Lookup(m.layers, LM_HEAD).Some? && PromptInVocab(m.cfg, prompt, pos)))
      && (got.Some? ==> InStep(shards, got.value, one.value))
    decreases |prompt| - pos
  {
    hide TokenStep, Forward, Lookup, InStep, InVocab, ValidCaches, Complete, ValidPlan;
    PlanIsValid(shards, m);
    if pos < |prompt| {
      StepRefines(e, shards, m, kvs, kv, prompt[pos], pos);
      var one, got := Forward(e, m, kv, prompt[pos], pos), TokenStep(e, shards, kvs, prompt[pos], pos);
      PrefillTotal(e, m, one.value.0, prompt, pos + 1);
      if got.Some? {
        PrefillRefines(e, shards, m, got.value.0, one.value.0, prompt, pos + 1);
      }
    }
  }

  predicate PromptInVocab(cfg: Config, prompt: seq<int>, pos: nat) {
    forall k :: pos <= k < |prompt| ==> InVocab(cfg, prompt[k])
  }

  lemma {:induction false} PrefillTotal(e: Engine, m: Model, kv: seq<LayerCache>, prompt: seq<int>, pos: nat)
    requires ValidModel(m) && Complete(m) && ValidCaches(kv, m.cfg) && pos <= |prompt|
    ensures Prefill(e, m, kv, prompt, pos, |prompt|).Some?
    decreases |prompt| - pos
  {
    if pos < |prompt| {
      ForwardTotal(e, m, kv, prompt[pos], pos);
      hide Forward;
      PrefillTotal(e, m, Forward(e, m, kv, prompt[pos], pos).value.0, prompt, pos + 1);
    }
  }

  lemma ForwardTotal(e: Engine, m: Model, kv: seq<LayerCache>, token: int, pos: int)
    requires ValidModel(m) && Complete(m) && ValidCaches(kv, m.cfg)
    ensures Forward(e, m, kv, token, pos).Some?
  {
    ChainCompletes(e, m, kv, Embed(m, token), pos, 0, m.cfg.layers);
  }

  /** The two decoding loops produce the same tokens. */
  lemma {:induction false} DecodeRefines(
      e: Engine, shards: seq<Shard>, m: Model, kvs: seq<seq<LayerCache>>, kv: seq<LayerCache>,
      next: int, pos: nat, budget: nat, goOn: int -> bool)
    requires ValidPlan(shards, m) && Complete(m) && Portable(m.cfg) && Lookup(m.layers, LM_HEAD).Some?
    requires ValidWorkers(shards, kvs) && ValidCaches(kv, m.cfg) && InStep(shards, kvs, kv)
    requires InVocab(m.cfg, next) && pos + budget <= INT_MAX
    ensures Decode(e, m, kv, next, pos, budget, goOn).Some?
    ensures ClusterDecode(e, shards, m.cfg, kvs, next, pos, budget, goOn) == Decode(e, m, kv, next, pos, budget, goOn)
    decreases budget
  {
    hide TokenStep, Forward, Lookup, InStep, ValidCaches, Complete, MaxElement;
    if budget > 0 {
      StepRefines(e, shards, m, kvs, kv, next, pos);
      var (kvs', logits) := TokenStep(e, shards, kvs, next, pos).value;
      var kv' := Forward(e, m, kv, next, pos).value.0;
      var t := MaxElement(e.less, logits, m.cfg.vocab);
      if goOn(t) && t != m.cfg.eos {
        DecodeRefines(e, shards, m, kvs', kv', t, pos + 1, budget - 1, goOn);
      }
    }
  }

  lemma {:induction false} DecodeTotal(
      e: Engine, m: Model, kv: seq<LayerCache>, next: int, pos: nat, budget: nat, goOn: int -> bool)
    requires ValidModel(m) && Complete(m) && ValidCaches(kv, m.cfg)
    ensures Decode(e, m, kv, next, pos, budget, goOn).Some?
    ensures budget > 0 ==> |Decode(e, m, kv, next, pos, budget, goOn).value| > 0
    decreases budget
  {
    if budget > 0 {
      ForwardTotal(e, m, kv, next, pos);
      hide Forward, MaxElement;
      var (kv', logits) := Forward(e, m, kv, next, pos).value;
      DecodeTotal(e, m, kv', MaxElement(e.less, logits, m.cfg.vocab), pos + 1, budget - 1, goOn);
    }
  }

  lemma FreshInStep(shards: seq<Shard>, m: Model)
    requires ValidPlan(shards, m)
    ensures forall w :: 0 <= w < |shards| ==> ValidShard(shards[w])
    ensures InStep(shards, FreshWorkers(shards), FreshCaches(m.cfg))
  {
    hide Resolve, Lookup;
    forall w | 0 <= w < |shards| ensures ValidShard(shards[w]) {
      FlagsFollowRanks(shards, m, w);
    }
    forall w | 0 <= w < |shards| ensures OwnsSameCaches(shards[w], FreshWorkers(shards)[w], FreshCaches(m.cfg)) {
      FlagsFollowRanks(shards, m, w);
    }
  }

  /** What the caller of the coordinator can check beforehand. */
  predicate Supported(m: Model, prompt: seq<int>, maxTokens: int) {
    || maxTokens <= 0
    || (0 < |prompt| < m.cfg.maxPos && PromptInVocab(m.cfg, prompt, 0) && Lookup(m.layers, LM_HEAD).Some?)
  }

  /**
   The documented promise, with its exact condition: at temperature 0 the cluster generates the
   tokens of a single device if and only if nothing is to be generated, or the prompt is nonempty,
   shorter than the cache and inside the vocabulary and the model has an output head record.
   */
  lemma ClusterMatchesSingleDevice(
      e: Engine, shards: seq<Shard>, m: Model, prompt: seq<int>, maxTokens: int, goOn: int -> bool)
    requires ValidPlan(shards, m) && Complete(m) && Portable(m.cfg) && m.cfg.maxPos <= INT_MAX && AllInt32(prompt)
    ensures forall w :: 0 <= w < |shards| ==> ValidShard(shards[w])
    ensures ClusterGenerate(e, shards, m.cfg, prompt, maxTokens, goOn) == Generate(e, m, prompt, maxTokens, goOn)
      <==> Supported(m, prompt, maxTokens)
  {
    hide InStep, ClusterPrefill, Prefill, Decode, ClusterDecode, FreshCaches, FreshWorkers, Complete, Lookup, ValidPlan, PromptInVocab;
    FreshInStep(shards, m);
    PlanIsValid(shards, m);
    var n := PromptLength(m.cfg, prompt);
    GenerateTotal(e, m, prompt, maxTokens, goOn);
    if 0 < |prompt| < m.cfg.maxPos && maxTokens > 0 {
      PrefillRefines(e, shards, m, FreshWorkers(shards), FreshCaches(m.cfg), prompt, 0);
      var got := ClusterPrefill(e, shards, FreshWorkers(shards), prompt, 0);
      if got.Some? {
        var kv := Prefill(e, m, FreshCaches(m.cfg), prompt, 0, n).value;
        LastInVocab(m.cfg, prompt);
        DecodeRefines(e, shards, m, got.value, kv, prompt[n - 1], n, Budget(m.cfg, n, maxTokens), goOn);
      }
    }
  }

  lemma PlanIsValid(shards: seq<Shard>, m: Model)
    requires ValidPlan(shards, m)
    ensures ValidModel(m)
  {
  }

  lemma LastInVocab(cfg: Config, prompt: seq<int>)
    requires PromptInVocab(cfg, prompt, 0) && prompt != []
    ensures InVocab(cfg, prompt[|prompt| - 1])
  {
  }

  /** A single device always generates, and at least one token when asked for one. */
  lemma GenerateTotal(e: Engine, m: Model, prompt: seq<int>, maxTokens: int, goOn: int -> bool)
    requires ValidModel(m) && Complete(m)
    ensures var r := Generate(e, m, prompt, maxTokens, goOn); r.Some? && (r.value == [] <==> maxTokens <= 0)
  {
    hide Complete, Forward, FreshCaches;
    var n := PromptLength(m.cfg, prompt);
    PrefillPrefix(e, m, FreshCaches(m.cfg), prompt, 0, n);
    PrefillTotal(e, m, FreshCaches(m.cfg), prompt[..n], 0);
    var kv := Prefill(e, m, FreshCaches(m.cfg), prompt, 0, n).value;
    var next := if n > 0 then prompt[n - 1] else if m.cfg.eos >= 0 then m.cfg.eos else 0;
    DecodeTotal(e, m, kv, next, n, Budget(m.cfg, n, maxTokens), goOn);
  }

  lemma {:induction false} PrefillPrefix(e: Engine, m: Model, kv: seq<LayerCache>, prompt: seq<int>, pos: nat, n: nat)
    requires ValidModel(m) && ValidCaches(kv, m.cfg) && pos <= n <= |prompt|
    ensures Prefill(e, m, kv, prompt, pos, n) == Prefill(e, m, kv, prompt[..n], pos, n)
    decreases n - pos
  {
    hide Forward;
    if pos < n && Forward(e, m, kv, prompt[pos], pos).Some? {
      PrefillPrefix(e, m, Forward(e, m, kv, prompt[pos], pos).value.0, prompt, pos + 1, n);
    }
  }

  // ----- plans loaded from files

  /**
   Shards loaded by a tiling plan from the files of a model form a valid plan exactly when there is
   one shard or the head dimension needs no fix-up.
   */
  lemma LoadedPlan(x: Extra, file: seq<Byte>, specs: seq<ShardSpec>, shards: seq<Shard>)
    requires ValidExtra(x) && LoadModel(x, file).Some? && !SomeTooLarge(Load(file).value)
    requires TilingSpecs(specs, x.cfg.layers) && |shards| == |specs|
    requires forall w :: 0 <= w < |specs| ==> LoadShard(x, file, specs[w]) == Some(shards[w])
    ensures ValidPlan(shards, LoadModel(x, file).value) <==> |specs| == 1 || LoadModel(x, file).value.cfg == x.cfg
  {
    hide SomeTooLarge, Load, LoadShard, LoadModel, Represents;
    var m := LoadModel(x, file).value;
    LoadedModel(x, file);
    forall w | 0 <= w < |specs|
      ensures Represents(shards[w], m) <==> w == 0 || m.cfg == x.cfg
    {
      SpecBounds(specs, x.cfg.layers, w);
      if w > 0 {
        SpecBounds(specs, x.cfg.layers, w - 1);
      }
      ShardRepresents(x, file, specs[w]);
    }
    forall w | 0 <= w < |specs| ensures shards[w].start == specs[w].start && shards[w].end == specs[w].end {
      SpecBounds(specs, x.cfg.layers, w);
      LoadedRange(x, file, specs[w]);
    }
    if |specs| > 1 && ValidPlan(shards, m) {
      assert Represents(shards[1], m);
    }
  }

  lemma LoadedModel(x: Extra, file: seq<Byte>)
    requires ValidExtra(x) && LoadModel(x, file).Some?
    ensures ValidModel(LoadModel(x, file).value) && LoadModel(x, file).value.cfg.layers == x.cfg.layers
  {
  }

  lemma LoadedRange(x: Extra, file: seq<Byte>, spec: ShardSpec)
    requires LoadShard(x, file, spec).Some?
    ensures LoadShard(x, file, spec).value.start == spec.start && LoadShard(x, file, spec).value.end == spec.end
  {
  }

  /** From files to tokens: shards loaded by a tiling plan generate what the whole model does. */
  lemma LoadedClusterMatches(
      e: Engine, x: Extra, file: seq<Byte>, specs: seq<ShardSpec>, shards: seq<Shard>,
      prompt: seq<int>, maxTokens: int, goOn: int -> bool)
    requires ValidExtra(x) && LoadModel(x, file).Some? && !SomeTooLarge(Load(file).value)
    requires TilingSpecs(specs, x.cfg.layers) && |shards| == |specs|
    requires forall w :: 0 <= w < |specs| ==> LoadShard(x, file, specs[w]) == Some(shards[w])
    requires |specs| == 1 || LoadModel(x, file).value.cfg == x.cfg
    requires Complete(LoadModel(x, file).value) && Portable(x.cfg) && AllInt32(prompt)
    ensures forall w :: 0 <= w < |shards| ==> ValidShard(shards[w])
    ensures var m := LoadModel(x, file).value;
      && ValidModel(m) && ValidCoordinatorConfig(m.cfg)
      && (Supported(m, prompt, maxTokens) <==>
            ClusterGenerate(e, shards, m.cfg, prompt, maxTokens, goOn) == Generate(e, m, prompt, maxTokens, goOn))
  {
    hide LoadModel, LoadShard, Load, SomeTooLarge, ValidPlan, Complete, ClusterGenerate, Generate, Supported;
    var m := LoadModel(x, file).value;
    LoadedPlan(x, file, specs, shards);
    LoadedModel(x, file);
    LoadedSizes(x, file);
    ClusterMatchesSingleDevice(e, shards, m, prompt, maxTokens, goOn);
  }

  lemma LoadedSizes(x: Extra, file: seq<Byte>)
    requires LoadModel(x, file).Some?
    ensures var c := LoadModel(x, file).value.cfg;
      c.vocab == x.cfg.vocab && c.hidden == x.cfg.hidden && c.maxPos == x.cfg.maxPos
  {
    FixupKeepsRest(x.cfg, Load(file).value);
  }
}
