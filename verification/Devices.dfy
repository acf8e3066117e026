/** The mutable side of inference: caches, the single device, workers and the coordinator. */
module Devices {
  import opened Bytes
  import opened Float32
  import opened LayerNames
  import opened RecordFile
  import opened ShardFile
  import opened ModelLoader
  import opened Inference
  import opened Protocol
  import opened Cluster
  import CacheHistory
  import GreedyTokens

  /** KVCache: flat key and value buffers and the length in use, one of each per layer. */
  class KvCache {
    const cfg: Config
    var kCache: seq<Floats>
    var vCache: seq<Floats>
    var seqLens: seq<nat>

    predicate Shaped()
      reads this
    {
      |kCache| == |vCache| == |seqLens| == cfg.layers
    }

    function View(): seq<LayerCache>
      requires Shaped()
      reads this
    {
      seq(cfg.layers, i requires 0 <= i < cfg.layers && Shaped() reads this => LayerCache(kCache[i], vCache[i], seqLens[i]))
    }

    predicate Valid()
      reads this
    {
      Shaped() && ValidCaches(View(), cfg)
    }

    constructor (cfg: Config)
      ensures Valid() && this.cfg == cfg && View() == FreshCaches(cfg)
    {
      this.cfg := cfg;
      var zeros := seq(cfg.maxPos * Width(cfg), _ => 0);
      kCache, vCache := seq(cfg.layers, _ => zeros), seq(cfg.layers, _ => zeros);
      seqLens := seq(cfg.layers, _ => 0);
      new;
      assert View() == FreshCaches(cfg);
    }

    /** Writes one key and one value row at seqPos; positions outside the cache are refused. */
    method AppendRows(layer: nat, k: Floats, v: Floats, seqPos: int)
      requires Valid() && layer < cfg.layers && |k| == |v| == Width(cfg)
      modifies this
      ensures Valid() && View() == old(View())[layer := Append(old(View())[layer], cfg, k, v, seqPos)]
    {
      ghost var before := View();
      if seqPos < 0 || seqPos >= cfg.maxPos {
        return;
      }
      assert ValidLayer(before[layer], cfg);
      RowFits(seqPos, Width(cfg), cfg.maxPos);
      kCache := kCache[layer := Splice(kCache[layer], seqPos * Width(cfg), k)];
      vCache := vCache[layer := Splice(vCache[layer], seqPos * Width(cfg), v)];
      seqLens := seqLens[layer := seqPos + 1];
      assert View() == before[layer := Append(before[layer], cfg, k, v, seqPos)];
    }
  }

  /** transformer_block: reads and writes the hidden buffer and the cache of its layer in place. */
  method TransformerBlock(e: Engine, m: Model, kv: KvCache, x: array<Word>, seqPos: int, layer: nat) returns (ok: bool)
    requires layer < m.cfg.layers == |m.norms| && kv.Valid() && kv.cfg == m.cfg && x.Length == m.cfg.hidden
    modifies kv, x
    ensures kv.Valid()
    ensures ok <==> Resolve(m, layer).Some?
    ensures ok ==> var r := Block(e, m.cfg, Resolve(m, layer).value, old(x[..]), seqPos, old(kv.View())[layer]);
      x[..] == r.0 && kv.View() == old(kv.View())[layer := r.1]
  {
    hide Resolve;
    var weights := Resolve(m, layer);
    if weights.None? {
      return false;
    }
    var residual := x[..];
    var (q, k, v) := e.project(weights.value, m.cfg, seqPos, residual);
    ghost var before := kv.View();
    kv.AppendRows(layer, Resize(k, Width(m.cfg)), Resize(v, Width(m.cfg)), seqPos);
    var c := LayerCache(kv.kCache[layer], kv.vCache[layer], kv.seqLens[layer]);
    assert c == kv.View()[layer] && ValidLayer(c, m.cfg);
    var out := Resize(e.attend(weights.value, m.cfg, residual, q,
                               RowsOf(c.k, Width(m.cfg), c.len, m.cfg.maxPos),
                               RowsOf(c.v, Width(m.cfg), c.len, m.cfg.maxPos)), m.cfg.hidden);
    for i := 0 to m.cfg.hidden
      modifies x
      invariant x[..i] == out[..i]
    {
      x[i] := out[i];
    }
    assert x[..] == out;
    ok := true;
  }

  /** The block loop shared by single device and workers. */
  method RunBlocks(e: Engine, m: Model, kv: KvCache, x: array<Word>, seqPos: int, start: nat, end: nat) returns (ok: bool)
    requires start <= end <= m.cfg.layers == |m.norms| && kv.Valid() && kv.cfg == m.cfg && x.Length == m.cfg.hidden
    modifies kv, x
    ensures kv.Valid()
    ensures ok <==> Chain(e, m, old(kv.View()), old(x[..]), seqPos, start, end).Some?
    ensures ok ==> Chain(e, m, old(kv.View()), old(x[..]), seqPos, start, end) == Some((kv.View(), x[..]))
  {
    hide Resolve, Block;
    ghost var kv0, x0 := kv.View(), x[..];
    for i := start to end
      invariant kv.Valid()
      invariant Chain(e, m, kv0, x0, seqPos, start, end) == Chain(e, m, kv.View(), x[..], seqPos, i, end)
    {
      ghost var before, xs := kv.View(), x[..];
      ok := TransformerBlock(e, m, kv, x, seqPos, i);
      if !ok {
        return;
      }
    }
    ok := true;
  }

  /** sample_argmax */
  method SampleArgmax(e: Engine, logits: Floats, n: nat) returns (best: nat)
    requires 0 < n <= |logits|
    ensures best == MaxElement(e.less, logits, n)
    ensures WeakOrder(e.less) ==> FirstMaximum(e.less, logits, n, best)
  {
    best := 0;
    for i := 1 to n
      invariant best == MaxElement(e.less, logits, i)
    {
      if e.less(logits[best], logits[i]) {
        best := i;
      }
    }
    if WeakOrder(e.less) {
      MaxElementIsFirst(e.less, logits, n);
    }
  }

  // ----- the single device

  method ModelForward(e: Engine, m: Model, kv: KvCache, token: int, seqPos: int) returns (ok: bool, logits: Floats)
    requires ValidModel(m) && kv.Valid() && kv.cfg == m.cfg
    modifies kv
    ensures kv.Valid()
    ensures ok <==> Forward(e, m, old(kv.View()), token, seqPos).Some?
    ensures ok ==> Forward(e, m, old(kv.View()), token, seqPos) == Some((kv.View(), logits))
  {
    hide Chain, Lookup;
    var x := new Word[m.cfg.hidden];
    var row := Embed(m, token);
    for i := 0 to m.cfg.hidden
      modifies x
      invariant x[..i] == row[..i]
    {
      x[i] := row[i];
    }
    assert x[..] == row;
    ok := RunBlocks(e, m, kv, x, seqPos, 0, m.cfg.layers);
    logits := if ok then Logits(e, m, x[..]) else [];
  }

  method PrefillTokens(e: Engine, m: Model, kv: KvCache, prompt: seq<int>, n: nat) returns (ok: bool)
    requires ValidModel(m) && kv.Valid() && kv.cfg == m.cfg && n <= |prompt|
    modifies kv
    ensures kv.Valid()
    ensures ok <==> Prefill(e, m, old(kv.View()), prompt, 0, n).Some?
    ensures ok ==> Prefill(e, m, old(kv.View()), prompt, 0, n) == Some(kv.View())
  {
    hide Forward;
    ghost var start := kv.View();
    for pos := 0 to n
      invariant kv.Valid() && Prefill(e, m, start, prompt, 0, n) == Prefill(e, m, kv.View(), prompt, pos, n)
    {
      var logits;
      ok, logits := ModelForward(e, m, kv, prompt[pos], pos);
      if !ok {
        return;
      }
    }
    ok := true;
  }

  method DecodeTokens(e: Engine, m: Model, kv: KvCache, first: int, n: nat, budget: nat, goOn: int -> bool)
    returns (ok: bool, tokens: seq<int>)
    requires ValidModel(m) && kv.Valid() && kv.cfg == m.cfg
    modifies kv
    ensures kv.Valid()
    ensures ok <==> Decode(e, m, old(kv.View()), first, n, budget, goOn).Some?
    ensures ok ==> Decode(e, m, old(kv.View()), first, n, budget, goOn) == Some(tokens)
  {
    hide Forward, MaxElement, WeakOrder, FirstMaximum;
    ghost var whole := Decode(e, m, kv.View(), first, n, budget, goOn);
    tokens := [];
    PrependNothing(whole);
    var next := first;
    for i := 0 to budget
      invariant kv.Valid() && whole == Prepend(tokens, Decode(e, m, kv.View(), next, n + i, budget - i, goOn))
    {
      ghost var done := tokens;
      var logits;
      ok, logits := ModelForward(e, m, kv, next, n + i);
      if !ok {
        return;
      }
      next := SampleArgmax(e, logits, m.cfg.vocab);
      tokens := tokens + [next];
      PrependStep(done, next, Decode(e, m, kv.View(), next, n + i + 1, budget - i - 1, goOn));
      if !goOn(next) || next == m.cfg.eos {
        return;
      }
    }
    ok := true;
    assert tokens + [] == tokens;
  }

  /** generate at temperature 0, with the streaming callback of generate_stream. */
  method GenerateTokens(e: Engine, m: Model, prompt: seq<int>, maxTokens: int, goOn: int -> bool)
    returns (ok: bool, tokens: seq<int>)
    requires ValidModel(m)
    ensures ok <==> Generate(e, m, prompt, maxTokens, goOn).Some?
    ensures ok ==> Generate(e, m, prompt, maxTokens, goOn) == Some(tokens)
    ensures Complete(m) && WeakOrder(e.less) ==> ok && GreedyTokens.Answers(e, m, prompt, maxTokens, goOn, tokens)
  {
    hide Prefill, Decode, FreshCaches;
    tokens := [];
    var kv := new KvCache(m.cfg);
    var n := PromptLength(m.cfg, prompt);
    ok := PrefillTokens(e, m, kv, prompt, n);
    if ok {
      var next := if n > 0 then prompt[n - 1] else if m.cfg.eos >= 0 then m.cfg.eos else 0;
      ok, tokens := DecodeTokens(e, m, kv, next, n, Budget(m.cfg, n, maxTokens), goOn);
    }
    DeviceAnswers(e, m, prompt, maxTokens, goOn, ok, tokens);
  }

  /** What a result of the single device says about its tokens. */
  lemma DeviceAnswers(e: Engine, m: Model, prompt: seq<int>, maxTokens: int, goOn: int -> bool, ok: bool, tokens: seq<int>)
    requires ValidModel(m) && (ok <==> Generate(e, m, prompt, maxTokens, goOn).Some?)
    requires ok ==> Generate(e, m, prompt, maxTokens, goOn) == Some(tokens)
    ensures Complete(m) && WeakOrder(e.less) ==> ok && GreedyTokens.Answers(e, m, prompt, maxTokens, goOn, tokens)
  {
    hide Complete, WeakOrder, Generate, GreedyTokens.Answers;
    if Complete(m) && WeakOrder(e.less) {
      CacheHistory.GenerateIsReference(e, m, prompt, maxTokens, goOn);
      GreedyTokens.GenerateAnswers(e, m, prompt, maxTokens, goOn, tokens);
    }
  }

  /** What a result of the cluster says about its tokens, for every model that it serves. */
  lemma ClusterAnswersAll(
      e: Engine, shards: seq<Shard>, cfg: Config, prompt: seq<int>, maxTokens: int, goOn: int -> bool, ok: bool, tokens: seq<int>)
    requires (forall w :: 0 <= w < |shards| ==> ValidShard(shards[w])) && ValidCoordinatorConfig(cfg) && AllInt32(prompt)
    requires ok <==> ClusterGenerate(e, shards, cfg, prompt, maxTokens, goOn).Some?
    requires ok ==> ClusterGenerate(e, shards, cfg, prompt, maxTokens, goOn) == Some(tokens)
    ensures forall m: Model :: GreedyTokens.Serves(e, shards, cfg, m, prompt, maxTokens) ==>
      ok && ValidModel(m) && Complete(m) && GreedyTokens.Answers(e, m, prompt, maxTokens, goOn, tokens)
  {
    forall m: Model | GreedyTokens.Serves(e, shards, cfg, m, prompt, maxTokens)
      ensures ok && ValidModel(m) && Complete(m) && GreedyTokens.Answers(e, m, prompt, maxTokens, goOn, tokens)
    {
      hide Complete, WeakOrder, ClusterGenerate, GreedyTokens.Answers, ValidPlan, Supported;
      CacheHistory.ClusterIsReference(e, shards, m, prompt, maxTokens, goOn);
      GreedyTokens.ClusterAnswers(e, shards, m, prompt, maxTokens, goOn, tokens);
    }
  }

  lemma PrependNothing(rest: Option<seq<int>>)
    ensures Prepend([], rest) == rest
  {
    if rest.Some? {
      assert [] + rest.value == rest.value;
    }
  }

  ghost function Prepend(tokens: seq<int>, rest: Option<seq<int>>): Option<seq<int>> {
    match rest
    case None => None
    case Some(more) => Some(tokens + more)
  }

  lemma PrependStep(done: seq<int>, t: int, rest: Option<seq<int>>)
    ensures Prepend(done + [t], rest) == Prepend(done, Prepend([t], rest))
    ensures Prepend(done, Some([t])) == Some(done + [t])
  {
    if rest.Some? {
      assert done + [t] + rest.value == done + ([t] + rest.value);
    }
  }

  // ----- workers

  /** A reply body, or an error status. */
  datatype Reply = Ok(body: seq<Byte>) | Error(status: nat)

  class Worker {
    var loaded: Option<Shard>
    var kv: KvCache

    ghost predicate Valid()
      reads this, kv
    {
      kv.Valid() && (loaded.Some? ==> ValidShard(loaded.value) && kv.cfg == loaded.value.model.cfg)
    }

    /** A worker that already holds its shard and an empty cache. */
    constructor (shard: Shard)
      requires ValidShard(shard)
      ensures Valid() && loaded == Some(shard) && fresh(kv) && kv.View() == FreshCaches(shard.model.cfg)
    {
      loaded := Some(shard);
      kv := new KvCache(shard.model.cfg);
    }

    /** handle_reset: a loaded worker gets an empty cache, whatever the old one held. */
    method HandleReset()
      requires Valid()
      modifies `kv
      ensures Valid() && (kv == old(kv) || fresh(kv))
      ensures loaded.Some? ==> fresh(kv) && kv.View() == FreshCaches(loaded.value.model.cfg)
    {
      if loaded.Some? {
        kv := new KvCache(loaded.value.model.cfg);
      }
    }

    /** handle_forward */
    method HandleForward(e: Engine, body: seq<Byte>) returns (reply: Reply)
      requires Valid()
      modifies kv
      ensures Valid()
      ensures reply.Ok? <==>
        && loaded.Some? && ParseRequest(body).Some?
        && WorkerForward(e, loaded.value, old(kv.View()), ParseRequest(body).value).Some?
      ensures reply.Ok? ==>
        var o := WorkerForward(e, loaded.value, old(kv.View()), ParseRequest(body).value).value;
        kv.View() == o.0 && reply.body == ResponseBytes(o.1)
    {
      hide Chain, Lookup, ResponseBytes, ParseRequest, IntOfFloat;
      var ok, seqPos, kind, data := UnpackForwardRequest(body);
      if !ok {
        return Error(400);
      }
      if loaded.None? {
        return Error(500);
      }
      var s := loaded.value;
      var cfg := s.model.cfg;
      var row: Floats;
      if s.isFirst && kind == INPUT_TOKEN {
        if data == [] {
          return Error(500);
        }
        var token := IntOfFloat(data[0]);
        if token < 0 || token >= cfg.vocab {
          return Error(500);
        }
        row := EmbeddingRow(cfg, s.model.embedding, token);
      } else if kind == INPUT_HIDDEN {
        if |data| != cfg.hidden {
          return Error(500);
        }
        row := data;
      } else {
        return Error(400);
      }
      assert InputState(s, Request(seqPos, kind, data)) == Some(row);
      var hidden := CopyRow(row);
      ghost var before := kv.View();
      ok := RunBlocks(e, s.model, kv, hidden, seqPos, s.start, s.end);
      if !ok {
        return Error(500);
      }
      var out := OutputState(e, s, hidden[..]);
      if out.None? {
        return Error(500);
      }
      var payload := PackForwardResponse(out.value);
      reply := Ok(payload[..]);
    }
  }

  method CopyRow(row: Floats) returns (x: array<Word>)
    ensures fresh(x) && x[..] == row
  {
    x := new Word[|row|];
    for i := 0 to |row|
      invariant x[..i] == row[..i]
    {
      x[i] := row[i];
    }
  }

  /** A hop in terms of the bytes that travel. */
  lemma HopByBytes(e: Engine, s: Shard, kv: seq<LayerCache>, pos: int, kind: Word, data: Floats)
    requires ValidShard(s) && ValidCaches(kv, s.model.cfg) && IsInt32(pos)
    ensures var body := RequestBytes(Request(pos, kind, data));
      && (ParseRequest(body).None? || WorkerForward(e, s, kv, ParseRequest(body).value).None? ==> Hop(e, s, kv, pos, kind, data) == None)
      && (ParseRequest(body).Some? && WorkerForward(e, s, kv, ParseRequest(body).value).Some? ==>
            var o := WorkerForward(e, s, kv, ParseRequest(body).value).value;
            var got := ParseResponse(ResponseBytes(o.1));
            Hop(e, s, kv, pos, kind, data) == if got.None? then None else Some((o.0, got.value)))
  {
    hide RequestBytes, ResponseBytes, ParseRequest, ParseResponse, WorkerForward;
  }

  // ----- the coordinator

  class Coordinator {
    const cfg: Config
    const workers: seq<Worker>

    constructor (cfg: Config, workers: seq<Worker>)
      ensures this.cfg == cfg && this.workers == workers
    {
      this.cfg, this.workers := cfg, workers;
    }

    /** Loaded workers, no two of which share a cache. */
    ghost predicate Ready()
      reads workers, set w | w in workers :: w.kv
    {
      && ValidCoordinatorConfig(cfg)
      && (forall i :: 0 <= i < |workers| ==> workers[i].Valid() && workers[i].loaded.Some?)
      && (forall i, j :: 0 <= i < j < |workers| ==> workers[i] != workers[j] && workers[i].kv != workers[j].kv)
    }

    ghost function Shards(): seq<Shard>
      requires forall i :: 0 <= i < |workers| ==> workers[i].loaded.Some?
      reads workers
      ensures |Shards()| == |workers|
    {
      seq(|workers|, i requires 0 <= i < |workers| && workers[i].loaded.Some? reads workers => workers[i].loaded.value)
    }

    ghost function Views(): seq<seq<LayerCache>>
      requires Ready()
      reads workers, set w | w in workers :: w.kv
      ensures |Views()| == |workers|
    {
      seq(|workers|, i requires 0 <= i < |workers| && workers[i].kv.Shaped() reads workers, set w | w in workers :: w.kv =>
        workers[i].kv.View())
    }

    lemma ReadyIsValid()
      requires Ready()
      ensures ValidWorkers(Shards(), Views())
    {
    }

    /** A change to the cache of one worker. */
    twostate lemma OneCacheChanged(w: nat)
      requires old(Ready()) && w < |workers|
      requires forall i :: 0 <= i < |workers| ==> unchanged(workers[i])
      requires forall i :: 0 <= i < |workers| && i != w ==> unchanged(workers[i].kv)
      requires workers[w].Valid()
      ensures Ready() && Shards() == old(Shards())
      ensures Views() == old(Views())[w := workers[w].kv.View()]
    {
      hide ValidCaches, ValidShard, KvCache.View;
      forall i | 0 <= i < |workers| ensures workers[i].Valid() && workers[i].loaded.Some? {
        if i != w {
          assert old(workers[i].Valid());
        }
      }
    }

    /** One hop: request out, reply back, both as bytes. */
    method CallWorker(e: Engine, w: nat, seqPos: int, kind: Word, data: Floats) returns (ok: bool, out: Floats)
      requires Ready() && w < |workers| && IsInt32(seqPos) && ValidWorkers(Shards(), Views())
      modifies workers[w].kv
      ensures Ready() && ValidWorkers(Shards(), Views())
      ensures ok <==> Hop(e, old(Shards())[w], old(Views())[w], seqPos, kind, data).Some?
      ensures ok ==> Hop(e, old(Shards())[w], old(Views())[w], seqPos, kind, data) == Some((Views()[w], out))
      ensures ok ==> Views() == old(Views())[w := Views()[w]]
    {
      hide WorkerForward, RequestBytes, ResponseBytes, ParseRequest, ParseResponse, Hop, ValidCaches, ValidShard, KvCache.View,
           ValidWorkers;
      out := [];
      HopByBytes(e, Shards()[w], Views()[w], seqPos, kind, data);
      var body := PackForwardRequest(seqPos, kind, data);
      var reply := workers[w].HandleForward(e, body[..]);
      OneCacheChanged(w);
      ReadyIsValid();
      hide Shards, Views, Worker.Valid;
      if reply.Error? {
        return false, out;
      }
      ok, out := UnpackForwardResponse(reply.body);
    }

    /** pipeline: carries one input through all workers; false when a worker fails. */
    method Pipeline(e: Engine, seqPos: int, input: Floats, inputKind: Word) returns (ok: bool, cur: Floats)
      requires Ready() && IsInt32(seqPos) && ValidWorkers(Shards(), Views())
      modifies set w | w in workers :: w.kv
      ensures Ready() && ValidWorkers(Shards(), Views())
      ensures ok <==> PipelineFrom(e, Shards(), old(Views()), 0, seqPos, inputKind, input).Some?
      ensures ok ==> PipelineFrom(e, Shards(), old(Views()), 0, seqPos, inputKind, input) == Some((Views(), cur))
    {
      hide Hop, ValidWorkers, KvCache.Valid, Worker.Valid;
      ghost var shards, start := Shards(), Views();
      cur := input;
      var kind := inputKind;
      for w := 0 to |workers|
        invariant Ready() && Shards() == shards && ValidWorkers(shards, Views())
        invariant PipelineFrom(e, shards, start, 0, seqPos, inputKind, input)
               == PipelineFrom(e, shards, Views(), w, seqPos, kind, cur)
      {
        ok, cur := CallWorker(e, w, seqPos, kind, cur);
        if !ok {
          return;
        }
        kind := INPUT_HIDDEN;
      }
      ok := true;
    }

    /** Sends every worker a reset. */
    method ResetAll()
      requires Ready()
      modifies workers`kv
      ensures Ready() && Shards() == old(Shards()) && ValidWorkers(Shards(), Views())
      ensures Views() == FreshWorkers(Shards())
      ensures forall i :: 0 <= i < |workers| ==> fresh(workers[i].kv)
    {
      hide ValidCaches, ValidShard, FreshCaches, KvCache.View;
      for i := 0 to |workers|
        invariant Ready() && Shards() == old(Shards())
        invariant forall k :: 0 <= k < i ==>
          fresh(workers[k].kv) && workers[k].kv.View() == FreshCaches(workers[k].loaded.value.model.cfg)
        invariant forall k :: i <= k < |workers| ==> workers[k].kv == old(workers[k].kv)
      {
        assert workers[i] in workers;
        workers[i].HandleReset();
      }
      ReadyIsValid();
      assert Views() == FreshWorkers(Shards());
    }

    /** The decoding loop of generate. */
    method DecodeLoop(e: Engine, first: int, nPrompt: nat, budget: nat, goOn: int -> bool)
      returns (ok: bool, outputTokens: seq<int>)
      requires Ready() && ValidWorkers(Shards(), Views()) && nPrompt + budget <= INT_MAX && IsInt32(first)
      modifies set w | w in workers :: w.kv
      ensures Ready()
      ensures ok <==> ClusterDecode(e, old(Shards()), cfg, old(Views()), first, nPrompt, budget, goOn).Some?
      ensures ok ==> ClusterDecode(e, old(Shards()), cfg, old(Views()), first, nPrompt, budget, goOn) == Some(outputTokens)
    {
      hide PipelineFrom, MaxElement, WeakOrder, FirstMaximum, ValidWorkers, FloatOfInt, Shards, Views, KvCache.Valid, Worker.Valid;
      ghost var shards := Shards();
      ghost var whole := ClusterDecode(e, shards, cfg, Views(), first, nPrompt, budget, goOn);
      outputTokens := [];
      PrependNothing(whole);
      var nextToken := first;
      for i := 0 to budget
        invariant Ready() && Shards() == shards && ValidWorkers(shards, Views()) && IsInt32(nextToken)
        invariant whole == Prepend(outputTokens,
          ClusterDecode(e, shards, cfg, Views(), nextToken, nPrompt + i, budget - i, goOn))
      {
        ghost var done := outputTokens;
        var logits;
        ok, logits := Pipeline(e, nPrompt + i, [FloatOfInt(nextToken)], INPUT_TOKEN);
        if !ok || |logits| < cfg.vocab {
          return false, outputTokens;
        }
        nextToken := SampleArgmax(e, logits, cfg.vocab);
        outputTokens := outputTokens + [nextToken];
        PrependStep(done, nextToken,
          ClusterDecode(e, shards, cfg, Views(), nextToken, nPrompt + i + 1, budget - i - 1, goOn));
        if !goOn(nextToken) || nextToken == cfg.eos {
          return;
        }
      }
      ok := true;
      assert outputTokens + [] == outputTokens;
    }

    method PrefillLoop(e: Engine, prompt: seq<int>) returns (ok: bool)
      requires Ready() && ValidWorkers(Shards(), Views()) && |prompt| <= INT_MAX && AllInt32(prompt)
      modifies set w | w in workers :: w.kv
      ensures Ready() && Shards() == old(Shards()) && ValidWorkers(Shards(), Views())
      ensures ok <==> ClusterPrefill(e, old(Shards()), old(Views()), prompt, 0).Some?
      ensures ok ==> ClusterPrefill(e, old(Shards()), old(Views()), prompt, 0) == Some(Views())
    {
      hide PipelineFrom, ValidWorkers, FloatOfInt, Shards, Views, KvCache.Valid, Worker.Valid;
      ghost var shards, start := Shards(), Views();
      for pos := 0 to |prompt|
        invariant Ready() && Shards() == shards && ValidWorkers(shards, Views())
        invariant ClusterPrefill(e, shards, start, prompt, 0) == ClusterPrefill(e, shards, Views(), prompt, pos)
      {
        var logits;
        ok, logits := Pipeline(e, pos, [FloatOfInt(prompt[pos])], INPUT_TOKEN);
        if !ok {
          return;
        }
      }
      ok := true;
    }

    /** What the coordinator's early returns leave of the specification. */
    lemma GenerateCases(e: Engine, shards: seq<Shard>, prompt: seq<int>, maxTokens: int, goOn: int -> bool)
      requires (forall w :: 0 <= w < |shards| ==> ValidShard(shards[w])) && ValidCoordinatorConfig(cfg) && AllInt32(prompt)
      ensures ClusterGenerate(e, shards, cfg, prompt, maxTokens, goOn) ==
        if prompt == [] || maxTokens <= 0 || |prompt| >= cfg.maxPos then Some([])
        else
          match ClusterPrefill(e, shards, FreshWorkers(shards), prompt, 0)
          case None => None
          case Some(kvs) => ClusterDecode(e, shards, cfg, kvs, prompt[|prompt| - 1], |prompt|, Room(|prompt|, maxTokens), goOn)
    {
      hide ClusterPrefill, ClusterDecode, FreshWorkers, ValidShard;
    }

    /** How many tokens fit behind the prompt. */
    function Room(nPrompt: nat, maxTokens: int): nat
      requires nPrompt < cfg.maxPos && maxTokens > 0
    {
      if maxTokens > cfg.maxPos - nPrompt then cfg.maxPos - nPrompt else maxTokens
    }

    /** generate: the result depends only on the shards, not on what any cache held before. */
    method GenerateTokens(e: Engine, prompt: seq<int>, maxTokens: int, goOn: int -> bool)
      returns (ok: bool, tokens: seq<int>)
      requires Ready() && AllInt32(prompt)
      requires forall w :: 0 <= w < |workers| ==> ValidShard(Shards()[w])
      modifies workers`kv, set w | w in workers :: w.kv
      ensures Ready() && Shards() == old(Shards())
      ensures ok <==> ClusterGenerate(e, old(Shards()), cfg, prompt, maxTokens, goOn).Some?
      ensures ok ==> ClusterGenerate(e, old(Shards()), cfg, prompt, maxTokens, goOn) == Some(tokens)
      ensures forall m: Model :: GreedyTokens.Serves(e, old(Shards()), cfg, m, prompt, maxTokens) ==>
        ok && ValidModel(m) && Complete(m) && GreedyTokens.Answers(e, m, prompt, maxTokens, goOn, tokens)
    {
      hide ClusterPrefill, ClusterDecode, FreshWorkers, ClusterGenerate, ValidWorkers, ValidShard, Shards, Views,
           KvCache.Valid, Worker.Valid;
      GenerateCases(e, Shards(), prompt, maxTokens, goOn);
      tokens := [];
      ghost var shards := Shards();
      if prompt == [] || maxTokens <= 0 {
        ClusterAnswersAll(e, shards, cfg, prompt, maxTokens, goOn, true, []);
        return true, tokens;
      }
      if |prompt| >= cfg.maxPos {
        ClusterAnswersAll(e, shards, cfg, prompt, maxTokens, goOn, true, []);
        return true, tokens;
      }
      var budget := Room(|prompt|, maxTokens);
      ResetAll();
      ok := PrefillLoop(e, prompt);
      if ok {
        ok, tokens := DecodeLoop(e, prompt[|prompt| - 1], |prompt|, budget, goOn);
      }
      ClusterAnswersAll(e, shards, cfg, prompt, maxTokens, goOn, ok, tokens);
    }
  }
}
