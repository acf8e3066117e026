/**
 Single-device inference (src/core/inference.cpp). The arithmetic of a block is uninterpreted; what
 is modelled is which weights, positions and cache rows it is given and where its results go.
 */
module Inference {
  import opened Bytes
  import opened LayerNames
  import opened RecordFile
  import opened ShardFile
  import opened ModelLoader

  type Floats = seq<Word>

  /**
   The numeric kernels. project: norm, q/k/v projections and rotary embedding at a position; attend:
   the rest of the block from the cached rows on; head and tied: the two kinds of output head;
   less: the float comparison that sampling uses.
   */
  datatype Engine = Engine(
    project: (BlockWeights, Config, int, Floats) -> (Floats, Floats, Floats),
    attend: (BlockWeights, Config, Floats, Floats, seq<Floats>, seq<Floats>) -> Floats,
    head: (LayerData, Config, Floats, Floats) -> Floats,
    tied: (Floats, Config, Floats, Floats) -> Floats,
    less: (Word, Word) -> bool)

  /** Kernels write into buffers of a fixed size; a row of that size is left as it is. */
  function Resize(row: Floats, n: nat): (r: Floats)
    ensures |r| == n && (|row| == n ==> r == row)
  {
    seq(n, i requires 0 <= i < n => if i < |row| then row[i] else 0)
  }

  // ----- the key/value cache

  /** Keys and values of one layer in flat buffers of maxPos rows, and how many rows are in use. */
  datatype LayerCache = LayerCache(k: Floats, v: Floats, len: nat)

  function Width(cfg: Config): nat {
    cfg.kvHeads * cfg.headDim
  }

  predicate ValidLayer(c: LayerCache, cfg: Config) {
    |c.k| == |c.v| == cfg.maxPos * Width(cfg) && c.len <= cfg.maxPos
  }

  predicate ValidCaches(kv: seq<LayerCache>, cfg: Config) {
    |kv| == cfg.layers && forall i :: 0 <= i < |kv| ==> ValidLayer(kv[i], cfg)
  }

  lemma RowFits(pos: nat, width: nat, maxPos: nat)
    requires pos < maxPos
    ensures 0 <= pos * width <= pos * width + width <= maxPos * width
  {
    MulMonotone(pos + 1, maxPos, width);
    assert (pos + 1) * width == pos * width + width;
  }

  function Splice(buf: Floats, at: nat, row: Floats): (r: Floats)
    requires at + |row| <= |buf|
    ensures |r| == |buf|
  {
    buf[..at] + row + buf[at + |row|..]
  }

  /** KVCache::append; positions outside the cache are refused. */
  function Append(c: LayerCache, cfg: Config, k: Floats, v: Floats, pos: int): (r: LayerCache)
    requires ValidLayer(c, cfg) && |k| == |v| == Width(cfg)
    ensures ValidLayer(r, cfg)
  {
    if pos < 0 || pos >= cfg.maxPos then c
    else
      RowFits(pos, Width(cfg), cfg.maxPos);
      LayerCache(Splice(c.k, pos * Width(cfg), k), Splice(c.v, pos * Width(cfg), v), pos + 1)
  }

  /** The first len rows, read from the flat buffer at their stride. */
  function RowsOf(buf: Floats, width: nat, len: nat, maxPos: nat): (rows: seq<Floats>)
    requires |buf| == maxPos * width && len <= maxPos
    ensures |rows| == len
  {
    seq(len, t requires 0 <= t < len => RowFits(t, width, maxPos); buf[t * width..t * width + width])
  }

  function FreshCaches(cfg: Config): (kv: seq<LayerCache>)
    ensures ValidCaches(kv, cfg)
  {
    var zeros := seq(cfg.maxPos * Width(cfg), _ => 0);
    seq(cfg.layers, _ => LayerCache(zeros, zeros, 0))
  }

  // ----- blocks

  function Block(e: Engine, cfg: Config, w: BlockWeights, x: Floats, pos: int, c: LayerCache): (r: (Floats, LayerCache))
    requires ValidLayer(c, cfg)
    ensures |r.0| == cfg.hidden && ValidLayer(r.1, cfg)
  {
    var (q, k, v) := e.project(w, cfg, pos, x);
    var c' := Append(c, cfg, Resize(k, Width(cfg)), Resize(v, Width(cfg)), pos);
    var out := e.attend(w, cfg, x, q,
                        RowsOf(c'.k, Width(cfg), c'.len, cfg.maxPos), RowsOf(c'.v, Width(cfg), c'.len, cfg.maxPos));
    (Resize(out, cfg.hidden), c')
  }

  /** Blocks i to j - 1 in order; None where a weight lookup throws. */
  function Chain(e: Engine, m: Model, kv: seq<LayerCache>, x: Floats, pos: int, i: nat, j: nat)
    : (r: Option<(seq<LayerCache>, Floats)>)
    requires i <= j <= m.cfg.layers == |m.norms| && ValidCaches(kv, m.cfg)
    ensures r.Some? ==> ValidCaches(r.value.0, m.cfg) && (|x| == m.cfg.hidden ==> |r.value.1| == m.cfg.hidden)
    decreases j - i
  {
    if i == j then Some((kv, x))
    else
      match Resolve(m, i)
      case None => None
      case Some(w) =>
        var (x', c) := Block(e, m.cfg, w, x, pos, kv[i]);
        Chain(e, m, kv[i := c], x', pos, i + 1, j)
  }

  predicate InVocab(cfg: Config, token: int) {
    0 <= token < cfg.vocab
  }

  predicate ValidModel(m: Model) {
    && m.cfg.vocab > 0 && m.cfg.maxPos > 0 && |m.norms| == m.cfg.layers
    && |m.embedding| == m.cfg.vocab * m.cfg.hidden
  }

  function EmbeddingRow(cfg: Config, embedding: Floats, token: int): (x: Floats)
    requires InVocab(cfg, token) && |embedding| == cfg.vocab * cfg.hidden
    ensures |x| == cfg.hidden
  {
    RowFits(token, cfg.hidden, cfg.vocab);
    embedding[token * cfg.hidden..token * cfg.hidden + cfg.hidden]
  }

  /** Ids outside the vocabulary fall back to token 0. */
  function Embed(m: Model, token: int): (x: Floats)
    requires ValidModel(m)
    ensures |x| == m.cfg.hidden
  {
    EmbeddingRow(m.cfg, m.embedding, if InVocab(m.cfg, token) then token else 0)
  }

  /** Element j of the state that a token starts from; an id outside the vocabulary starts from the first row. */
  lemma EmbeddedAt(m: Model, token: int, row: nat, at: nat, j: nat)
    requires ValidModel(m) && j < m.cfg.hidden
    requires row == (if InVocab(m.cfg, token) then token else 0) && at == row * m.cfg.hidden + j
    ensures at < |m.embedding| && Embed(m, token)[j] == m.embedding[at]
  {
    RowElement(m.embedding, m.cfg.vocab, m.cfg.hidden, row, at, j);
  }

  lemma RowElement(buf: Floats, rows: nat, width: nat, row: nat, at: nat, j: nat)
    requires |buf| == rows * width && row < rows && j < width && at == row * width + j
    ensures 0 <= row * width <= row * width + width <= |buf| && at < |buf|
    ensures buf[row * width..row * width + width][j] == buf[at]
  {
    RowFits(row, width, rows);
  }

  /** Final norm and output head; without an lm_head record the embedding serves as one. */
  function Logits(e: Engine, m: Model, x: Floats): (r: Floats)
    ensures |r| == m.cfg.vocab
  {
    match Lookup(m.layers, LM_HEAD)
    case Some(l) => Resize(e.head(l, m.cfg, m.finalNorm, x), m.cfg.vocab)
    case None => Resize(e.tied(m.embedding, m.cfg, m.finalNorm, x), m.cfg.vocab)
  }

  /** model_forward */
  function Forward(e: Engine, m: Model, kv: seq<LayerCache>, token: int, pos: int): (r: Option<(seq<LayerCache>, Floats)>)
    requires ValidModel(m) && ValidCaches(kv, m.cfg)
    ensures r.Some? ==> ValidCaches(r.value.0, m.cfg) && |r.value.1| == m.cfg.vocab
  {
    match Chain(e, m, kv, Embed(m, token), pos, 0, m.cfg.layers)
    case None => None
    case Some((kv', x)) => Some((kv', Logits(e, m, x)))
  }

  // ----- sampling and generation

  /** Position of the first largest element, as std::max_element finds it. */
  function MaxElement(less: (Word, Word) -> bool, xs: Floats, n: nat): (best: nat)
    requires 0 < n <= |xs|
    ensures best < n
  {
    if n == 1 then 0
    else
      var b := MaxElement(less, xs, n - 1);
      if less(xs[b], xs[n - 1]) then n - 1 else b
  }

  /** A strict weak order, which the comparison of floats is when none of them is a NaN. */
  ghost predicate WeakOrder(less: (Word, Word) -> bool) {
    && (forall a :: !less(a, a)) && (forall a, b :: less(a, b) ==> !less(b, a))
    && forall a, b, c :: !less(a, b) && !less(b, c) ==> !less(a, c)
  }

  /** No element is larger, and every earlier one is smaller. */
  predicate FirstMaximum(less: (Word, Word) -> bool, xs: Floats, n: nat, best: int)
    requires n <= |xs|
  {
    0 <= best < n && (forall i :: 0 <= i < n ==> !less(xs[best], xs[i])) && forall i :: 0 <= i < best ==> less(xs[i], xs[best])
  }

  lemma {:induction false} MaxElementIsFirst(less: (Word, Word) -> bool, xs: Floats, n: nat)
    requires 0 < n <= |xs| && WeakOrder(less)
    ensures FirstMaximum(less, xs, n, MaxElement(less, xs, n))
  {
    if n > 1 {
      MaxElementIsFirst(less, xs, n - 1);
      LargerStays(less, xs, n, MaxElement(less, xs, n - 1));
    }
  }

  /** The first maximum of a prefix against the element behind it. */
  lemma LargerStays(less: (Word, Word) -> bool, xs: Floats, n: nat, b: nat)
    requires 1 < n <= |xs| && WeakOrder(less) && FirstMaximum(less, xs, n - 1, b)
    ensures FirstMaximum(less, xs, n, if less(xs[b], xs[n - 1]) then n - 1 else b)
  {
    if less(xs[b], xs[n - 1]) {
      forall i | 0 <= i < n - 1 ensures less(xs[i], xs[n - 1]) {
        assert !less(xs[b], xs[i]);
      }
    }
  }

  lemma FirstMaximumIsUnique(less: (Word, Word) -> bool, xs: Floats, n: nat, a: int, b: int)
    requires n <= |xs| && FirstMaximum(less, xs, n, a) && FirstMaximum(less, xs, n, b)
    ensures a == b
  {
    assert !less(xs[a], xs[b]) && !less(xs[b], xs[a]);
  }

  /** Runs the first n prompt tokens through the model from position pos on. */
  function Prefill(e: Engine, m: Model, kv: seq<LayerCache>, prompt: seq<int>, pos: nat, n: nat)
    : (r: Option<seq<LayerCache>>)
    requires ValidModel(m) && ValidCaches(kv, m.cfg) && pos <= n <= |prompt|
    ensures r.Some? ==> ValidCaches(r.value, m.cfg)
    decreases n - pos
  {
    if pos == n then Some(kv)
    else
      match Forward(e, m, kv, prompt[pos], pos)
      case None => None
      case Some((kv', _)) => Prefill(e, m, kv', prompt, pos + 1, n)
  }

  /** The autoregressive loop; goOn is the per-token callback. */
  function Decode(e: Engine, m: Model, kv: seq<LayerCache>, next: int, pos: nat, budget: nat, goOn: int -> bool)
    : Option<seq<int>>
    requires ValidModel(m) && ValidCaches(kv, m.cfg)
    decreases budget
  {
    if budget == 0 then Some([])
    else
      match Forward(e, m, kv, next, pos)
      case None => None
      case Some((kv', logits)) =>
        var t := MaxElement(e.less, logits, m.cfg.vocab);
        if !goOn(t) || t == m.cfg.eos then Some([t])
        else
          match Decode(e, m, kv', t, pos + 1, budget - 1, goOn)
          case None => None
          case Some(more) => Some([t] + more)
  }

  function Max(a: int, b: int): int {
    if a < b then b else a
  }

  /** How many prompt tokens are used: a prompt that fills the cache is cut to leave one position. */
  function PromptLength(cfg: Config, prompt: seq<int>): (n: nat)
    requires cfg.maxPos > 0
    ensures n <= |prompt| && n < cfg.maxPos
  {
    if |prompt| >= cfg.maxPos then cfg.maxPos - 1 else |prompt|
  }

  function Budget(cfg: Config, n: nat, maxTokens: int): nat {
    Max(0, if maxTokens > cfg.maxPos - n then cfg.maxPos - n else maxTokens)
  }

  /** generate and generate_stream at temperature 0, on a fresh cache. */
  function Generate(e: Engine, m: Model, prompt: seq<int>, maxTokens: int, goOn: int -> bool): Option<seq<int>>
    requires ValidModel(m)
  {
    var n := PromptLength(m.cfg, prompt);
    match Prefill(e, m, FreshCaches(m.cfg), prompt, 0, n)
    case None => None
    case Some(kv) =>
      var next := if n > 0 then prompt[n - 1] else if m.cfg.eos >= 0 then m.cfg.eos else 0;
      Decode(e, m, kv, next, n, Budget(m.cfg, n, maxTokens), goOn)
  }

  // ----- facts about chains

  /** All block weights can be resolved. */
  ghost predicate Complete(m: Model) {
    |m.norms| == m.cfg.layers && forall i :: 0 <= i < m.cfg.layers ==> Resolve(m, i).Some?
  }

  lemma {:induction false} ChainCompletes(e: Engine, m: Model, kv: seq<LayerCache>, x: Floats, pos: int, i: nat, j: nat)
    requires i <= j <= m.cfg.layers && Complete(m) && ValidCaches(kv, m.cfg)
    ensures Chain(e, m, kv, x, pos, i, j).Some?
    decreases j - i
  {
    hide Resolve, Block;
    if i < j {
      var (x', c) := Block(e, m.cfg, Resolve(m, i).value, x, pos, kv[i]);
      ChainCompletes(e, m, kv[i := c], x', pos, i + 1, j);
    }
  }

  /** Running blocks i to k is running i to j and then j to k. */
  lemma {:induction false} ChainSplits(e: Engine, m: Model, kv: seq<LayerCache>, x: Floats, pos: int, i: nat, j: nat, k: nat)
    requires i <= j <= k <= m.cfg.layers == |m.norms| && ValidCaches(kv, m.cfg)
    ensures Chain(e, m, kv, x, pos, i, k) ==
      match Chain(e, m, kv, x, pos, i, j)
      case None => None
      case Some((kv', x')) => Chain(e, m, kv', x', pos, j, k)
    decreases j - i
  {
    hide Resolve, Block;
    if i < j && Resolve(m, i).Some? {
      var (x', c) := Block(e, m.cfg, Resolve(m, i).value, x, pos, kv[i]);
      ChainSplits(e, m, kv[i := c], x', pos, i + 1, j, k);
    }
  }

  /**
   Two models that agree on the weights of layers i to j - 1, run on caches that agree there,
   compute the same hidden state, leave the same caches there and touch nothing else.
   */
  lemma {:induction false} ChainsAgree(
      e: Engine, m: Model, m': Model, kv: seq<LayerCache>, kv': seq<LayerCache>, x: Floats, pos: int, i: nat, j: nat)
    requires i <= j <= m.cfg.layers == |m.norms| == |m'.norms| && m'.cfg == m.cfg
    requires ValidCaches(kv, m.cfg) && ValidCaches(kv', m.cfg)
    requires forall l :: i <= l < j ==> Resolve(m', l) == Resolve(m, l) && kv'[l] == kv[l]
    ensures var r, r' := Chain(e, m, kv, x, pos, i, j), Chain(e, m', kv', x, pos, i, j);
      && (r.Some? <==> r'.Some?)
      && (r.Some? ==>
            && r.value.1 == r'.value.1
            && (forall l :: i <= l < j ==> r'.value.0[l] == r.value.0[l])
            && (forall l :: 0 <= l < |kv| && !(i <= l < j) ==> r.value.0[l] == kv[l] && r'.value.0[l] == kv'[l]))
    decreases j - i
  {
    hide Resolve, Block;
    if i < j && Resolve(m, i).Some? {
      var (x', c) := Block(e, m.cfg, Resolve(m, i).value, x, pos, kv[i]);
      ChainsAgree(e, m, m', kv[i := c], kv'[i := c], x', pos, i + 1, j);
    }
  }

  // ----- the flat cache is the history of appended rows

  /** The rows appended so far, in order, are what the strided reads return. */
  ghost predicate HoldsHistory(c: LayerCache, cfg: Config, ks: seq<Floats>, vs: seq<Floats>)
    requires ValidLayer(c, cfg)
  {
    && c.len == |ks| == |vs|
    && RowsOf(c.k, Width(cfg), c.len, cfg.maxPos) == ks && RowsOf(c.v, Width(cfg), c.len, cfg.maxPos) == vs
  }

  lemma SplicedRow(buf: Floats, row: Floats, width: nat, t: nat, pos: nat, maxPos: nat)
    requires |row| == width && t < maxPos && pos < maxPos && |buf| == maxPos * width
    ensures 0 <= t * width <= t * width + width <= |buf| && pos * width + width <= |buf|
    ensures Splice(buf, pos * width, row)[t * width..t * width + width]
      == if t == pos then row else buf[t * width..t * width + width]
  {
    RowFits(t, width, maxPos);
    RowFits(pos, width, maxPos);
    if t < pos {
      RowFits(t, width, pos);
    } else if t > pos {
      RowFits(pos, width, t);
    }
  }

  /**
   Appending at the next position extends the history, whatever the unused part of the buffers
   held before: every row that attention reads was written in this run.
   */
  lemma AppendExtendsHistory(c: LayerCache, cfg: Config, ks: seq<Floats>, vs: seq<Floats>, k: Floats, v: Floats)
    requires ValidLayer(c, cfg) && HoldsHistory(c, cfg, ks, vs) && c.len < cfg.maxPos
    requires |k| == |v| == Width(cfg)
    ensures HoldsHistory(Append(c, cfg, k, v, c.len), cfg, ks + [k], vs + [v])
  {
    hide Splice, Width;
    var w, r := Width(cfg), Append(c, cfg, k, v, c.len);
    forall t | 0 <= t < c.len + 1
      ensures RowsOf(r.k, w, r.len, cfg.maxPos)[t] == (ks + [k])[t]
      ensures RowsOf(r.v, w, r.len, cfg.maxPos)[t] == (vs + [v])[t]
    {
      SplicedRow(c.k, k, w, t, c.len, cfg.maxPos);
      SplicedRow(c.v, v, w, t, c.len, cfg.maxPos);
      if t < c.len {
        assert RowsOf(c.k, w, c.len, cfg.maxPos)[t] == ks[t] && RowsOf(c.v, w, c.len, cfg.maxPos)[t] == vs[t];
      }
    }
  }

  /** Where head h starts inside a row, and where row t starts inside the buffer. */
  function HeadOffset(cfg: Config, h: nat): nat {
    h * cfg.headDim
  }

  function RowStart(cfg: Config, t: nat): nat {
    t * Width(cfg)
  }

  /** Element j of head h at time t, addressed as attention does, is element h * headDim + j of row t. */
  lemma StridedRead(c: LayerCache, cfg: Config, ks: seq<Floats>, vs: seq<Floats>, t: nat, h: nat, j: nat)
    requires ValidLayer(c, cfg) && HoldsHistory(c, cfg, ks, vs)
    requires t < c.len && t < |ks| && t < |vs| && h < cfg.kvHeads && j < cfg.headDim
    ensures var at, e := HeadOffset(cfg, h) + RowStart(cfg, t) + j, HeadOffset(cfg, h) + j;
      at < |c.k| && at < |c.v| && e < |ks[t]| && e < |vs[t]| && c.k[at] == ks[t][e] && c.v[at] == vs[t][e]
  {
    var w, e := Width(cfg), HeadOffset(cfg, h) + j;
    FlatIndex(cfg.kvHeads, cfg.headDim, h, j);
    hide Width, RowsOf;
    RowRead(c.k, w, c.len, cfg.maxPos, ks, t, e);
    RowRead(c.v, w, c.len, cfg.maxPos, vs, t, e);
  }

  lemma RowRead(buf: Floats, width: nat, len: nat, maxPos: nat, rows: seq<Floats>, t: nat, e: nat)
    requires |buf| == maxPos * width && len <= maxPos && rows == RowsOf(buf, width, len, maxPos)
    requires t < len && e < width
    ensures t < |rows| && |rows[t]| == width && t * width + e < |buf| && buf[t * width + e] == rows[t][e]
  {
    RowFits(t, width, maxPos);
    assert rows[t] == buf[t * width..t * width + width];
  }
}
