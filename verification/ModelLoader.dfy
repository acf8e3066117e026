/** Assembling a whole model or one shard of it from the loaded records (load_model_from, load_model_shard). */
module ModelLoader {
  import opened Bytes
  import opened LayerNames
  import opened RecordFile
  import opened ShardFile

  datatype Config = Config(
    vocab: nat, hidden: nat, layers: nat, heads: nat, kvHeads: nat, headDim: nat, maxPos: nat, eos: int)

  datatype NormWeights = NormWeights(inputNorm: seq<Word>, postNorm: seq<Word>, qNorm: seq<Word>, kNorm: seq<Word>)

  /** What model_extra.bin holds: configuration, embedding, final norm and one pair of norms per layer. */
  datatype Extra = Extra(cfg: Config, embedding: seq<Word>, finalNorm: seq<Word>, norms: seq<NormWeights>)

  /** load_config rejects non-positive sizes; load_layer_norms returns one entry per layer. */
  predicate ValidExtra(x: Extra) {
    && x.cfg.vocab > 0 && x.cfg.hidden > 0 && x.cfg.layers > 0 && x.cfg.heads > 0 && x.cfg.kvHeads > 0
    && x.cfg.maxPos > 0 && x.cfg.maxPos <= 4096 && |x.norms| == x.cfg.layers <= INT_MAX
    && |x.embedding| == x.cfg.vocab * x.cfg.hidden
  }

  datatype Model = Model(
    cfg: Config, embedding: seq<Word>, finalNorm: seq<Word>, norms: seq<NormWeights>, layers: seq<LayerData>)

  /** A half-open layer range and the two flags that come with it. */
  datatype ShardSpec = ShardSpec(start: int, end: int, isFirst: bool, isLast: bool)

  datatype Shard = Shard(model: Model, start: nat, end: nat, isFirst: bool, isLast: bool)

  /** Shard ranges with the flags that their bounds imply. */
  predicate TilingSpecs(specs: seq<ShardSpec>, layers: nat) {
    && |specs| > 0 && specs[0].start == 0 && specs[|specs| - 1].end == layers
    && (forall w :: 0 <= w < |specs| ==>
          && specs[w].start < specs[w].end
          && (specs[w].isFirst <==> specs[w].start == 0) && (specs[w].isLast <==> specs[w].end == layers))
    && (forall w :: 0 < w < |specs| ==> specs[w].start == specs[w - 1].end)
  }

  lemma {:induction false} SpecsIncrease(specs: seq<ShardSpec>, layers: nat, v: nat, w: nat)
    requires TilingSpecs(specs, layers) && v <= w < |specs|
    ensures specs[v].start <= specs[w].start && specs[v].end <= specs[w].end
    decreases w - v
  {
    if v < w {
      SpecsIncrease(specs, layers, v, w - 1);
    }
  }

  lemma SpecBounds(specs: seq<ShardSpec>, layers: nat, w: nat)
    requires TilingSpecs(specs, layers) && w < |specs|
    ensures 0 <= specs[w].start < specs[w].end <= layers
  {
    SpecsIncrease(specs, layers, 0, w);
    SpecsIncrease(specs, layers, w, |specs| - 1);
  }

  // ----- head_dim

  const FIRST_Q_PROJ := "model.layers.0.self_attn.q_proj"

  /** The head dimension that the first layer's query projection implies, if that record is present. */
  function FixedConfig(cfg: Config, ls: seq<LayerData>): Config {
    match Lookup(ls, FIRST_Q_PROJ)
    case None => cfg
    case Some(l) => if cfg.heads > 0 then cfg.(headDim := l.outF / cfg.heads) else cfg
  }

  // ----- per-head norms stored as records

  predicate IsNormRecord(name: string) {
    NormLayerIndex(name, Q_NORM) != NoLayer || NormLayerIndex(name, K_NORM) != NoLayer
  }

  function NotNorm(): string -> bool {
    name => !IsNormRecord(name)
  }

  function LiftRecord(norms: seq<NormWeights>, l: LayerData): (r: seq<NormWeights>)
    ensures |r| == |norms|
  {
    var lq, lk := NormLayerIndex(l.name, Q_NORM), NormLayerIndex(l.name, K_NORM);
    if lq.Layer? then
      if lq.n < |norms| && l.body.Raw? then norms[lq.n := norms[lq.n].(qNorm := l.body.weights)] else norms
    else if lk.Layer? then
      if lk.n < |norms| && l.body.Raw? then norms[lk.n := norms[lk.n].(kNorm := l.body.weights)] else norms
    else norms
  }

  function LiftNorms(norms: seq<NormWeights>, ls: seq<LayerData>): (r: seq<NormWeights>)
    ensures |r| == |norms|
    decreases |ls|
  {
    if ls == [] then norms else LiftNorms(LiftRecord(norms, ls[0]), ls[1..])
  }

  /** A norm record whose layer number overflows an int makes both loaders throw. */
  predicate SomeNormTooLarge(ls: seq<LayerData>) {
    exists k :: 0 <= k < |ls| &&
      (NormLayerIndex(ls[k].name, Q_NORM).TooLarge? || NormLayerIndex(ls[k].name, K_NORM).TooLarge?)
  }

  function Assemble(x: Extra, ls: seq<LayerData>): Model {
    Model(FixedConfig(x.cfg, ls), x.embedding, x.finalNorm, LiftNorms(x.norms, ls), Select(ls, NotNorm()))
  }

  /** load_model_from, for a model directory of .bin files. */
  function LoadModel(x: Extra, file: seq<Byte>): Option<Model> {
    match Load(file)
    case None => None
    case Some(ls) => if SomeNormTooLarge(ls) then None else Some(Assemble(x, ls))
  }

  /** load_model_shard: embedding and final norm only where the given flags ask for them. */
  function LoadShard(x: Extra, file: seq<Byte>, spec: ShardSpec): Option<Shard> {
    if spec.start < 0 || spec.end < spec.start || spec.end > x.cfg.layers then None
    else
      match LoadRange(file, spec.start, spec.end, spec.isLast)
      case None => None
      case Some(ls) =>
        if SomeNormTooLarge(ls) then None
        else
          var m := Assemble(x, ls);
          Some(Shard(m.(embedding := if spec.isFirst then x.embedding else [],
                        finalNorm := if spec.isLast then x.finalNorm else []),
                     spec.start, spec.end, spec.start == 0, spec.end == m.cfg.layers))
  }

  // ----- what one transformer block needs

  datatype BlockWeights = BlockWeights(parts: seq<LayerData>, norms: NormWeights)

  function ResolveNames(ls: seq<LayerData>, base: string, names: seq<string>): Option<seq<LayerData>> {
    if names == [] then Some([])
    else
      match (Lookup(ls, base + names[0]), ResolveNames(ls, base, names[1..]))
      case (Some(l), Some(more)) => Some([l] + more)
      case _ => None
  }

  /** The seven projections of layer i by name and its norms by number; None where a lookup throws. */
  function Resolve(m: Model, i: nat): Option<BlockWeights>
    requires i < |m.norms|
  {
    match ResolveNames(m.layers, LayerBase(i), BLOCK_PARTS)
    case None => None
    case Some(parts) => Some(BlockWeights(parts, m.norms[i]))
  }

  // ----- a shard sees its layers as the whole model does

  lemma KeptNames(i: nat, part: nat, start: int, end: int, withHead: bool)
    requires part < |BLOCK_PARTS| && start <= i < end <= INT_MAX
    ensures ShardKeeps(start, end, withHead)(LayerBase(i) + BLOCK_PARTS[part])
    ensures NotNorm()(LayerBase(i) + BLOCK_PARTS[part])
  {
    LayerBaseParses(i, BLOCK_PARTS[part]);
    BlockNamesAreNotNorms(i, part, Q_NORM);
    BlockNamesAreNotNorms(i, part, K_NORM);
  }

  lemma BlockNamesKept(i: nat, start: int, end: int, withHead: bool)
    requires start <= i < end <= INT_MAX
    ensures forall k :: 0 <= k < |BLOCK_PARTS| ==>
      ShardKeeps(start, end, withHead)(LayerBase(i) + BLOCK_PARTS[k]) && NotNorm()(LayerBase(i) + BLOCK_PARTS[k])
  {
    forall k | 0 <= k < |BLOCK_PARTS|
      ensures ShardKeeps(start, end, withHead)(LayerBase(i) + BLOCK_PARTS[k])
      ensures NotNorm()(LayerBase(i) + BLOCK_PARTS[k])
    {
      KeptNames(i, k, start, end, withHead);
    }
  }

  lemma SelectedLookup(ls: seq<LayerData>, keep: string -> bool, name: string)
    requires keep(name) && NotNorm()(name)
    ensures Lookup(Select(Select(ls, keep), NotNorm()), name) == Lookup(Select(ls, NotNorm()), name)
  {
    SelectKeepsLookup(Select(ls, keep), NotNorm(), name);
    SelectKeepsLookup(ls, keep, name);
    SelectKeepsLookup(ls, NotNorm(), name);
  }

  lemma {:induction false} NamesAgree(ls: seq<LayerData>, keep: string -> bool, base: string, names: seq<string>)
    requires forall k :: 0 <= k < |names| ==> keep(base + names[k]) && NotNorm()(base + names[k])
    ensures ResolveNames(Select(Select(ls, keep), NotNorm()), base, names)
         == ResolveNames(Select(ls, NotNorm()), base, names)
  {
    if names != [] {
      hide Lookup, IsNormRecord;
      assert keep(base + names[0]) && NotNorm()(base + names[0]);
      SelectedLookup(ls, keep, base + names[0]);
      NamesAgree(ls, keep, base, names[1..]);
    }
  }

  lemma LiftedAlike(norms: seq<NormWeights>, norms': seq<NormWeights>, l: LayerData, i: nat)
    requires |norms| == |norms'| && i < |norms| && norms[i] == norms'[i]
    ensures |LiftRecord(norms, l)| == |LiftRecord(norms', l)| == |norms|
    ensures LiftRecord(norms, l)[i] == LiftRecord(norms', l)[i]
  {
    hide NormLayerIndex;
  }

  /** A record that a shard owning layer i drops does not touch layer i. */
  lemma LiftedElsewhere(norms: seq<NormWeights>, l: LayerData, i: nat, start: int, end: int, withHead: bool)
    requires i < |norms| && start <= i < end
    ensures |LiftRecord(norms, l)| == |norms|
    ensures !InShard(l.name, start, end, withHead) ==> LiftRecord(norms, l)[i] == norms[i]
  {
    hide ParseLayerIndex, NormLayerIndex;
    if NormLayerIndex(l.name, Q_NORM) != NoLayer {
      NormIsLayerRecord(l.name, Q_NORM);
    }
    if NormLayerIndex(l.name, K_NORM) != NoLayer {
      NormIsLayerRecord(l.name, K_NORM);
    }
  }

  /** Lifting touches layer i only through records that a shard owning layer i keeps. */
  lemma {:induction false} LiftedNormsAgree(
      ls: seq<LayerData>, norms: seq<NormWeights>, norms': seq<NormWeights>, i: nat, start: int, end: int, withHead: bool)
    requires |norms| == |norms'| && i < |norms| && start <= i < end && norms[i] == norms'[i]
    ensures LiftNorms(norms', Select(ls, ShardKeeps(start, end, withHead)))[i] == LiftNorms(norms, ls)[i]
    decreases |ls|
  {
    if ls != [] {
      hide ParseLayerIndex, LiftRecord, InShard;
      var keep, l := ShardKeeps(start, end, withHead), ls[0];
      LiftedAlike(norms, norms', l, i);
      LiftedElsewhere(norms, l, i, start, end, withHead);
      if keep(l.name) {
        var kept := Select(ls, keep);
        assert kept[1..] == Select(ls[1..], keep);
        LiftedNormsAgree(ls[1..], LiftRecord(norms, l), LiftRecord(norms', l), i, start, end, withHead);
      } else {
        LiftedNormsAgree(ls[1..], LiftRecord(norms, l), norms', i, start, end, withHead);
      }
    }
  }

  /** The head dimension of a shard is the model's exactly when it owns layer 0 or the fix-up is idle. */
  lemma HeadDimAgreesExactly(x: Extra, ls: seq<LayerData>, start: int, end: int, withHead: bool)
    requires 0 <= start <= end
    ensures var kept := Select(ls, ShardKeeps(start, end, withHead));
      FixedConfig(x.cfg, kept) == FixedConfig(x.cfg, ls) <==> start == 0 < end || FixedConfig(x.cfg, ls) == x.cfg
  {
    hide Lookup;
    var keep := ShardKeeps(start, end, withHead);
    FirstLayerName();
    if start == 0 < end {
      SelectKeepsLookup(ls, keep, FIRST_Q_PROJ);
    } else {
      DroppedNameIsAbsent(ls, keep, FIRST_Q_PROJ);
    }
  }

  lemma FirstLayerName()
    ensures ParseLayerIndex(FIRST_Q_PROJ) == Layer(0) && FIRST_Q_PROJ != LM_HEAD
  {
    hide ParseLayerIndex, Decimal, Number;
    assert FIRST_Q_PROJ == LAYER_PREFIX + "0" + "." + "self_attn.q_proj";
    ZeroIsDecimal();
    NumberedPrefixParses(FIRST_Q_PROJ, "0", "self_attn.q_proj");
  }

  lemma ZeroIsDecimal()
    ensures AllDigits("0") && Number("0") == 0
  {
    assert Decimal(0) == "0";
    DecimalNumber(0);
  }

  lemma {:induction false} DroppedNameIsAbsent(ls: seq<LayerData>, keep: string -> bool, name: string)
    requires !keep(name)
    ensures Lookup(Select(ls, keep), name) == None
  {
    if ls != [] {
      DroppedNameIsAbsent(ls[1..], keep, name);
      hide Lookup;
      if keep(ls[0].name) {
        assert Select(ls, keep)[1..] == Select(ls[1..], keep);
        LookupStep(Select(ls, keep), name);
      }
    }
  }

  lemma {:induction false} NoOverflowInSelection(ls: seq<LayerData>, keep: string -> bool)
    requires !SomeNormTooLarge(ls)
    ensures !SomeNormTooLarge(Select(ls, keep))
  {
    if ls != [] {
      hide NormLayerIndex;
      assert !SomeNormTooLarge(ls[1..]) by {
        assert forall k :: 0 <= k < |ls[1..]| ==> ls[1..][k] == ls[k + 1];
      }
      NoOverflowInSelection(ls[1..], keep);
    }
  }

  /**
   A shard loaded from the same files as the whole model: same configuration when the head
   dimension is not derived from a layer it lacks, the same weights for each of its layers, the
   same output head if it is the last, and the embedding if it is the first.
   */
  ghost predicate Represents(s: Shard, m: Model) {
    && s.start <= s.end <= m.cfg.layers && |s.model.norms| == |m.norms| == m.cfg.layers
    && s.model.cfg == m.cfg
    && (s.isFirst <==> s.start == 0) && (s.isLast <==> s.end == m.cfg.layers)
    && (s.isFirst ==> s.model.embedding == m.embedding)
    && (s.isLast ==> s.model.finalNorm == m.finalNorm && Lookup(s.model.layers, LM_HEAD) == Lookup(m.layers, LM_HEAD))
    && forall i :: s.start <= i < s.end ==> Resolve(s.model, i) == Resolve(m, i)
  }

  /** The conditions under which loading a shard works once loading the model does. */
  lemma ShardRepresents(x: Extra, file: seq<Byte>, spec: ShardSpec)
    requires ValidExtra(x) && LoadModel(x, file).Some? && !SomeTooLarge(Load(file).value)
    requires 0 <= spec.start <= spec.end <= x.cfg.layers
    requires (spec.isFirst <==> spec.start == 0) && (spec.isLast <==> spec.end == x.cfg.layers)
    ensures LoadShard(x, file, spec).Some?
    ensures Represents(LoadShard(x, file, spec).value, LoadModel(x, file).value)
      <==> spec.start == 0 < spec.end || LoadModel(x, file).value.cfg == x.cfg
  {
    hide Lookup, SomeTooLarge, SomeNormTooLarge, Load, LoadRange, FixedConfig;
    var ls := Load(file).value;
    var keep := ShardKeeps(spec.start, spec.end, spec.isLast);
    var kept := Select(ls, keep);
    LoadRangeSelects(file, spec.start, spec.end, spec.isLast);
    NoOverflowInSelection(ls, keep);
    HeadDimAgreesExactly(x, ls, spec.start, spec.end, spec.isLast);
    var s, m := LoadShard(x, file, spec).value, LoadModel(x, file).value;
    FixupKeepsRest(x.cfg, ls);
    FixupKeepsRest(x.cfg, kept);
    if spec.isLast {
      HeadIsNotLayer();
      SelectedLookup(ls, keep, LM_HEAD);
    }
    forall i | s.start <= i < s.end ensures Resolve(s.model, i) == Resolve(m, i) {
      BlockNamesKept(i, spec.start, spec.end, spec.isLast);
      NamesAgree(ls, keep, LayerBase(i), BLOCK_PARTS);
      LiftedNormsAgree(ls, x.norms, x.norms, i, spec.start, spec.end, spec.isLast);
    }
  }

  lemma FixupKeepsRest(cfg: Config, ls: seq<LayerData>)
    ensures FixedConfig(cfg, ls).(headDim := cfg.headDim) == cfg
  {
  }
}
