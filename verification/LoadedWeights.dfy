/** What a loaded model or shard holds, record by record of the file it came from. */
module LoadedWeights {
  import opened Bytes
  import opened LayerNames
  import opened RecordFile
  import opened ShardFile
  import opened ModelLoader

  // ----- per-head norms

  /** A raw record named after layer n and one of the two per-head norms. */
  ghost predicate IsNormOf(l: LayerData, n: nat, suffix: string) {
    l.body.Raw? && exists digits :: IsNumbered(l.name, digits, suffix) && Number(digits) == n
  }

  ghost predicate NoNormOf(ls: seq<LayerData>, n: nat, suffix: string) {
    forall k :: 0 <= k < |ls| ==> !IsNormOf(ls[k], n, suffix)
  }

  ghost predicate LastNormOf(ls: seq<LayerData>, n: nat, suffix: string, k: int) {
    0 <= k < |ls| && IsNormOf(ls[k], n, suffix) && NoNormOf(ls[k + 1..], n, suffix)
  }

  /** The weights of the last such record; what was there before when there is none. */
  ghost predicate TakenFrom(ls: seq<LayerData>, n: nat, suffix: string, before: seq<Word>, after: seq<Word>) {
    && (NoNormOf(ls, n, suffix) ==> after == before)
    && forall k :: LastNormOf(ls, n, suffix, k) ==> after == ls[k].body.weights
  }

  /** The norms of layer n: the two per-head norms from their own records, the others untouched. */
  ghost predicate NormsFrom(ls: seq<LayerData>, n: nat, before: NormWeights, after: NormWeights) {
    && after.inputNorm == before.inputNorm && after.postNorm == before.postNorm
    && TakenFrom(ls, n, Q_NORM, before.qNorm, after.qNorm)
    && TakenFrom(ls, n, K_NORM, before.kNorm, after.kNorm)
  }

  lemma NormIndexIs(l: LayerData, n: nat, suffix: string)
    requires l.body.Raw? && n <= INT_MAX
    ensures IsNormOf(l, n, suffix) <==> NormLayerIndex(l.name, suffix) == Layer(n)
  {
    hide NormLayerIndex, Number;
    NormIndexExactly(l.name, suffix);
  }

  lemma OneSuffixOnly(name: string)
    ensures NormLayerIndex(name, Q_NORM) == NoLayer || NormLayerIndex(name, K_NORM) == NoLayer
  {
    assert |Q_NORM| == |K_NORM| && Q_NORM[11] != K_NORM[11];
  }

  /** What one record does to the norms of layer n. */
  lemma RecordLifts(norms: seq<NormWeights>, l: LayerData, n: nat)
    requires n < |norms| <= INT_MAX
    ensures |LiftRecord(norms, l)| == |norms|
    ensures var b, a := norms[n], LiftRecord(norms, l)[n];
      && a.inputNorm == b.inputNorm && a.postNorm == b.postNorm
      && a.qNorm == (if IsNormOf(l, n, Q_NORM) then l.body.weights else b.qNorm)
      && a.kNorm == (if IsNormOf(l, n, K_NORM) then l.body.weights else b.kNorm)
  {
    hide NormLayerIndex;
    OneSuffixOnly(l.name);
    if l.body.Raw? {
      NormIndexIs(l, n, Q_NORM);
      NormIndexIs(l, n, K_NORM);
    }
  }

  /** One record more in front. */
  lemma TakenStep(ls: seq<LayerData>, n: nat, suffix: string, before: seq<Word>, mid: seq<Word>, after: seq<Word>)
    requires ls != [] && TakenFrom(ls[1..], n, suffix, mid, after)
    requires mid == if IsNormOf(ls[0], n, suffix) then ls[0].body.weights else before
    ensures TakenFrom(ls, n, suffix, before, after)
  {
    assert forall k :: LastNormOf(ls, n, suffix, k) ==> ls[k].body.Raw?;
    hide IsNormOf;
    assert forall k :: 0 <= k < |ls[1..]| ==> ls[1..][k] == ls[k + 1];
    forall k | LastNormOf(ls, n, suffix, k) ensures after == ls[k].body.weights {
      if k > 0 {
        assert ls[1..][k - 1 + 1..] == ls[k + 1..];
        assert LastNormOf(ls[1..], n, suffix, k - 1);
      }
    }
  }

  lemma {:induction false} LiftedFromRecords(norms: seq<NormWeights>, ls: seq<LayerData>, n: nat)
    requires n < |norms| <= INT_MAX
    ensures |LiftNorms(norms, ls)| == |norms| && NormsFrom(ls, n, norms[n], LiftNorms(norms, ls)[n])
    decreases |ls|
  {
    hide IsNormOf, LiftRecord, TakenFrom;
    if ls == [] {
      NothingTaken(n, Q_NORM, norms[n].qNorm);
      NothingTaken(n, K_NORM, norms[n].kNorm);
    } else {
      RecordLifts(norms, ls[0], n);
      var mid := LiftRecord(norms, ls[0]);
      LiftedFromRecords(mid, ls[1..], n);
      var after := LiftNorms(norms, ls)[n];
      TakenStep(ls, n, Q_NORM, norms[n].qNorm, mid[n].qNorm, after.qNorm);
      TakenStep(ls, n, K_NORM, norms[n].kNorm, mid[n].kNorm, after.kNorm);
    }
  }

  lemma NothingTaken(n: nat, suffix: string, before: seq<Word>)
    ensures TakenFrom([], n, suffix, before, before)
  {
  }

  // ----- the other records

  /** A name that belongs to no per-head norm. */
  ghost predicate NoNormName(name: string) {
    forall digits :: !IsNumbered(name, digits, Q_NORM) && !IsNumbered(name, digits, K_NORM)
  }

  lemma OtherRecordKept(ls: seq<LayerData>, name: string)
    requires NoNormName(name)
    ensures Lookup(Select(ls, NotNorm()), name) == Lookup(ls, name)
  {
    hide NormLayerIndex, Lookup;
    NormIndexExactly(name, Q_NORM);
    NormIndexExactly(name, K_NORM);
    SelectKeepsLookup(ls, NotNorm(), name);
  }

  /** A model assembled from these records: every norm and every other record in its place. */
  ghost predicate HoldsRecords(x: Extra, ls: seq<LayerData>, m: Model) {
    && |m.norms| == |x.norms|
    && (forall n :: 0 <= n < |m.norms| ==> NormsFrom(ls, n, x.norms[n], m.norms[n]))
    && forall name :: NoNormName(name) ==> Lookup(m.layers, name) == Lookup(ls, name)
  }

  lemma AssembledHolds(x: Extra, ls: seq<LayerData>)
    requires |x.norms| <= INT_MAX
    ensures HoldsRecords(x, ls, Assemble(x, ls))
  {
    hide NormsFrom, NoNormName, Lookup;
    forall n | 0 <= n < |x.norms| ensures NormsFrom(ls, n, x.norms[n], LiftNorms(x.norms, ls)[n]) {
      LiftedFromRecords(x.norms, ls, n);
    }
    forall name | NoNormName(name) ensures Lookup(Select(ls, NotNorm()), name) == Lookup(ls, name) {
      OtherRecordKept(ls, name);
    }
  }

  /** A loaded model holds what its two files say. */
  lemma ModelHoldsRecords(x: Extra, file: seq<Byte>)
    requires ValidExtra(x) && LoadModel(x, file).Some?
    ensures Load(file).Some?
    ensures var m := LoadModel(x, file).value;
      m.embedding == x.embedding && m.finalNorm == x.finalNorm && HoldsRecords(x, Load(file).value, m)
  {
    hide HoldsRecords, Load;
    AssembledHolds(x, Load(file).value);
  }

  /** A loaded shard holds what its slice of the file says, and for its own layers what the whole file says. */
  lemma ShardHoldsRecords(x: Extra, file: seq<Byte>, spec: ShardSpec)
    requires ValidExtra(x) && LoadShard(x, file, spec).Some?
    ensures LoadRange(file, spec.start, spec.end, spec.isLast).Some?
    ensures var s := LoadShard(x, file, spec).value;
      && HoldsRecords(x, LoadRange(file, spec.start, spec.end, spec.isLast).value, s.model)
      && (Load(file).Some? ==> forall n :: s.start <= n < s.end ==> NormsFrom(Load(file).value, n, x.norms[n], s.model.norms[n]))
  {
    hide HoldsRecords, Load, LoadRange, NormsFrom, LiftNorms;
    var kept := LoadRange(file, spec.start, spec.end, spec.isLast).value;
    var s := LoadShard(x, file, spec).value;
    AssembledHolds(x, kept);
    SameRecordsHeld(x, kept, Assemble(x, kept), s.model);
    if Load(file).Some? {
      LoadRangeSelects(file, spec.start, spec.end, spec.isLast);
      forall n | s.start <= n < s.end ensures NormsFrom(Load(file).value, n, x.norms[n], s.model.norms[n]) {
        LiftedNormsAgree(Load(file).value, x.norms, x.norms, n, spec.start, spec.end, spec.isLast);
        LiftedFromRecords(x.norms, Load(file).value, n);
      }
    }
  }

  lemma SameRecordsHeld(x: Extra, ls: seq<LayerData>, m: Model, m': Model)
    requires HoldsRecords(x, ls, m) && m'.norms == m.norms && m'.layers == m.layers
    ensures HoldsRecords(x, ls, m')
  {
    hide NormsFrom, NoNormName, Lookup;
  }

  // ----- what a block is given

  lemma {:induction false} NamesResolve(ls: seq<LayerData>, base: string, names: seq<string>)
    ensures ResolveNames(ls, base, names).Some? <==> forall k :: 0 <= k < |names| ==> Lookup(ls, base + names[k]).Some?
    ensures ResolveNames(ls, base, names).Some? ==>
      && |ResolveNames(ls, base, names).value| == |names|
      && forall k :: 0 <= k < |names| ==> Lookup(ls, base + names[k]) == Some(ResolveNames(ls, base, names).value[k])
  {
    hide Lookup;
    if names != [] {
      NamesResolve(ls, base, names[1..]);
      assert forall k :: 0 < k < |names| ==> names[k] == names[1..][k - 1];
    }
  }

  /** Layer i computes with its own seven projections, in their fixed order, and its own norms. */
  lemma BlockWeightsAreItsOwn(m: Model, i: nat)
    requires i < |m.norms|
    ensures Resolve(m, i).Some? <==> forall k :: 0 <= k < |BLOCK_PARTS| ==> Lookup(m.layers, LayerBase(i) + BLOCK_PARTS[k]).Some?
    ensures Resolve(m, i).Some? ==>
      && Resolve(m, i).value.norms == m.norms[i] && |Resolve(m, i).value.parts| == |BLOCK_PARTS|
      && forall k :: 0 <= k < |BLOCK_PARTS| ==> Lookup(m.layers, LayerBase(i) + BLOCK_PARTS[k]) == Some(Resolve(m, i).value.parts[k])
  {
    hide Lookup, LayerBase;
    NamesResolve(m.layers, LayerBase(i), BLOCK_PARTS);
  }
}
