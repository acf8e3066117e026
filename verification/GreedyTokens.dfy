/** What generation at temperature 0 answers with, token by token, on a single device and on a cluster. */
module GreedyTokens {
  import opened Bytes
  import opened LayerNames
  import opened ModelLoader
  import opened Protocol
  import opened Inference
  import opened Cluster
  import opened CacheHistory

  /** The logits after these tokens, computed from them alone. */
  function LogitsAfter(e: Engine, m: Model, toks: seq<int>): (r: Floats)
    requires ValidModel(m) && Complete(m) && toks != []
    ensures |r| == m.cfg.vocab
  {
    Logits(e, m, Hidden(e, m, toks, |toks| - 1, m.cfg.layers))
  }

  /** Each token is the first largest logit after all tokens before it. */
  ghost predicate AllGreedy(e: Engine, m: Model, seen: seq<int>, out: seq<int>)
    requires ValidModel(m) && Complete(m) && seen != []
  {
    forall k :: 0 <= k < |out| ==> FirstMaximum(e.less, LogitsAfter(e, m, seen + out[..k]), m.cfg.vocab, out[k])
  }

  /** A token after which generation ends before its budget does. */
  predicate Ends(m: Model, goOn: int -> bool, t: int) {
    !goOn(t) || t == m.cfg.eos
  }

  /** Tokens are generated up to the budget or the first one that ends generation. */
  predicate StopsRight(m: Model, goOn: int -> bool, budget: nat, out: seq<int>) {
    && |out| <= budget
    && (forall k :: 0 <= k < |out| - 1 ==> !Ends(m, goOn, out[k]))
    && (|out| < budget ==> out != [] && Ends(m, goOn, out[|out| - 1]))
  }

  /**
   The answer to a prompt: it continues the prompt as far as the cache has room, behind its last token once more (or the
   end token for an empty prompt), with at most maxTokens tokens and no more than the room that is left.
   */
  ghost predicate Answers(e: Engine, m: Model, prompt: seq<int>, maxTokens: int, goOn: int -> bool, out: seq<int>)
    requires ValidModel(m) && Complete(m)
  {
    var n := Least(|prompt|, m.cfg.maxPos - 1);
    var again := if n > 0 then prompt[n - 1] else if m.cfg.eos >= 0 then m.cfg.eos else 0;
    && AllGreedy(e, m, prompt[..n] + [again], out)
    && StopsRight(m, goOn, if maxTokens <= 0 then 0 else Least(maxTokens, m.cfg.maxPos - n), out)
  }

  lemma GreedyStep(e: Engine, m: Model, seen: seq<int>, t: int, more: seq<int>)
    requires ValidModel(m) && Complete(m) && seen != []
    ensures AllGreedy(e, m, seen, [t] + more)
      <==> FirstMaximum(e.less, LogitsAfter(e, m, seen), m.cfg.vocab, t) && AllGreedy(e, m, seen + [t], more)
  {
    hide LogitsAfter, FirstMaximum, Complete, ValidModel;
    var out := [t] + more;
    assert seen + out[..0] == seen;
    assert forall k :: 0 <= k < |more| ==> seen + out[..k + 1] == seen + [t] + more[..k] && out[k + 1] == more[k];
    if AllGreedy(e, m, seen + [t], more) && FirstMaximum(e.less, LogitsAfter(e, m, seen), m.cfg.vocab, t) {
      forall k | 0 <= k < |out| ensures FirstMaximum(e.less, LogitsAfter(e, m, seen + out[..k]), m.cfg.vocab, out[k]) {
        if k > 0 {
          assert out[k] == more[k - 1] && seen + out[..k] == seen + [t] + more[..k - 1];
        }
      }
    }
  }

  lemma StopStep(m: Model, goOn: int -> bool, budget: nat, t: int, more: seq<int>)
    requires budget > 0
    ensures StopsRight(m, goOn, budget, [t] + more)
      <==> if Ends(m, goOn, t) then more == [] else StopsRight(m, goOn, budget - 1, more)
  {
    hide Ends;
    var out := [t] + more;
    assert out[0] == t && forall k :: 0 <= k < |more| ==> out[k + 1] == more[k];
    assert more != [] ==> out[|out| - 1] == more[|more| - 1];
    if StopsRight(m, goOn, budget, out) {
      forall k | 0 <= k < |more| - 1 ensures !Ends(m, goOn, more[k]) {
        assert !Ends(m, goOn, out[k + 1]);
      }
    } else if !Ends(m, goOn, t) && StopsRight(m, goOn, budget - 1, more) {
      forall k | 0 <= k < |out| - 1 ensures !Ends(m, goOn, out[k]) {
        assert k > 0 ==> out[k] == more[k - 1];
      }
    }
  }

  /** Decoding without caches gives the greedy tokens and no others. */
  lemma {:induction false} DecodeIsGreedy(
      e: Engine, m: Model, toks: seq<int>, next: int, budget: nat, goOn: int -> bool, out: seq<int>)
    requires ValidModel(m) && Complete(m) && WeakOrder(e.less)
    ensures out == ReferenceDecode(e, m, toks, next, budget, goOn)
      <==> AllGreedy(e, m, toks + [next], out) && StopsRight(m, goOn, budget, out)
    decreases budget
  {
    hide Complete, Hidden, Logits, MaxElement, FirstMaximum, WeakOrder, AllGreedy, StopsRight;
    if budget == 0 {
      NoTokens(e, m, toks + [next], goOn, out);
    } else {
      var all := toks + [next];
      var logits := LogitsAfter(e, m, all);
      var t := MaxElement(e.less, logits, m.cfg.vocab);
      MaxElementIsFirst(e.less, logits, m.cfg.vocab);
      if out == [] {
        NotEmpty(m, goOn, budget);
      } else {
        assert out == [out[0]] + out[1..];
        GreedyStep(e, m, all, out[0], out[1..]);
        StopStep(m, goOn, budget, out[0], out[1..]);
        if out[0] == t {
          NoTokensIsGreedy(e, m, all + [t]);
          DecodeIsGreedy(e, m, all, t, budget - 1, goOn, out[1..]);
        } else if FirstMaximum(e.less, logits, m.cfg.vocab, out[0]) {
          FirstMaximumIsUnique(e.less, logits, m.cfg.vocab, out[0], t);
        }
      }
    }
  }

  lemma NoTokens(e: Engine, m: Model, seen: seq<int>, goOn: int -> bool, out: seq<int>)
    requires ValidModel(m) && Complete(m) && seen != []
    ensures AllGreedy(e, m, seen, out) && StopsRight(m, goOn, 0, out) <==> out == []
  {
  }

  lemma NoTokensIsGreedy(e: Engine, m: Model, seen: seq<int>)
    requires ValidModel(m) && Complete(m) && seen != []
    ensures AllGreedy(e, m, seen, [])
  {
  }

  lemma NotEmpty(m: Model, goOn: int -> bool, budget: nat)
    requires budget > 0
    ensures !StopsRight(m, goOn, budget, [])
  {
  }

  lemma ReferenceAnswers(e: Engine, m: Model, prompt: seq<int>, maxTokens: int, goOn: int -> bool, out: seq<int>)
    requires ValidModel(m) && Complete(m) && WeakOrder(e.less)
    ensures out == ReferenceGenerate(e, m, prompt, maxTokens, goOn) <==> Answers(e, m, prompt, maxTokens, goOn, out)
  {
    hide Complete, ReferenceDecode, AllGreedy, StopsRight, WeakOrder;
    var n := PromptLength(m.cfg, prompt);
    var again := if n > 0 then prompt[n - 1] else if m.cfg.eos >= 0 then m.cfg.eos else 0;
    DecodeIsGreedy(e, m, prompt[..n], again, Budget(m.cfg, n, maxTokens), goOn, out);
  }

  /** The single device answers every prompt with exactly the greedy tokens. */
  lemma GenerateAnswers(e: Engine, m: Model, prompt: seq<int>, maxTokens: int, goOn: int -> bool, out: seq<int>)
    requires ValidModel(m) && Complete(m) && WeakOrder(e.less)
    ensures Generate(e, m, prompt, maxTokens, goOn) == Some(out) <==> Answers(e, m, prompt, maxTokens, goOn, out)
  {
    hide Complete, Generate, ReferenceGenerate, Answers, WeakOrder;
    GenerateIsReference(e, m, prompt, maxTokens, goOn);
    ReferenceAnswers(e, m, prompt, maxTokens, goOn, out);
  }

  /** A valid plan for the model on workers of its configuration, and a prompt that clusters support. */
  ghost predicate Serves(e: Engine, shards: seq<Shard>, cfg: Config, m: Model, prompt: seq<int>, maxTokens: int) {
    && ValidPlan(shards, m) && Complete(m) && Portable(m.cfg) && m.cfg == cfg && m.cfg.maxPos <= INT_MAX
    && Supported(m, prompt, maxTokens) && WeakOrder(e.less)
  }

  /** A cluster answers every supported prompt with exactly the greedy tokens of the whole model. */
  lemma ClusterAnswers(
      e: Engine, shards: seq<Shard>, m: Model, prompt: seq<int>, maxTokens: int, goOn: int -> bool, out: seq<int>)
    requires Serves(e, shards, m.cfg, m, prompt, maxTokens) && AllInt32(prompt)
    ensures ValidModel(m) && forall w :: 0 <= w < |shards| ==> ValidShard(shards[w])
    ensures ClusterGenerate(e, shards, m.cfg, prompt, maxTokens, goOn) == Some(out)
      <==> Answers(e, m, prompt, maxTokens, goOn, out)
  {
    hide Complete, Represents, ClusterGenerate, ReferenceGenerate, Answers, Supported, ValidShard, WeakOrder;
    ClusterIsReference(e, shards, m, prompt, maxTokens, goOn);
    ReferenceAnswers(e, m, prompt, maxTokens, goOn, out);
  }
}
