/** Names of model records and the layer numbers inside them. */
module LayerNames {
  import opened Bytes

  const LAYER_PREFIX := "model.layers."
  const LM_HEAD := "lm_head"
  const INT_MAX := 0x7FFF_FFFF

  predicate IsDigit(c: char) {
    '0' <= c <= '9'
  }

  predicate AllDigits(s: string) {
    forall k :: 0 <= k < |s| ==> IsDigit(s[k])
  }

  function DigitValue(c: char): nat
    requires IsDigit(c)
  {
    c as int - '0' as int
  }

  /** Value of a run of digits. */
  function Number(s: string): nat
    requires AllDigits(s)
  {
    if s == "" then 0 else 10 * Number(s[..|s| - 1]) + DigitValue(s[|s| - 1])
  }

  function DigitChar(d: nat): (c: char)
    requires d < 10
    ensures IsDigit(c) && DigitValue(c) == d
  {
    '0' + d as char
  }

  /** std::to_string for non-negative numbers. */
  function Decimal(n: nat): (s: string)
    ensures s != "" && AllDigits(s)
  {
    if n < 10 then [DigitChar(n)] else Decimal(n / 10) + [DigitChar(n % 10)]
  }

  lemma {:induction false} DecimalNumber(n: nat)
    ensures Number(Decimal(n)) == n
  {
    var s := Decimal(n);
    if n < 10 {
      assert s[..|s| - 1] == "" && s[|s| - 1] == DigitChar(n);
    } else {
      DecimalNumber(n / 10);
      assert s[..|s| - 1] == Decimal(n / 10) && s[|s| - 1] == DigitChar(n % 10);
    }
  }

  /** Position of the first dot. */
  function FirstDot(s: string): (p: nat)
    ensures p <= |s| && (p < |s| ==> s[p] == '.') && forall k :: 0 <= k < p ==> s[k] != '.'
  {
    if s == "" || s[0] == '.' then 0 else FirstDot(s[1..]) + 1
  }

  /** NoLayer for names of other records; TooLarge where std::stoi would throw. */
  datatype LayerIndex = NoLayer | Layer(n: nat) | TooLarge

  function NumberedLayer(digits: string): LayerIndex
    requires AllDigits(digits)
  {
    if Number(digits) <= INT_MAX then Layer(Number(digits)) else TooLarge
  }

  /** parse_layer_index: the number N of "model.layers.N." names. */
  function ParseLayerIndex(name: string): LayerIndex {
    if !(LAYER_PREFIX <= name) then NoLayer
    else
      var rest := name[|LAYER_PREFIX|..];
      var dot := FirstDot(rest);
      if dot == |rest| || dot == 0 then NoLayer
      else if !AllDigits(rest[..dot]) then NoLayer
      else NumberedLayer(rest[..dot])
  }

  /** norm_layer_index: the number N of names that are exactly "model.layers.N" + suffix. */
  function NormLayerIndex(name: string, suffix: string): LayerIndex {
    if |name| <= |suffix| || name[|name| - |suffix|..] != suffix then NoLayer
    else
      var pre := name[..|name| - |suffix|];
      if !(LAYER_PREFIX <= pre) then NoLayer
      else
        var digits := pre[|LAYER_PREFIX|..];
        if digits == "" || !AllDigits(digits) then NoLayer else NumberedLayer(digits)
  }

  const Q_NORM := ".self_attn.q_norm"
  const K_NORM := ".self_attn.k_norm"

  function LayerBase(i: nat): string {
    LAYER_PREFIX + Decimal(i) + "."
  }

  /** A numbered prefix is read back whatever follows its dot. */
  lemma NumberedPrefixParses(name: string, digits: string, tail: string)
    requires digits != "" && AllDigits(digits) && name == LAYER_PREFIX + digits + "." + tail
    ensures ParseLayerIndex(name) == NumberedLayer(digits)
  {
    var rest := name[|LAYER_PREFIX|..];
    assert rest == digits + "." + tail;
    var dot := FirstDot(rest);
    assert rest[|digits|] == '.';
    assert forall k :: 0 <= k < |digits| ==> rest[k] == digits[k] && rest[k] != '.';
    assert dot == |digits| && rest[..dot] == digits;
  }

  /** Names built for layer i belong to layer i. */
  lemma LayerBaseParses(i: nat, tail: string)
    requires i <= INT_MAX
    ensures ParseLayerIndex(LayerBase(i) + tail) == Layer(i)
  {
    DecimalNumber(i);
    NumberedPrefixParses(LayerBase(i) + tail, Decimal(i), tail);
  }

  /** A norm record of layer N is also a record of layer N for the range loader. */
  lemma NormIsLayerRecord(name: string, suffix: string)
    requires suffix != "" && suffix[0] == '.' && NormLayerIndex(name, suffix) != NoLayer
    ensures ParseLayerIndex(name) == NormLayerIndex(name, suffix)
  {
    var pre := name[..|name| - |suffix|];
    var digits := pre[|LAYER_PREFIX|..];
    assert name == LAYER_PREFIX + digits + "." + suffix[1..];
    NumberedPrefixParses(name, digits, suffix[1..]);
  }

  /** A name made of the prefix, a number in digits and a given ending. */
  predicate IsNumbered(name: string, digits: string, ending: string) {
    digits != "" && AllDigits(digits) && name == LAYER_PREFIX + digits + ending
  }

  /** The number of a record is read off exactly the names of that form whose ending starts with a dot. */
  lemma LayerIndexExactly(name: string)
    ensures forall digits, tail: string :: IsNumbered(name, digits, "." + tail) ==> ParseLayerIndex(name) == NumberedLayer(digits)
    ensures (forall digits, tail: string :: !IsNumbered(name, digits, "." + tail)) ==> ParseLayerIndex(name) == NoLayer
  {
    forall digits, tail: string | IsNumbered(name, digits, "." + tail) ensures ParseLayerIndex(name) == NumberedLayer(digits) {
      NumberedPrefixParses(name, digits, tail);
    }
    if ParseLayerIndex(name) != NoLayer {
      var rest := name[|LAYER_PREFIX|..];
      var dot := FirstDot(rest);
      assert name == LAYER_PREFIX + rest[..dot] + ("." + rest[dot + 1..]);
      assert IsNumbered(name, rest[..dot], "." + rest[dot + 1..]);
    }
  }

  /** The number of a norm record is read off exactly the names of that form with the given ending. */
  lemma NormIndexExactly(name: string, suffix: string)
    ensures forall digits :: IsNumbered(name, digits, suffix) ==> NormLayerIndex(name, suffix) == NumberedLayer(digits)
    ensures (forall digits :: !IsNumbered(name, digits, suffix)) ==> NormLayerIndex(name, suffix) == NoLayer
  {
    forall digits | IsNumbered(name, digits, suffix) ensures NormLayerIndex(name, suffix) == NumberedLayer(digits) {
      assert name[|name| - |suffix|..] == suffix;
      var pre := name[..|name| - |suffix|];
      assert pre == LAYER_PREFIX + digits && pre[|LAYER_PREFIX|..] == digits;
    }
    if NormLayerIndex(name, suffix) != NoLayer {
      var digits := name[..|name| - |suffix|][|LAYER_PREFIX|..];
      assert name == LAYER_PREFIX + digits + suffix;
      assert IsNumbered(name, digits, suffix);
    }
  }

  /** The projections that one transformer block looks up. */
  const BLOCK_PARTS: seq<string> := [
    "self_attn.q_proj", "self_attn.k_proj", "self_attn.v_proj", "self_attn.o_proj",
    "mlp.gate_proj", "mlp.up_proj", "mlp.down_proj"]

  /** None of the names that are looked up is a norm record. */
  lemma BlockNamesAreNotNorms(i: nat, part: nat, suffix: string)
    requires part < |BLOCK_PARTS| && (suffix == Q_NORM || suffix == K_NORM)
    ensures NormLayerIndex(LayerBase(i) + BLOCK_PARTS[part], suffix) == NoLayer
  {
    var name, p := LayerBase(i) + BLOCK_PARTS[part], BLOCK_PARTS[part];
    assert name[|name| - 1] == p[|p| - 1] && name[|name| - 2] == p[|p| - 2];
    if |name| > |suffix| {
      var tail := name[|name| - |suffix|..];
      assert tail[|suffix| - 1] == p[|p| - 1];
      assert suffix[|suffix| - 1] == 'm';
    }
  }

  lemma HeadIsNotLayer()
    ensures ParseLayerIndex(LM_HEAD) == NoLayer
    ensures NormLayerIndex(LM_HEAD, Q_NORM) == NoLayer && NormLayerIndex(LM_HEAD, K_NORM) == NoLayer
  {
  }
}
