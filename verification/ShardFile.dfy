/** Reading only a range of layers from the model file, seeking past the rest (shard_loader.h). */
module ShardFile {
  import opened Bytes
  import opened LayerNames
  import opened RecordFile

  /** Whether a shard keeps a record; only asked when the layer number fits an int. */
  predicate InShard(name: string, start: int, end: int, withHead: bool) {
    || (ParseLayerIndex(name).Layer? && start <= ParseLayerIndex(name).n < end)
    || (withHead && name == LM_HEAD)
  }

  /** Passing over a payload without parsing it. */
  function SkipBody(h: Header, bs: seq<Byte>): Option<seq<Byte>> {
    if IsOldLayout(h.x) then
      if h.x == 0 then
        match TakeWord(bs)
        case None => None
        case Some((len, rest)) => Some(Skip(rest, len))
      else Some(Skip(bs, h.x * (4 + OldCodeBytes(h.outF, h.inF))))
    else
      match TakeNewLength(h.x, bs)
      case None => None
      case Some((len, rest)) => Some(Skip(rest, len))
  }

  function RangeRecords(bs: seq<Byte>, count: nat, start: int, end: int, withHead: bool): Option<seq<LayerData>>
    decreases count
  {
    if count == 0 then Some([])
    else
      match TakeHeader(bs)
      case None => None
      case Some((h, rest)) =>
        if ParseLayerIndex(h.name).TooLarge? then None
        else if InShard(h.name, start, end, withHead) then
          match TakeBody(h, rest)
          case None => None
          case Some((body, next)) =>
            match RangeRecords(next, count - 1, start, end, withHead)
            case None => None
            case Some(more) => Some([LayerData(h.name, h.outF, h.inF, body)] + more)
        else
          match SkipBody(h, rest)
          case None => None
          case Some(next) => RangeRecords(next, count - 1, start, end, withHead)
  }

  /** load_decomposed_layers_als_range */
  function LoadRange(file: seq<Byte>, start: int, end: int, withHead: bool): Option<seq<LayerData>> {
    if start < 0 || end < start then None
    else
      match TakeFileHeader(file)
      case None => None
      case Some((count, records)) => RangeRecords(records, count, start, end, withHead)
  }

  // ----- selecting by name

  function Select(ls: seq<LayerData>, keep: string -> bool): seq<LayerData> {
    if ls == [] then []
    else if keep(ls[0].name) then [ls[0]] + Select(ls[1..], keep)
    else Select(ls[1..], keep)
  }

  function ShardKeeps(start: int, end: int, withHead: bool): string -> bool {
    name => InShard(name, start, end, withHead)
  }

  /** Some record's layer number does not fit an int, where the range reader throws. */
  predicate SomeTooLarge(ls: seq<LayerData>) {
    exists k :: 0 <= k < |ls| && ParseLayerIndex(ls[k].name).TooLarge?
  }

  lemma {:induction false} OldTermsEnd(bs: seq<Byte>, count: nat, outF: nat, inF: nat)
    requires ParseOldTerms(bs, count, outF, inF).Some?
    ensures count * (4 + OldCodeBytes(outF, inF)) <= |bs|
    ensures ParseOldTerms(bs, count, outF, inF).value.1 == bs[count * (4 + OldCodeBytes(outF, inF))..]
  {
    hide OldCodeBytes, OldCombined, WordAt, WordToSigned;
    if count > 0 {
      var each := 4 + OldCodeBytes(outF, inF);
      var next := bs[4..][OldCodeBytes(outF, inF)..];
      assert next == bs[each..];
      OldTermsEnd(next, count - 1, outF, inF);
      DropTwice(bs, each, (count - 1) * each, count * each);
    } else {
      assert bs[0..] == bs;
    }
  }

  lemma DropTwice(bs: seq<Byte>, a: nat, b: nat, sum: nat)
    requires sum == a + b && sum <= |bs|
    ensures bs[a..][b..] == bs[sum..]
  {
  }

  /** Where parsing succeeds, skipping ends at the same place. */
  lemma SkipAgrees(h: Header, bs: seq<Byte>)
    requires TakeBody(h, bs).Some?
    ensures SkipBody(h, bs) == Some(TakeBody(h, bs).value.1)
  {
    hide ParsePayload, ParseRaw, OldCodeBytes;
    if IsOldLayout(h.x) && h.x != 0 {
      OldTermsEnd(bs, h.x, h.outF, h.inF);
    }
  }

  /**
   On a file that the full reader accepts, the range reader returns exactly the kept records in
   file order, unless some layer number overflows an int, where it fails.
   */
  lemma {:induction false} RangeSelects(bs: seq<Byte>, count: nat, start: int, end: int, withHead: bool)
    ensures TakeRecords(bs, count).Some? ==>
      var ls := TakeRecords(bs, count).value;
      RangeRecords(bs, count, start, end, withHead)
        == if SomeTooLarge(ls) then None else Some(Select(ls, ShardKeeps(start, end, withHead)))
    decreases count
  {
    hide ParseLayerIndex, TakeBody, TakeHeader, SkipBody;
    if count > 0 && TakeRecords(bs, count).Some? {
      var ls := TakeRecords(bs, count).value;
      var h, rest := TakeHeader(bs).value.0, TakeHeader(bs).value.1;
      SkipAgrees(h, rest);
      var next := TakeBody(h, rest).value.1;
      RangeSelects(next, count - 1, start, end, withHead);
      assert ls[1..] == TakeRecords(next, count - 1).value;
      assert ls == [ls[0]] + ls[1..];
    }
  }

  lemma LoadRangeSelects(file: seq<Byte>, start: int, end: int, withHead: bool)
    requires 0 <= start <= end
    ensures Load(file).Some? ==>
      LoadRange(file, start, end, withHead)
      == if SomeTooLarge(Load(file).value) then None
         else Some(Select(Load(file).value, ShardKeeps(start, end, withHead)))
  {
    hide TakeRecords, RangeRecords, SomeTooLarge, Select;
    if Load(file).Some? {
      var (count, records) := TakeFileHeader(file).value;
      RangeSelects(records, count, start, end, withHead);
    }
  }

  // ----- lookup by name

  /** find_layer_index; None where it throws. */
  function Find(ls: seq<LayerData>, name: string): Option<nat> {
    if ls == [] then None
    else if ls[0].name == name then Some(0)
    else
      match Find(ls[1..], name)
      case None => None
      case Some(i) => Some(i + 1)
  }

  lemma {:induction false} FindInRange(ls: seq<LayerData>, name: string)
    ensures Find(ls, name).Some? ==> Find(ls, name).value < |ls|
  {
    if ls != [] {
      FindInRange(ls[1..], name);
    }
  }

  /** The record that a name refers to. */
  function Lookup(ls: seq<LayerData>, name: string): Option<LayerData> {
    FindInRange(ls, name);
    match Find(ls, name)
    case None => None
    case Some(i) => Some(ls[i])
  }

  lemma LookupStep(ls: seq<LayerData>, name: string)
    requires ls != []
    ensures Lookup(ls, name) == if ls[0].name == name then Some(ls[0]) else Lookup(ls[1..], name)
  {
    FindInRange(ls[1..], name);
  }

  /** Selecting by name does not change what a kept name refers to. */
  lemma {:induction false} SelectKeepsLookup(ls: seq<LayerData>, keep: string -> bool, name: string)
    requires keep(name)
    ensures Lookup(Select(ls, keep), name) == Lookup(ls, name)
  {
    if ls != [] {
      hide Lookup;
      SelectKeepsLookup(ls[1..], keep, name);
      LookupStep(ls, name);
      if keep(ls[0].name) {
        var kept := Select(ls, keep);
        assert kept[1..] == Select(ls[1..], keep);
        LookupStep(kept, name);
      }
    }
  }
}
