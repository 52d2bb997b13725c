/** train_model.py: `SimpleAudioDataset`, the dataset that pairs each
    labelled file with a multi-hot target vector over `all_labels`. The
    spectrogram half of an item and the training loop are not modelled; the
    labels file is a dictionary with its keys in file order. */
module TrainModel {

  /** `{label: i for i, label in enumerate(all_labels)}`: a label listed
      twice keeps its last position. */
  function LabelToIdx(allLabels: seq<string>): (m: map<string, nat>)
    ensures forall l :: l in m ==> m[l] < |allLabels| && allLabels[m[l]] == l
  {
    if |allLabels| == 0 then map[]
    else
      var n := |allLabels| - 1;
      var m := LabelToIdx(allLabels[..n]);
      m[allLabels[n] := n]
  }

  /** Every listed label is a key, mapped to its last position, so the keys
      are exactly the listed labels. */
  lemma {:induction false} LabelToIdxCovers(allLabels: seq<string>)
    ensures forall i :: 0 <= i < |allLabels| ==>
              allLabels[i] in LabelToIdx(allLabels) && i <= LabelToIdx(allLabels)[allLabels[i]]
    ensures forall l :: l in LabelToIdx(allLabels) <==> l in allLabels
  {
    if |allLabels| > 0 {
      var n := |allLabels| - 1;
      var prefix := allLabels[..n];
      LabelToIdxCovers(prefix);
      forall i | 0 <= i < n ensures allLabels[i] == prefix[i] { }
    }
  }

  /** With distinct labels every label maps to its own position. */
  lemma DistinctLabelsIndex(allLabels: seq<string>, i: nat)
    requires forall a, b :: 0 <= a < b < |allLabels| ==> allLabels[a] != allLabels[b]
    requires i < |allLabels|
    ensures allLabels[i] in LabelToIdx(allLabels) && LabelToIdx(allLabels)[allLabels[i]] == i
  {
    var m := LabelToIdx(allLabels);
    LabelToIdxCovers(allLabels);
    var j := m[allLabels[i]];
    assert allLabels[j] == allLabels[i];
  }

  /** `torch.zeros(n)` */
  function Zeros(n: nat): (v: seq<real>)
    ensures |v| == n && forall j :: 0 <= j < n ==> v[j] == 0.0
  {
    seq(n, _ => 0.0)
  }

  /** Every label of the list has an index below `n`. */
  predicate AllIndexed(labels: seq<string>, toIdx: map<string, nat>, n: nat)
  {
    forall k :: 0 <= k < |labels| ==> labels[k] in toIdx && toIdx[labels[k]] < n
  }

  /** The target vector after the loop has written 1.0 at the index of every
      label of the list, in list order. */
  function MultiHot(labels: seq<string>, toIdx: map<string, nat>, n: nat): (v: seq<real>)
    requires AllIndexed(labels, toIdx, n)
    ensures |v| == n
  {
    if |labels| == 0 then Zeros(n)
    else
      var k := |labels| - 1;
      MultiHot(labels[..k], toIdx, n)[toIdx[labels[k]] := 1.0]
  }

  /** Position `j` of the target is 1.0 exactly when a listed label maps to
      `j`, and 0.0 otherwise. */
  lemma {:induction false} MultiHotAt(labels: seq<string>, toIdx: map<string, nat>, n: nat, j: nat)
    requires AllIndexed(labels, toIdx, n) && j < n
    ensures MultiHot(labels, toIdx, n)[j] == 1.0 <==> exists l :: l in labels && toIdx[l] == j
    ensures MultiHot(labels, toIdx, n)[j] == 0.0 <==> !exists l :: l in labels && toIdx[l] == j
  {
    if |labels| > 0 {
      var k := |labels| - 1;
      MultiHotAt(labels[..k], toIdx, n, j);
      assert forall l :: l in labels <==> l in labels[..k] || l == labels[k];
    }
  }

  /** Listing a label a second time leaves the target unchanged. */
  lemma MultiHotRepeat(labels: seq<string>, l: string, toIdx: map<string, nat>, n: nat)
    requires AllIndexed(labels, toIdx, n) && l in labels
    ensures AllIndexed(labels + [l], toIdx, n)
    ensures MultiHot(labels + [l], toIdx, n) == MultiHot(labels, toIdx, n)
  {
    var longer := labels + [l];
    assert longer[..|labels|] == labels;
    MultiHotAt(labels, toIdx, n, toIdx[l]);
  }

  /** Only 0.0 and 1.0 ever appear in a target. */
  lemma MultiHotBinary(labels: seq<string>, toIdx: map<string, nat>, n: nat)
    requires AllIndexed(labels, toIdx, n)
    ensures forall j :: 0 <= j < n ==> MultiHot(labels, toIdx, n)[j] == 0.0 || MultiHot(labels, toIdx, n)[j] == 1.0
  {
    forall j | 0 <= j < n
      ensures MultiHot(labels, toIdx, n)[j] == 0.0 || MultiHot(labels, toIdx, n)[j] == 1.0
    {
      MultiHotAt(labels, toIdx, n, j);
    }
  }

  /** The first label missing from the mapping: the one whose
      `self.label_to_idx[label]` raises `KeyError`. */
  function FirstUnknown(labels: seq<string>, toIdx: map<string, nat>): (r: nat)
    ensures r <= |labels|
    ensures forall k :: 0 <= k < r ==> labels[k] in toIdx
    ensures r < |labels| ==> labels[r] !in toIdx
  {
    if |labels| == 0 || labels[0] !in toIdx then 0
    else 1 + FirstUnknown(labels[1..], toIdx)
  }

  datatype ItemError =
    | IndexError(idx: int)        // `self.files[idx]` out of range
    | KeyError(name: string)     // a label that is not in `all_labels`

  datatype Item =
    | Item(file: string, target: seq<real>)
    | Failed(error: ItemError)

  /** Python's index into a list of length `n`: a negative `idx` counts from
      the end; anything outside `[-n, n)` has no position. */
  function ListIndex(idx: int, n: nat): (r: int)
    ensures 0 <= idx + n && idx < n ==> 0 <= r < n && (r == idx || r == idx + n)
    ensures !(0 <= idx + n && idx < n) ==> r == -1
  {
    if 0 <= idx < n then idx
    else if 0 <= idx + n && idx < 0 then idx + n
    else -1
  }

  class SimpleAudioDataset {
    var labelsData: map<string, seq<string>>
    var files: seq<string>
    var labelToIdx: map<string, nat>
    var numClasses: nat

    /** `files` lists every key of the labels once, and every index of
        `label_to_idx` fits in a vector of `num_classes`. */
    ghost predicate Valid()
      reads this
    {
      && (forall f :: f in files <==> f in labelsData)
      && (forall a, b :: 0 <= a < b < |files| ==> files[a] != files[b])
      && (forall l :: l in labelToIdx ==> labelToIdx[l] < numClasses)
    }

    /** `__init__`: `keyOrder` is the order of the keys in the JSON file. */
    constructor (labelsData: map<string, seq<string>>, keyOrder: seq<string>, allLabels: seq<string>)
      requires forall f :: f in keyOrder <==> f in labelsData
      requires forall a, b :: 0 <= a < b < |keyOrder| ==> keyOrder[a] != keyOrder[b]
      ensures Valid()
      ensures this.labelsData == labelsData && files == keyOrder
      ensures labelToIdx == LabelToIdx(allLabels) && numClasses == |allLabels|
    {
      this.labelsData := labelsData;
      files := keyOrder;
      labelToIdx := LabelToIdx(allLabels);
      numClasses := |allLabels|;
    }

    /** `__len__`: one item per labelled file. */
    function Len(): (n: nat)
      reads this
      requires Valid()
      ensures n == |labelsData|
    {
      DistinctCount(files, labelsData.Keys);
      |files|
    }

    /** What `__getitem__(idx)` returns, or the error it raises. */
    function ItemAt(idx: int): (r: Item)
      reads this
      requires Valid()
      ensures r.Failed? && r.error.IndexError? <==> !(0 <= idx + |files| && idx < |files|)
      ensures r.Item? ==> r.file == files[ListIndex(idx, |files|)] && |r.target| == numClasses
      ensures r.Failed? && r.error.KeyError? ==>
                && 0 <= ListIndex(idx, |files|)
                && r.error.name in labelsData[files[ListIndex(idx, |files|)]]
                && r.error.name !in labelToIdx
    {
      var k := ListIndex(idx, |files|);
      if k < 0 then Failed(IndexError(idx))
      else
        var labels := labelsData[files[k]];
        var u := FirstUnknown(labels, labelToIdx);
        if u < |labels| then Failed(KeyError(labels[u]))
        else Item(files[k], MultiHot(labels, labelToIdx, numClasses))
    }

    /** `__getitem__`: the multi-hot vector is built in a zeroed array, one
        label at a time. */
    method GetItem(idx: int) returns (r: Item)
      requires Valid()
      ensures r == ItemAt(idx)
    {
      var k := ListIndex(idx, |files|);
      if k < 0 {
        return Failed(IndexError(idx));
      }
      var filename := files[k];
      var labels := labelsData[filename];
      var target := new real[numClasses](_ => 0.0);
      assert target[..] == MultiHot(labels[..0], labelToIdx, numClasses);
      var i := 0;
      while i < |labels|
        invariant i <= |labels|
        invariant forall j :: 0 <= j < i ==> labels[j] in labelToIdx
        invariant AllIndexed(labels[..i], labelToIdx, numClasses)
        invariant target[..] == MultiHot(labels[..i], labelToIdx, numClasses)
      {
        var name := labels[i];
        if name !in labelToIdx {
          assert FirstUnknown(labels, labelToIdx) == i by {
            FirstUnknownAt(labels, labelToIdx, i);
          }
          return Failed(KeyError(name));
        }
        target[labelToIdx[name]] := 1.0;
        assert labels[..i + 1][..i] == labels[..i];
        i := i + 1;
      }
      assert labels[..i] == labels;
      FirstUnknownAt(labels, labelToIdx, |labels|);
      return Item(filename, target[..]);
    }
  }

  /** `FirstUnknown` is the position of the first missing label. */
  lemma {:induction false} FirstUnknownAt(labels: seq<string>, toIdx: map<string, nat>, i: nat)
    requires i <= |labels|
    requires forall j :: 0 <= j < i ==> labels[j] in toIdx
    requires i < |labels| ==> labels[i] !in toIdx
    ensures FirstUnknown(labels, toIdx) == i
  {
    if i > 0 {
      FirstUnknownAt(labels[1..], toIdx, i - 1);
    }
  }

  /** A list without repeats has as many elements as the set it lists. */
  lemma {:induction false} DistinctCount(s: seq<string>, keys: set<string>)
    requires forall f :: f in s <==> f in keys
    requires forall a, b :: 0 <= a < b < |s| ==> s[a] != s[b]
    ensures |s| == |keys|
  {
    if |s| > 0 {
      var rest := s[1..];
      assert forall f :: f in rest <==> f in keys - {s[0]};
      DistinctCount(rest, keys - {s[0]});
    } else {
      assert forall f :: f !in keys;
      assert keys == {};
    }
  }

  /** An item's target marks exactly the labels of its file: position `j`
      is 1.0 when one of them has index `j`, and 0.0 otherwise. */
  lemma ItemTarget(d: SimpleAudioDataset, idx: int, j: nat)
    requires d.Valid() && j < d.numClasses
    requires d.ItemAt(idx).Item?
    ensures var r := d.ItemAt(idx);
            && (r.target[j] == 1.0 <==> exists l :: l in d.labelsData[r.file] && d.labelToIdx[l] == j)
            && (r.target[j] == 0.0 <==> !exists l :: l in d.labelsData[r.file] && d.labelToIdx[l] == j)
  {
    var k := ListIndex(idx, |d.files|);
    var labels := d.labelsData[d.files[k]];
    FirstUnknownAt(labels, d.labelToIdx, |labels|);
    MultiHotAt(labels, d.labelToIdx, d.numClasses, j);
  }
}
