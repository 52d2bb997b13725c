/** Label thresholding of `classify` (CNNmain predict.py): the network's
    per-label probabilities become a confidence dictionary and the ordered
    list of labels whose probability is strictly above the threshold. The
    network itself is not modelled; its output enters as a sequence of reals. */
module Predict {

  /** The default `threshold` of `classify` and of both `predict` functions. */
  const DefaultThreshold: real := 0.5

  /** `labels[i]` raises `IndexError` when the network yields more
      probabilities than there are labels. */
  datatype Error = LabelIndexOutOfRange(index: nat)

  datatype Outcome =
    | Classified(predicted: seq<string>, confidence: map<string, real>)
    | Failed(error: Error)

  /** `a` is `b` with some elements deleted, the rest kept in order. */
  predicate SubsequenceOf(a: seq<string>, b: seq<string>)
    decreases |b|
  {
    if b == [] then a == []
    else
      (a != [] && a[|a| - 1] == b[|b| - 1] && SubsequenceOf(a[..|a| - 1], b[..|b| - 1]))
      || SubsequenceOf(a, b[..|b| - 1])
  }

  /** The `confidence` dictionary after the loop: `labels[i]` set to `probs[i]`
      in index order, so a repeated label keeps its last probability. */
  function Confidence(probs: seq<real>, labels: seq<string>): (c: map<string, real>)
    requires |probs| <= |labels|
    ensures forall l :: l in c ==> l in labels[..|probs|]
  {
    if |probs| == 0 then map[]
    else Confidence(probs[..|probs| - 1], labels)[labels[|probs| - 1] := probs[|probs| - 1]]
  }

  /** The `predicted` list after the loop: labels whose probability is
      strictly above `threshold`, in index order. */
  function Predicted(probs: seq<real>, labels: seq<string>, threshold: real): (p: seq<string>)
    requires |probs| <= |labels|
    ensures SubsequenceOf(p, labels[..|probs|])
  {
    if |probs| == 0 then []
    else
      var n := |probs| - 1;
      var rest := Predicted(probs[..n], labels, threshold);
      assert labels[..|probs|][..n] == labels[..n];
      if probs[n] > threshold then rest + [labels[n]] else rest
  }

  /** `classify`'s loop: the method the source runs, proved to produce the
      two specification values, or the `IndexError` it raises. */
  method Classify(probs: seq<real>, labels: seq<string>, threshold: real := DefaultThreshold) returns (r: Outcome)
    ensures |probs| <= |labels| ==> r == Classified(Predicted(probs, labels, threshold), Confidence(probs, labels))
    ensures |probs| > |labels| ==> r == Failed(LabelIndexOutOfRange(|labels|))
  {
    var predicted: seq<string> := [];
    var confidence: map<string, real> := map[];
    var i := 0;
    while i < |probs|
      invariant i <= |probs| && i <= |labels|
      invariant predicted == Predicted(probs[..i], labels, threshold)
      invariant confidence == Confidence(probs[..i], labels)
    {
      if i >= |labels| {
        return Failed(LabelIndexOutOfRange(i));
      }
      var name := labels[i];
      var p := probs[i];
      assert probs[..i + 1][..i] == probs[..i];
      confidence := confidence[name := p];
      if p > threshold {
        predicted := predicted + [name];
      }
      i := i + 1;
    }
    assert probs[..i] == probs;
    return Classified(predicted, confidence);
  }

  /** A label is predicted exactly when one of its probabilities is strictly
      above the threshold; a probability equal to the threshold does not count. */
  lemma {:induction false} PredictedIff(probs: seq<real>, labels: seq<string>, threshold: real, l: string)
    requires |probs| <= |labels|
    ensures l in Predicted(probs, labels, threshold)
            <==> exists i :: 0 <= i < |probs| && labels[i] == l && probs[i] > threshold
  {
    if |probs| > 0 {
      var n := |probs| - 1;
      PredictedIff(probs[..n], labels, threshold, l);
      if exists i :: 0 <= i < |probs| && labels[i] == l && probs[i] > threshold {
        var i :| 0 <= i < |probs| && labels[i] == l && probs[i] > threshold;
        if i < n {
          assert probs[..n][i] == probs[i];
        }
      }
      if exists i :: 0 <= i < n && labels[i] == l && probs[..n][i] > threshold {
        var i :| 0 <= i < n && labels[i] == l && probs[..n][i] > threshold;
        assert probs[i] > threshold;
      }
    }
  }

  /** The dictionary has one key per probability index: exactly the labels
      `labels[0..|probs|)`. */
  lemma {:induction false} ConfidenceKeys(probs: seq<real>, labels: seq<string>)
    requires |probs| <= |labels|
    ensures Confidence(probs, labels).Keys == set i | 0 <= i < |probs| :: labels[i]
  {
    if |probs| > 0 {
      var n := |probs| - 1;
      ConfidenceKeys(probs[..n], labels);
      assert (set i | 0 <= i < |probs| :: labels[i]) == (set i | 0 <= i < n :: labels[i]) + {labels[n]};
    }
  }

  /** `confidence[labels[i]]` is `probs[i]` unless a later index carries the
      same label; with distinct labels every probability is recorded. */
  lemma {:induction false} ConfidenceValue(probs: seq<real>, labels: seq<string>, i: nat)
    requires |probs| <= |labels| && i < |probs|
    requires forall j :: i < j < |probs| ==> labels[j] != labels[i]
    ensures labels[i] in Confidence(probs, labels)
    ensures Confidence(probs, labels)[labels[i]] == probs[i]
  {
    var n := |probs| - 1;
    if i < n {
      ConfidenceValue(probs[..n], labels, i);
      assert probs[..n][i] == probs[i];
    }
  }

  /** Every predicted label is a key of the confidence dictionary. */
  lemma PredictedAreKeys(probs: seq<real>, labels: seq<string>, threshold: real)
    requires |probs| <= |labels|
    ensures forall l :: l in Predicted(probs, labels, threshold) ==> l in Confidence(probs, labels)
  {
    ConfidenceKeys(probs, labels);
    forall l | l in Predicted(probs, labels, threshold)
      ensures l in Confidence(probs, labels)
    {
      PredictedIff(probs, labels, threshold, l);
    }
  }

  /** Raising the threshold can only delete labels from the prediction,
      never add one or reorder them. */
  lemma {:induction false} ThresholdMonotone(probs: seq<real>, labels: seq<string>, low: real, high: real)
    requires |probs| <= |labels| && low <= high
    ensures SubsequenceOf(Predicted(probs, labels, high), Predicted(probs, labels, low))
  {
    if |probs| > 0 {
      var n := |probs| - 1;
      ThresholdMonotone(probs[..n], labels, low, high);
      var a := Predicted(probs[..n], labels, high);
      var b := Predicted(probs[..n], labels, low);
      if probs[n] > high {
        assert (a + [labels[n]])[..|a|] == a;
        assert (b + [labels[n]])[..|b|] == b;
      } else if probs[n] > low {
        assert (b + [labels[n]])[..|b|] == b;
      }
    }
  }

  /** Only labels from the label list are ever predicted. */
  lemma PredictedAreLabels(probs: seq<real>, labels: seq<string>, threshold: real)
    requires |probs| <= |labels|
    ensures forall l :: l in Predicted(probs, labels, threshold) ==> l in labels
  {
    forall l | l in Predicted(probs, labels, threshold)
      ensures l in labels
    {
      PredictedIff(probs, labels, threshold, l);
    }
  }

  /** A repeated label is predicted once for every index of it whose
      probability clears the threshold. */
  lemma {:induction false} PredictedMultiplicity(probs: seq<real>, labels: seq<string>, threshold: real, l: string)
    requires |probs| <= |labels|
    ensures multiset(Predicted(probs, labels, threshold))[l]
            == |set i | 0 <= i < |probs| && labels[i] == l && probs[i] > threshold|
  {
    if |probs| > 0 {
      var n := |probs| - 1;
      PredictedMultiplicity(probs[..n], labels, threshold, l);
      var rest := Predicted(probs[..n], labels, threshold);
      if probs[n] > threshold {
        assert Predicted(probs, labels, threshold) == rest + [labels[n]];
        assert multiset(rest + [labels[n]]) == multiset(rest) + multiset{labels[n]};
      } else {
        assert Predicted(probs, labels, threshold) == rest;
      }
      MatchingIndicesStep(probs, labels, threshold, l);
    }
  }

  /** Extending the probabilities by one index adds that index to the
      matching ones exactly when it matches. */
  lemma MatchingIndicesStep(probs: seq<real>, labels: seq<string>, threshold: real, l: string)
    requires 0 < |probs| <= |labels|
    ensures var n := |probs| - 1;
            |set i | 0 <= i < |probs| && labels[i] == l && probs[i] > threshold|
            == |set i | 0 <= i < n && labels[i] == l && probs[..n][i] > threshold|
               + (if labels[n] == l && probs[n] > threshold then 1 else 0)
  {
    var n := |probs| - 1;
    var before := set i | 0 <= i < n && labels[i] == l && probs[..n][i] > threshold;
    var after := set i | 0 <= i < |probs| && labels[i] == l && probs[i] > threshold;
    assert forall i :: 0 <= i < n ==> probs[..n][i] == probs[i];
    if labels[n] == l && probs[n] > threshold {
      assert after == before + {n};
    } else {
      assert after == before;
    }
  }

  /** The prediction has one entry per probability above the threshold. */
  lemma {:induction false} PredictedLength(probs: seq<real>, labels: seq<string>, threshold: real)
    requires |probs| <= |labels|
    ensures |Predicted(probs, labels, threshold)| == |set i | 0 <= i < |probs| && probs[i] > threshold|
  {
    if |probs| > 0 {
      var n := |probs| - 1;
      PredictedLength(probs[..n], labels, threshold);
      var rest := Predicted(probs[..n], labels, threshold);
      if probs[n] > threshold {
        assert Predicted(probs, labels, threshold) == rest + [labels[n]];
      } else {
        assert Predicted(probs, labels, threshold) == rest;
      }
      AboveIndicesStep(probs, threshold);
    }
  }

  /** Extending the probabilities by one index adds that index to those
      above the threshold exactly when it is above. */
  lemma AboveIndicesStep(probs: seq<real>, threshold: real)
    requires 0 < |probs|
    ensures var n := |probs| - 1;
            |set i | 0 <= i < |probs| && probs[i] > threshold|
            == |set i | 0 <= i < n && probs[..n][i] > threshold| + (if probs[n] > threshold then 1 else 0)
  {
    var n := |probs| - 1;
    var before := set i | 0 <= i < n && probs[..n][i] > threshold;
    var after := set i | 0 <= i < |probs| && probs[i] > threshold;
    assert forall i :: 0 <= i < n ==> probs[..n][i] == probs[i];
    if probs[n] > threshold {
      assert after == before + {n};
    } else {
      assert after == before;
    }
  }
}
