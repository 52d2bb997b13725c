/** The older `predict(model, audio_file, all_labels, threshold)` (CNN-main
    predict.py), which the dataset tools call. Turning the audio into a
    spectrogram may raise; the function then reports nothing instead of
    failing. Otherwise it runs the same thresholding loop as `classify`. */
module LegacyPredict {
  import opened Text
  import opened Predict

  /** `probs` is the network's output, or `None` when `audio_to_spectrogram`
      raised for this file. */
  method PredictFile(probs: Option<seq<real>>, allLabels: seq<string>, threshold: real := DefaultThreshold) returns (r: Outcome)
    ensures probs.None? ==> r == Classified([], map[])
    ensures probs.Some? && |probs.value| <= |allLabels| ==>
              r == Classified(Predicted(probs.value, allLabels, threshold), Confidence(probs.value, allLabels))
    ensures probs.Some? && |probs.value| > |allLabels| ==> r == Failed(LabelIndexOutOfRange(|allLabels|))
  {
    if probs.None? {
      return Classified([], map[]);
    }
    r := Classify(probs.value, allLabels, threshold);
  }
}
