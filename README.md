# wicse-shadowing core, modelled in Dafny

This project models the computational core of the wicse-shadowing sound-direction overlay and its dataset tools.

- **Direction estimator** (`src/audio/direction.py`, module `Direction`). A captured chunk is reduced to per-channel energies. A layout chosen by channel count groups them into front/back/left/right regions, and the region imbalance gives an angle and an intensity.
- **Overlay** (`src/overlay/overlay.py`, module `Overlay`). `read_json` guards the direction file. The window keeps a 10x10 dot on a 400x400 canvas and moves it on each poll.
- **Label thresholding**. `classify` (`src/CNNmain/.../predict.py`, module `Predict`) and the older `predict` (`src/CNN-main/.../predict.py`, module `LegacyPredict`) turn the network's per-label probabilities into a confidence dictionary and an ordered list of predicted labels.
- **Dataset tools** (`collect_data.py`, `evaluate.py`, modules `Labeling`, `CollectData` and `Evaluate`):
  - the numbered label map;
  - the comma-separated correction prompt and the y/n/r/q feedback prompt;
  - cutting a recording into fixed-length numbered chunks;
  - the model-assisted labelling session;
  - the interactive evaluation that confirms, replaces or deletes entries of the labels file.
- **Training dataset** (`train_model.py`, module `TrainModel`). `SimpleAudioDataset` pairs each labelled file with a multi-hot target.
- **Text** (module `Text`) holds the Python string built-ins the core relies on: `strip`, `lower`, `split(',')`, `str(n)` and `{:03d}`.

Each imperative piece of the source is a method with its loop, proved equal to a specification function. The properties the code promises are lemmas about those functions:

- `Predict.Classify` and `Predict.Predicted`/`Confidence`;
- `Labeling.GetUserCorrection` and `CorrectionFrom`;
- `Labeling.ReadFeedback` and `FeedbackFrom`;
- `CollectData.SplitAudioToChunks` and `FullChunks`;
- `CollectData.ModelAssistedLabeling` and `LabelingRun`;
- `Evaluate.InteractiveEvaluate` and `Evaluation`;
- `TrainModel.SimpleAudioDataset.GetItem` and `ItemAt`;
- `Overlay.OverlayWindow.UpdateOverlay` and `Update`.

How the environment enters the model:

- User input is a sequence of answers read from a position. Each answer is the typed line after `.strip().lower()`, and running out of answers is Python's `EOFError`.
- Files enter as values: a labels file is a dictionary, or `None` when it is missing.
- `os.path.exists`, the network's output, `np.sqrt`, `arctan2` in degrees and the cosine and sine of an angle in degrees are parameters.

## Model

| member | source | states |
|---|---|---|
| Text.LeadingSpace | src/CNNmain/cnnStuff/src/cnnstuff/collect_data.py:33 | the leading whitespace `strip` removes is all whitespace and stops at the first non-space |
| Text.TrailingSpaceStart | src/CNNmain/cnnStuff/src/cnnstuff/collect_data.py:33 | the trailing whitespace `strip` removes is all whitespace and stops after the last non-space |
| Text.StripIsTrimmedSlice | src/overlay/overlay.py:16-19 | `strip()` returns a slice of the text with only whitespace outside it and no whitespace at either end |
| Text.StripEmptyIffAllSpace | src/overlay/overlay.py:16 | `raw.strip() == ""` exactly when the text is all whitespace (the empty text included) |
| Text.StripIdempotent | src/CNNmain/cnnStuff/src/cnnstuff/collect_data.py:33-37 | stripping an already stripped answer or key changes nothing |
| Text.LowerChar | src/CNNmain/cnnStuff/src/cnnstuff/collect_data.py:33 | `lower()` turns each A-Z letter into the same letter in a-z, keeps every other character, and leaves no capital behind |
| Text.Lower | src/CNNmain/cnnStuff/src/cnnstuff/collect_data.py:33 | `lower()` keeps the length and lowers character by character |
| Text.LowerIdempotent | src/CNNmain/cnnStuff/src/cnnstuff/collect_data.py:33 | lowering an answer twice is the same as lowering it once |
| Text.Strip | src/CNNmain/cnnStuff/src/cnnstuff/collect_data.py:33 | `strip()` as a definition: drop leading, then trailing whitespace; `StripIsTrimmedSlice`, `StripEmptyIffAllSpace` and `StripIdempotent` state what it keeps |
| Text.Normalize | src/CNNmain/cnnStuff/src/cnnstuff/collect_data.py:33 | `input().strip().lower()` as a definition; `NormalizeIdempotent` states that a normalised answer normalises to itself |
| Text.NormalizeIdempotent | src/CNNmain/cnnStuff/src/cnnstuff/collect_data.py:89 | normalising an answer twice is the same as normalising it once: the answers are the normal forms of the typed lines, and a normal form typed as it is reads as the same answer |
| Text.Split | src/CNNmain/cnnStuff/src/cnnstuff/collect_data.py:37 | `split(',')` yields at least one piece and no piece contains a comma |
| Text.JoinSplit | src/CNNmain/cnnStuff/src/cnnstuff/collect_data.py:37 | joining the pieces of `split(',')` with commas gives back the answer |
| Text.SplitJoin | src/CNNmain/cnnStuff/src/cnnstuff/collect_data.py:37 | splitting a comma-join of comma-free keys gives back the keys |
| Text.Join | src/CNNmain/cnnStuff/src/cnnstuff/collect_data.py:37 | `','.join(parts)` as a definition; `JoinSplit` and `SplitJoin` make it the inverse of `split(',')` |
| Text.NatToString | src/CNNmain/cnnStuff/src/cnnstuff/collect_data.py:53 | `str(n)` is a non-empty run of digits with no leading zero except for 0 |
| Text.DecimalValueOfNatToString | src/CNNmain/cnnStuff/src/cnnstuff/collect_data.py:53 | reading `str(n)` back as a decimal gives n |
| Text.NatToStringInjective | src/CNNmain/cnnStuff/src/cnnstuff/collect_data.py:53 | distinct numbers give distinct label-map keys |
| Text.ZeroPad3 | src/CNNmain/cnnStuff/src/cnnstuff/collect_data.py:138 | `{:03d}` gives at least three digits |
| Text.ZeroPad3Shape | src/CNNmain/cnnStuff/src/cnnstuff/collect_data.py:138 | `{:03d}` is `str(n)` left-padded with zeros to exactly three characters, and `str(n)` unchanged when it is longer |
| Text.ZeroPad3Value | src/CNNmain/cnnStuff/src/cnnstuff/collect_data.py:138 | the padded numeral still reads back as the chunk number |
| Direction.SqrtOfSquares | src/audio/direction.py:96 | the magnitude is non-negative and zero exactly when x and y are both zero |
| Direction.Square | src/audio/direction.py:22 | a squared sample is non-negative and zero only for a zero sample |
| Direction.Energy | src/audio/direction.py:22-23 | a channel energy `np.sum(ch**2)` is non-negative |
| Direction.EnergyZeroIffSilent | src/audio/direction.py:22-23 | a channel has zero energy exactly when every sample is zero |
| Direction.ChannelEnergies | src/audio/direction.py:21-77 | the `energies` dictionary as a definition; `ChannelKeys` and `ChannelEnergyAt` state its keys and values |
| Direction.RegionSums | src/audio/direction.py:26-84 | the four region energies as a definition; `RegionsFollowTable`, `EnergiesNonNegative`, `LfeFeedsNoRegion` and `RearPairNeverBack` state what they sum |
| Direction.DetectDirection | src/audio/direction.py:6-109 | an unsupported column count, and only that, raises the error carrying the count; a detection's intensity is never negative |
| Direction.LayoutFor | src/audio/direction.py:17-87 | a layout is chosen exactly for 2, 6 or at least 8 columns, and it never names more channels than there are columns |
| Direction.AcceptedChannelCounts | src/audio/direction.py:17-87 | 2, 6 and 8 or more columns are accepted; any other count raises the unsupported-channels error with that count |
| Direction.MonoIsEightIdenticalColumns | src/audio/direction.py:10-12 | a mono chunk behaves as eight identical columns, takes the eight-channel path and has equal left and right energy |
| Direction.EnergiesNonNegative | src/audio/direction.py:21-84 | every channel energy and every region energy is non-negative |
| Direction.ChannelEnergyAt | src/audio/direction.py:21-24 | each named channel of the layout holds the energy of its own column |
| Direction.ChannelKeys | src/audio/direction.py:21-77 | the `energies` dictionary has exactly the layout's channel names |
| Direction.RegionsFollowTable | src/audio/direction.py:26-29 | each region sum is the sum of the channels the layout table assigns to it |
| Direction.DetectionReportsLayoutSums | src/audio/direction.py:99-108 | the returned raw energies carry the layout's channel dictionary and region sums that follow the table |
| Direction.LfeFeedsNoRegion | src/audio/direction.py:37 | the LFE column never changes a region energy |
| Direction.ExtraColumnsIgnored | src/audio/direction.py:56-84 | columns past the eighth have no effect on the result |
| Direction.RearPairNeverBack | src/audio/direction.py:81-84 | RL and RR feed left and right only: sound only in the rear pair has zero front and zero back energy |
| Direction.IntensityRange | src/audio/direction.py:96-97 | over exact reals, intensity is in [0, 1) and is zero exactly when right equals left and front equals back |
| Direction.BalancedIffZeroIntensity | src/audio/direction.py:97 | over exact reals, `m / (m + 1e-6)` is in [0, 1) and zero exactly for a balanced chunk |
| Direction.AngleRange | src/audio/direction.py:93 | the angle after `% 360`, taken as the exact real remainder, is in [0, 360) |
| Direction.Mod360 | src/audio/direction.py:93 | `% 360` as the floored real remainder; an angle already in [0, 360) is returned as it is |
| Direction.Mod360Range | src/audio/direction.py:93 | the exact real remainder `a % 360` (the sign of the divisor, as Python's `%`) lies in [0, 360) for every angle |
| Overlay.ReadJson | src/overlay/overlay.py:11-26 | a missing file reads as `None`; any result is the decoder's result on the stripped text |
| Overlay.ReadJsonGuard | src/overlay/overlay.py:11-26 | the decoder sees the stripped text exactly when it is a `{...}`; any result comes from non-blank text that starts with `{` and ends with `}` |
| Overlay.BlankReadsNone | src/overlay/overlay.py:16-17 | a blank or whitespace-only file reads as `None` |
| Overlay.Get | src/overlay/overlay.py:99-100 | `data.get(key, 0)` as a definition: the stored value, or the number 0 for a missing key |
| Overlay.DotBox | src/overlay/overlay.py:79-93 | every drawn dot is a 10x10 box centred at (200 + inner·cos a, 200 − inner·sin a), where inner is 200 times the intensity |
| Overlay.Update | src/overlay/overlay.py:79-103 | no data keeps the dot and the polling; with data, polling goes on exactly when `angle` and `intensity` (default 0) are both numbers or booleans, and then the dot is the box drawn at those two values; a value that raises stops polling |
| Overlay.ZeroIntensityCentres | src/overlay/overlay.py:99-101 | a missing or zero intensity puts the dot back at (195,195,205,205), whatever the angle |
| Overlay.DotWithinCanvas | src/overlay/overlay.py:83-90 | with intensity in [0, 1] the dot's centre stays within the 400x400 canvas |
| Overlay.DetectedDotWithinCanvas | src/overlay/overlay.py:83-90 | an intensity produced by the direction estimator always keeps the dot on the canvas |
| Overlay.ScaledWithin | src/overlay/overlay.py:89-90 | the offset `inner * cos` (or `sin`) is at most the inner radius in size |
| Overlay.OverlayWindow.constructor | src/overlay/overlay.py:61 | the dot starts at (195,195,205,205), then the first update runs at once |
| Overlay.OverlayWindow.UpdateOverlay | src/overlay/overlay.py:95-103 | the stored dot and polling flag become exactly `Update` of the old dot, and the dot stays 10x10 |
| Predict.Confidence | src/CNNmain/cnnStuff/src/cnnstuff/predict.py:23-28 | every confidence key is one of the labels given a probability |
| Predict.Predicted | src/CNNmain/cnnStuff/src/cnnstuff/predict.py:22-30 | the predicted labels are a subsequence of the labels, in index order |
| Predict.Classify | src/CNNmain/cnnStuff/src/cnnstuff/predict.py:9-32 | with the threshold 0.5 unless one is given, the loop returns exactly `Predicted` and `Confidence`, or `IndexError` at index len(labels) when there are more probabilities than labels |
| Predict.PredictedIff | src/CNNmain/cnnStuff/src/cnnstuff/predict.py:29-30 | a label is predicted exactly when one of its probabilities is strictly above the threshold |
| Predict.ConfidenceKeys | src/CNNmain/cnnStuff/src/cnnstuff/predict.py:25-28 | the confidence keys are exactly labels[0..len(probs)) |
| Predict.ConfidenceValue | src/CNNmain/cnnStuff/src/cnnstuff/predict.py:28 | `confidence[labels[i]]` is probs[i] unless a later index repeats the label (last write wins) |
| Predict.PredictedAreKeys | src/CNNmain/cnnStuff/src/cnnstuff/predict.py:28-30 | every predicted label is a confidence key |
| Predict.ThresholdMonotone | src/CNNmain/cnnStuff/src/cnnstuff/predict.py:29-30 | raising the threshold only deletes labels from the prediction, keeping the order |
| Predict.PredictedMultiplicity | src/CNNmain/cnnStuff/src/cnnstuff/predict.py:26-30 | a label appears in the prediction once for every index of it whose probability is strictly above the threshold, so a repeated label can be predicted more than once |
| Predict.PredictedLength | src/CNNmain/cnnStuff/src/cnnstuff/predict.py:26-30 | the prediction has exactly one entry per probability strictly above the threshold |
| Predict.PredictedAreLabels | src/CNNmain/cnnStuff/src/cnnstuff/predict.py:26-30 | only labels from the label list are predicted |
| LegacyPredict.PredictFile | src/CNN-main/cnnStuff/src/cnnstuff/predict.py:7-41 | with the threshold 0.5 unless one is given, a spectrogram failure gives `([], {})`; otherwise the result is the thresholding of `classify`, or its `IndexError` |
| Labeling.LabelMap | src/CNNmain/cnnStuff/src/cnnstuff/collect_data.py:53 | every key of the label map is "i+1" for a label position i |
| Labeling.LabelMapLookup | src/CNNmain/cnnStuff/src/cnnstuff/collect_data.py:53 | key "i+1" is present and names all_labels[i] |
| Labeling.LabelMapValues | src/CNNmain/cnnStuff/src/cnnstuff/collect_data.py:53 | the map has one key per label position and every value is one of the labels |
| Labeling.LabelMapKeys | src/CNNmain/cnnStuff/src/cnnstuff/collect_data.py:53 | the keys of the label map are exactly "1" .. "n" |
| Labeling.KeyCount | src/CNNmain/cnnStuff/src/cnnstuff/collect_data.py:53 | the keys "1".."n" are n distinct strings |
| Labeling.StripAll | src/CNNmain/cnnStuff/src/cnnstuff/collect_data.py:37 | each selected key is its piece stripped |
| Labeling.ParseCorrection | src/CNNmain/cnnStuff/src/cnnstuff/collect_data.py:34-41 | "s" skips; otherwise the answer is accepted exactly when every stripped key is in the map, giving their names in typed order with repeats kept; any unknown key rejects it |
| Labeling.NumberedChoice | src/CNNmain/cnnStuff/src/cnnstuff/collect_data.py:33-39 | typing label numbers comma-separated selects exactly those labels in that order |
| Labeling.KnownKeysChosen | src/CNNmain/cnnStuff/src/cnnstuff/collect_data.py:37-39 | an answer other than "s" whose stripped keys are all in the map selects the names they map to, in typed order |
| Labeling.SelectedNumerals | src/CNNmain/cnnStuff/src/cnnstuff/collect_data.py:33-37 | a comma-joined list of numerals is left alone by strip/lower and splits back into the same keys |
| Labeling.NoSpaceStrip | src/CNNmain/cnnStuff/src/cnnstuff/collect_data.py:37 | stripping text without whitespace leaves it unchanged |
| Labeling.JoinedNumeralsNormal | src/CNNmain/cnnStuff/src/cnnstuff/collect_data.py:33-34 | a comma-joined list of numerals is not "s" and is unchanged by strip/lower |
| Labeling.JoinedNumeralChars | src/CNNmain/cnnStuff/src/cnnstuff/collect_data.py:37 | a comma-joined list of numerals holds only digits and commas |
| Labeling.Parses | src/CNNmain/cnnStuff/src/cnnstuff/collect_data.py:33-41 | one parse per answer: the answers read as skips, choices or rejections |
| Labeling.ParsesAt | src/CNNmain/cnnStuff/src/cnnstuff/collect_data.py:33-41 | the j-th parse is the parse of the j-th answer |
| Labeling.ReplyFrom | src/CNNmain/cnnStuff/src/cnnstuff/collect_data.py:31-41 | the prompt consumes at least one parsed answer unless input is exhausted, and exhaustion happens only at the end of the answers |
| Labeling.ReplyEndsOn | src/CNNmain/cnnStuff/src/cnnstuff/collect_data.py:34-39 | a correction comes from the choice that ended the prompt, a skip from an "s" there |
| Labeling.ReplySkipsRejected | src/CNNmain/cnnStuff/src/cnnstuff/collect_data.py:40-41 | every parse before the one that ended the prompt was a rejection; input runs out exactly when every remaining parse is one |
| Labeling.ReplyValid | src/CNNmain/cnnStuff/src/cnnstuff/collect_data.py:38-39 | when every choice names known labels, so does the returned correction, and it is non-empty |
| Labeling.ParsesValid | src/CNNmain/cnnStuff/src/cnnstuff/collect_data.py:37-39 | every choice among the parsed answers is a non-empty list of label-map values |
| Labeling.ChosenAreValues | src/CNNmain/cnnStuff/src/cnnstuff/collect_data.py:37-39 | an accepted answer selects at least one name, and only names from the label map |
| Labeling.NamesAreValues | src/CNNmain/cnnStuff/src/cnnstuff/collect_data.py:39 | the names looked up for known keys are values of the label map |
| Labeling.CorrectionFrom | src/CNNmain/cnnStuff/src/cnnstuff/collect_data.py:29-43 | the prompt consumes at least one answer unless input is exhausted, and exhaustion happens only at the end of the answers |
| Labeling.CorrectionIsValid | src/CNNmain/cnnStuff/src/cnnstuff/collect_data.py:34-39 | a returned correction is the parse of the answer that ended the prompt and names only labels of the map; a skip was an "s" |
| Labeling.CorrectionSkipsRejected | src/CNNmain/cnnStuff/src/cnnstuff/collect_data.py:40-41 | every answer before the one that ended the prompt was rejected, and input runs out only when all were rejected |
| Labeling.GetUserCorrection | src/CNNmain/cnnStuff/src/cnnstuff/collect_data.py:29-43 | the retry loop returns exactly `CorrectionFrom` |
| Labeling.FeedbackFrom | src/CNNmain/cnnStuff/src/cnnstuff/collect_data.py:88-96 | the prompt ends on the first y, n or q, and the outcome is that letter |
| Labeling.FeedbackSkipsOthers | src/CNNmain/cnnStuff/src/cnnstuff/collect_data.py:88-96 | answers before the one that ended the prompt were replays or refused; input runs out exactly when no later answer is y, n or q |
| Labeling.ReadFeedback | src/CNNmain/cnnStuff/src/cnnstuff/collect_data.py:88-96 | the prompt loop, "r" included, returns exactly `FeedbackFrom` |
| CollectData.TruncateToInt | src/CNNmain/cnnStuff/src/cnnstuff/collect_data.py:131 | `int()` truncates toward zero |
| CollectData.SamplesPerChunk | src/CNNmain/cnnStuff/src/cnnstuff/collect_data.py:131 | `int(chunk_length * sr)` truncates a non-negative length to the whole number of samples it holds, and a negative length to at most 0 |
| CollectData.DefaultSamplesPerChunk | src/CNNmain/cnnStuff/src/cnnstuff/collect_data.py:122-131 | three-second chunks at 22050 Hz hold 66150 samples |
| CollectData.ChunkName | src/CNNmain/cnnStuff/src/cnnstuff/collect_data.py:138 | a chunk name starts with the recording's base name, ends in `.wav`, and is at least 14 characters longer than the base name |
| CollectData.ChunkNamesDistinct | src/CNNmain/cnnStuff/src/cnnstuff/collect_data.py:138 | chunk files of one recording with different numbers have different names |
| CollectData.StartStep | src/CNNmain/cnnStuff/src/cnnstuff/collect_data.py:135 | range offsets start at 0 and step by samples_per_chunk, and `i // spc` recovers the chunk number |
| CollectData.Start | src/CNNmain/cnnStuff/src/cnnstuff/collect_data.py:135 | the offset of a chunk is never negative for a non-negative step |
| CollectData.StartIsProduct | src/CNNmain/cnnStuff/src/cnnstuff/collect_data.py:135 | the k-th offset of `range(0, len, spc)` is k·spc |
| CollectData.StartMonotone | src/CNNmain/cnnStuff/src/cnnstuff/collect_data.py:135 | later chunks start no earlier |
| CollectData.ChunkCount | src/CNNmain/cnnStuff/src/cnnstuff/collect_data.py:135-137 | the number of full chunks m satisfies m·spc <= len < (m+1)·spc |
| CollectData.ChunkCountUnique | src/CNNmain/cnnStuff/src/cnnstuff/collect_data.py:135-137 | only one count has that property |
| CollectData.FullChunks | src/CNNmain/cnnStuff/src/cnnstuff/collect_data.py:135-141 | the first n chunk files form a list of n entries |
| CollectData.SplitAudioToChunks | src/CNNmain/cnnStuff/src/cnnstuff/collect_data.py:122-144 | with 3-second chunks unless a length is given, a zero step raises; a negative step gives no chunks; otherwise the result is exactly the floor(len/spc) full chunks in order, and a trailing partial chunk is dropped |
| CollectData.ChunksTile | src/CNNmain/cnnStuff/src/cnnstuff/collect_data.py:135-141 | the chunks laid end to end are the recording up to the dropped tail |
| CollectData.TileWindows | src/CNNmain/cnnStuff/src/cnnstuff/collect_data.py:135-137 | chunks each holding their own window of the recording concatenate to its prefix of that many windows |
| CollectData.ChunkAt | src/CNNmain/cnnStuff/src/cnnstuff/collect_data.py:136-138 | chunk k holds samples [k·spc, (k+1)·spc) and carries k in its name |
| CollectData.Unlabeled | src/CNNmain/cnnStuff/src/cnnstuff/collect_data.py:61 | the pending list is no longer than the chunk list |
| CollectData.UnlabeledIff | src/CNNmain/cnnStuff/src/cnnstuff/collect_data.py:61 | a chunk is pending exactly when it is in the chunk list and not yet labelled |
| CollectData.Session | src/CNNmain/cnnStuff/src/cnnstuff/collect_data.py:69-114 | the labelling loop over pending chunks as a definition; `SessionKeys`, `SessionValues`, `QuitKeepsGathered` and `UnvisitedChunksUnlabeled` state what it adds |
| CollectData.SessionStopsAt | src/CNNmain/cnnStuff/src/cnnstuff/collect_data.py:69-100 | the position where the loop stops (on "q" or end of input) lies between the start and the end of the pending list |
| CollectData.QuitKeepsGathered | src/CNNmain/cnnStuff/src/cnnstuff/collect_data.py:98-100 | a "q" ends the loop at that chunk and saves exactly what was gathered before it |
| CollectData.LabelingRun | src/CNNmain/cnnStuff/src/cnnstuff/collect_data.py:45-118 | the whole run as a definition; `NothingToDoIff`, `LabelingOnlyAdds` and `AcceptAllSaves` state its outcomes |
| CollectData.ModelAssistedLabeling | src/CNNmain/cnnStuff/src/cnnstuff/collect_data.py:45-118 | the run returns exactly `LabelingRun`: nothing to do when no chunk is pending, otherwise the existing labels updated with the session's, or an abort on end of input |
| CollectData.LabelPending | src/CNNmain/cnnStuff/src/cnnstuff/collect_data.py:69-114 | the per-chunk loop, with its feedback and correction prompts, ends exactly as `Session` from the first pending chunk and an empty dictionary |
| CollectData.SessionKeys | src/CNNmain/cnnStuff/src/cnnstuff/collect_data.py:69-114 | the loop keeps everything gathered (a "q" included) and adds only chunks between its start and the position where it stops |
| CollectData.SessionValues | src/CNNmain/cnnStuff/src/cnnstuff/collect_data.py:101-114 | the loop records only the prediction ("y") or a valid correction ("n") |
| CollectData.UnvisitedChunksUnlabeled | src/CNNmain/cnnStuff/src/cnnstuff/collect_data.py:69-116 | a saved run adds no chunk from the position where the loop stopped onwards, unless it was already visited |
| CollectData.LabelingOnlyAdds | src/CNNmain/cnnStuff/src/cnnstuff/collect_data.py:61-116 | the merge keeps every existing entry; new keys are unlabelled chunks of this run; each new value is the prediction or a non-empty list of known labels |
| CollectData.NothingToDoIff | src/CNNmain/cnnStuff/src/cnnstuff/collect_data.py:61-64 | the run returns without writing exactly when every chunk already has an entry |
| CollectData.AcceptingAll | src/CNNmain/cnnStuff/src/cnnstuff/collect_data.py:98-103 | answering "y" everywhere labels every visited chunk with its prediction and leaves other entries alone |
| CollectData.AcceptAllSaves | src/CNNmain/cnnStuff/src/cnnstuff/collect_data.py:98-118 | with enough "y" answers the saved additions are exactly the pending chunks, each with its prediction |
| CollectData.LabelingRunAsWritten | src/CNNmain/cnnStuff/src/cnnstuff/collect_data.py:10-74 | with the imported one-path `predict`, the run does nothing exactly when every chunk is labelled and otherwise fails at the call with `TypeError`, writing nothing |
| CollectData.AsWrittenAgreesOnlyWhenNothingToDo | src/CNNmain/cnnStuff/src/cnnstuff/collect_data.py:61-74 | the run as written agrees with the intended run exactly when there is nothing to label |
| CollectData.AsWrittenLosesAcceptedLabels | src/CNNmain/cnnStuff/src/cnnstuff/collect_data.py:74-118 | where answering "y" would save a prediction for every pending chunk, the run as written fails and saves none |
| Evaluate.LessIrreflexive | src/CNNmain/cnnStuff/src/cnnstuff/evaluate.py:71 | no file name sorts before itself |
| Evaluate.LessTransitive | src/CNNmain/cnnStuff/src/cnnstuff/evaluate.py:71 | string order is transitive |
| Evaluate.LessTotal | src/CNNmain/cnnStuff/src/cnnstuff/evaluate.py:71 | any two different names are ordered one way or the other |
| Evaluate.MinimumExists | src/CNNmain/cnnStuff/src/cnnstuff/evaluate.py:71 | every non-empty key set has a first name |
| Evaluate.MinimumUnique | src/CNNmain/cnnStuff/src/cnnstuff/evaluate.py:71 | that first name is unique |
| Evaluate.SortedKeys | src/CNNmain/cnnStuff/src/cnnstuff/evaluate.py:71 | `sorted(keys)` lists every key once, in strictly increasing order |
| Evaluate.SortedKeysUnique | src/CNNmain/cnnStuff/src/cnnstuff/evaluate.py:71 | any strictly increasing listing of the keys is `sorted(keys)` |
| Evaluate.SortedDistinct | src/CNNmain/cnnStuff/src/cnnstuff/evaluate.py:71-79 | no file is visited twice |
| Evaluate.ReviewStep | src/CNNmain/cnnStuff/src/cnnstuff/evaluate.py:82-123 | one file's turn as a definition; `StepOutcome`, `StepChanges` and `StepValues` state what it does |
| Evaluate.StepOutcome | src/CNNmain/cnnStuff/src/cnnstuff/evaluate.py:82-123 | missing audio and "y" keep the labels; "q" and end of input stop; "n" then a correction replaces that file's entry, and "n" then a skip deletes it |
| Evaluate.Review | src/CNNmain/cnnStuff/src/cnnstuff/evaluate.py:79-123 | the loop over the sorted files as a definition; `ReviewUnfolds`, `ReviewChanges`, `ReviewValues` and `UnvisitedFilesKept` state its effect |
| Evaluate.ReviewStopsAt | src/CNNmain/cnnStuff/src/cnnstuff/evaluate.py:79-110 | the position where the loop stops (on "q" or end of input) lies between the start and the end of the file list |
| Evaluate.QuitKeepsLabels | src/CNNmain/cnnStuff/src/cnnstuff/evaluate.py:109-110 | a "q" at a file with audio stops the loop there and saves the labels as they stand |
| Evaluate.Evaluation | src/CNNmain/cnnStuff/src/cnnstuff/evaluate.py:60-127 | the whole evaluation as a definition; `EvaluationChanges` states its outcome |
| Evaluate.InteractiveEvaluate | src/CNNmain/cnnStuff/src/cnnstuff/evaluate.py:55-127 | the loop returns exactly `Evaluation`, and each `del` finds its key |
| Evaluate.ReviewUnfolds | src/CNNmain/cnnStuff/src/cnnstuff/evaluate.py:79-123 | the review goes on from the state one file's step leaves, or stops there |
| Evaluate.StepChanges | src/CNNmain/cnnStuff/src/cnnstuff/evaluate.py:82-123 | one file's step changes at most that file's entry, and only when its audio exists |
| Evaluate.StepValues | src/CNNmain/cnnStuff/src/cnnstuff/evaluate.py:111-119 | one step writes only a non-empty list of names from the label map |
| Evaluate.ReviewChanges | src/CNNmain/cnnStuff/src/cnnstuff/evaluate.py:79-123 | the review never adds a key and changes or deletes only files whose audio exists, between its start and the position where it stops |
| Evaluate.ReviewValues | src/CNNmain/cnnStuff/src/cnnstuff/evaluate.py:111-119 | every entry left is the original one or a valid correction |
| Evaluate.UnvisitedFilesKept | src/CNNmain/cnnStuff/src/cnnstuff/evaluate.py:79-127 | every file from the position where the loop stopped onwards keeps its original entry |
| Evaluate.EvaluationChanges | src/CNNmain/cnnStuff/src/cnnstuff/evaluate.py:60-127 | a missing file writes nothing; a saved result adds no key, keeps every entry whose audio is missing, and changes entries only to non-empty lists of known labels |
| TrainModel.LabelToIdx | src/CNNmain/cnnStuff/src/cnnstuff/train_model.py:16 | every key of the index map is mapped to a position that holds that label |
| TrainModel.LabelToIdxCovers | src/CNNmain/cnnStuff/src/cnnstuff/train_model.py:16 | every listed label is a key, mapped to its last position, so the keys are exactly the labels |
| TrainModel.DistinctLabelsIndex | src/CNNmain/cnnStuff/src/cnnstuff/train_model.py:16 | with distinct labels each label maps to its own position |
| TrainModel.MultiHot | src/CNNmain/cnnStuff/src/cnnstuff/train_model.py:28-31 | the target has one entry per class |
| TrainModel.MultiHotAt | src/CNNmain/cnnStuff/src/cnnstuff/train_model.py:28-31 | position j is 1.0 exactly when a listed label maps to j, and 0.0 otherwise |
| TrainModel.MultiHotRepeat | src/CNNmain/cnnStuff/src/cnnstuff/train_model.py:29-31 | listing a label twice gives the same vector as listing it once |
| TrainModel.MultiHotBinary | src/CNNmain/cnnStuff/src/cnnstuff/train_model.py:28-31 | a target holds only 0.0 and 1.0 |
| TrainModel.FirstUnknown | src/CNNmain/cnnStuff/src/cnnstuff/train_model.py:29-30 | the reported label is the first one that is not in the index map |
| TrainModel.ListIndex | src/CNNmain/cnnStuff/src/cnnstuff/train_model.py:23 | `files[idx]` accepts -n <= idx < n, counting negative indices from the end |
| TrainModel.SimpleAudioDataset.constructor | src/CNNmain/cnnStuff/src/cnnstuff/train_model.py:9-17 | files are the label keys in file order, label_to_idx is built from all_labels, num_classes is its length |
| TrainModel.SimpleAudioDataset.Len | src/CNNmain/cnnStuff/src/cnnstuff/train_model.py:19-20 | `__len__` is the number of labelled files |
| TrainModel.SimpleAudioDataset.ItemAt | src/CNNmain/cnnStuff/src/cnnstuff/train_model.py:22-37 | an index outside [-n, n) raises `IndexError`; an unknown label raises `KeyError` with a label of that file; otherwise the target has num_classes entries |
| TrainModel.SimpleAudioDataset.GetItem | src/CNNmain/cnnStuff/src/cnnstuff/train_model.py:22-37 | the zeroed array filled in the loop is exactly `ItemAt`, with `KeyError` at the first unknown label |
| TrainModel.ItemTarget | src/CNNmain/cnnStuff/src/cnnstuff/train_model.py:28-31 | an item's target marks exactly its file's labels |
| TrainModel.FirstUnknownAt | src/CNNmain/cnnStuff/src/cnnstuff/train_model.py:29-30 | the first unknown label is found where the loop stops |
| TrainModel.DistinctCount | src/CNNmain/cnnStuff/src/cnnstuff/train_model.py:13-20 | a key list without repeats is as long as the dictionary |

## Left out

- Audio I/O is not modelled. `sf.read`, `librosa.load` and `sf.write` become sequences of real samples, and the written chunk files become name/sample pairs.
- Direction.Mod360Range, Direction.AngleRange, Direction.IntensityRange: the bounds hold for exact reals, not for Python floats. A float `%` can round up to the divisor (`-1e-20 % 360` is `360.0`), and `m / (m + 1e-6)` rounds to `1.0` once m is large enough, so the float angle can be 360 and the float intensity can be 1.
- Floating point is not modelled: samples, energies and probabilities are exact reals. `np.sqrt`, `np.degrees(np.arctan2(...))`, `math.cos` and `math.sin` are caller-supplied functions constrained only as far as the properties need, and NaN and infinity are not represented.
- The neural network and its training are not modelled: `audio_to_spectrogram`, the model, sigmoid and the training loop are left out. Probabilities enter as given reals, the per-chunk prediction of the labelling session as a given function, and the spectrogram half of a dataset item is dropped.
- The `classify` call in `interactive_evaluate` is not modelled. It only feeds the display, and the `IndexError` it can raise there is not part of `Evaluation`.
- `collect_data.py` imports CNNmain's `predict(filepath, threshold)` but calls it with the four arguments of CNN-main's `predict(model, audio_file, all_labels, threshold)`. `CollectData.LabelingRun` follows the four-argument behaviour the call is written for, with `predictionFor` as that prediction; the `TypeError` the call raises as written is the first row of "## Findings".
- CNNmain's `predict(filepath, threshold)` is not modelled separately. It only loads the labels and the model from fixed paths before calling `classify`, which is modelled.
- Console output, `play_audio` and its subprocess calls are not modelled. The replay answer "r" is kept as an answer that asks again.
- `input()` is modelled by the answers after `.strip().lower()`. `Labeling.NumberedChoice` states the normalisation on raw typed lines. `ParseCorrection`, `FeedbackFrom` and the prompt loops take those normal forms and do not normalise again, so a raw line such as " Y" must be given as its normal form "y". `str.lower` is modelled on ASCII letters only, which covers every answer the prompts compare against.
- The `try`/`except` in `get_user_correction` is not modelled. Nothing in its body can raise, so that branch is unreachable.
- JSON encoding and decoding is not modelled: the labels files are dictionaries. For the overlay, decoding is a caller-supplied `Decoder`, and the `errors="ignore"` decoding of bytes is not modelled.
- Overlay.OverlayWindow.constructor: a value that raises in the first `update_overlay` makes `__init__` itself raise. The model records this as polling stopped.
- The Tk window is not modelled: chrome, mouse dragging and the 50 ms `after` scheduling are left out. Only the stored dot and whether polling continues are modelled.
- The JSON key order of the labels file is a constructor parameter of `SimpleAudioDataset`, not derived from the file.
- `src/audio/capture.py`, `display.py`, `training.py`, `classifier.py` and `main.py` are not part of this model.
- Behaviour of the code worth noting:
  - intensity is `m / (m + 1e-6)`, not normalised by the total region energy, and lies in [0, 1);
  - every count of 8 or more channels is accepted (columns past the eighth are ignored), while 1-column 2-D input is rejected;
  - RL/RR feed left and right and never back, so sound only in the rear pair has no front/back component;
  - no atomic-replace or retry protocol for the direction file and no particle engine appear in the code, so neither is modelled.

## Findings

| source | as written | input that shows it | evidently intended | confidence | as-written member | corrected member |
|---|---|---|---|---|---|---|
| src/CNNmain/cnnStuff/src/cnnstuff/collect_data.py:74 | line 10 imports the sibling `predict(filepath, threshold=0.5)`, and line 74 calls it with four arguments, which raises `TypeError` at the first pending chunk before anything is saved | any run with one chunk not yet in the labels file, answering "y" | the four-argument `predict(model, audio_file, all_labels, threshold)` of CNN-main, returning the predicted labels and their confidences | not executed | CollectData.AsWrittenLosesAcceptedLabels | CollectData.LabelingRun |
