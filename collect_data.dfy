/** collect_data.py: cutting a recording into fixed-length chunks with
    numbered names, and the model-assisted labelling session that adds
    labels for chunks not labelled yet. Audio files, playback and the JSON
    file are not modelled: the recording is a sequence of samples, the
    labels file is a dictionary (or absent), the network's prediction for a
    chunk is a given function, and the user's answers are a sequence. */
module CollectData {
  import opened Text
  import opened Labeling

  /** `librosa.load(audio_file, sr=22050)` */
  const SampleRate: int := 22050

  /** `chunk_length` when the caller gives none, in seconds. */
  const DefaultChunkSeconds: real := 3.0

  /** Python's `int(x)` on a float: truncation toward zero. */
  function TruncateToInt(x: real): (n: int)
    ensures 0.0 <= x ==> n as real <= x < n as real + 1.0
    ensures x < 0.0 ==> n as real - 1.0 < x <= n as real
  {
    if x >= 0.0 then x.Floor else -((-x).Floor)
  }

  /** `int(chunk_length * sr)` */
  function SamplesPerChunk(chunkSeconds: real): (spc: int)
    ensures 0.0 <= chunkSeconds ==>
              0 <= spc && spc as real <= chunkSeconds * SampleRate as real < spc as real + 1.0
    ensures chunkSeconds < 0.0 ==> spc <= 0
  {
    TruncateToInt(chunkSeconds * SampleRate as real)
  }

  /** Three-second chunks hold 66150 samples. */
  lemma DefaultSamplesPerChunk()
    ensures SamplesPerChunk(DefaultChunkSeconds) == 66150
  {
    assert DefaultChunkSeconds * SampleRate as real == 66150.0;
  }

  /** `f"{base_name}_chunk_{k:03d}.wav"` */
  function ChunkName(baseName: string, k: nat): (name: string)
    ensures |name| >= |baseName| + 14
    ensures name[..|baseName|] == baseName && name[|name| - 4..] == ".wav"
  {
    baseName + "_chunk_" + ZeroPad3(k) + ".wav"
  }

  /** Different chunk numbers give different file names, so no chunk file
      overwrites another from the same recording. */
  lemma ChunkNamesDistinct(baseName: string, j: nat, k: nat)
    ensures ChunkName(baseName, j) == ChunkName(baseName, k) ==> j == k
  {
    if ChunkName(baseName, j) == ChunkName(baseName, k) {
      var a := ZeroPad3(j);
      var b := ZeroPad3(k);
      var prefix := baseName + "_chunk_";
      assert ChunkName(baseName, j) == prefix + a + ".wav";
      assert ChunkName(baseName, k) == prefix + b + ".wav";
      assert |a| == |b|;
      assert a == (prefix + a + ".wav")[|prefix|..|prefix| + |a|];
      assert b == (prefix + b + ".wav")[|prefix|..|prefix| + |b|];
      ZeroPad3Value(j);
      ZeroPad3Value(k);
    }
  }

  /** A chunk file written by `sf.write`: its name and its samples. */
  datatype ChunkFile = ChunkFile(name: string, samples: seq<real>)

  datatype SplitResult =
    | Split(chunks: seq<ChunkFile>)
    | ZeroStep    // `range()` raises `ValueError` when the chunk is under one sample

  /** First sample of chunk `k`: `k * spc`, as the offsets `range` steps
      through one at a time. */
  function Start(k: nat, spc: int): (s: int)
    ensures 0 <= spc ==> 0 <= s
  {
    if k == 0 then 0 else Start(k - 1, spc) + spc
  }

  /** The offset of chunk `k` is the product `k * spc`. */
  lemma {:induction false} StartIsProduct(k: nat, spc: int)
    ensures Start(k, spc) == k * spc
  {
    if k > 0 {
      StartIsProduct(k - 1, spc);
      assert (k - 1) * spc + spc == k * spc;
    }
  }

  /** Consecutive chunks start `spc` samples apart, from sample 0, and
      `start // spc` recovers the chunk number. */
  lemma StartStep(k: nat, spc: int)
    requires 0 < spc
    ensures 0 <= Start(k, spc)
    ensures Start(k + 1, spc) == Start(k, spc) + spc
    ensures Start(k, spc) / spc == k
  {
    StartIsProduct(k, spc);
    MulMonotone(0, k, spc);
    DivMultiple(k, spc);
  }

  lemma DivMultiple(k: int, spc: int)
    requires 0 < spc
    ensures (k * spc) / spc == k
  {
    var q := (k * spc) / spc;
    var r := (k * spc) % spc;
    assert k * spc == q * spc + r && 0 <= r < spc;
    assert (k - q) * spc == r;
    if k - q >= 1 {
      MulMonotone(1, k - q, spc);
    } else if k - q <= -1 {
      MulMonotone(k - q, -1, spc);
    }
  }

  lemma MulMonotone(a: int, b: int, c: int)
    requires a <= b && 0 < c
    ensures a * c <= b * c
  {
    assert b * c - a * c == (b - a) * c;
  }

  /** Later chunks start later. */
  lemma {:induction false} StartMonotone(a: nat, b: nat, spc: int)
    requires a <= b && 0 < spc
    ensures Start(a, spc) <= Start(b, spc)
  {
    if a < b {
      StartMonotone(a, b - 1, spc);
    }
  }

  /** The number of whole chunks in `n` samples: `m` chunks fit and `m + 1` do not. */
  function ChunkCount(n: nat, spc: int): (m: nat)
    requires 0 < spc
    ensures Start(m, spc) <= n < Start(m + 1, spc)
  {
    var q := n / spc;
    StartIsProduct(q, spc);
    StartIsProduct(q + 1, spc);
    assert n == q * spc + n % spc;
    assert (q + 1) * spc == q * spc + spc;
    q
  }

  /** Only one count has that property. */
  lemma ChunkCountUnique(n: nat, spc: int, m: nat)
    requires 0 < spc && Start(m, spc) <= n < Start(m + 1, spc)
    ensures m == ChunkCount(n, spc)
  {
    var c := ChunkCount(n, spc);
    if m < c {
      StartMonotone(m + 1, c, spc);
    } else if c < m {
      StartMonotone(c + 1, m, spc);
    }
  }

  /** The first `n` chunk files of the recording: chunk `k` holds samples
      `[k*spc, (k+1)*spc)` and carries number `k` in its name. */
  function FullChunks(audio: seq<real>, spc: int, baseName: string, n: nat): (cs: seq<ChunkFile>)
    requires 0 < spc && Start(n, spc) <= |audio|
    ensures |cs| == n
  {
    if n == 0 then []
    else
      StartStep(n - 1, spc);
      FullChunks(audio, spc, baseName, n - 1)
        + [ChunkFile(ChunkName(baseName, n - 1), audio[Start(n - 1, spc)..Start(n, spc)])]
  }

  /** `split_audio_to_chunks`: the full chunks of the recording, in order;
      a trailing partial chunk is dropped. */
  method SplitAudioToChunks(audio: seq<real>, baseName: string, chunkSeconds: real := DefaultChunkSeconds) returns (r: SplitResult)
    ensures SamplesPerChunk(chunkSeconds) == 0 <==> r.ZeroStep?
    ensures SamplesPerChunk(chunkSeconds) < 0 ==> r == Split([])
    ensures SamplesPerChunk(chunkSeconds) > 0 ==>
              var spc := SamplesPerChunk(chunkSeconds);
              r == Split(FullChunks(audio, spc, baseName, ChunkCount(|audio|, spc)))
  {
    var spc := SamplesPerChunk(chunkSeconds);
    if spc == 0 {
      return ZeroStep;
    }
    if spc < 0 {
      // a negative step never reaches a stop above the start
      return Split([]);
    }
    var chunks: seq<ChunkFile> := [];
    var i := 0;
    while i < |audio|
      invariant 0 <= |chunks| && Start(|chunks|, spc) <= |audio|
      invariant chunks == FullChunks(audio, spc, baseName, |chunks|)
      invariant i == Start(|chunks|, spc) || (i == Start(|chunks| + 1, spc) && i > |audio|)
      decreases |audio| - i
    {
      ghost var k := |chunks|;
      StartStep(k, spc);
      assert i == Start(k, spc);
      var end := if i + spc <= |audio| then i + spc else |audio|;
      var chunk := audio[i..end];
      if |chunk| == spc {
        assert end == Start(k + 1, spc) && i / spc == k;
        chunks := chunks + [ChunkFile(ChunkName(baseName, i / spc), chunk)];
        assert chunks == FullChunks(audio, spc, baseName, k + 1);
      } else {
        assert |audio| < Start(k + 1, spc);
      }
      i := i + spc;
    }
    StartStep(|chunks|, spc);
    ChunkCountUnique(|audio|, spc, |chunks|);
    return Split(chunks);
  }

  /** All samples of a list of chunks, one chunk after another. */
  function Concat(chunks: seq<ChunkFile>): seq<real>
  {
    if |chunks| == 0 then [] else Concat(chunks[..|chunks| - 1]) + chunks[|chunks| - 1].samples
  }

  /** The chunks laid end to end are the recording up to the dropped tail. */
  lemma ChunksTile(audio: seq<real>, spc: int, baseName: string, n: nat)
    requires 0 < spc && Start(n, spc) <= |audio|
    ensures Concat(FullChunks(audio, spc, baseName, n)) == audio[..Start(n, spc)]
  {
    var cs := FullChunks(audio, spc, baseName, n);
    forall k | 0 <= k < n
      ensures HoldsWindow(cs[k], audio, spc, k)
    {
      ChunkAt(audio, spc, baseName, n, k);
    }
    TileWindows(cs, audio, spc);
  }

  /** Chunk file `c` holds window `k` of the recording. */
  predicate HoldsWindow(c: ChunkFile, audio: seq<real>, spc: int, k: nat)
    requires 0 < spc
  {
    Start(k + 1, spc) <= |audio| && c.samples == audio[Start(k, spc)..Start(k + 1, spc)]
  }

  /** Chunks holding consecutive `spc`-sample windows from the first sample
      on concatenate to the recording's prefix they cover. */
  lemma {:induction false} TileWindows(cs: seq<ChunkFile>, audio: seq<real>, spc: int)
    requires 0 < spc && Start(|cs|, spc) <= |audio|
    requires forall k :: 0 <= k < |cs| ==> HoldsWindow(cs[k], audio, spc, k)
    ensures Concat(cs) == audio[..Start(|cs|, spc)]
  {
    var n := |cs|;
    if n > 0 {
      StartStep(n - 1, spc);
      var prev := cs[..n - 1];
      assert forall k :: 0 <= k < n - 1 ==> prev[k] == cs[k];
      TileWindows(prev, audio, spc);
      var a, b := Start(n - 1, spc), Start(n, spc);
      assert HoldsWindow(cs[n - 1], audio, spc, n - 1);
      assert Concat(cs) == Concat(prev) + audio[a..b];
      assert audio[..b] == audio[..a] + audio[a..b];
    }
  }

  /** Chunk `k` of the list: its number in the name and its samples. */
  lemma {:induction false} ChunkAt(audio: seq<real>, spc: int, baseName: string, n: nat, k: nat)
    requires 0 < spc && Start(n, spc) <= |audio| && k < n
    ensures 0 <= Start(k, spc) <= Start(k + 1, spc) <= |audio|
    ensures FullChunks(audio, spc, baseName, n)[k]
            == ChunkFile(ChunkName(baseName, k), audio[Start(k, spc)..Start(k + 1, spc)])
  {
    StartStep(n - 1, spc);
    if k < n - 1 {
      ChunkAt(audio, spc, baseName, n - 1, k);
    }
  }

  /** `[chunk for chunk in chunk_files if chunk not in existing_labels]` */
  function Unlabeled(chunkFiles: seq<string>, labeled: map<string, seq<string>>): (r: seq<string>)
    ensures |r| <= |chunkFiles|
  {
    if |chunkFiles| == 0 then []
    else
      var rest := Unlabeled(chunkFiles[1..], labeled);
      if chunkFiles[0] in labeled then rest else [chunkFiles[0]] + rest
  }

  /** A chunk is pending exactly when it is in the list and has no label. */
  lemma {:induction false} UnlabeledIff(chunkFiles: seq<string>, labeled: map<string, seq<string>>)
    ensures forall c :: c in Unlabeled(chunkFiles, labeled) <==> c in chunkFiles && c !in labeled
  {
    if |chunkFiles| > 0 {
      UnlabeledIff(chunkFiles[1..], labeled);
      assert forall c :: c in chunkFiles <==> c == chunkFiles[0] || c in chunkFiles[1..];
    }
  }

  /** How the labelling loop ends: after the last chunk or a "q", with the
      labels gathered so far, or with `input()` out of answers. */
  datatype SessionEnd =
    | Finished(gathered: map<string, seq<string>>)
    | OutOfInput

  /** The labelling loop from chunk `i` and answer `pos` on, with `gathered`
      the `new_labels` collected so far. `parsed` is what each answer means
      to the correction prompt (`Parses` of the answers) and `predictionFor`
      is the network's prediction for a chunk file. */
  function Session(pending: seq<string>, i: nat, answers: seq<string>, pos: nat,
                   gathered: map<string, seq<string>>, parsed: seq<Correction>,
                   predictionFor: string -> seq<string>): SessionEnd
    requires i <= |pending|
    decreases |pending| - i
  {
    if i == |pending| then Finished(gathered)
    else
      var chunk := pending[i];
      var (feedback, next) := FeedbackFrom(answers, pos);
      match feedback
      case NoMoreInput => OutOfInput
      case Quit => Finished(gathered)
      case Accept => Session(pending, i + 1, answers, next, gathered[chunk := predictionFor(chunk)], parsed, predictionFor)
      case Reject =>
        var (reply, after) := ReplyFrom(parsed, next);
        match reply
        case InputExhausted => OutOfInput
        case Skipped => Session(pending, i + 1, answers, after, gathered, parsed, predictionFor)
        case Corrected(labels) => Session(pending, i + 1, answers, after, gathered[chunk := labels], parsed, predictionFor)
  }

  /** What `model_assisted_labeling` leaves behind. */
  datatype LabelingOutcome =
    | NothingToDo                                   // every chunk already labelled; no write
    | Saved(labels: map<string, seq<string>>, added: map<string, seq<string>>)
    | Aborted                                       // `EOFError`: no write
    | PredictTypeError                              // the call at line 74 as written: no write

  /** The labels file as read: absent (`FileNotFoundError`) reads as `{}`. */
  function Existing(file: Option<map<string, seq<string>>>): map<string, seq<string>>
  {
    if file.Some? then file.value else map[]
  }

  /** The whole run: filter, label, then `existing_labels.update(new_labels)`. */
  function LabelingRun(chunkFiles: seq<string>, file: Option<map<string, seq<string>>>, allLabels: seq<string>,
                       predictionFor: string -> seq<string>, answers: seq<string>): LabelingOutcome
  {
    var existing := Existing(file);
    var pending := Unlabeled(chunkFiles, existing);
    if |pending| == 0 then NothingToDo
    else
      match Session(pending, 0, answers, 0, map[], Parses(answers, LabelMap(allLabels)), predictionFor)
      case OutOfInput => Aborted
      case Finished(added) => Saved(existing + added, added)
  }

  /** `model_assisted_labeling` as the source runs it: filter the chunks,
      label the pending ones, merge the new labels into the existing ones. */
  method ModelAssistedLabeling(chunkFiles: seq<string>, file: Option<map<string, seq<string>>>,
                               allLabels: seq<string>, predictionFor: string -> seq<string>,
                               answers: seq<string>) returns (outcome: LabelingOutcome)
    ensures outcome == LabelingRun(chunkFiles, file, allLabels, predictionFor, answers)
  {
    var labelMap := LabelMap(allLabels);
    var existing := Existing(file);
    var pending := Unlabeled(chunkFiles, existing);
    if |pending| == 0 {
      return NothingToDo;
    }
    var end := LabelPending(pending, answers, labelMap, predictionFor);
    if end.OutOfInput? {
      return Aborted;
    }
    var newLabels := end.gathered;
    return Saved(existing + newLabels, newLabels);
  }

  /** The loop of `model_assisted_labeling` over the pending chunks: one
      feedback prompt per chunk, a correction prompt after "n". */
  method LabelPending(pending: seq<string>, answers: seq<string>, labelMap: map<string, string>,
                      predictionFor: string -> seq<string>) returns (end: SessionEnd)
    ensures end == Session(pending, 0, answers, 0, map[], Parses(answers, labelMap), predictionFor)
  {
    ghost var parsed := Parses(answers, labelMap);
    ghost var goal := Session(pending, 0, answers, 0, map[], parsed, predictionFor);
    var newLabels: map<string, seq<string>> := map[];
    var pos := 0;
    var i := 0;
    while i < |pending|
      invariant i <= |pending|
      invariant Session(pending, i, answers, pos, newLabels, parsed, predictionFor) == goal
    {
      var chunk := pending[i];
      var predicted := predictionFor(chunk);
      var feedback, next := ReadFeedback(answers, pos);
      if feedback == NoMoreInput {
        return OutOfInput;
      } else if feedback == Quit {
        break;
      } else if feedback == Accept {
        newLabels := newLabels[chunk := predicted];
        pos := next;
      } else {
        var correction, after := GetUserCorrection(answers, next, labelMap);
        assert (correction, after) == ReplyFrom(parsed, next);
        if correction == InputExhausted {
          return OutOfInput;
        } else if correction.Corrected? {
          newLabels := newLabels[chunk := correction.labels];
        }
        pos := after;
      }
      i := i + 1;
    }
    return Finished(newLabels);
  }

  /** A value the session may record for `chunk`: the network's prediction
      ("y"), or a non-empty list of names from the label map ("n" and a
      correction). */
  predicate Recorded(chunk: string, v: seq<string>, labelMap: map<string, string>,
                     predictionFor: string -> seq<string>)
  {
    v == predictionFor(chunk) || (|v| >= 1 && forall l :: l in v ==> l in labelMap.Values)
  }

  /** Every gathered entry is one the session may record. */
  predicate AllRecorded(gathered: map<string, seq<string>>, labelMap: map<string, string>,
                        predictionFor: string -> seq<string>)
  {
    forall k :: k in gathered ==> Recorded(k, gathered[k], labelMap, predictionFor)
  }

  /** The position of the pending chunk at which the loop stops: the first
      whose prompt reads "q" or runs out of answers, or the end of the list. */
  function SessionStopsAt(pending: seq<string>, i: nat, answers: seq<string>, pos: nat,
                          parsed: seq<Correction>): (j: nat)
    requires i <= |pending|
    ensures i <= j <= |pending|
    decreases |pending| - i
  {
    if i == |pending| then i
    else
      var (feedback, next) := FeedbackFrom(answers, pos);
      match feedback
      case NoMoreInput => i
      case Quit => i
      case Accept => SessionStopsAt(pending, i + 1, answers, next, parsed)
      case Reject =>
        var (reply, after) := ReplyFrom(parsed, next);
        match reply
        case InputExhausted => i
        case Skipped => SessionStopsAt(pending, i + 1, answers, after, parsed)
        case Corrected(_) => SessionStopsAt(pending, i + 1, answers, after, parsed)
  }

  /** A "q" ends the loop with the labels gathered so far. */
  lemma QuitKeepsGathered(pending: seq<string>, i: nat, answers: seq<string>, pos: nat,
                          gathered: map<string, seq<string>>, parsed: seq<Correction>,
                          predictionFor: string -> seq<string>)
    requires i < |pending| && FeedbackFrom(answers, pos).0 == Quit
    ensures Session(pending, i, answers, pos, gathered, parsed, predictionFor) == Finished(gathered)
    ensures SessionStopsAt(pending, i, answers, pos, parsed) == i
  {
  }

  /** The loop keeps what it gathered (a "q" included) and adds only chunks
      it visits before it stops. */
  lemma {:induction false} SessionKeys(pending: seq<string>, i: nat, answers: seq<string>, pos: nat,
                                       gathered: map<string, seq<string>>, parsed: seq<Correction>,
                                       predictionFor: string -> seq<string>)
    requires i <= |pending|
    ensures var r := Session(pending, i, answers, pos, gathered, parsed, predictionFor);
            r.Finished? ==>
              && gathered.Keys <= r.gathered.Keys
              && (forall k :: k in r.gathered ==>
                    k in gathered || k in pending[i..SessionStopsAt(pending, i, answers, pos, parsed)])
    decreases |pending| - i
  {
    if i < |pending| {
      var chunk := pending[i];
      var fb := FeedbackFrom(answers, pos);
      var r := Session(pending, i, answers, pos, gathered, parsed, predictionFor);
      var j := SessionStopsAt(pending, i, answers, pos, parsed);
      if j > i {
        assert forall k :: k in pending[i + 1..j] ==> k in pending[i..j];
        assert chunk in pending[i..j];
      }
      if fb.0 == Accept {
        var g := gathered[chunk := predictionFor(chunk)];
        assert r == Session(pending, i + 1, answers, fb.1, g, parsed, predictionFor);
        SessionKeys(pending, i + 1, answers, fb.1, g, parsed, predictionFor);
      } else if fb.0 == Reject {
        var reply := ReplyFrom(parsed, fb.1);
        if reply.0.Skipped? {
          assert r == Session(pending, i + 1, answers, reply.1, gathered, parsed, predictionFor);
          SessionKeys(pending, i + 1, answers, reply.1, gathered, parsed, predictionFor);
        } else if reply.0.Corrected? {
          var g := gathered[chunk := reply.0.labels];
          assert r == Session(pending, i + 1, answers, reply.1, g, parsed, predictionFor);
          SessionKeys(pending, i + 1, answers, reply.1, g, parsed, predictionFor);
        } else {
          assert r == OutOfInput;
        }
      } else if fb.0 == Quit {
        assert r == Finished(gathered);
      } else {
        assert r == OutOfInput;
      }
    }
  }

  /** The loop records only predictions or valid corrections. */
  lemma {:induction false} SessionValues(pending: seq<string>, i: nat, answers: seq<string>, pos: nat,
                                         gathered: map<string, seq<string>>, parsed: seq<Correction>,
                                         labelMap: map<string, string>, predictionFor: string -> seq<string>)
    requires i <= |pending| && ChosenValid(parsed, labelMap)
    requires AllRecorded(gathered, labelMap, predictionFor)
    ensures var r := Session(pending, i, answers, pos, gathered, parsed, predictionFor);
            r.Finished? ==> AllRecorded(r.gathered, labelMap, predictionFor)
    decreases |pending| - i
  {
    if i < |pending| {
      var chunk := pending[i];
      var fb := FeedbackFrom(answers, pos);
      var r := Session(pending, i, answers, pos, gathered, parsed, predictionFor);
      if fb.0 == Accept {
        var g := gathered[chunk := predictionFor(chunk)];
        assert r == Session(pending, i + 1, answers, fb.1, g, parsed, predictionFor);
        SessionValues(pending, i + 1, answers, fb.1, g, parsed, labelMap, predictionFor);
      } else if fb.0 == Reject {
        var reply := ReplyFrom(parsed, fb.1);
        if reply.0.Skipped? {
          assert r == Session(pending, i + 1, answers, reply.1, gathered, parsed, predictionFor);
          SessionValues(pending, i + 1, answers, reply.1, gathered, parsed, labelMap, predictionFor);
        } else if reply.0.Corrected? {
          var g := gathered[chunk := reply.0.labels];
          ReplyValid(parsed, fb.1, labelMap);
          assert Recorded(chunk, reply.0.labels, labelMap, predictionFor);
          assert r == Session(pending, i + 1, answers, reply.1, g, parsed, predictionFor);
          SessionValues(pending, i + 1, answers, reply.1, g, parsed, labelMap, predictionFor);
        } else {
          assert r == OutOfInput;
        }
      } else if fb.0 == Quit {
        assert r == Finished(gathered);
      } else {
        assert r == OutOfInput;
      }
    }
  }

  /** Merging only adds keys: every existing entry is saved unchanged, the
      new keys are chunks of this run that had no label, and each new value
      is the prediction or a non-empty list of known labels. */
  lemma LabelingOnlyAdds(chunkFiles: seq<string>, file: Option<map<string, seq<string>>>, allLabels: seq<string>,
                         predictionFor: string -> seq<string>, answers: seq<string>)
    ensures var r := LabelingRun(chunkFiles, file, allLabels, predictionFor, answers);
            r.Saved? ==>
              && (forall k :: k in Existing(file) ==> k in r.labels && r.labels[k] == Existing(file)[k])
              && r.labels.Keys == Existing(file).Keys + r.added.Keys
              && (forall k :: k in r.added ==> k in chunkFiles && k !in Existing(file))
              && (forall k :: k in r.added ==>
                    r.added[k] == predictionFor(k)
                    || (|r.added[k]| >= 1 && forall l :: l in r.added[k] ==> l in allLabels))
  {
    var existing := Existing(file);
    var pending := Unlabeled(chunkFiles, existing);
    var labelMap := LabelMap(allLabels);
    var parsed := Parses(answers, labelMap);
    UnlabeledIff(chunkFiles, existing);
    if |pending| > 0 {
      ParsesValid(answers, labelMap);
      SessionKeys(pending, 0, answers, 0, map[], parsed, predictionFor);
      SessionValues(pending, 0, answers, 0, map[], parsed, labelMap, predictionFor);
      LabelMapValues(allLabels);
      assert pending[0..] == pending;
    }
  }

  /** A saved run labels no pending chunk from the one where the session
      stopped on, unless it was also visited before that point. */
  lemma UnvisitedChunksUnlabeled(chunkFiles: seq<string>, file: Option<map<string, seq<string>>>,
                                 allLabels: seq<string>, predictionFor: string -> seq<string>,
                                 answers: seq<string>)
    ensures var r := LabelingRun(chunkFiles, file, allLabels, predictionFor, answers);
            var pending := Unlabeled(chunkFiles, Existing(file));
            var j := SessionStopsAt(pending, 0, answers, 0, Parses(answers, LabelMap(allLabels)));
            r.Saved? ==> forall k :: k in pending[j..] && k !in pending[..j] ==> k !in r.added
  {
    var pending := Unlabeled(chunkFiles, Existing(file));
    if |pending| > 0 {
      var parsed := Parses(answers, LabelMap(allLabels));
      SessionKeys(pending, 0, answers, 0, map[], parsed, predictionFor);
    }
  }

  /** The run returns without writing exactly when every chunk already has
      an entry in the labels file. */
  lemma NothingToDoIff(chunkFiles: seq<string>, file: Option<map<string, seq<string>>>, allLabels: seq<string>,
                       predictionFor: string -> seq<string>, answers: seq<string>)
    ensures LabelingRun(chunkFiles, file, allLabels, predictionFor, answers) == NothingToDo
            <==> forall c :: c in chunkFiles ==> c in Existing(file)
  {
    var pending := Unlabeled(chunkFiles, Existing(file));
    UnlabeledIff(chunkFiles, Existing(file));
    if |pending| > 0 {
      assert pending[0] in pending;
    }
  }

  /** Answering "y" at every prompt labels every visited chunk with its
      prediction and leaves other gathered entries alone. */
  lemma {:induction false} AcceptingAll(pending: seq<string>, i: nat, answers: seq<string>, pos: nat,
                                        gathered: map<string, seq<string>>, parsed: seq<Correction>,
                                        predictionFor: string -> seq<string>)
    requires i <= |pending| && |pending| - i <= |answers| - pos
    requires forall j :: pos <= j < |answers| ==> IsLetter(answers[j], 'y')
    ensures var r := Session(pending, i, answers, pos, gathered, parsed, predictionFor);
            && r.Finished?
            && (forall k :: k in r.gathered <==> k in gathered || k in pending[i..])
            && (forall k :: k in pending[i..] ==> r.gathered[k] == predictionFor(k))
            && (forall k :: k in gathered && k !in pending[i..] ==> r.gathered[k] == gathered[k])
    decreases |pending| - i
  {
    if i < |pending| {
      var chunk := pending[i];
      assert FeedbackFrom(answers, pos) == (Accept, pos + 1);
      AcceptingAll(pending, i + 1, answers, pos + 1, gathered[chunk := predictionFor(chunk)], parsed, predictionFor);
      assert forall k :: k in pending[i..] <==> k == chunk || k in pending[i + 1..];
    }
  }

  /** With enough "y" answers the whole run saves every unlabelled chunk
      with its prediction. */
  lemma AcceptAllSaves(chunkFiles: seq<string>, file: Option<map<string, seq<string>>>, allLabels: seq<string>,
                       predictionFor: string -> seq<string>, answers: seq<string>)
    requires |chunkFiles| <= |answers|
    requires forall j :: 0 <= j < |answers| ==> IsLetter(answers[j], 'y')
    requires exists c :: c in chunkFiles && c !in Existing(file)
    ensures var r := LabelingRun(chunkFiles, file, allLabels, predictionFor, answers);
            && r.Saved?
            && (forall k :: k in r.added <==> k in chunkFiles && k !in Existing(file))
            && (forall k :: k in r.added ==> r.added[k] == predictionFor(k))
  {
    var pending := Unlabeled(chunkFiles, Existing(file));
    UnlabeledIff(chunkFiles, Existing(file));
    var c :| c in chunkFiles && c !in Existing(file);
    assert c in pending;
    AcceptingAll(pending, 0, answers, 0, map[], Parses(answers, LabelMap(allLabels)), predictionFor);
    assert pending[0..] == pending;
  }

  // ---------------------------------------------------------------------------
  // The `predict` call as written

  /** `model_assisted_labeling` as written: the imported `predict(filepath,
      threshold)` is called with four arguments, which raises `TypeError` at
      the first pending chunk, before any prompt and before any write. */
  function LabelingRunAsWritten(chunkFiles: seq<string>, file: Option<map<string, seq<string>>>): (r: LabelingOutcome)
    ensures r == NothingToDo <==> forall c :: c in chunkFiles ==> c in Existing(file)
    ensures r != NothingToDo ==> r == PredictTypeError
  {
    var pending := Unlabeled(chunkFiles, Existing(file));
    UnlabeledIff(chunkFiles, Existing(file));
    if |pending| == 0 then NothingToDo
    else
      assert pending[0] in pending;
      PredictTypeError
  }

  /** The run as written agrees with the intended run exactly when there is
      nothing to label: whenever a chunk is pending, it never saves. */
  lemma AsWrittenAgreesOnlyWhenNothingToDo(chunkFiles: seq<string>, file: Option<map<string, seq<string>>>,
                                           allLabels: seq<string>, predictionFor: string -> seq<string>,
                                           answers: seq<string>)
    ensures LabelingRunAsWritten(chunkFiles, file) == LabelingRun(chunkFiles, file, allLabels, predictionFor, answers)
            <==> LabelingRun(chunkFiles, file, allLabels, predictionFor, answers) == NothingToDo
  {
    NothingToDoIff(chunkFiles, file, allLabels, predictionFor, answers);
  }

  /** An input that shows the difference: with an unlabelled chunk and a "y"
      for it, the intended run saves the prediction while the run as written
      raises. */
  lemma AsWrittenLosesAcceptedLabels(chunkFiles: seq<string>, file: Option<map<string, seq<string>>>,
                                     allLabels: seq<string>, predictionFor: string -> seq<string>,
                                     answers: seq<string>)
    requires |chunkFiles| <= |answers|
    requires forall j :: 0 <= j < |answers| ==> IsLetter(answers[j], 'y')
    requires exists c :: c in chunkFiles && c !in Existing(file)
    ensures LabelingRunAsWritten(chunkFiles, file) == PredictTypeError
    ensures var r := LabelingRun(chunkFiles, file, allLabels, predictionFor, answers);
            r.Saved? && r.added != map[]
  {
    AcceptAllSaves(chunkFiles, file, allLabels, predictionFor, answers);
    var c :| c in chunkFiles && c !in Existing(file);
    assert c in LabelingRun(chunkFiles, file, allLabels, predictionFor, answers).added;
  }
}
