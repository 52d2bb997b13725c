/** evaluate.py: `interactive_evaluate` walks the labelled files in sorted
    order and lets the user confirm each entry, replace it with a
    correction, or delete it, then writes the dictionary back. The labels
    file is a dictionary (or absent), `os.path.exists` on a chunk's audio is
    a given predicate, and the user's answers are a sequence as in
    `Labeling`. */
module Evaluate {
  import opened Text
  import opened Labeling

  /** Python's `<` on `str`: lexicographic by code point, a proper prefix
      coming first. */
  predicate Less(a: string, b: string)
  {
    if |a| == 0 then |b| > 0
    else if |b| == 0 then false
    else a[0] < b[0] || (a[0] == b[0] && Less(a[1..], b[1..]))
  }

  lemma {:induction false} LessIrreflexive(a: string)
    ensures !Less(a, a)
  {
    if |a| > 0 {
      LessIrreflexive(a[1..]);
    }
  }

  lemma {:induction false} LessTransitive(a: string, b: string, c: string)
    requires Less(a, b) && Less(b, c)
    ensures Less(a, c)
  {
    if |a| > 0 && a[0] == b[0] && b[0] == c[0] {
      LessTransitive(a[1..], b[1..], c[1..]);
    }
  }

  lemma {:induction false} LessTotal(a: string, b: string)
    ensures a == b || Less(a, b) || Less(b, a)
  {
    if |a| > 0 && |b| > 0 && a[0] == b[0] {
      LessTotal(a[1..], b[1..]);
      if a[1..] == b[1..] {
        assert a == [a[0]] + a[1..] && b == [b[0]] + b[1..];
      }
    }
  }

  /** `m` comes before every other key. */
  predicate IsMinimum(m: string, keys: set<string>)
  {
    m in keys && forall x :: x in keys && x != m ==> Less(m, x)
  }

  lemma {:induction false} MinimumExists(keys: set<string>)
    requires keys != {}
    ensures exists m :: IsMinimum(m, keys)
    decreases |keys|
  {
    var x :| x in keys;
    var rest := keys - {x};
    if rest == {} {
      assert keys == {x};
      assert IsMinimum(x, keys);
    } else {
      MinimumExists(rest);
      var m :| IsMinimum(m, rest);
      LessTotal(x, m);
      if Less(x, m) {
        forall y | y in keys && y != x ensures Less(x, y) {
          if y != m {
            LessTransitive(x, m, y);
          }
        }
        assert IsMinimum(x, keys);
      } else {
        assert IsMinimum(m, keys);
      }
    }
  }

  lemma MinimumUnique(keys: set<string>, m: string, n: string)
    requires IsMinimum(m, keys) && IsMinimum(n, keys)
    ensures m == n
  {
    if m != n {
      LessTransitive(m, n, m);
      LessIrreflexive(m);
    }
  }

  lemma MinimumsAgree(keys: set<string>)
    ensures forall m, n :: IsMinimum(m, keys) && IsMinimum(n, keys) ==> m == n
  {
    forall m, n | IsMinimum(m, keys) && IsMinimum(n, keys) ensures m == n {
      MinimumUnique(keys, m, n);
    }
  }

  /** Each element of `s` comes before every later one. */
  predicate StrictlySorted(s: seq<string>)
  {
    forall i, j :: 0 <= i < j < |s| ==> Less(s[i], s[j])
  }

  /** `sorted(manual_labels.keys())`: every key once, in increasing order. */
  function SortedKeys(keys: set<string>): (s: seq<string>)
    ensures StrictlySorted(s)
    ensures forall x :: x in s <==> x in keys
    decreases |keys|
  {
    if keys == {} then []
    else
      MinimumExists(keys);
      MinimumsAgree(keys);
      var m :| IsMinimum(m, keys);
      var rest := SortedKeys(keys - {m});
      assert forall j :: 0 <= j < |rest| ==> rest[j] in keys - {m};
      [m] + rest
  }

  lemma SameElementsEmpty(keys: set<string>, s: seq<string>)
    requires forall x :: x in s <==> x in keys
    ensures s == [] <==> keys == {}
  {
    if s != [] {
      assert s[0] in keys;
    }
  }

  /** Only one sequence lists the keys in strictly increasing order. */
  lemma {:induction false} SortedKeysUnique(keys: set<string>, s: seq<string>)
    requires StrictlySorted(s)
    requires forall x :: x in s <==> x in keys
    ensures s == SortedKeys(keys)
    decreases |keys|
  {
    SameElementsEmpty(keys, s);
    if keys != {} {
      var t := SortedKeys(keys);
      assert s != [] by {
        var x :| x in keys;
        assert x in s;
      }
      assert IsMinimum(s[0], keys) by {
        forall x | x in keys && x != s[0] ensures Less(s[0], x) {
          var j :| 0 <= j < |s| && s[j] == x;
        }
      }
      assert IsMinimum(t[0], keys) by {
        forall x | x in keys && x != t[0] ensures Less(t[0], x) {
          var j :| 0 <= j < |t| && t[j] == x;
        }
      }
      MinimumUnique(keys, s[0], t[0]);
      var m := s[0];
      forall x ensures x in s[1..] <==> x in keys - {m} {
        if x in s[1..] {
          var j :| 1 <= j < |s| && s[j] == x;
          LessIrreflexive(m);
        }
      }
      SortedKeysUnique(keys - {m}, s[1..]);
      assert t == [t[0]] + SortedKeys(keys - {t[0]});
      assert s == [m] + s[1..];
    }
  }

  /** No key appears twice in a strictly sorted list. */
  lemma SortedDistinct(s: seq<string>)
    requires StrictlySorted(s)
    ensures forall i, j :: 0 <= i < j < |s| ==> s[i] != s[j]
  {
    forall i, j | 0 <= i < j < |s| ensures s[i] != s[j] {
      LessIrreflexive(s[i]);
    }
  }

  /** The review loop from file `i` and answer `pos` on; `None` is the
      `EOFError` that ends the run without saving. */
  function Review(files: seq<string>, i: nat, answers: seq<string>, pos: nat, labels: map<string, seq<string>>,
                  parsed: seq<Correction>, audioExists: string -> bool): Option<map<string, seq<string>>>
    requires i <= |files|
    decreases |files| - i
  {
    if i == |files| then Some(labels)
    else
      var file := files[i];
      if !audioExists(file) then Review(files, i + 1, answers, pos, labels, parsed, audioExists)
      else
        var (feedback, next) := FeedbackFrom(answers, pos);
        match feedback
        case NoMoreInput => None
        case Quit => Some(labels)
        case Accept => Review(files, i + 1, answers, next, labels, parsed, audioExists)
        case Reject =>
          var (reply, after) := ReplyFrom(parsed, next);
          match reply
          case InputExhausted => None
          case Corrected(names) => Review(files, i + 1, answers, after, labels[file := names], parsed, audioExists)
          case Skipped => Review(files, i + 1, answers, after, labels - {file}, parsed, audioExists)
  }

  datatype EvaluateOutcome =
    | NotFound                                      // no labels file: nothing written
    | Saved(labels: map<string, seq<string>>)       // the dictionary written back
    | Aborted                                       // `EOFError`: nothing written

  /** `interactive_evaluate` on a labels file that is present or absent. */
  function Evaluation(file: Option<map<string, seq<string>>>, allLabels: seq<string>,
                      audioExists: string -> bool, answers: seq<string>): EvaluateOutcome
  {
    if file.None? then NotFound
    else
      var labels := file.value;
      match Review(SortedKeys(labels.Keys), 0, answers, 0, labels, Parses(answers, LabelMap(allLabels)), audioExists)
      case None => Aborted
      case Some(result) => Saved(result)
  }

  /** The loop as the source writes it: the dictionary is updated in place
      and each entry is deleted at most once, always while present. */
  method InteractiveEvaluate(file: Option<map<string, seq<string>>>, allLabels: seq<string>,
                             audioExists: string -> bool, answers: seq<string>) returns (outcome: EvaluateOutcome)
    ensures outcome == Evaluation(file, allLabels, audioExists, answers)
  {
    if file.None? {
      return NotFound;
    }
    var labels := file.value;
    var labelMap := LabelMap(allLabels);
    ghost var parsed := Parses(answers, labelMap);
    var files := SortedKeys(labels.Keys);
    SortedDistinct(files);
    var pos := 0;
    var i := 0;
    while i < |files|
      invariant i <= |files|
      invariant forall j :: i <= j < |files| ==> files[j] in labels
      invariant Review(files, i, answers, pos, labels, parsed, audioExists)
                == Review(files, 0, answers, 0, file.value, parsed, audioExists)
    {
      var name := files[i];
      if !audioExists(name) {
        i := i + 1;
        continue;
      }
      var feedback, next := ReadFeedback(answers, pos);
      if feedback == NoMoreInput {
        return Aborted;
      } else if feedback == Quit {
        break;
      } else if feedback == Reject {
        var correction, after := GetUserCorrection(answers, next, labelMap);
        if correction == InputExhausted {
          return Aborted;
        } else if correction.Corrected? {
          labels := labels[name := correction.labels];
        } else {
          assert name in labels;
          labels := labels - {name};
        }
        pos := after;
      } else {
        pos := next;
      }
      i := i + 1;
    }
    return Saved(labels);
  }

  /** One review step: the state after the file at position `i`, or `None`
      when the run stops there (a "q" or the end of the answers). */
  datatype Step = Next(pos: nat, labels: map<string, seq<string>>) | Stop

  function ReviewStep(file: string, answers: seq<string>, pos: nat, labels: map<string, seq<string>>,
                      parsed: seq<Correction>, audioExists: string -> bool): Step
  {
    if !audioExists(file) then Next(pos, labels)
    else
      var (feedback, next) := FeedbackFrom(answers, pos);
      match feedback
      case NoMoreInput => Stop
      case Quit => Stop
      case Accept => Next(next, labels)
      case Reject =>
        var (reply, after) := ReplyFrom(parsed, next);
        match reply
        case InputExhausted => Stop
        case Corrected(names) => Next(after, labels[file := names])
        case Skipped => Next(after, labels - {file})
  }

  /** Review continues with the state a step leaves. */
  lemma ReviewUnfolds(files: seq<string>, i: nat, answers: seq<string>, pos: nat, labels: map<string, seq<string>>,
                      parsed: seq<Correction>, audioExists: string -> bool)
    requires i < |files|
    ensures var st := ReviewStep(files[i], answers, pos, labels, parsed, audioExists);
            var r := Review(files, i, answers, pos, labels, parsed, audioExists);
            && (st.Next? ==> r == Review(files, i + 1, answers, st.pos, st.labels, parsed, audioExists))
            && (st.Stop? ==> r == None || r == Some(labels))
  {
  }

  /** A single step drops at most the file it visits, changes only that
      file's entry, and only when its audio exists. */
  lemma StepChanges(file: string, answers: seq<string>, pos: nat, labels: map<string, seq<string>>,
                    parsed: seq<Correction>, audioExists: string -> bool)
    ensures var st := ReviewStep(file, answers, pos, labels, parsed, audioExists);
            st.Next? ==>
              && st.labels.Keys <= labels.Keys + {file}
              && (forall k :: k in labels && (k !in st.labels || st.labels[k] != labels[k]) ==> k == file && audioExists(k))
              && (forall k :: k in st.labels && k !in labels ==> k == file)
  {
  }

  /** What one step does to the labels of the file it visits: nothing
      without audio or after "y", a stop on "q" or at the end of the
      answers, the typed names after "n" and a correction, and deletion
      after "n" and "s". */
  lemma StepOutcome(file: string, answers: seq<string>, pos: nat, labels: map<string, seq<string>>,
                    parsed: seq<Correction>, audioExists: string -> bool)
    ensures var st := ReviewStep(file, answers, pos, labels, parsed, audioExists);
            var fb := FeedbackFrom(answers, pos);
            var reply := ReplyFrom(parsed, fb.1);
            && (!audioExists(file) ==> st == Next(pos, labels))
            && (audioExists(file) && fb.0 == Accept ==> st.Next? && st.labels == labels)
            && (audioExists(file) && (fb.0 == Quit || fb.0 == NoMoreInput) ==> st.Stop?)
            && (audioExists(file) && fb.0 == Reject && reply.0.Corrected? ==>
                  st.Next? && file in st.labels && st.labels[file] == reply.0.labels
                  && st.labels == labels[file := reply.0.labels])
            && (audioExists(file) && fb.0 == Reject && reply.0.Skipped? ==>
                  st.Next? && file !in st.labels && st.labels == labels - {file})
            && (audioExists(file) && fb.0 == Reject && reply.0.InputExhausted? ==> st.Stop?)
  {
  }

  /** The position of the file at which the review stops: the first file
      with audio whose prompt reads "q" or runs out of answers, or the end
      of the list. */
  function ReviewStopsAt(files: seq<string>, i: nat, answers: seq<string>, pos: nat,
                         parsed: seq<Correction>, audioExists: string -> bool): (j: nat)
    requires i <= |files|
    ensures i <= j <= |files|
    decreases |files| - i
  {
    if i == |files| then i
    else if !audioExists(files[i]) then ReviewStopsAt(files, i + 1, answers, pos, parsed, audioExists)
    else
      var (feedback, next) := FeedbackFrom(answers, pos);
      match feedback
      case NoMoreInput => i
      case Quit => i
      case Accept => ReviewStopsAt(files, i + 1, answers, next, parsed, audioExists)
      case Reject =>
        var (reply, after) := ReplyFrom(parsed, next);
        match reply
        case InputExhausted => i
        case Corrected(_) => ReviewStopsAt(files, i + 1, answers, after, parsed, audioExists)
        case Skipped => ReviewStopsAt(files, i + 1, answers, after, parsed, audioExists)
  }

  /** A "q" at a file with audio saves the labels exactly as they stand. */
  lemma QuitKeepsLabels(files: seq<string>, i: nat, answers: seq<string>, pos: nat,
                        labels: map<string, seq<string>>, parsed: seq<Correction>, audioExists: string -> bool)
    requires i < |files| && audioExists(files[i]) && FeedbackFrom(answers, pos).0 == Quit
    ensures Review(files, i, answers, pos, labels, parsed, audioExists) == Some(labels)
    ensures ReviewStopsAt(files, i, answers, pos, parsed, audioExists) == i
  {
  }

  /** The review never adds a key, and changes only files it visits before
      it stops whose audio exists. */
  lemma {:induction false} ReviewChanges(files: seq<string>, i: nat, answers: seq<string>, pos: nat,
                                         labels: map<string, seq<string>>, parsed: seq<Correction>,
                                         audioExists: string -> bool)
    requires i <= |files|
    requires forall j :: i <= j < |files| ==> files[j] in labels
    requires forall a, b :: i <= a < b < |files| ==> files[a] != files[b]
    ensures var r := Review(files, i, answers, pos, labels, parsed, audioExists);
            r.Some? ==>
              && r.value.Keys <= labels.Keys
              && (forall k :: k in labels && (k !in r.value || r.value[k] != labels[k]) ==>
                    k in files[i..ReviewStopsAt(files, i, answers, pos, parsed, audioExists)] && audioExists(k))
    decreases |files| - i
  {
    if i < |files| {
      var st := ReviewStep(files[i], answers, pos, labels, parsed, audioExists);
      ReviewUnfolds(files, i, answers, pos, labels, parsed, audioExists);
      if st.Next? {
        var j := ReviewStopsAt(files, i, answers, pos, parsed, audioExists);
        assert j == ReviewStopsAt(files, i + 1, answers, st.pos, parsed, audioExists);
        StepChanges(files[i], answers, pos, labels, parsed, audioExists);
        assert forall k :: k in files[i + 1..j] ==> k in files[i..j];
        assert files[i] in files[i..j];
        ReviewChanges(files, i + 1, answers, st.pos, st.labels, parsed, audioExists);
      }
    }
  }

  /** Every file from the one where the review stops on is saved with its
      entry untouched. */
  lemma UnvisitedFilesKept(files: seq<string>, i: nat, answers: seq<string>, pos: nat,
                           labels: map<string, seq<string>>, parsed: seq<Correction>,
                           audioExists: string -> bool)
    requires i <= |files|
    requires forall j :: i <= j < |files| ==> files[j] in labels
    requires forall a, b :: i <= a < b < |files| ==> files[a] != files[b]
    ensures var r := Review(files, i, answers, pos, labels, parsed, audioExists);
            var j := ReviewStopsAt(files, i, answers, pos, parsed, audioExists);
            r.Some? ==> forall b :: j <= b < |files| ==> files[b] in r.value && r.value[files[b]] == labels[files[b]]
  {
    ReviewChanges(files, i, answers, pos, labels, parsed, audioExists);
  }

  /** A single step only writes non-empty lists of names from the label map. */
  lemma StepValues(file: string, answers: seq<string>, pos: nat, labels: map<string, seq<string>>,
                   parsed: seq<Correction>, labelMap: map<string, string>, audioExists: string -> bool)
    requires ChosenValid(parsed, labelMap)
    ensures var st := ReviewStep(file, answers, pos, labels, parsed, audioExists);
            st.Next? && file in st.labels ==> Kept(file, st.labels[file], labels, labelMap)
  {
    var st := ReviewStep(file, answers, pos, labels, parsed, audioExists);
    if audioExists(file) {
      var fb := FeedbackFrom(answers, pos);
      if fb.0 == Reject {
        var reply := ReplyFrom(parsed, fb.1);
        ReplyValid(parsed, fb.1, labelMap);
        if reply.0.Corrected? {
          assert st == Next(reply.1, labels[file := reply.0.labels]);
          assert Kept(file, reply.0.labels, labels, labelMap);
        } else if reply.0.Skipped? {
          assert st == Next(reply.1, labels - {file});
        }
      } else if fb.0 == Accept {
        assert st == Next(fb.1, labels);
      }
    }
  }

  /** Every entry left after the review is the original one or a valid
      correction. */
  lemma {:induction false} ReviewValues(files: seq<string>, i: nat, answers: seq<string>, pos: nat,
                                        labels: map<string, seq<string>>, parsed: seq<Correction>,
                                        labelMap: map<string, string>, audioExists: string -> bool,
                                        original: map<string, seq<string>>)
    requires i <= |files| && ChosenValid(parsed, labelMap)
    requires forall k :: k in labels ==> Kept(k, labels[k], original, labelMap)
    ensures var r := Review(files, i, answers, pos, labels, parsed, audioExists);
            r.Some? ==> forall k :: k in r.value ==> Kept(k, r.value[k], original, labelMap)
    decreases |files| - i
  {
    if i < |files| {
      var st := ReviewStep(files[i], answers, pos, labels, parsed, audioExists);
      ReviewUnfolds(files, i, answers, pos, labels, parsed, audioExists);
      if st.Next? {
        StepChanges(files[i], answers, pos, labels, parsed, audioExists);
        StepValues(files[i], answers, pos, labels, parsed, labelMap, audioExists);
        ReviewValues(files, i + 1, answers, st.pos, st.labels, parsed, labelMap, audioExists, original);
      }
    }
  }

  /** An entry after the review: the original one, or a non-empty list of
      names from the label map. */
  predicate Kept(k: string, v: seq<string>, original: map<string, seq<string>>, labelMap: map<string, string>)
  {
    (k in original && v == original[k]) || (|v| >= 1 && forall l :: l in v ==> l in labelMap.Values)
  }

  /** What a saved evaluation wrote: no new file, an entry changed or deleted
      only for a file whose audio exists, and every changed entry a valid
      correction drawn from the labels. */
  lemma EvaluationChanges(file: Option<map<string, seq<string>>>, allLabels: seq<string>,
                          audioExists: string -> bool, answers: seq<string>)
    ensures var r := Evaluation(file, allLabels, audioExists, answers);
            && (r == NotFound <==> file.None?)
            && (r.Saved? ==>
                  && r.labels.Keys <= file.value.Keys
                  && (forall k :: k in file.value && !audioExists(k) ==> k in r.labels && r.labels[k] == file.value[k])
                  && (forall k :: k in r.labels && r.labels[k] != file.value[k] ==>
                        |r.labels[k]| >= 1 && forall l :: l in r.labels[k] ==> l in allLabels))
  {
    if file.Some? {
      var labels := file.value;
      var files := SortedKeys(labels.Keys);
      var labelMap := LabelMap(allLabels);
      var parsed := Parses(answers, labelMap);
      SortedDistinct(files);
      ParsesValid(answers, labelMap);
      ReviewChanges(files, 0, answers, 0, labels, parsed, audioExists);
      ReviewValues(files, 0, answers, 0, labels, parsed, labelMap, audioExists, labels);
      LabelMapValues(allLabels);
    }
  }
}
