/** The console prompts shared by the dataset tools (collect_data.py and
    evaluate.py): the numbered `label_map`, the comma-separated correction
    parser `get_user_correction`, and the y/n/r/q feedback prompt. The user's
    keystrokes are a sequence of answers read from a position: each answer is
    a typed line after `.strip().lower()` (`Text.Normalize`), which both
    prompts apply to every line before looking at it. Running out of answers
    is Python's `EOFError` from `input()`. */
module Labeling {
  import opened Text

  /** The key that selects the label at position `i`: `str(i+1)`. */
  function Key(i: nat): string
  {
    NatToString(i + 1)
  }

  /** `{str(i+1): name for i, name in enumerate(all_labels)}` */
  function LabelMap(allLabels: seq<string>): (m: map<string, string>)
    ensures forall k :: k in m ==> exists i :: 0 <= i < |allLabels| && k == Key(i)
  {
    if |allLabels| == 0 then map[]
    else
      var n := |allLabels| - 1;
      var m := LabelMap(allLabels[..n]);
      assert forall k :: k in m ==> exists i :: 0 <= i < |allLabels| && k == Key(i) by {
        forall k | k in m ensures exists i :: 0 <= i < |allLabels| && k == Key(i) {
          var i :| 0 <= i < n && k == Key(i);
        }
      }
      m[Key(n) := allLabels[n]]
  }

  /** Key "i+1" names the i-th label, so every label can be chosen and every
      key names a label. */
  lemma {:induction false} LabelMapLookup(allLabels: seq<string>, i: nat)
    requires i < |allLabels|
    ensures Key(i) in LabelMap(allLabels)
    ensures LabelMap(allLabels)[Key(i)] == allLabels[i]
  {
    var n := |allLabels| - 1;
    var prefix := allLabels[..n];
    assert LabelMap(allLabels) == LabelMap(prefix)[Key(n) := allLabels[n]];
    if i < n {
      LabelMapLookup(prefix, i);
      NatToStringInjective(i + 1, n + 1);
      assert Key(i) != Key(n);
      assert prefix[i] == allLabels[i];
    }
  }

  /** The keys are exactly "1" .. "n", and each names a label of the list. */
  lemma LabelMapValues(allLabels: seq<string>)
    ensures |LabelMap(allLabels)| == |allLabels|
    ensures forall k :: k in LabelMap(allLabels) ==> LabelMap(allLabels)[k] in allLabels
  {
    var m := LabelMap(allLabels);
    forall k | k in m ensures m[k] in allLabels {
      var i :| 0 <= i < |allLabels| && k == Key(i);
      LabelMapLookup(allLabels, i);
    }
    LabelMapKeys(allLabels);
    KeyCount(|allLabels|);
  }

  /** The keys of the map are "1" .. "n". */
  lemma LabelMapKeys(allLabels: seq<string>)
    ensures LabelMap(allLabels).Keys == set i | 0 <= i < |allLabels| :: Key(i)
  {
    forall i | 0 <= i < |allLabels| ensures Key(i) in LabelMap(allLabels) {
      LabelMapLookup(allLabels, i);
    }
  }

  lemma {:induction false} KeyCount(n: nat)
    ensures |set i | 0 <= i < n :: Key(i)| == n
  {
    if n > 0 {
      KeyCount(n - 1);
      var smaller := set i | 0 <= i < n - 1 :: Key(i);
      assert (set i | 0 <= i < n :: Key(i)) == smaller + {Key(n - 1)};
      if Key(n - 1) in smaller {
        var i :| 0 <= i < n - 1 && Key(n - 1) == Key(i);
        NatToStringInjective(n, i + 1);
        assert false;
      }
    }
  }

  /** `answer == c` for a one-letter answer such as 's' or 'y'. */
  predicate IsLetter(answer: string, c: char)
  {
    |answer| == 1 && answer[0] == c
  }

  /** What one answer to the correction prompt amounts to. */
  datatype Correction =
    | SkipLabels                    // "s": `get_user_correction` returns `None`
    | Chosen(labels: seq<string>)   // every key valid: the mapped names
    | Rejected                      // some key invalid: the prompt repeats

  /** `[key.strip() for key in keys]` */
  function StripAll(keys: seq<string>): (r: seq<string>)
    ensures |r| == |keys|
    ensures forall k :: 0 <= k < |keys| ==> r[k] == Strip(keys[k])
  {
    if |keys| == 0 then [] else [Strip(keys[0])] + StripAll(keys[1..])
  }

  /** The keys an answer selects: split on commas, each piece trimmed again. */
  function SelectedKeys(answer: string): seq<string>
  {
    StripAll(Split(answer, ','))
  }

  /** `all(key in label_map for key in selected_keys)` */
  predicate AllKnown(keys: seq<string>, labelMap: map<string, string>)
  {
    forall k :: 0 <= k < |keys| ==> keys[k] in labelMap
  }

  /** `names` are the names the keys map to, position by position. */
  predicate NamesFor(names: seq<string>, keys: seq<string>, labelMap: map<string, string>)
    requires AllKnown(keys, labelMap)
  {
    |names| == |keys| && forall k :: 0 <= k < |keys| ==> names[k] == labelMap[keys[k]]
  }

  /** One pass of the `get_user_correction` loop body. Duplicated keys are
      kept, and the names come back in the order the keys were typed. */
  function ParseCorrection(answer: string, labelMap: map<string, string>): (c: Correction)
    ensures c.SkipLabels? <==> IsLetter(answer, 's')
    ensures c.Chosen? <==> !IsLetter(answer, 's') && AllKnown(SelectedKeys(answer), labelMap)
    ensures c.Chosen? ==> |c.labels| >= 1 && NamesFor(c.labels, SelectedKeys(answer), labelMap)
  {
    if IsLetter(answer, 's') then SkipLabels
    else
      var keys := SelectedKeys(answer);
      if AllKnown(keys, labelMap) then
        Chosen(seq(|keys|, k requires 0 <= k < |keys| => labelMap[keys[k]]))
      else Rejected
  }

  /** Typing the numbers of some labels, comma-separated, selects exactly
      those labels in that order. */
  lemma NumberedChoice(allLabels: seq<string>, picks: seq<nat>)
    requires |picks| >= 1
    requires forall k :: 0 <= k < |picks| ==> picks[k] < |allLabels|
    ensures ParseCorrection(Normalize(Join(Numerals(picks), ',')), LabelMap(allLabels))
            == Chosen(seq(|picks|, k requires 0 <= k < |picks| => allLabels[picks[k]]))
  {
    var keys := Numerals(picks);
    var m := LabelMap(allLabels);
    var expected := seq(|picks|, k requires 0 <= k < |picks| => allLabels[picks[k]]);
    var line := Join(keys, ',');
    SelectedNumerals(keys);
    assert Normalize(line) == line;
    forall k | 0 <= k < |picks| ensures keys[k] in m && m[keys[k]] == expected[k] {
      LabelMapLookup(allLabels, picks[k]);
    }
    KnownKeysChosen(line, keys, m, expected);
  }

  /** An answer whose keys are all known selects the names they map to. */
  lemma KnownKeysChosen(answer: string, keys: seq<string>, labelMap: map<string, string>,
                        names: seq<string>)
    requires !IsLetter(answer, 's') && SelectedKeys(answer) == keys
    requires |names| == |keys|
    requires forall k :: 0 <= k < |keys| ==> keys[k] in labelMap && labelMap[keys[k]] == names[k]
    ensures ParseCorrection(answer, labelMap) == Chosen(names)
  {
    var c := ParseCorrection(answer, labelMap);
    assert AllKnown(keys, labelMap);
    assert c.Chosen? && NamesFor(c.labels, keys, labelMap);
    assert c.labels == names;
  }

  /** A comma-joined list of numerals is read back as that list of keys. */
  lemma SelectedNumerals(keys: seq<string>)
    requires |keys| >= 1
    requires forall k :: 0 <= k < |keys| ==> Numeral(keys[k])
    ensures Normalize(Join(keys, ',')) == Join(keys, ',')
    ensures !IsLetter(Join(keys, ','), 's')
    ensures SelectedKeys(Join(keys, ',')) == keys
  {
    var line := Join(keys, ',');
    forall k | 0 <= k < |keys| ensures ',' !in keys[k] && Strip(keys[k]) == keys[k] {
      assert Numeral(keys[k]);
      NoSpaceStrip(keys[k]);
    }
    SplitJoin(keys, ',');
    JoinedNumeralsNormal(keys);
  }

  /** The keys "i+1" for the chosen label positions. */
  function Numerals(picks: seq<nat>): (keys: seq<string>)
    ensures |keys| == |picks|
    ensures forall k :: 0 <= k < |picks| ==> keys[k] == Key(picks[k])
  {
    seq(|picks|, k requires 0 <= k < |picks| => Key(picks[k]))
  }

  predicate Numeral(s: string)
  {
    |s| >= 1 && AllDigits(s)
  }

  /** Text with no whitespace at all is left alone by `strip`. */
  lemma NoSpaceStrip(s: string)
    requires forall i :: 0 <= i < |s| ==> !IsSpace(s[i])
    ensures Strip(s) == s
  {
    assert TrimLeft(s) == s;
  }

  /** Comma-joined numerals contain no whitespace and no upper-case letter,
      so the normalisation leaves them unchanged. */
  lemma JoinedNumeralsNormal(keys: seq<string>)
    requires |keys| >= 1
    requires forall k :: 0 <= k < |keys| ==> Numeral(keys[k])
    ensures !IsLetter(Join(keys, ','), 's')
    ensures Normalize(Join(keys, ',')) == Join(keys, ',')
  {
    var line := Join(keys, ',');
    JoinedNumeralChars(keys);
    NoSpaceStrip(line);
    assert Lower(line) == line;
  }

  lemma {:induction false} JoinedNumeralChars(keys: seq<string>)
    requires |keys| >= 1
    requires forall k :: 0 <= k < |keys| ==> Numeral(keys[k])
    ensures forall i :: 0 <= i < |Join(keys, ',')| ==> Join(keys, ',')[i] == ',' || '0' <= Join(keys, ',')[i] <= '9'
  {
    if |keys| > 1 {
      JoinedNumeralChars(keys[1..]);
      var tail := Join(keys[1..], ',');
      var line := keys[0] + [','] + tail;
      forall i | 0 <= i < |line| ensures line[i] == ',' || '0' <= line[i] <= '9' {
        if i < |keys[0]| {
          assert line[i] == keys[0][i];
        } else if i > |keys[0]| {
          assert line[i] == tail[i - |keys[0]| - 1];
        }
      }
    }
  }

  /** How a run of the correction prompt ends. */
  datatype CorrectionReply =
    | Corrected(labels: seq<string>)   // a list of valid names
    | Skipped                          // "s"
    | InputExhausted                   // `input()` raised `EOFError`

  /** What each answer amounts to, answer by answer. */
  function Parses(answers: seq<string>, labelMap: map<string, string>): (cs: seq<Correction>)
    ensures |cs| == |answers|
  {
    if |answers| == 0 then [] else [ParseCorrection(answers[0], labelMap)] + Parses(answers[1..], labelMap)
  }

  /** Entry `j` of `Parses` is the parse of answer `j`. */
  lemma {:induction false} ParsesAt(answers: seq<string>, labelMap: map<string, string>, j: nat)
    requires j < |answers|
    ensures Parses(answers, labelMap)[j] == ParseCorrection(answers[j], labelMap)
  {
    if j > 0 {
      ParsesAt(answers[1..], labelMap, j - 1);
    }
  }

  /** The retry logic of `get_user_correction` over parsed answers: the
      first answer from `pos` on that is not rejected ends the prompt;
      `next` is the position after it. */
  function ReplyFrom(cs: seq<Correction>, pos: nat): (r: (CorrectionReply, nat))
    ensures pos <= r.1 <= |cs| || r.1 == pos
    ensures r.0.InputExhausted? ==> r.1 >= |cs|
    ensures !r.0.InputExhausted? ==> pos < r.1 <= |cs|
    decreases |cs| - pos
  {
    if pos >= |cs| then (InputExhausted, pos)
    else
      match cs[pos]
      case SkipLabels => (Skipped, pos + 1)
      case Chosen(labels) => (Corrected(labels), pos + 1)
      case Rejected => ReplyFrom(cs, pos + 1)
  }

  /** The reply is the parse of the answer that ended the prompt. */
  lemma {:induction false} ReplyEndsOn(cs: seq<Correction>, pos: nat)
    ensures var r := ReplyFrom(cs, pos);
            && (r.0.Corrected? ==> cs[r.1 - 1] == Chosen(r.0.labels))
            && (r.0.Skipped? ==> cs[r.1 - 1] == SkipLabels)
    decreases |cs| - pos
  {
    if pos < |cs| && cs[pos].Rejected? {
      ReplyEndsOn(cs, pos + 1);
    }
  }

  /** Every list an answer selects is non-empty and names labels of the map. */
  predicate ChosenValid(cs: seq<Correction>, labelMap: map<string, string>)
  {
    forall j :: 0 <= j < |cs| && cs[j].Chosen? ==>
      |cs[j].labels| >= 1 && forall l :: l in cs[j].labels ==> l in labelMap.Values
  }

  /** The reply to a prompt over valid parses is a valid correction. */
  lemma ReplyValid(cs: seq<Correction>, pos: nat, labelMap: map<string, string>)
    requires ChosenValid(cs, labelMap)
    ensures var r := ReplyFrom(cs, pos);
            r.0.Corrected? ==> |r.0.labels| >= 1 && forall l :: l in r.0.labels ==> l in labelMap.Values
  {
    ReplyEndsOn(cs, pos);
  }

  /** Every parse before the one that ended the prompt was a rejection, and
      input runs out only when every parse from `pos` on was one. */
  lemma {:induction false} ReplySkipsRejected(cs: seq<Correction>, pos: nat)
    ensures forall j :: pos <= j < ReplyFrom(cs, pos).1 - 1 ==> cs[j].Rejected?
    ensures ReplyFrom(cs, pos).0.InputExhausted? <==> forall j :: pos <= j < |cs| ==> cs[j].Rejected?
    decreases |cs| - pos
  {
    if pos < |cs| && cs[pos].Rejected? {
      ReplySkipsRejected(cs, pos + 1);
    }
  }

  /** `get_user_correction`: answers are read from `pos` on until one is "s"
      or a valid list; `next` is the position after the answer used. */
  function CorrectionFrom(answers: seq<string>, pos: nat, labelMap: map<string, string>): (r: (CorrectionReply, nat))
    ensures pos <= r.1 <= |answers| || r.1 == pos
    ensures r.0.InputExhausted? ==> r.1 >= |answers|
    ensures !r.0.InputExhausted? ==> pos < r.1 <= |answers|
  {
    ReplyFrom(Parses(answers, labelMap), pos)
  }

  /** An accepted correction is the parse of the answer that ended the
      prompt, so it names labels of the map only. */
  lemma CorrectionIsValid(answers: seq<string>, pos: nat, labelMap: map<string, string>)
    ensures var r := CorrectionFrom(answers, pos, labelMap);
            r.0.Corrected? ==> ParseCorrection(answers[r.1 - 1], labelMap) == Chosen(r.0.labels)
    ensures var r := CorrectionFrom(answers, pos, labelMap);
            r.0.Corrected? ==> |r.0.labels| >= 1 && forall l :: l in r.0.labels ==> l in labelMap.Values
    ensures var r := CorrectionFrom(answers, pos, labelMap);
            r.0.Skipped? ==> IsLetter(answers[r.1 - 1], 's')
  {
    var cs := Parses(answers, labelMap);
    var r := ReplyFrom(cs, pos);
    ReplyEndsOn(cs, pos);
    ParsesValid(answers, labelMap);
    ReplyValid(cs, pos, labelMap);
    if !r.0.InputExhausted? {
      var last := r.1 - 1;
      ParsesAt(answers, labelMap, last);
      if r.0.Corrected? {
        assert cs[last] == Chosen(r.0.labels);
      } else {
        assert cs[last] == SkipLabels;
      }
    }
  }

  /** Whatever the answers, the lists they select are valid. */
  lemma ParsesValid(answers: seq<string>, labelMap: map<string, string>)
    ensures ChosenValid(Parses(answers, labelMap), labelMap)
  {
    var cs := Parses(answers, labelMap);
    forall j | 0 <= j < |cs| && cs[j].Chosen?
      ensures |cs[j].labels| >= 1 && forall l :: l in cs[j].labels ==> l in labelMap.Values
    {
      ParsesAt(answers, labelMap, j);
      ChosenAreValues(answers[j], labelMap);
    }
  }

  /** A chosen list names labels of the map only. */
  lemma ChosenAreValues(answer: string, labelMap: map<string, string>)
    ensures ParseCorrection(answer, labelMap).Chosen? ==>
              |ParseCorrection(answer, labelMap).labels| >= 1 &&
              forall l :: l in ParseCorrection(answer, labelMap).labels ==> l in labelMap.Values
  {
    var c := ParseCorrection(answer, labelMap);
    if c.Chosen? {
      NamesAreValues(c.labels, SelectedKeys(answer), labelMap);
    }
  }

  /** Names looked up in the map are values of the map. */
  lemma NamesAreValues(names: seq<string>, keys: seq<string>, labelMap: map<string, string>)
    requires AllKnown(keys, labelMap) && NamesFor(names, keys, labelMap)
    ensures forall l :: l in names ==> l in labelMap.Values
  {
    forall l | l in names ensures l in labelMap.Values {
      var k :| 0 <= k < |names| && names[k] == l;
      assert keys[k] in labelMap;
    }
  }

  /** Every answer before the one that ended the prompt was rejected and
      asked again; input runs out only when every answer was rejected. */
  lemma CorrectionSkipsRejected(answers: seq<string>, pos: nat, labelMap: map<string, string>)
    ensures forall j :: pos <= j < CorrectionFrom(answers, pos, labelMap).1 - 1 ==> ParseCorrection(answers[j], labelMap).Rejected?
    ensures CorrectionFrom(answers, pos, labelMap).0.InputExhausted? <==>
              forall j :: pos <= j < |answers| ==> ParseCorrection(answers[j], labelMap).Rejected?
  {
    var cs := Parses(answers, labelMap);
    ReplySkipsRejected(cs, pos);
    forall j | 0 <= j < |answers| ensures cs[j] == ParseCorrection(answers[j], labelMap) {
      ParsesAt(answers, labelMap, j);
    }
  }

  /** The retry loop as the source writes it. */
  method GetUserCorrection(answers: seq<string>, pos: nat, labelMap: map<string, string>)
    returns (reply: CorrectionReply, next: nat)
    ensures (reply, next) == CorrectionFrom(answers, pos, labelMap)
  {
    ghost var cs := Parses(answers, labelMap);
    var at := pos;
    while true
      invariant pos <= at
      invariant ReplyFrom(cs, at) == ReplyFrom(cs, pos)
      decreases |answers| - at
    {
      if at >= |answers| {
        return InputExhausted, at;
      }
      var parsed := ParseCorrection(answers[at], labelMap);
      ParsesAt(answers, labelMap, at);
      assert cs[at] == parsed;
      if parsed.SkipLabels? {
        assert ReplyFrom(cs, at) == (Skipped, at + 1);
        return Skipped, at + 1;
      } else if parsed.Chosen? {
        assert ReplyFrom(cs, at) == (Corrected(parsed.labels), at + 1);
        return Corrected(parsed.labels), at + 1;
      }
      assert ReplyFrom(cs, at) == ReplyFrom(cs, at + 1);
      at := at + 1;
    }
  }

  /** `feedback in ['y', 'n', 'q']` */
  predicate EndsPrompt(answer: string)
  {
    IsLetter(answer, 'y') || IsLetter(answer, 'n') || IsLetter(answer, 'q')
  }

  /** The answers the feedback prompt leaves its loop with. */
  datatype Feedback = Accept | Reject | Quit | NoMoreInput

  /** The feedback loop: "r" replays the audio and asks again, anything other
      than y/n/q is refused and asked again. */
  function FeedbackFrom(answers: seq<string>, pos: nat): (r: (Feedback, nat))
    ensures pos <= r.1 <= |answers| || r.1 == pos
    ensures r.0 != NoMoreInput ==> pos < r.1 <= |answers| && EndsPrompt(answers[r.1 - 1])
    ensures r.0 == Accept ==> IsLetter(answers[r.1 - 1], 'y')
    ensures r.0 == Reject ==> IsLetter(answers[r.1 - 1], 'n')
    ensures r.0 == Quit ==> IsLetter(answers[r.1 - 1], 'q')
    decreases |answers| - pos
  {
    if pos >= |answers| then (NoMoreInput, pos)
    else
      var answer := answers[pos];
      if IsLetter(answer, 'y') then (Accept, pos + 1)
      else if IsLetter(answer, 'n') then (Reject, pos + 1)
      else if IsLetter(answer, 'q') then (Quit, pos + 1)
      else FeedbackFrom(answers, pos + 1)
  }

  /** Answers before the one that ended the prompt were replays or refused;
      the prompt runs out of input only when no later answer is y, n or q. */
  lemma {:induction false} FeedbackSkipsOthers(answers: seq<string>, pos: nat)
    ensures FeedbackFrom(answers, pos).0 == NoMoreInput <==> forall j :: pos <= j < |answers| ==> !EndsPrompt(answers[j])
    ensures forall j :: pos <= j < FeedbackFrom(answers, pos).1 - 1 ==> !EndsPrompt(answers[j])
    decreases |answers| - pos
  {
    if pos < |answers| && !EndsPrompt(answers[pos]) {
      FeedbackSkipsOthers(answers, pos + 1);
    }
  }

  /** The prompt loop as the source writes it. */
  method ReadFeedback(answers: seq<string>, pos: nat) returns (feedback: Feedback, next: nat)
    ensures (feedback, next) == FeedbackFrom(answers, pos)
  {
    var at := pos;
    while true
      invariant pos <= at
      invariant FeedbackFrom(answers, at) == FeedbackFrom(answers, pos)
      decreases |answers| - at
    {
      if at >= |answers| {
        return NoMoreInput, at;
      }
      var answer := answers[at];
      at := at + 1;
      if IsLetter(answer, 'r') {
        continue;
      } else if IsLetter(answer, 'y') {
        return Accept, at;
      } else if IsLetter(answer, 'n') {
        return Reject, at;
      } else if IsLetter(answer, 'q') {
        return Quit, at;
      }
    }
  }
}
