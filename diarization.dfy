/**
 * The speaker-diarization transcript builder
 * (`run_cloud_asr_batch_speaker_diarization.py`): words tagged with a
 * speaker are grouped into maximal runs of one speaker, each run is joined
 * into a sentence with the space before punctuation removed, and the batch
 * writes one tab-separated line per non-blank transcript line.
 */
module Diarization {
  import opened Wrappers
  import opened Strings
  import opened Replace
  import opened Sorting

  /** One recognised word and its speaker, as the recogniser returns them. */
  datatype WordInfo = WordInfo(word: string, speakerTag: int)

  /** A maximal run of one speaker's words. */
  datatype Segment = Segment(speaker: int, words: seq<string>)

  // ---------------------------------------------------------------------
  // Runs of one speaker
  // ---------------------------------------------------------------------

  /** One word more: it joins the last run when it has that run's speaker, else opens a run. */
  function Extend(r: seq<Segment>, w: WordInfo): seq<Segment>
  {
    if r != [] && r[|r| - 1].speaker == w.speakerTag then
      r[..|r| - 1] + [Segment(w.speakerTag, r[|r| - 1].words + [w.word])]
    else
      r + [Segment(w.speakerTag, [w.word])]
  }

  /** The run decomposition of a word sequence, built word by word. */
  function Runs(ws: seq<WordInfo>): seq<Segment>
  {
    if ws == [] then [] else Extend(Runs(ws[..|ws| - 1]), ws[|ws| - 1])
  }

  /** A segment's words, each tagged with the segment's speaker. */
  function Tagged(seg: Segment): (r: seq<WordInfo>)
    ensures |r| == |seg.words|
    ensures forall k :: 0 <= k < |r| ==> r[k] == WordInfo(seg.words[k], seg.speaker)
  {
    seq(|seg.words|, k requires 0 <= k < |seg.words| => WordInfo(seg.words[k], seg.speaker))
  }

  /** The tagged words of a list of segments, in order. */
  function Expand(segs: seq<Segment>): seq<WordInfo>
  {
    if segs == [] then [] else Expand(segs[..|segs| - 1]) + Tagged(segs[|segs| - 1])
  }

  /** The words of a list of segments, in order. */
  function Flatten(segs: seq<Segment>): seq<string>
  {
    if segs == [] then [] else Flatten(segs[..|segs| - 1]) + segs[|segs| - 1].words
  }

  function WordsOf(ws: seq<WordInfo>): (r: seq<string>)
    ensures |r| == |ws| && forall k :: 0 <= k < |ws| ==> r[k] == ws[k].word
  {
    seq(|ws|, k requires 0 <= k < |ws| => ws[k].word)
  }

  /** A decomposition into runs: none is empty and neighbours have different speakers. */
  predicate Maximal(segs: seq<Segment>) {
    && (forall k :: 0 <= k < |segs| ==> segs[k].words != [])
    && (forall k :: 0 <= k < |segs| - 1 ==> segs[k].speaker != segs[k + 1].speaker)
  }

  /** Number of positions where the speaker changes from one word to the next. */
  function Changes(ws: seq<WordInfo>): nat
  {
    if |ws| < 2 then 0
    else Changes(ws[..|ws| - 1]) + (if ws[|ws| - 2].speakerTag != ws[|ws| - 1].speakerTag then 1 else 0)
  }

  lemma ExpandSnoc(segs: seq<Segment>, s: Segment)
    ensures Expand(segs + [s]) == Expand(segs) + Tagged(s)
    ensures Flatten(segs + [s]) == Flatten(segs) + s.words
  {
    assert (segs + [s])[..|segs|] == segs;
  }

  lemma MaximalSnoc(r: seq<Segment>, s: Segment)
    requires Maximal(r) && s.words != []
    requires r != [] ==> r[|r| - 1].speaker != s.speaker
    ensures Maximal(r + [s])
  {
    var t := r + [s];
    assert forall k :: 0 <= k < |r| ==> t[k] == r[k];
  }

  lemma MaximalReplaceLast(r: seq<Segment>, s: Segment)
    requires Maximal(r) && r != [] && s.words != [] && s.speaker == r[|r| - 1].speaker
    ensures Maximal(r[..|r| - 1] + [s])
  {
    var t := r[..|r| - 1] + [s];
    assert forall k :: 0 <= k < |r| - 1 ==> t[k] == r[k];
    forall k | 0 <= k < |t| - 1 ensures t[k].speaker != t[k + 1].speaker {
      assert t[k] == r[k];
      if k + 1 < |r| - 1 {
        assert t[k + 1] == r[k + 1];
      }
    }
  }

  lemma ExtendMaximal(r: seq<Segment>, w: WordInfo)
    requires Maximal(r)
    ensures Maximal(Extend(r, w))
    ensures Extend(r, w) != [] && Extend(r, w)[|Extend(r, w)| - 1].speaker == w.speakerTag
  {
    if r != [] && r[|r| - 1].speaker == w.speakerTag {
      MaximalReplaceLast(r, Segment(w.speakerTag, r[|r| - 1].words + [w.word]));
    } else {
      MaximalSnoc(r, Segment(w.speakerTag, [w.word]));
    }
  }

  /** The runs are maximal: none is empty and neighbouring runs have different speakers. */
  lemma {:induction false} RunsMaximal(ws: seq<WordInfo>)
    ensures Maximal(Runs(ws))
    ensures ws == [] <==> Runs(ws) == []
    ensures ws != [] ==> Runs(ws)[|Runs(ws)| - 1].speaker == ws[|ws| - 1].speakerTag
  {
    if ws != [] {
      RunsMaximal(ws[..|ws| - 1]);
      ExtendMaximal(Runs(ws[..|ws| - 1]), ws[|ws| - 1]);
    }
  }

  /** Expanding the runs gives the input back. */
  lemma {:induction false} RunsExpand(ws: seq<WordInfo>)
    ensures Expand(Runs(ws)) == ws
  {
    if ws != [] {
      var init := ws[..|ws| - 1];
      var w := ws[|ws| - 1];
      RunsExpand(init);
      ExpandExtend(Runs(init), w);
      assert Runs(ws) == Extend(Runs(init), w);
      assert ws == init + [w];
    }
  }

  /** The word that extends the runs lands at the end of their expansion. */
  lemma ExpandExtend(r: seq<Segment>, w: WordInfo)
    ensures Expand(Extend(r, w)) == Expand(r) + [w]
  {
    if r != [] && r[|r| - 1].speaker == w.speakerTag {
      var front := r[..|r| - 1];
      assert r == front + [r[|r| - 1]];
      ExpandMerge(front, r[|r| - 1], w);
    } else {
      ExpandSnoc(r, Segment(w.speakerTag, [w.word]));
      assert Tagged(Segment(w.speakerTag, [w.word])) == [w];
    }
  }

  lemma ExpandMerge(front: seq<Segment>, last: Segment, w: WordInfo)
    requires last.speaker == w.speakerTag
    ensures Expand(front + [Segment(w.speakerTag, last.words + [w.word])]) == Expand(front + [last]) + [w]
  {
    var merged := Segment(w.speakerTag, last.words + [w.word]);
    ExpandSnoc(front, last);
    ExpandSnoc(front, merged);
    TaggedSnoc(last, w);
  }

  lemma TaggedSnoc(last: Segment, w: WordInfo)
    requires last.speaker == w.speakerTag
    ensures Tagged(Segment(w.speakerTag, last.words + [w.word])) == Tagged(last) + [w]
  {
    var a := Tagged(Segment(w.speakerTag, last.words + [w.word]));
    var b := Tagged(last) + [w];
    assert |a| == |b|;
    forall k | 0 <= k < |a| ensures a[k] == b[k] {
      if k < |last.words| {
        assert a[k] == WordInfo(last.words[k], last.speaker);
      } else {
        assert a[k] == WordInfo(w.word, w.speakerTag);
      }
    }
  }

  /** There is one more run than there are speaker changes. */
  lemma {:induction false} RunsCount(ws: seq<WordInfo>)
    requires ws != []
    ensures |Runs(ws)| == 1 + Changes(ws)
  {
    var init := ws[..|ws| - 1];
    if init != [] {
      RunsCount(init);
      RunsMaximal(init);
      assert init[|init| - 1] == ws[|ws| - 2];
    }
  }

  lemma RunsProps(ws: seq<WordInfo>)
    ensures Maximal(Runs(ws))
    ensures Expand(Runs(ws)) == ws
    ensures ws == [] <==> Runs(ws) == []
  {
    RunsMaximal(ws);
    RunsExpand(ws);
  }

  lemma {:induction false} FlattenIsWords(segs: seq<Segment>)
    ensures Flatten(segs) == WordsOf(Expand(segs))
  {
    if segs != [] {
      FlattenIsWords(segs[..|segs| - 1]);
      var a := Expand(segs[..|segs| - 1]);
      var t := Tagged(segs[|segs| - 1]);
      assert WordsOf(a + t) == WordsOf(a) + WordsOf(t);
      assert WordsOf(t) == segs[|segs| - 1].words;
    }
  }

  /** No word is dropped, duplicated or reordered: the runs' words are the input words. */
  lemma RunsKeepWords(ws: seq<WordInfo>)
    ensures Flatten(Runs(ws)) == WordsOf(ws)
  {
    RunsProps(ws);
    FlattenIsWords(Runs(ws));
  }

  /** The decomposition is unique: any maximal decomposition of the words is `Runs`. */
  lemma {:induction false} RunsUnique(ws: seq<WordInfo>, segs: seq<Segment>)
    requires Maximal(segs) && Expand(segs) == ws
    ensures segs == Runs(ws)
    decreases |ws|
  {
    if segs != [] {
      var init, w, prev := UnExtend(segs);
      assert ws == init + [w];
      assert ws[..|ws| - 1] == init;
      RunsUnique(init, prev);
    }
  }

  /**
   * Taking the last word off a maximal decomposition leaves a maximal
   * decomposition that `Extend` turns back into it.
   */
  lemma UnExtend(segs: seq<Segment>) returns (init: seq<WordInfo>, w: WordInfo, prev: seq<Segment>)
    requires Maximal(segs) && segs != []
    ensures Maximal(prev) && Expand(prev) == init && Expand(segs) == init + [w]
    ensures Extend(prev, w) == segs
  {
    var front := segs[..|segs| - 1];
    var last := segs[|segs| - 1];
    assert segs == front + [last];
    MaximalFront(front, last);
    if |last.words| == 1 {
      init, w, prev := UnExtendOne(front, last);
    } else {
      init, w, prev := UnExtendMore(front, last);
    }
  }

  lemma MaximalFront(front: seq<Segment>, last: Segment)
    requires Maximal(front + [last])
    ensures Maximal(front) && last.words != []
    ensures front != [] ==> front[|front| - 1].speaker != last.speaker
  {
    var segs := front + [last];
    assert forall k :: 0 <= k < |front| ==> front[k] == segs[k];
    assert segs[|front|] == last;
  }

  /** A last run of one word came from a new speaker's first word. */
  lemma UnExtendOne(front: seq<Segment>, last: Segment) returns (init: seq<WordInfo>, w: WordInfo, prev: seq<Segment>)
    requires Maximal(front) && |last.words| == 1
    requires front != [] ==> front[|front| - 1].speaker != last.speaker
    ensures Maximal(prev) && Expand(prev) == init && Expand(front + [last]) == init + [w]
    ensures Extend(prev, w) == front + [last]
  {
    w := WordInfo(last.words[0], last.speaker);
    prev := front;
    init := Expand(front);
    ExpandSnoc(front, last);
    assert Tagged(last) == [w];
    assert last == Segment(w.speakerTag, [w.word]);
  }

  /** A last run of several words came from extending that run by its last word. */
  lemma UnExtendMore(front: seq<Segment>, last: Segment) returns (init: seq<WordInfo>, w: WordInfo, prev: seq<Segment>)
    requires Maximal(front + [last]) && |last.words| > 1
    ensures Maximal(prev) && Expand(prev) == init && Expand(front + [last]) == init + [w]
    ensures Extend(prev, w) == front + [last]
  {
    var n := |last.words|;
    w := WordInfo(last.words[n - 1], last.speaker);
    var shorter := Segment(last.speaker, last.words[..n - 1]);
    assert last.words == shorter.words + [w.word];
    assert last == Segment(w.speakerTag, shorter.words + [w.word]);
    TaggedSnoc(shorter, w);
    prev := front + [shorter];
    ExpandSnoc(front, shorter);
    ExpandSnoc(front, last);
    init := Expand(prev);
    MaximalReplaceLast(front + [last], shorter);
    assert (front + [last])[..|front|] == front;
    assert prev[..|prev| - 1] == front;
  }

  // ---------------------------------------------------------------------
  // format_sentence
  // ---------------------------------------------------------------------

  /** The punctuation of the seven replacements `(" X", "X")`, in the source's order. */
  const SpacedPunct: seq<char> := [',', '.', '?', '!', '\'', ';', ':']

  /** The rewrites of the first `|cs|` replacements applied in order. */
  function DropSpacesBefore(s: string, cs: seq<char>): string
  {
    if cs == [] then s
    else ReplaceAll(DropSpacesBefore(s, cs[..|cs| - 1]), [' ', cs[|cs| - 1]], [cs[|cs| - 1]])
  }

  /** What `format_sentence` returns: the words joined by single spaces, then the seven rewrites. */
  function FormatOf(words: seq<string>): string
  {
    DropSpacesBefore(JoinWith(words, " "), SpacedPunct)
  }

  /** `format_sentence`, with its loop over the replacement list. */
  method FormatSentence(words: seq<string>) returns (sentence: string)
    ensures sentence == FormatOf(words)
  {
    sentence := JoinWith(words, " ");
    for k := 0 to |SpacedPunct|
      invariant sentence == DropSpacesBefore(JoinWith(words, " "), SpacedPunct[..k])
    {
      var c := SpacedPunct[k];
      assert SpacedPunct[..k + 1][..k] == SpacedPunct[..k];
      sentence := ReplaceAll(sentence, [' ', c], [c]);
    }
    assert SpacedPunct[..|SpacedPunct|] == SpacedPunct;
  }

  /** No space is followed by a space or by a character of `ps`. */
  predicate SpaceRule(t: string, ps: set<char>) {
    forall i :: 0 <= i < |t| - 1 && t[i] == ' ' ==> t[i + 1] != ' ' && t[i + 1] !in ps
  }

  lemma SpaceRuleCons(c: char, t: string, ps: set<char>)
    requires SpaceRule(t, ps)
    requires c == ' ' && t != [] ==> t[0] != ' ' && t[0] !in ps
    ensures SpaceRule([c] + t, ps)
  {
    var s := [c] + t;
    assert forall i :: 1 <= i < |s| ==> s[i] == t[i - 1];
  }

  /**
   * Rewriting " y" to "y" in a text without double spaces keeps it free of
   * double spaces and of every space-pair already gone, and removes " y".
   */
  lemma {:induction false} DropSpaceStep(s: string, y: char, ps: set<char>)
    requires y != ' ' && SpaceRule(s, ps)
    ensures SpaceRule(ReplaceAll(s, [' ', y], [y]), ps + {y})
    decreases |s|
  {
    var pat := [' ', y];
    if s == [] {
    } else if pat <= s {
      assert SpaceRule(s[2..], ps) by {
        assert forall i :: 0 <= i < |s| - 2 ==> s[2..][i] == s[i + 2];
      }
      DropSpaceStep(s[2..], y, ps);
      SpaceRuleCons(y, ReplaceAll(s[2..], pat, [y]), ps + {y});
    } else {
      assert SpaceRule(s[1..], ps) by {
        assert forall i :: 0 <= i < |s| - 1 ==> s[1..][i] == s[i + 1];
      }
      DropSpaceStep(s[1..], y, ps);
      var t := ReplaceAll(s[1..], pat, [y]);
      if s[0] == ' ' && s[1..] != [] {
        ReplaceHead(s[1..], pat, [y]);
        assert s[1] != ' ';
        assert !(pat <= s[1..]);
        assert t[0] == s[1];
        assert s[1] != y;
      }
      SpaceRuleCons(s[0], t, ps + {y});
    }
  }

  lemma {:induction false} DropSpacesRule(s: string, cs: seq<char>)
    requires ' ' !in cs && SpaceRule(s, {})
    ensures SpaceRule(DropSpacesBefore(s, cs), set c | c in cs)
  {
    if cs != [] {
      var init := cs[..|cs| - 1];
      assert forall c :: c in init ==> c in cs;
      DropSpacesRule(s, init);
      assert cs[|cs| - 1] in cs;
      DropSpaceStep(DropSpacesBefore(s, init), cs[|cs| - 1], set c | c in init);
      assert (set c | c in cs) == (set c | c in init) + {cs[|cs| - 1]} by {
        assert cs == init + [cs[|cs| - 1]];
      }
    }
  }

  predicate PlainWord(w: string) { w != [] && ' ' !in w }

  lemma {:induction false} JoinedWordsSpaced(words: seq<string>)
    requires forall k :: 0 <= k < |words| ==> PlainWord(words[k])
    ensures SpaceRule(JoinWith(words, " "), {})
    ensures |words| >= 1 ==> JoinWith(words, " ") != [] && words[0] != [] && JoinWith(words, " ")[0] == words[0][0]
  {
    if |words| == 1 {
    } else if |words| > 1 {
      var rest := JoinWith(words[1..], " ");
      JoinedWordsSpaced(words[1..]);
      var w := words[0];
      var s := w + " " + rest;
      assert w[0] in w;
      assert forall i :: 0 <= i < |w| ==> s[i] == w[i] && w[i] in w;
      assert s[|w|] == ' ' && s[|w| + 1] == words[1][0];
      assert words[1][0] in words[1];
      assert forall i :: |w| + 1 <= i < |s| ==> s[i] == rest[i - |w| - 1];
      assert SpaceRule(s, {});
    }
  }

  /**
   * When every word is non-empty and holds no space, the formatted sentence
   * has no space before any of the seven punctuation characters.
   */
  lemma FormatHasNoSpaceBeforePunct(words: seq<string>)
    requires forall k :: 0 <= k < |words| ==> PlainWord(words[k])
    ensures SpaceRule(FormatOf(words), set c | c in SpacedPunct)
  {
    JoinedWordsSpaced(words);
    DropSpacesRule(JoinWith(words, " "), SpacedPunct);
  }

  // ---------------------------------------------------------------------
  // merge_consecutive_speakers
  // ---------------------------------------------------------------------

  /** The output line of one run, with or without its "Speaker N: " tag. */
  function LineOf(seg: Segment, addSpeakerTag: bool): string
  {
    if addSpeakerTag then "Speaker " + IntToString(seg.speaker) + ": " + FormatOf(seg.words)
    else FormatOf(seg.words)
  }

  function LinesOf(segs: seq<Segment>, addSpeakerTag: bool): (r: seq<string>)
    ensures |r| == |segs| && forall k :: 0 <= k < |segs| ==> r[k] == LineOf(segs[k], addSpeakerTag)
  {
    if segs == [] then [] else LinesOf(segs[..|segs| - 1], addSpeakerTag) + [LineOf(segs[|segs| - 1], addSpeakerTag)]
  }

  lemma LinesOfSnoc(segs: seq<Segment>, s: Segment, addSpeakerTag: bool)
    ensures LinesOf(segs + [s], addSpeakerTag) == LinesOf(segs, addSpeakerTag) + [LineOf(s, addSpeakerTag)]
  {
    assert (segs + [s])[..|segs|] == segs;
  }

  /** What `merge_consecutive_speakers` returns: one line per run, joined with newlines. */
  function MergedText(ws: seq<WordInfo>, addSpeakerTag: bool): string
  {
    JoinWith(LinesOf(Runs(ws), addSpeakerTag), "\n")
  }

  lemma MergedTextOfNothing(addSpeakerTag: bool)
    ensures MergedText([], addSpeakerTag) == ""
  {
  }

  /** One step of the merge loop: a new speaker closes the open run, the same speaker extends it. */
  lemma RunsStep(ws: seq<WordInfo>, i: nat, closed: seq<Segment>, speaker: int, sentence: seq<string>)
    requires i < |ws| && Runs(ws[..i]) == closed + [Segment(speaker, sentence)]
    ensures ws[i].speakerTag != speaker ==>
              Runs(ws[..i + 1]) == (closed + [Segment(speaker, sentence)]) + [Segment(ws[i].speakerTag, [ws[i].word])]
    ensures ws[i].speakerTag == speaker ==>
              Runs(ws[..i + 1]) == closed + [Segment(speaker, sentence + [ws[i].word])]
  {
    var r := closed + [Segment(speaker, sentence)];
    assert ws[..i + 1][..i] == ws[..i];
    assert ws[..i + 1][i] == ws[i];
    assert r[..|r| - 1] == closed;
  }

  lemma RunsFirst(ws: seq<WordInfo>)
    requires ws != []
    ensures Runs(ws[..1]) == [Segment(ws[0].speakerTag, [ws[0].word])]
  {
    assert ws[..1][..0] == [];
  }

  /** The line `merge_consecutive_speakers` emits for a closed run. */
  method CloseRun(speaker: int, sentence: seq<string>, addSpeakerTag: bool) returns (line: string)
    ensures line == LineOf(Segment(speaker, sentence), addSpeakerTag)
  {
    line := FormatSentence(sentence);
    if addSpeakerTag {
      line := "Speaker " + IntToString(speaker) + ": " + line;
    }
  }

  /** `merge_consecutive_speakers`, with its loop over the words. */
  method MergeConsecutiveSpeakers(wordsInfo: seq<WordInfo>, addSpeakerTag: bool) returns (text: string)
    ensures text == MergedText(wordsInfo, addSpeakerTag)
  {
    var currentSpeaker: Option<int> := None;
    var currentSentence: seq<string> := [];
    var result: seq<string> := [];
    ghost var closed: seq<Segment> := [];
    for i := 0 to |wordsInfo|
      invariant currentSpeaker.None? <==> i == 0
      invariant i == 0 ==> currentSentence == [] && closed == []
      invariant i > 0 ==> currentSentence != []
      invariant i > 0 ==> Runs(wordsInfo[..i]) == closed + [Segment(currentSpeaker.value, currentSentence)]
      invariant result == LinesOf(closed, addSpeakerTag)
    {
      var wordInfo := wordsInfo[i];
      if currentSpeaker.None? {
        assert i == 0 && wordsInfo[..i + 1] == wordsInfo[..1];
        RunsFirst(wordsInfo);
        currentSpeaker := Some(wordInfo.speakerTag);
        currentSentence := currentSentence + [wordInfo.word];
        assert closed == [] && currentSentence == [wordInfo.word] && wordInfo == wordsInfo[0];
        assert Runs(wordsInfo[..i + 1]) == closed + [Segment(currentSpeaker.value, currentSentence)];
        continue;
      }
      RunsStep(wordsInfo, i, closed, currentSpeaker.value, currentSentence);
      if wordInfo.speakerTag != currentSpeaker.value {
        var formatted := CloseRun(currentSpeaker.value, currentSentence, addSpeakerTag);
        LinesOfSnoc(closed, Segment(currentSpeaker.value, currentSentence), addSpeakerTag);
        result := result + [formatted];
        closed := closed + [Segment(currentSpeaker.value, currentSentence)];
        currentSpeaker := Some(wordInfo.speakerTag);
        currentSentence := [wordInfo.word];
      } else {
        currentSentence := currentSentence + [wordInfo.word];
      }
    }
    assert wordsInfo[..|wordsInfo|] == wordsInfo;
    if currentSentence != [] {
      var formatted := CloseRun(currentSpeaker.value, currentSentence, addSpeakerTag);
      LinesOfSnoc(closed, Segment(currentSpeaker.value, currentSentence), addSpeakerTag);
      result := result + [formatted];
      closed := closed + [Segment(currentSpeaker.value, currentSentence)];
    }
    text := JoinWith(result, "\n");
  }

  /**
   * With one line per run and no line break inside a word, the transcript
   * splits back into exactly those lines, one per speaker run.
   */
  lemma MergedLinesSplitBack(ws: seq<WordInfo>, addSpeakerTag: bool)
    requires ws != []
    requires forall k :: 0 <= k < |ws| ==> NoBreak(ws[k].word)
    ensures SplitAtBreaks(MergedText(ws, addSpeakerTag)) == LinesOf(Runs(ws), addSpeakerTag)
    ensures |SplitAtBreaks(MergedText(ws, addSpeakerTag))| == 1 + Changes(ws)
  {
    RunsMaximal(ws);
    RunsCount(ws);
    LinesUnbroken(ws, addSpeakerTag);
    SplitAtBreaksOfJoin(LinesOf(Runs(ws), addSpeakerTag));
  }

  lemma LinesUnbroken(ws: seq<WordInfo>, addSpeakerTag: bool)
    requires forall k :: 0 <= k < |ws| ==> NoBreak(ws[k].word)
    ensures forall k :: 0 <= k < |Runs(ws)| ==>
              NoBreak(LinesOf(Runs(ws), addSpeakerTag)[k])
  {
    var lines := LinesOf(Runs(ws), addSpeakerTag);
    forall k | 0 <= k < |Runs(ws)| ensures NoBreak(lines[k]) {
      LineUnbroken(ws, k, addSpeakerTag);
    }
  }

  lemma LineUnbroken(ws: seq<WordInfo>, k: nat, addSpeakerTag: bool)
    requires forall j :: 0 <= j < |ws| ==> NoBreak(ws[j].word)
    requires k < |Runs(ws)|
    ensures NoBreak(LineOf(Runs(ws)[k], addSpeakerTag))
  {
    RunWordsUnbroken(ws, k);
    LineOfUnbroken(Runs(ws)[k], addSpeakerTag);
  }

  lemma LineOfUnbroken(seg: Segment, addSpeakerTag: bool)
    requires forall j :: 0 <= j < |seg.words| ==> NoBreak(seg.words[j])
    ensures NoBreak(LineOf(seg, addSpeakerTag))
  {
    FormatUnbroken(seg.words);
    if addSpeakerTag {
      var head := "Speaker ";
      var num := IntToString(seg.speaker);
      var colon := ": ";
      assert NoBreak(head) && NoBreak(colon);
      NatTagUnbroken(seg.speaker);
      NoBreakConcat(head, num);
      NoBreakConcat(head + num, colon);
      NoBreakConcat(head + num + colon, FormatOf(seg.words));
    }
  }

  lemma RunWordsUnbroken(ws: seq<WordInfo>, k: nat)
    requires forall j :: 0 <= j < |ws| ==> NoBreak(ws[j].word)
    requires k < |Runs(ws)|
    ensures forall j :: 0 <= j < |Runs(ws)[k].words| ==>
              NoBreak(Runs(ws)[k].words[j])
  {
    var seg := Runs(ws)[k];
    RunsProps(ws);
    RunsKeepWords(ws);
    ExpandMember(Runs(ws), k);
    forall j | 0 <= j < |seg.words| ensures NoBreak(seg.words[j]) {
      assert WordInfo(seg.words[j], seg.speaker) in ws;
    }
  }

  lemma {:induction false} ExpandMember(segs: seq<Segment>, k: nat)
    requires k < |segs|
    ensures forall j :: 0 <= j < |segs[k].words| ==> WordInfo(segs[k].words[j], segs[k].speaker) in Expand(segs)
  {
    var front := segs[..|segs| - 1];
    if k < |segs| - 1 {
      ExpandMember(front, k);
      assert forall x :: x in Expand(front) ==> x in Expand(segs);
    } else {
      var t := Tagged(segs[k]);
      assert forall x :: x in t ==> x in Expand(segs);
      forall j | 0 <= j < |segs[k].words| ensures WordInfo(segs[k].words[j], segs[k].speaker) in Expand(segs) {
        assert t[j] in t;
      }
    }
  }

  lemma {:induction false} ReplaceKeepsUnbroken(s: string, pat: string, rep: string)
    requires pat != []
    requires NoBreak(s)
    requires NoBreak(rep)
    ensures NoBreak(ReplaceAll(s, pat, rep))
  {
    ReplaceChars(s, pat, rep);
  }

  lemma {:induction false} DropSpacesUnbroken(s: string, cs: seq<char>)
    requires NoBreak(s)
    requires NoBreak(cs)
    ensures NoBreak(DropSpacesBefore(s, cs))
  {
    if cs != [] {
      DropSpacesUnbroken(s, cs[..|cs| - 1]);
      var c := cs[|cs| - 1];
      assert c in cs;
      ReplaceKeepsUnbroken(DropSpacesBefore(s, cs[..|cs| - 1]), [' ', c], [c]);
    }
  }

  lemma {:induction false} JoinUnbroken(parts: seq<string>, sep: string)
    requires forall k :: 0 <= k < |parts| ==> NoBreak(parts[k])
    requires NoBreak(sep)
    ensures NoBreak(JoinWith(parts, sep))
  {
    if |parts| > 1 {
      JoinUnbroken(parts[1..], sep);
      assert forall k :: 1 <= k < |parts| ==> parts[1..][k - 1] == parts[k];
    }
  }

  lemma FormatUnbroken(words: seq<string>)
    requires forall j :: 0 <= j < |words| ==> NoBreak(words[j])
    ensures NoBreak(FormatOf(words))
  {
    JoinUnbroken(words, " ");
    DropSpacesUnbroken(JoinWith(words, " "), SpacedPunct);
  }

  lemma NatTagUnbroken(i: int)
    ensures NoBreak(IntToString(i))
  {
    if i < 0 {
      assert forall c :: c in NatToString(-i) ==> IsDigit(c);
    } else {
      assert forall c :: c in NatToString(i) ==> IsDigit(c);
    }
  }

  // ---------------------------------------------------------------------
  // batch
  // ---------------------------------------------------------------------

  function WavFiles(listing: seq<string>): (r: seq<string>)
    ensures forall f :: f in r <==> f in listing && EndsWith(f, ".wav")
  {
    if listing == [] then []
    else WavFiles(listing[..|listing| - 1])
         + (if EndsWith(listing[|listing| - 1], ".wav") then [listing[|listing| - 1]] else [])
  }

  /** The non-blank lines of a transcript, stripped, in order. */
  function NonBlankLines(pieces: seq<string>): seq<string>
  {
    TrimmedNonEmpty(pieces, Strip)
  }

  /** The pieces cleaned by `trim`, keeping those that are not empty once cleaned. */
  function TrimmedNonEmpty(pieces: seq<string>, trim: string -> string): seq<string>
  {
    if pieces == [] then []
    else
      var l := trim(pieces[|pieces| - 1]);
      TrimmedNonEmpty(pieces[..|pieces| - 1], trim) + (if l != [] then [l] else [])
  }

  predicate CleanLines(ls: seq<string>) {
    forall k :: 0 <= k < |ls| ==> ls[k] != [] && IsStripped(ls[k])
  }

  /** Every kept line is non-empty and stripped, and there are no more of them than pieces. */
  lemma NonBlankLinesProps(pieces: seq<string>)
    ensures |NonBlankLines(pieces)| <= |pieces|
    ensures CleanLines(NonBlankLines(pieces))
  {
    forall x { StripProps(x); }
    TrimmedClean(pieces, Strip);
  }

  lemma {:induction false} TrimmedClean(pieces: seq<string>, trim: string -> string)
    requires forall x :: IsStripped(trim(x))
    ensures |TrimmedNonEmpty(pieces, trim)| <= |pieces|
    ensures CleanLines(TrimmedNonEmpty(pieces, trim))
  {
    if pieces != [] {
      var init := pieces[..|pieces| - 1];
      var l := trim(pieces[|pieces| - 1]);
      TrimmedClean(init, trim);
      CleanLinesSnoc(TrimmedNonEmpty(init, trim), if l != [] then [l] else []);
    }
  }

  lemma CleanLinesSnoc(a: seq<string>, b: seq<string>)
    requires CleanLines(a) && CleanLines(b)
    ensures CleanLines(a + b)
  {
    assert forall k :: |a| <= k < |a + b| ==> (a + b)[k] == b[k - |a|];
  }

  /** Every line prefixed with the file name and a tab. */
  function Prefixed(name: string, ls: seq<string>): seq<string>
  {
    if ls == [] then [] else Prefixed(name, ls[..|ls| - 1]) + [name + "\t" + ls[|ls| - 1]]
  }

  lemma {:induction false} PrefixedIndex(name: string, ls: seq<string>)
    ensures |Prefixed(name, ls)| == |ls|
    ensures forall k :: 0 <= k < |ls| ==> Prefixed(name, ls)[k] == name + "\t" + ls[k]
  {
    if ls != [] {
      PrefixedIndex(name, ls[..|ls| - 1]);
    }
  }

  /** The output lines of one file: `name\tline` per non-blank transcript line. */
  function Emitted(name: string, transcript: string): seq<string>
  {
    Prefixed(name, NonBlankLines(SplitAtBreaks(transcript)))
  }

  /**
   * When no recognised word holds a line break or is blank, one line is
   * written per speaker run, and it is that run's line stripped.
   */
  lemma EmittedPerRun(name: string, ws: seq<WordInfo>, addSpeakerTag: bool)
    requires ws != []
    requires forall k :: 0 <= k < |ws| ==> NoBreak(ws[k].word)
    requires forall k :: 0 <= k < |Runs(ws)| ==> Strip(LineOf(Runs(ws)[k], addSpeakerTag)) != []
    ensures |Emitted(name, MergedText(ws, addSpeakerTag))| == |Runs(ws)|
    ensures |Runs(ws)| == 1 + Changes(ws)
    ensures forall k :: 0 <= k < |Runs(ws)| ==>
              Emitted(name, MergedText(ws, addSpeakerTag))[k] == name + "\t" + Strip(LineOf(Runs(ws)[k], addSpeakerTag))
  {
    MergedLinesSplitBack(ws, addSpeakerTag);
    var lines := LinesOf(Runs(ws), addSpeakerTag);
    EmittedOfLines(name, MergedText(ws, addSpeakerTag), lines, Strip);
  }

  /** When every line of a text survives `trim`, one prefixed line is written per line. */
  lemma EmittedOfLines(name: string, text: string, lines: seq<string>, trim: string -> string)
    requires SplitAtBreaks(text) == lines
    requires forall k :: 0 <= k < |lines| ==> trim(lines[k]) != []
    ensures |Prefixed(name, TrimmedNonEmpty(SplitAtBreaks(text), trim))| == |lines|
    ensures forall k :: 0 <= k < |lines| ==>
              Prefixed(name, TrimmedNonEmpty(SplitAtBreaks(text), trim))[k] == name + "\t" + trim(lines[k])
  {
    NonBlankAll(lines, trim);
    PrefixedIndex(name, TrimmedNonEmpty(lines, trim));
  }

  lemma {:induction false} NonBlankAll(pieces: seq<string>, trim: string -> string)
    requires forall k :: 0 <= k < |pieces| ==> trim(pieces[k]) != []
    ensures |TrimmedNonEmpty(pieces, trim)| == |pieces|
    ensures forall k :: 0 <= k < |pieces| ==> TrimmedNonEmpty(pieces, trim)[k] == trim(pieces[k])
  {
    if pieces != [] {
      var init := pieces[..|pieces| - 1];
      var last := pieces[|pieces| - 1];
      assert trim(last) != [];
      assert forall k :: 0 <= k < |init| ==> init[k] == pieces[k];
      NonBlankAll(init, trim);
      assert TrimmedNonEmpty(pieces, trim) == TrimmedNonEmpty(init, trim) + [trim(last)];
    }
  }

  /** A batch run so far: whether every file was recognised, and the lines written. */
  datatype Run = Run(ok: bool, written: seq<string>)

  /**
   * The batch over `names`, where `fileLines` gives the lines of one file or
   * None when its recognition fails: every file's lines in order, up to the
   * first failure.
   */
  function BatchOf(names: seq<string>, fileLines: string -> Option<seq<string>>): Run
  {
    if names == [] then Run(true, [])
    else
      var prev := BatchOf(names[..|names| - 1], fileLines);
      if !prev.ok then prev
      else match fileLines(names[|names| - 1])
        case None => Run(false, prev.written)
        case Some(ls) => Run(true, prev.written + ls)
  }

  /** The lines of one audio file: its merged transcript, or None when `recognize` fails. */
  function FileLines(inputDir: string, recognize: string -> Option<seq<WordInfo>>,
                     addSpeakerTag: bool): string -> Option<seq<string>>
  {
    name => match recognize(PathJoin(inputDir, name))
      case None => None
      case Some(ws) => Some(Emitted(name, MergedText(ws, addSpeakerTag)))
  }

  /** What the batch writes for a directory listing. */
  function BatchOutput(listing: seq<string>, inputDir: string, recognize: string -> Option<seq<WordInfo>>,
                       addSpeakerTag: bool): Run
  {
    BatchOf(SortNames(WavFiles(listing)), FileLines(inputDir, recognize, addSpeakerTag))
  }

  lemma BatchOfSnoc(names: seq<string>, i: nat, fileLines: string -> Option<seq<string>>)
    requires i < |names|
    ensures BatchOf(names[..i + 1], fileLines) ==
              var prev := BatchOf(names[..i], fileLines);
              if !prev.ok then prev
              else match fileLines(names[i])
                case None => Run(false, prev.written)
                case Some(ls) => Run(true, prev.written + ls)
  {
    assert names[..i + 1][..i] == names[..i];
  }

  /** Once a file fails, nothing after it changes the output. */
  lemma {:induction false} BatchStopsAtFailure(names: seq<string>, j: nat, fileLines: string -> Option<seq<string>>)
    requires j <= |names| && !BatchOf(names[..j], fileLines).ok
    ensures BatchOf(names, fileLines) == BatchOf(names[..j], fileLines)
    decreases |names| - j
  {
    if j < |names| {
      BatchOfSnoc(names, j, fileLines);
      BatchStopsAtFailure(names, j + 1, fileLines);
    } else {
      assert names[..j] == names;
    }
  }

  /** The batch succeeds exactly when every file is recognised, and then writes every file's lines. */
  lemma {:induction false} BatchOkIffAllRecognized(names: seq<string>, fileLines: string -> Option<seq<string>>)
    ensures BatchOf(names, fileLines).ok <==> forall k :: 0 <= k < |names| ==> fileLines(names[k]).Some?
  {
    if names != [] {
      var init := names[..|names| - 1];
      BatchOkIffAllRecognized(init, fileLines);
      assert forall k :: 0 <= k < |init| ==> init[k] == names[k];
    }
  }

  /** A file's lines are missing exactly when its recognition fails. */
  lemma FileLinesFail(inputDir: string, recognize: string -> Option<seq<WordInfo>>, addSpeakerTag: bool, name: string)
    ensures FileLines(inputDir, recognize, addSpeakerTag)(name).None? <==> recognize(PathJoin(inputDir, name)).None?
  {
  }

  /**
   * The script finishes without an exception exactly when every `.wav` entry
   * of the listing is recognised at its path under the input directory.
   */
  lemma BatchFinishesIffAllRecognized(listing: seq<string>, inputDir: string,
                                      recognize: string -> Option<seq<WordInfo>>, addSpeakerTag: bool)
    ensures BatchOutput(listing, inputDir, recognize, addSpeakerTag).ok <==>
              forall f :: f in listing && EndsWith(f, ".wav") ==> recognize(PathJoin(inputDir, f)).Some?
  {
    var names := SortNames(WavFiles(listing));
    BatchOkIffAllRecognized(names, FileLines(inputDir, recognize, addSpeakerTag));
    EveryNameRecognized(names, inputDir, recognize, addSpeakerTag);
    SortedWavNames(listing);
  }

  lemma SortedWavNames(listing: seq<string>)
    ensures forall f :: f in SortNames(WavFiles(listing)) <==> f in listing && EndsWith(f, ".wav")
  {
    var names := SortNames(WavFiles(listing));
    forall f
      ensures f in names <==> f in listing && EndsWith(f, ".wav")
    {
      assert f in names <==> f in multiset(names);
      assert f in WavFiles(listing) <==> f in multiset(WavFiles(listing));
    }
  }

  lemma EveryNameRecognized(names: seq<string>, inputDir: string,
                            recognize: string -> Option<seq<WordInfo>>, addSpeakerTag: bool)
    ensures (forall k :: 0 <= k < |names| ==> FileLines(inputDir, recognize, addSpeakerTag)(names[k]).Some?) <==>
            (forall f :: f in names ==> recognize(PathJoin(inputDir, f)).Some?)
  {
    var fileLines := FileLines(inputDir, recognize, addSpeakerTag);
    forall k | 0 <= k < |names|
      ensures fileLines(names[k]).Some? <==> recognize(PathJoin(inputDir, names[k])).Some?
    {
      FileLinesFail(inputDir, recognize, addSpeakerTag, names[k]);
    }
  }

  /**
   * The inner line loop of `batch`: one `name\tline` per line that `trim`
   * (the batch passes `strip`) leaves non-empty, cleaned by `trim`.
   */
  method EmitLines(name: string, lines: seq<string>, written: seq<string>, trim: string -> string)
    returns (written': seq<string>)
    ensures written' == written + Prefixed(name, TrimmedNonEmpty(lines, trim))
  {
    written' := written;
    ghost var out: seq<string> := [];
    for j := 0 to |lines|
      invariant out == Prefixed(name, TrimmedNonEmpty(lines[..j], trim))
      invariant written' == written + out
    {
      var line := lines[j];
      EmitStep(name, lines, j, trim);
      var stripped := trim(line);
      if stripped != [] {
        written' := written' + [name + "\t" + stripped];
        out := out + [name + "\t" + stripped];
      }
    }
    assert lines[..|lines|] == lines;
  }

  /** One step of the line loop: a line that `trim` leaves non-empty adds one prefixed line. */
  lemma EmitStep(name: string, lines: seq<string>, j: nat, trim: string -> string)
    requires j < |lines|
    ensures Prefixed(name, TrimmedNonEmpty(lines[..j + 1], trim)) ==
              Prefixed(name, TrimmedNonEmpty(lines[..j], trim))
              + (if trim(lines[j]) != [] then [name + "\t" + trim(lines[j])] else [])
  {
    TrimmedSnoc(lines, j, trim);
    var kept := TrimmedNonEmpty(lines[..j], trim);
    if trim(lines[j]) != [] {
      PrefixedSnoc(name, kept, trim(lines[j]));
    } else {
      assert kept + [] == kept;
    }
  }

  lemma TrimmedSnoc(lines: seq<string>, j: nat, trim: string -> string)
    requires j < |lines|
    ensures TrimmedNonEmpty(lines[..j + 1], trim) ==
              TrimmedNonEmpty(lines[..j], trim) + (if trim(lines[j]) != [] then [trim(lines[j])] else [])
  {
    assert lines[..j + 1][..j] == lines[..j];
    assert lines[..j + 1][j] == lines[j];
  }

  lemma PrefixedSnoc(name: string, ls: seq<string>, l: string)
    ensures Prefixed(name, ls + [l]) == Prefixed(name, ls) + [name + "\t" + l]
  {
    assert (ls + [l])[..|ls|] == ls;
  }

  /**
   * `batch`: the `.wav` names of the listing in sorted order, each
   * recognised (`recognize` stands for `run_asr_long`, None for its caught
   * exception) and its transcript written line by line.  A failed file
   * makes `splitlines` raise on None, so the run stops with what was
   * written so far.
   */
  method Batch(listing: seq<string>, inputDir: string, recognize: string -> Option<seq<WordInfo>>,
               addSpeakerTag: bool) returns (run: Run)
    ensures run == BatchOutput(listing, inputDir, recognize, addSpeakerTag)
  {
    var audioFiles := WavFiles(listing);
    var names := SortNames(audioFiles);
    ghost var fileLines := FileLines(inputDir, recognize, addSpeakerTag);
    var written := [];
    for i := 0 to |names|
      invariant BatchOf(names[..i], fileLines) == Run(true, written)
    {
      var audioFile := names[i];
      BatchOfSnoc(names, i, fileLines);
      var result := recognize(PathJoin(inputDir, audioFile));
      if result.None? {
        BatchStopsAtFailure(names, i + 1, fileLines);
        return Run(false, written);
      }
      var transcript := MergeConsecutiveSpeakers(result.value, addSpeakerTag);
      var lines := SplitAtBreaks(transcript);
      written := EmitLines(audioFile, lines, written, Strip);
    }
    assert names[..|names|] == names;
    run := Run(true, written);
  }
}
