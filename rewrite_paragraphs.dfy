/**
 * `rewrite_paragraphs.py`: the input file holds `filename\tparagraph`
 * lines; for every candidate topic the script asks a chat model several
 * times for a paragraph on that topic, showing it three paragraphs drawn
 * from the input as examples, and writes each reply as `topic:\tline`
 * lines.
 *
 * `random.sample` is the `pick` parameter: `pick(n)` is the positions it
 * draws before the `n`-th call (counted from 0). The chat service is the
 * `outcomes` parameter, as in the chatting-style script.
 */
module RewriteParagraphs {
  import opened Strings
  import opened Replace
  import opened Wrappers
  import opened Chat

  const SystemPrompt := "You are a helpful assistant. Your will be given a topic and compose a casual chatting-style paragraph."

  /** The number of example paragraphs in every request. */
  const Shots := 3

  const Speed := "ishowspeed"

  /** What every example topic mentioning `ishowspeed` becomes. */
  const SpeedTopic := "ishowspeed travels in China"

  // ---------------------------------------------------------------------
  // Reading the paragraphs
  // ---------------------------------------------------------------------

  /** `s.rstrip(c)` for one character. */
  function TrimEnd(s: string, c: char): (r: string)
    ensures r <= s
  {
    if s != [] && s[|s| - 1] == c then TrimEnd(s[..|s| - 1], c) else s
  }

  /** `s.lstrip(c)` for one character. */
  function TrimStart(s: string, c: char): (r: string)
    ensures |r| <= |s| && r == s[|s| - |r|..]
  {
    if s != [] && s[0] == c then TrimStart(s[1..], c) else s
  }

  /** `line.strip('\n')`. */
  function StripNewlines(s: string): string
  {
    TrimStart(TrimEnd(s, '\n'), '\n')
  }

  lemma {:induction false} TrimEndProps(s: string, c: char)
    ensures var r := TrimEnd(s, c);
            && (r == [] || r[|r| - 1] != c)
            && forall d :: d != c ==> multiset(r)[d] == multiset(s)[d]
  {
    if s != [] && s[|s| - 1] == c {
      TrimEndProps(s[..|s| - 1], c);
      assert s == s[..|s| - 1] + [c];
      assert multiset(s) == multiset(s[..|s| - 1]) + multiset([c]);
    }
  }

  lemma {:induction false} TrimStartProps(s: string, c: char)
    ensures var r := TrimStart(s, c);
            && (r == [] || r[0] != c)
            && (s != [] && s[|s| - 1] != c ==> r == [] || r[|r| - 1] != c)
            && forall d :: d != c ==> multiset(r)[d] == multiset(s)[d]
  {
    if s != [] && s[0] == c {
      TrimStartProps(s[1..], c);
      assert s == [c] + s[1..];
      assert multiset(s) == multiset([c]) + multiset(s[1..]);
    }
  }

  /**
   * The stripped line neither starts nor ends with a newline and keeps
   * every other character of the line, tabs included.
   */
  lemma StripNewlinesProps(s: string)
    ensures var r := StripNewlines(s);
            && (r == [] || (r[0] != '\n' && r[|r| - 1] != '\n'))
            && forall d :: d != '\n' ==> multiset(r)[d] == multiset(s)[d]
  {
    TrimEndProps(s, '\n');
    TrimStartProps(TrimEnd(s, '\n'), '\n');
  }

  /** `line.strip('\n').split('\t')`. */
  function Fields(line: string): seq<string>
  {
    SplitChar(StripNewlines(line), '\t')
  }

  /** `paragraphs`: the fields of every line. */
  function Paragraphs(lines: seq<string>): (r: seq<seq<string>>)
    ensures |r| == |lines|
  {
    seq(|lines|, i requires 0 <= i < |lines| => Fields(lines[i]))
  }

  /** The unpacking `for fname, para in paragraphs` goes through every entry, or fails at one without exactly two fields. */
  function Parse(paragraphs: seq<seq<string>>): (r: Option<seq<(string, string)>>)
    ensures r.Some? ==> |r.value| == |paragraphs|
  {
    if paragraphs == [] then Some([])
    else match Parse(paragraphs[..|paragraphs| - 1])
      case None => None
      case Some(pairs) =>
        var f := paragraphs[|paragraphs| - 1];
        if |f| != 2 then None else Some(pairs + [(f[0], f[1])])
  }

  /** A line can be unpacked exactly when it holds one tab. */
  lemma FieldsCount(line: string)
    ensures |Fields(line)| == 2 <==> multiset(line)['\t'] == 1
  {
    SplitCharCount(StripNewlines(line), '\t');
    StripNewlinesProps(line);
  }

  /**
   * The loop fails exactly when some entry does not have two fields;
   * otherwise every entry gives its two fields, in order.
   */
  lemma {:induction false} ParseMeaning(paragraphs: seq<seq<string>>)
    ensures Parse(paragraphs).None? <==> exists i :: 0 <= i < |paragraphs| && |paragraphs[i]| != 2
    ensures Parse(paragraphs).Some? ==>
              forall i :: 0 <= i < |paragraphs| ==>
                |paragraphs[i]| == 2 && Parse(paragraphs).value[i] == (paragraphs[i][0], paragraphs[i][1])
  {
    if paragraphs != [] {
      var init := paragraphs[..|paragraphs| - 1];
      ParseMeaning(init);
      if Parse(init).None? {
        var i :| 0 <= i < |init| && |init[i]| != 2;
        assert paragraphs[i] == init[i];
      }
    }
  }

  /** Rebuilding a parsed line: the file name, a tab, and the paragraph, neither of them with a tab. */
  lemma PairOfLine(line: string)
    requires |Fields(line)| == 2
    ensures var f := Fields(line);
            StripNewlines(line) == f[0] + "\t" + f[1] && '\t' !in f[0] && '\t' !in f[1]
  {
    TwoFields(StripNewlines(line), '\t');
  }

  // ---------------------------------------------------------------------
  // Grouping by file name
  // ---------------------------------------------------------------------

  /** `filenames` and `filename_to_content`. */
  datatype Grouping = Grouping(filenames: seq<string>, content: map<string, seq<string>>)

  /** The grouping after the given pairs, one pair at a time. */
  function Group(pairs: seq<(string, string)>): Grouping
  {
    if pairs == [] then Grouping([], map[])
    else
      var g := Group(pairs[..|pairs| - 1]);
      var (f, p) := pairs[|pairs| - 1];
      if f in g.content then Grouping(g.filenames, g.content[f := g.content[f] + [p]])
      else Grouping(g.filenames + [f], g.content[f := [p]])
  }

  /** The file name of every pair. */
  function Names(pairs: seq<(string, string)>): (r: seq<string>)
    ensures |r| == |pairs|
  {
    seq(|pairs|, i requires 0 <= i < |pairs| => pairs[i].0)
  }

  /** The paragraphs of file `f`, in input order. */
  function ParagraphsOf(pairs: seq<(string, string)>, f: string): seq<string>
  {
    if pairs == [] then []
    else
      var last := pairs[|pairs| - 1];
      ParagraphsOf(pairs[..|pairs| - 1], f) + (if last.0 == f then [last.1] else [])
  }

  /** The position of the first occurrence of `x`. */
  function FirstIndex(keys: seq<string>, x: string): (r: nat)
    requires x in keys
    ensures r < |keys| && keys[r] == x && x !in keys[..r]
  {
    if x in keys[..|keys| - 1] then FirstIndex(keys[..|keys| - 1], x) else |keys| - 1
  }

  predicate Distinct(names: seq<string>)
  {
    forall i, j :: 0 <= i < j < |names| ==> names[i] != names[j]
  }

  /** Lengths of the lists of the given names, added up. */
  function Total(names: seq<string>, content: map<string, seq<string>>): nat
  {
    if names == [] then 0
    else (if names[0] in content then |content[names[0]]| else 0) + Total(names[1..], content)
  }

  lemma NamesInit(pairs: seq<(string, string)>)
    requires pairs != []
    ensures Names(pairs[..|pairs| - 1]) == Names(pairs)[..|pairs| - 1]
  {
  }

  /**
   * The list of file names holds every file name once, the dictionary has
   * exactly those keys, and a name is in it exactly when some line has it.
   */
  lemma {:induction false} GroupKeys(pairs: seq<(string, string)>)
    ensures var g := Group(pairs);
            && Distinct(g.filenames)
            && (forall x :: x in g.content <==> x in g.filenames)
            && (forall x :: x in g.content <==> x in Names(pairs))
  {
    if pairs != [] {
      GroupKeys(pairs[..|pairs| - 1]);
      NamesInit(pairs);
      assert Names(pairs) == Names(pairs[..|pairs| - 1]) + [pairs[|pairs| - 1].0];
    }
  }

  lemma {:induction false} ParagraphsOfAbsent(pairs: seq<(string, string)>, f: string)
    requires f !in Names(pairs)
    ensures ParagraphsOf(pairs, f) == []
  {
    if pairs != [] {
      NamesInit(pairs);
      assert pairs[|pairs| - 1].0 == Names(pairs)[|pairs| - 1];
      ParagraphsOfAbsent(pairs[..|pairs| - 1], f);
    }
  }

  /** `filename_to_content[f]` is the paragraphs of `f`, in input order. */
  lemma {:induction false} GroupContents(pairs: seq<(string, string)>)
    ensures var g := Group(pairs);
            forall f :: f in g.content ==> g.content[f] == ParagraphsOf(pairs, f)
  {
    if pairs != [] {
      GroupContents(pairs[..|pairs| - 1]);
      GroupKeys(pairs[..|pairs| - 1]);
      NamesInit(pairs);
      var g := Group(pairs);
      forall f | f in g.content
        ensures g.content[f] == ParagraphsOf(pairs, f)
      {
        var init := pairs[..|pairs| - 1];
        if f != pairs[|pairs| - 1].0 {
          assert f in Group(init).content;
        } else if f !in Group(init).content {
          ParagraphsOfAbsent(init, f);
        }
      }
    }
  }

  /** The file names come in the order of their first occurrence. */
  lemma {:induction false} GroupOrder(pairs: seq<(string, string)>)
    ensures var g := Group(pairs);
            && (forall x :: x in g.filenames ==> x in Names(pairs))
            && forall i, j :: 0 <= i < j < |g.filenames| ==>
                 FirstIndex(Names(pairs), g.filenames[i]) < FirstIndex(Names(pairs), g.filenames[j])
  {
    GroupKeys(pairs);
    if pairs != [] {
      var init := pairs[..|pairs| - 1];
      GroupOrder(init);
      GroupKeys(init);
      NamesInit(pairs);
      var names := Names(pairs);
      assert names[..|names| - 1] == Names(init);
      var g0, g := Group(init), Group(pairs);
      forall x | x in g0.filenames
        ensures FirstIndex(names, x) == FirstIndex(Names(init), x) < |init|
      {
      }
      var f := pairs[|pairs| - 1].0;
      if f !in g0.content {
        assert FirstIndex(names, f) == |init|;
      }
    }
  }

  lemma {:induction false} TotalOutside(names: seq<string>, content: map<string, seq<string>>, f: string, v: seq<string>)
    requires f !in names
    ensures Total(names, content[f := v]) == Total(names, content)
  {
    if names != [] {
      TotalOutside(names[1..], content, f, v);
    }
  }

  lemma {:induction false} TotalInside(names: seq<string>, content: map<string, seq<string>>, f: string, p: string)
    requires Distinct(names) && f in names && f in content
    ensures Total(names, content[f := content[f] + [p]]) == Total(names, content) + 1
  {
    if names[0] == f {
      assert f !in names[1..];
      TotalOutside(names[1..], content, f, content[f] + [p]);
    } else {
      TotalInside(names[1..], content, f, p);
    }
  }

  lemma {:induction false} TotalSnoc(names: seq<string>, content: map<string, seq<string>>, f: string)
    requires f in content
    ensures Total(names + [f], content) == Total(names, content) + |content[f]|
  {
    if names != [] {
      TotalSnoc(names[1..], content, f);
      assert (names + [f])[1..] == names[1..] + [f];
    }
  }

  /** The lists of the dictionary hold one entry per line. */
  lemma {:induction false} GroupTotal(pairs: seq<(string, string)>)
    ensures var g := Group(pairs); Total(g.filenames, g.content) == |pairs|
  {
    if pairs != [] {
      var init := pairs[..|pairs| - 1];
      GroupTotal(init);
      GroupKeys(init);
      var g0 := Group(init);
      var (f, p) := pairs[|pairs| - 1];
      if f in g0.content {
        TotalInside(g0.filenames, g0.content, f, p);
      } else {
        TotalOutside(g0.filenames, g0.content, f, [p]);
        TotalSnoc(g0.filenames, g0.content[f := [p]], f);
      }
    }
  }

  /** The grouping of the whole file, or `None` when its loop fails. */
  function GroupOf(paragraphs: seq<seq<string>>): Option<Grouping>
  {
    match Parse(paragraphs)
      case None => None
      case Some(pairs) => Some(Group(pairs))
  }

  lemma {:induction false} ParseFailStays(paragraphs: seq<seq<string>>, k: nat)
    requires k <= |paragraphs| && Parse(paragraphs[..k]).None?
    ensures Parse(paragraphs).None?
    decreases |paragraphs| - k
  {
    if k < |paragraphs| {
      assert paragraphs[..k + 1][..k] == paragraphs[..k];
      ParseFailStays(paragraphs, k + 1);
    } else {
      assert paragraphs[..k] == paragraphs;
    }
  }

  lemma ParseSnoc(paragraphs: seq<seq<string>>, k: nat)
    requires k < |paragraphs|
    ensures Parse(paragraphs[..k + 1]) ==
              match Parse(paragraphs[..k])
                case None => None
                case Some(pairs) =>
                  var f := paragraphs[k];
                  if |f| != 2 then None else Some(pairs + [(f[0], f[1])])
  {
    assert paragraphs[..k + 1][..k] == paragraphs[..k];
  }

  lemma GroupSnoc(pairs: seq<(string, string)>, f: string, p: string)
    ensures var g := Group(pairs);
            Group(pairs + [(f, p)]) ==
              if f in g.content then Grouping(g.filenames, g.content[f := g.content[f] + [p]])
              else Grouping(g.filenames + [f], g.content[f := [p]])
  {
    assert (pairs + [(f, p)])[..|pairs|] == pairs;
  }

  /** The grouping loop over `paragraphs`, building the dictionary and the name list in place. */
  method GroupParagraphs(paragraphs: seq<seq<string>>) returns (r: Option<Grouping>)
    ensures r == GroupOf(paragraphs)
  {
    var filenames: seq<string> := [];
    var content: map<string, seq<string>> := map[];
    for k := 0 to |paragraphs|
      invariant Parse(paragraphs[..k]).Some?
      invariant Grouping(filenames, content) == Group(Parse(paragraphs[..k]).value)
    {
      ParseSnoc(paragraphs, k);
      if |paragraphs[k]| != 2 {
        ParseFailStays(paragraphs, k + 1);
        return None;
      }
      var fname, para := paragraphs[k][0], paragraphs[k][1];
      GroupSnoc(Parse(paragraphs[..k]).value, fname, para);
      ghost var before := content;
      if fname !in content {
        content := content[fname := []];
        filenames := filenames + [fname];
      }
      assert fname !in before ==> content[fname] + [para] == [para];
      content := content[fname := content[fname] + [para]];
      assert content == before[fname := if fname in before then before[fname] + [para] else [para]];
    }
    assert paragraphs[..|paragraphs|] == paragraphs;
    r := Some(Grouping(filenames, content));
  }

  // ---------------------------------------------------------------------
  // Messages
  // ---------------------------------------------------------------------

  /** `topic.split('-')[0].split('.wav')[0]`, then the `ishowspeed` rule. */
  function TopicOf(name: string): string
  {
    var base := BeforeMatch(BeforeFirst(name, '-'), ".wav");
    if Contains(base, Speed) then SpeedTopic else base
  }

  lemma SpeedTopicNoDash()
    ensures '-' !in SpeedTopic
  {
  }

  lemma SpeedTopicNoWav()
    ensures !Contains(SpeedTopic, ".wav")
  {
    NoDotNoWav(SpeedTopic);
  }

  lemma SpeedTopicMentions()
    ensures Contains(SpeedTopic, Speed)
  {
    assert Speed <= SpeedTopic;
  }

  lemma SpeedTopicPlain()
    ensures '-' !in SpeedTopic && !Contains(SpeedTopic, ".wav") && Contains(SpeedTopic, Speed)
  {
    SpeedTopicNoDash();
    SpeedTopicNoWav();
    SpeedTopicMentions();
  }

  /** No '.' in the text means no ".wav" in it. */
  lemma {:induction false} NoDotNoWav(s: string)
    requires '.' !in s
    ensures !Contains(s, ".wav")
    decreases |s|
  {
    if s != [] {
      assert s[1..] == s[1..];
      assert forall c :: c in s[1..] ==> c in s;
      NoDotNoWav(s[1..]);
      assert s[0] != '.';
    }
  }

  /**
   * A normalised topic is the text before the first '-' of the name, cut
   * before its first ".wav", unless that text mentions `ishowspeed`; it
   * holds no '-' and no ".wav", and normalising it again changes nothing.
   */
  lemma TopicShape(name: string)
    ensures var before := BeforeFirst(name, '-');
            var base := BeforeMatch(before, ".wav");
            && base <= before && before <= name
            && (TopicOf(name) == SpeedTopic <==> Contains(base, Speed))
            && (TopicOf(name) != SpeedTopic ==> TopicOf(name) == base)
            && '-' !in TopicOf(name) && !Contains(TopicOf(name), ".wav")
  {
    var before := BeforeFirst(name, '-');
    var base := BeforeMatch(before, ".wav");
    BeforeMatchProps(before, ".wav");
    SpeedTopicPlain();
    assert forall c :: c in base ==> c in before;
  }

  /** Normalising a topic twice gives what normalising it once gives. */
  lemma TopicIdempotent(name: string)
    ensures TopicOf(TopicOf(name)) == TopicOf(name)
  {
    TopicShape(name);
    var t := TopicOf(name);
    BeforeFirstWithout(t, '-');
    BeforeMatchProps(t, ".wav");
    SpeedTopicPlain();
  }

  lemma {:induction false} BeforeFirstWithout(s: string, c: char)
    requires c !in s
    ensures BeforeFirst(s, c) == s
  {
    if s != [] {
      BeforeFirstWithout(s[1..], c);
      assert s == [s[0]] + s[1..];
    }
  }

  /** The user and assistant texts of every example: its normalised topic, then its paragraph. */
  function Shown(samples: seq<(string, string)>): (r: seq<(string, string)>)
    ensures |r| == |samples|
  {
    seq(|samples|, k requires 0 <= k < |samples| => ("Topic: " + TopicOf(samples[k].0), samples[k].1))
  }

  /** A user/assistant message pair for every text pair. */
  function Dialogue(texts: seq<(string, string)>): (r: seq<Message>)
    ensures |r| == 2 * |texts|
  {
    if texts == [] then []
    else
      var last := texts[|texts| - 1];
      Dialogue(texts[..|texts| - 1]) + [Message(User, last.0), Message(Assistant, last.1)]
  }

  /** The messages of one request; the final topic opens a quote it never closes. */
  function Messages(samples: seq<(string, string)>, topic: string): seq<Message>
  {
    [Message(System, SystemPrompt)] + Dialogue(Shown(samples)) + [Message(User, "Topic: '" + topic)]
  }

  lemma DialogueSnoc(texts: seq<(string, string)>, k: nat)
    requires k < |texts|
    ensures Dialogue(texts[..k + 1]) == Dialogue(texts[..k]) + [Message(User, texts[k].0), Message(Assistant, texts[k].1)]
  {
    assert texts[..k + 1][..k] == texts[..k];
  }

  method BuildMessages(samples: seq<(string, string)>, topic: string) returns (messages: seq<Message>)
    ensures messages == Messages(samples, topic)
  {
    ghost var texts := Shown(samples);
    messages := [Message(System, SystemPrompt)];
    for k := 0 to |samples|
      invariant messages == [Message(System, SystemPrompt)] + Dialogue(texts[..k])
    {
      DialogueSnoc(texts, k);
      var (name, content) := samples[k];
      messages := messages + [Message(User, "Topic: " + TopicOf(name))];
      messages := messages + [Message(Assistant, content)];
    }
    assert texts[..|samples|] == texts;
    messages := messages + [Message(User, "Topic: '" + topic)];
  }

  lemma {:induction false} DialogueIndex(texts: seq<(string, string)>)
    ensures forall k :: 0 <= k < |texts| ==>
              Dialogue(texts)[2 * k] == Message(User, texts[k].0) && Dialogue(texts)[2 * k + 1] == Message(Assistant, texts[k].1)
  {
    if texts != [] {
      DialogueIndex(texts[..|texts| - 1]);
    }
  }

  /**
   * A request holds the system prompt, one user/assistant pair per example
   * (the normalised topic, then the paragraph), and the topic asked for:
   * eight messages for three examples.
   */
  lemma MessagesShape(samples: seq<(string, string)>, topic: string)
    ensures var m := Messages(samples, topic);
            && |m| == 2 + 2 * |samples|
            && (|samples| == Shots ==> |m| == 8)
            && m[0] == Message(System, SystemPrompt)
            && (forall k :: 0 <= k < |samples| ==>
                  && m[1 + 2 * k] == Message(User, "Topic: " + TopicOf(samples[k].0))
                  && m[2 + 2 * k] == Message(Assistant, samples[k].1))
            && m[|m| - 1] == Message(User, "Topic: '" + topic)
  {
    var m := Messages(samples, topic);
    var d := Dialogue(Shown(samples));
    DialogueIndex(Shown(samples));
    assert m == [Message(System, SystemPrompt)] + d + [Message(User, "Topic: '" + topic)];
    forall k | 0 <= k < |samples|
      ensures m[1 + 2 * k] == Message(User, "Topic: " + TopicOf(samples[k].0)) && m[2 + 2 * k] == Message(Assistant, samples[k].1)
    {
      assert m[1 + 2 * k] == d[2 * k] && m[2 + 2 * k] == d[2 * k + 1];
    }
  }

  // ---------------------------------------------------------------------
  // The requests
  // ---------------------------------------------------------------------

  /** What `random.sample(paragraphs, 3)` returns: three distinct positions. */
  predicate IsSample(idx: seq<nat>, count: nat)
  {
    && |idx| == Shots
    && (forall i :: 0 <= i < |idx| ==> idx[i] < count)
    && forall i, j :: 0 <= i < j < |idx| ==> idx[i] != idx[j]
  }

  /** Every draw is a sample whenever there are enough paragraphs to draw from. */
  ghost predicate Sampler(pick: nat -> seq<nat>, count: nat)
  {
    forall n :: count >= Shots ==> IsSample(pick(n), count)
  }

  function Samples(pairs: seq<(string, string)>, idx: seq<nat>): (r: seq<(string, string)>)
    requires forall i :: 0 <= i < |idx| ==> idx[i] < |pairs|
    ensures |r| == |idx|
  {
    seq(|idx|, i requires 0 <= i < |idx| => pairs[idx[i]])
  }

  /** What has been written, the requests made, and whether an exception ended the run. */
  datatype Gen = Gen(out: seq<string>, requests: seq<seq<Message>>, raised: bool)

  /**
   * One request for `topic`: `random.sample` fails with fewer than three
   * paragraphs; the call is not guarded, so an exception ends the run; a
   * reply without the expected keys writes nothing.
   */
  function Request(st: Gen, topic: string, pairs: seq<(string, string)>, pick: nat -> seq<nat>,
                   outcomes: nat -> Outcome): Gen
    requires Sampler(pick, |pairs|)
  {
    if st.raised then st
    else if |pairs| < Shots then Gen(st.out, st.requests, true)
    else
      var n := |st.requests|;
      var messages := Messages(Samples(pairs, pick(n)), topic);
      match outcomes(n)
        case Returned(Content(text)) => Gen(st.out + ReplyLines(topic, text), st.requests + [messages], false)
        case Returned(MissingKey) => Gen(st.out, st.requests + [messages], false)
        case _ => Gen(st.out, st.requests + [messages], true)
  }

  /** The first `r` requests for one topic. */
  function TopicRun(st: Gen, topic: string, r: nat, pairs: seq<(string, string)>, pick: nat -> seq<nat>,
                    outcomes: nat -> Outcome): Gen
    requires Sampler(pick, |pairs|)
  {
    if r == 0 then st else Request(TopicRun(st, topic, r - 1, pairs, pick, outcomes), topic, pairs, pick, outcomes)
  }

  /** The run over the first `k` topics. */
  function TopicsRun(topics: seq<string>, k: nat, r: nat, pairs: seq<(string, string)>, pick: nat -> seq<nat>,
                     outcomes: nat -> Outcome): Gen
    requires k <= |topics| && Sampler(pick, |pairs|)
  {
    if k == 0 then Gen([], [], false)
    else TopicRun(TopicsRun(topics, k - 1, r, pairs, pick, outcomes), topics[k - 1], r, pairs, pick, outcomes)
  }

  /** `range(resample_per_topic)` has this many rounds. */
  function Rounds(resample: int): nat
  {
    if resample > 0 then resample else 0
  }

  /** The whole script: `None` when the grouping loop fails, before anything is written. */
  function Generate(topicLines: seq<string>, lines: seq<string>, limit: int, resample: int,
                    pick: nat -> seq<nat>, outcomes: nat -> Outcome): Option<Gen>
    requires Sampler(pick, |lines|)
  {
    match Parse(Paragraphs(lines))
      case None => None
      case Some(pairs) =>
        var topics := Limited(Kept(topicLines), limit);
        Some(TopicsRun(topics, |topics|, Rounds(resample), pairs, pick, outcomes))
  }

  /** One round of the inner loop. */
  method MakeRequest(out: seq<string>, requests: seq<seq<Message>>, topic: string, pairs: seq<(string, string)>,
                     pick: nat -> seq<nat>, outcomes: nat -> Outcome)
    returns (out': seq<string>, requests': seq<seq<Message>>, raised: bool)
    requires Sampler(pick, |pairs|)
    ensures Gen(out', requests', raised) == Request(Gen(out, requests, false), topic, pairs, pick, outcomes)
  {
    if |pairs| < Shots {
      return out, requests, true;
    }
    var idx := pick(|requests|);
    var samples := Samples(pairs, idx);
    var messages := BuildMessages(samples, topic);
    var outcome := outcomes(|requests|);
    requests' := requests + [messages];
    out', raised := out, false;
    match outcome {
      case Returned(Content(text)) =>
        var written := WriteReply(topic, text);
        out' := out + written;
      case Returned(MissingKey) =>
      case _ =>
        raised := true;
    }
  }

  lemma {:induction false} TopicRunStays(st: Gen, topic: string, r: nat, pairs: seq<(string, string)>,
                                         pick: nat -> seq<nat>, outcomes: nat -> Outcome)
    requires Sampler(pick, |pairs|) && st.raised
    ensures TopicRun(st, topic, r, pairs, pick, outcomes) == st
  {
    if r > 0 {
      TopicRunStays(st, topic, r - 1, pairs, pick, outcomes);
    }
  }

  lemma {:induction false} TopicRunRaised(st: Gen, topic: string, i: nat, r: nat, pairs: seq<(string, string)>,
                                          pick: nat -> seq<nat>, outcomes: nat -> Outcome)
    requires Sampler(pick, |pairs|) && i <= r && TopicRun(st, topic, i, pairs, pick, outcomes).raised
    ensures TopicRun(st, topic, r, pairs, pick, outcomes) == TopicRun(st, topic, i, pairs, pick, outcomes)
    decreases r - i
  {
    if r > i {
      TopicRunRaised(st, topic, i, r - 1, pairs, pick, outcomes);
      var g := TopicRun(st, topic, r - 1, pairs, pick, outcomes);
      assert g.raised;
      assert TopicRun(st, topic, r, pairs, pick, outcomes) == Request(g, topic, pairs, pick, outcomes);
    }
  }

  /** `for idx in range(resample_per_topic)` for one topic. */
  method RequestTopic(out0: seq<string>, requests0: seq<seq<Message>>, topic: string, r: nat,
                      pairs: seq<(string, string)>, pick: nat -> seq<nat>, outcomes: nat -> Outcome)
    returns (out: seq<string>, requests: seq<seq<Message>>, raised: bool)
    requires Sampler(pick, |pairs|)
    ensures Gen(out, requests, raised) == TopicRun(Gen(out0, requests0, false), topic, r, pairs, pick, outcomes)
  {
    out, requests, raised := out0, requests0, false;
    for idx := 0 to r
      invariant Gen(out, requests, raised) == TopicRun(Gen(out0, requests0, false), topic, idx, pairs, pick, outcomes)
      invariant !raised
    {
      out, requests, raised := MakeRequest(out, requests, topic, pairs, pick, outcomes);
      if raised {
        TopicRunRaised(Gen(out0, requests0, false), topic, idx + 1, r, pairs, pick, outcomes);
        return;
      }
    }
  }

  lemma {:induction false} TopicsRunRaised(topics: seq<string>, k: nat, m: nat, r: nat, pairs: seq<(string, string)>,
                                           pick: nat -> seq<nat>, outcomes: nat -> Outcome)
    requires Sampler(pick, |pairs|) && k <= m <= |topics| && TopicsRun(topics, k, r, pairs, pick, outcomes).raised
    ensures TopicsRun(topics, m, r, pairs, pick, outcomes) == TopicsRun(topics, k, r, pairs, pick, outcomes)
    decreases m - k
  {
    if m > k {
      TopicsRunRaised(topics, k, m - 1, r, pairs, pick, outcomes);
      TopicRunStays(TopicsRun(topics, m - 1, r, pairs, pick, outcomes), topics[m - 1], r, pairs, pick, outcomes);
    }
  }

  /** `for this_topic in candidate_topics`. */
  method RequestTopics(topics: seq<string>, r: nat, pairs: seq<(string, string)>, pick: nat -> seq<nat>,
                       outcomes: nat -> Outcome)
    returns (out: seq<string>, requests: seq<seq<Message>>, raised: bool)
    requires Sampler(pick, |pairs|)
    ensures Gen(out, requests, raised) == TopicsRun(topics, |topics|, r, pairs, pick, outcomes)
  {
    out, requests, raised := [], [], false;
    for k := 0 to |topics|
      invariant Gen(out, requests, raised) == TopicsRun(topics, k, r, pairs, pick, outcomes)
      invariant !raised
    {
      out, requests, raised := RequestTopic(out, requests, topics[k], r, pairs, pick, outcomes);
      if raised {
        TopicsRunRaised(topics, k + 1, |topics|, r, pairs, pick, outcomes);
        return;
      }
    }
  }

  /** `rewrite_paragraphs` without its file handling. */
  method RewriteParagraphs(topicLines: seq<string>, lines: seq<string>, limit: int, resample: int,
                           pick: nat -> seq<nat>, outcomes: nat -> Outcome)
    returns (r: Option<Gen>)
    requires Sampler(pick, |lines|)
    ensures r == Generate(topicLines, lines, limit, resample, pick, outcomes)
  {
    var topics := Kept(topicLines);
    var paragraphs := Paragraphs(lines);
    var grouping := GroupParagraphs(paragraphs);
    if grouping.None? {
      return None;
    }
    var pairs := Parse(paragraphs).value;
    if limit > 0 {
      topics := if limit < |topics| then topics[..limit] else topics;
    }
    var out, requests, raised := RequestTopics(topics, Rounds(resample), pairs, pick, outcomes);
    r := Some(Gen(out, requests, raised));
  }

  // ---------------------------------------------------------------------
  // Properties of a run
  // ---------------------------------------------------------------------

  /**
   * Every call but the last was answered; a run ends by an exception only at
   * its last call, or before any call when there are fewer than three
   * paragraphs to draw from.
   */
  ghost predicate CallsExplained(g: Gen, count: nat, outcomes: nat -> Outcome)
  {
    && (forall n :: 0 <= n < |g.requests| - (if g.raised then 1 else 0) ==> Answered(outcomes(n)))
    && (count < Shots ==> g.requests == [])
    && (g.raised ==> (g.requests == [] && count < Shots) || (g.requests != [] && !Answered(outcomes(|g.requests| - 1))))
  }

  lemma RequestExplained(st: Gen, topic: string, pairs: seq<(string, string)>, pick: nat -> seq<nat>,
                         outcomes: nat -> Outcome)
    requires Sampler(pick, |pairs|) && CallsExplained(st, |pairs|, outcomes)
    ensures var next := Request(st, topic, pairs, pick, outcomes);
            && CallsExplained(next, |pairs|, outcomes)
            && next.requests[..|st.requests|] == st.requests && st.out <= next.out
            && |next.requests| == |st.requests| + (if st.raised || |pairs| < Shots then 0 else 1)
            && next.raised == (st.raised || |pairs| < Shots || !Answered(outcomes(|st.requests|)))
  {
    if !st.raised && |pairs| >= Shots {
      var n := |st.requests|;
      var next := Request(st, topic, pairs, pick, outcomes);
      assert next.requests == st.requests + [Messages(Samples(pairs, pick(n)), topic)];
      assert next.raised == !Answered(outcomes(n));
      assert next.requests[..n] == st.requests;
    }
  }

  /**
   * A topic's round of `r` requests, after a run still going: each request
   * ends with the topic asked for, holds eight messages, and every line it
   * writes starts with the topic; without an exception it makes exactly
   * `r` requests.
   */
  lemma {:induction false} TopicRequests(st: Gen, topic: string, r: nat, pairs: seq<(string, string)>,
                                         pick: nat -> seq<nat>, outcomes: nat -> Outcome)
    requires Sampler(pick, |pairs|) && CallsExplained(st, |pairs|, outcomes)
    ensures var g := TopicRun(st, topic, r, pairs, pick, outcomes);
            && CallsExplained(g, |pairs|, outcomes)
            && |st.requests| <= |g.requests| <= |st.requests| + r
            && g.requests[..|st.requests|] == st.requests && st.out <= g.out
            && (!g.raised ==> !st.raised && |g.requests| == |st.requests| + r)
            && (forall i :: |st.requests| <= i < |g.requests| ==>
                  |g.requests[i]| == 8 && g.requests[i][7] == Message(User, "Topic: '" + topic))
            && (forall i :: |st.out| <= i < |g.out| ==> topic + ":\t" <= g.out[i])
  {
    if r > 0 {
      TopicRequests(st, topic, r - 1, pairs, pick, outcomes);
      var g0 := TopicRun(st, topic, r - 1, pairs, pick, outcomes);
      RequestExplained(g0, topic, pairs, pick, outcomes);
      RequestStep(g0, topic, pairs, pick, outcomes);
      var g := TopicRun(st, topic, r, pairs, pick, outcomes);
      forall i | |st.requests| <= i < |g.requests|
        ensures |g.requests[i]| == 8 && g.requests[i][7] == Message(User, "Topic: '" + topic)
      {
        if i < |g0.requests| {
          assert g.requests[i] == g.requests[..|g0.requests|][i];
        }
      }
      forall i | |st.out| <= i < |g.out|
        ensures topic + ":\t" <= g.out[i]
      {
        if i < |g0.out| {
          assert g.out[i] == g0.out[i];
        }
      }
    }
  }

  /** The request one step adds has eight messages ending with the topic, and the lines it writes start with the topic. */
  lemma RequestStep(st: Gen, topic: string, pairs: seq<(string, string)>, pick: nat -> seq<nat>,
                    outcomes: nat -> Outcome)
    requires Sampler(pick, |pairs|)
    ensures var next := Request(st, topic, pairs, pick, outcomes);
            && (forall i :: |st.requests| <= i < |next.requests| ==>
                  |next.requests[i]| == 8 && next.requests[i][7] == Message(User, "Topic: '" + topic))
            && (forall i :: |st.out| <= i < |next.out| ==> topic + ":\t" <= next.out[i])
  {
    if !st.raised && |pairs| >= Shots {
      var n := |st.requests|;
      var messages := Messages(Samples(pairs, pick(n)), topic);
      MessagesShape(Samples(pairs, pick(n)), topic);
      var next := Request(st, topic, pairs, pick, outcomes);
      assert next.requests == st.requests + [messages];
      if outcomes(n).Returned? && outcomes(n).response.Content? {
        var text := outcomes(n).response.text;
        assert next.out == st.out + ReplyLines(topic, text);
        ReplyLinesShape(topic, text);
        forall i | |st.out| <= i < |next.out|
          ensures topic + ":\t" <= next.out[i]
        {
          assert next.out[i] == ReplyLines(topic, text)[i - |st.out|];
        }
      } else {
        assert next.out == st.out;
      }
    }
  }

  /**
   * Over `k` topics with `r` rounds each, the run makes at most `k * r`
   * requests, exactly `k * r` unless an exception ended it, and every call
   * but a final raising one returned.
   */
  lemma {:induction false} RunCount(topics: seq<string>, k: nat, r: nat, pairs: seq<(string, string)>,
                                    pick: nat -> seq<nat>, outcomes: nat -> Outcome)
    requires k <= |topics| && Sampler(pick, |pairs|)
    ensures var g := TopicsRun(topics, k, r, pairs, pick, outcomes);
            && CallsExplained(g, |pairs|, outcomes)
            && |g.requests| <= k * r
            && (!g.raised ==> |g.requests| == k * r)
  {
    if k > 0 {
      RunCount(topics, k - 1, r, pairs, pick, outcomes);
      TopicRequests(TopicsRun(topics, k - 1, r, pairs, pick, outcomes), topics[k - 1], r, pairs, pick, outcomes);
      assert (k - 1) * r + r == k * r;
    }
  }

  /** With at least three paragraphs and no failing call, every topic gets all its rounds. */
  lemma AllRequestsMade(topics: seq<string>, r: nat, pairs: seq<(string, string)>,
                        pick: nat -> seq<nat>, outcomes: nat -> Outcome)
    requires Sampler(pick, |pairs|) && |pairs| >= Shots
    requires forall n :: 0 <= n < |topics| * r ==> Answered(outcomes(n))
    ensures var g := TopicsRun(topics, |topics|, r, pairs, pick, outcomes);
            !g.raised && |g.requests| == |topics| * r
  {
    RunCount(topics, |topics|, r, pairs, pick, outcomes);
  }
}
