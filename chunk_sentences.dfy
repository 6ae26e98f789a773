/**
 * `chunk_sentences.py`: splitting a paragraph into sentences (the ellipsis
 * is masked, the text is cut after each `.`, `!` or `?` that is followed by
 * whitespace or ends the text, and the pieces are unmasked, stripped and
 * the blank ones dropped), and the line loop that turns `topic<TAB>paragraph`
 * lines into one output line per sentence, skipping sentences already
 * written.
 */
module ChunkSentences {
  import opened Strings
  import opened Replace
  import opened Wrappers

  // ---------------------------------------------------------------------
  // split_into_sentences
  // ---------------------------------------------------------------------

  /** The sentence-ending class `[.!?]`. */
  predicate IsStop(c: char) {
    c == '.' || c == '!' || c == '?'
  }

  const Ellipsis: string := "..."

  /** The placeholder that hides an ellipsis while the text is cut. */
  const Mask: string := "<ELLIPSIS>"

  /**
   * `re.split('([.!?](?:\s|$))', t)` with every piece glued back to the
   * delimiter that followed it: the delimiter is a stop character together
   * with the one whitespace character after it, or a stop character that
   * ends the text.  The last piece is what follows the last delimiter.
   */
  function Pieces(t: string): (r: seq<string>)
    ensures |r| >= 1
    decreases |t|
  {
    if t == [] then [[]]
    else if IsStop(t[0]) && (|t| == 1 || IsSpace(t[1])) then
      var n := if |t| == 1 then 1 else 2;
      [t[..n]] + Pieces(t[n..])
    else
      var r := Pieces(t[1..]);
      [[t[0]] + r[0]] + r[1..]
  }

  /** The pieces written one after the other. */
  function Concat(ps: seq<string>): string
  {
    if ps == [] then [] else ps[0] + Concat(ps[1..])
  }

  /** A piece that ends with its delimiter. */
  predicate EndsAtStop(p: string) {
    || (|p| >= 1 && IsStop(p[|p| - 1]))
    || (|p| >= 2 && IsStop(p[|p| - 2]) && IsSpace(p[|p| - 1]))
  }

  /** Cutting and gluing back loses nothing. */
  lemma {:induction false} PiecesConcat(t: string)
    ensures Concat(Pieces(t)) == t
    decreases |t|
  {
    if t == [] {
    } else if IsStop(t[0]) && (|t| == 1 || IsSpace(t[1])) {
      var n := if |t| == 1 then 1 else 2;
      PiecesConcat(t[n..]);
      assert Pieces(t)[1..] == Pieces(t[n..]);
      assert t == t[..n] + t[n..];
    } else {
      var r := Pieces(t[1..]);
      PiecesConcat(t[1..]);
      ConcatExtendFirst(t[0], r);
      assert t == [t[0]] + t[1..];
    }
  }

  lemma ConcatExtendFirst(c: char, r: seq<string>)
    requires |r| >= 1
    ensures Concat([[c] + r[0]] + r[1..]) == [c] + Concat(r)
  {
    var q := [[c] + r[0]] + r[1..];
    assert q[1..] == r[1..];
    assert Concat(r) == r[0] + Concat(r[1..]);
  }

  /** Every piece but the last ends with a delimiter. */
  predicate CutAtStops(r: seq<string>) {
    forall k :: 0 <= k < |r| - 1 ==> EndsAtStop(r[k])
  }

  /** Every piece but the last ends with the delimiter that cut it off. */
  lemma {:induction false} PiecesEndAtStop(t: string)
    ensures CutAtStops(Pieces(t))
    decreases |t|
  {
    if t == [] {
    } else if IsStop(t[0]) && (|t| == 1 || IsSpace(t[1])) {
      var n := if |t| == 1 then 1 else 2;
      PiecesEndAtStop(t[n..]);
      CutPrepend(t[..n], Pieces(t[n..]));
    } else {
      PiecesEndAtStop(t[1..]);
      CutExtendFirst(t[0], Pieces(t[1..]));
    }
  }

  lemma CutPrepend(d: string, r: seq<string>)
    requires EndsAtStop(d) && CutAtStops(r)
    ensures CutAtStops([d] + r)
  {
    assert forall k :: 1 <= k < |r| + 1 ==> ([d] + r)[k] == r[k - 1];
  }

  lemma CutExtendFirst(c: char, r: seq<string>)
    requires |r| >= 1 && CutAtStops(r)
    ensures CutAtStops([[c] + r[0]] + r[1..])
  {
    var q := [[c] + r[0]] + r[1..];
    if |r| > 1 {
      EndsAtStopCons(c, r[0]);
    }
    assert forall k :: 1 <= k < |q| ==> q[k] == r[k];
  }

  lemma EndsAtStopCons(c: char, p: string)
    requires EndsAtStop(p)
    ensures EndsAtStop([c] + p)
  {
    var q := [c] + p;
    assert q[|q| - 1] == p[|p| - 1];
    if |p| >= 2 {
      assert q[|q| - 2] == p[|p| - 2];
    }
  }

  /** The ellipsis hidden as the placeholder. */
  function MaskEllipsis(text: string): string
  {
    ReplaceAll(text, Ellipsis, Mask)
  }

  /** The placeholder turned back into an ellipsis. */
  function Restore(s: string): string
  {
    ReplaceAll(s, Mask, Ellipsis)
  }

  /** A piece that is blank once stripped is dropped; any other is unmasked and stripped. */
  function CleanOf(p: string): seq<string>
  {
    if Strip(p) != [] then [Strip(Restore(p))] else []
  }

  /** `[s.replace('<ELLIPSIS>', '...').strip() for s in pieces if s.strip()]` */
  function Cleanup(ps: seq<string>): seq<string>
  {
    if ps == [] then [] else CleanOf(ps[0]) + Cleanup(ps[1..])
  }

  /** `split_into_sentences`. */
  function SplitIntoSentences(text: string): seq<string>
  {
    Cleanup(Pieces(MaskEllipsis(text)))
  }

  lemma MaskChars()
    ensures forall c :: c in Mask ==> c == '<' || c == '>' || IsUpper(c)
    ensures Mask[0] !in Mask[1..]
  {
  }

  /** No "..." is left in the text that is cut, so no cut falls inside an ellipsis. */
  lemma MaskedHasNoEllipsis(text: string)
    ensures !Contains(MaskEllipsis(text), Ellipsis)
  {
    MaskChars();
    ReplaceGone(text, Ellipsis, Mask);
  }

  /** A sentence as the splitter returns it: non-empty, no whitespace at either end. */
  predicate IsSentence(s: string) {
    s != [] && IsStripped(s)
  }

  predicate AllSentences(ss: seq<string>) {
    forall k :: 0 <= k < |ss| ==> IsSentence(ss[k])
  }

  lemma AllSentencesConcat(a: seq<string>, b: seq<string>)
    requires AllSentences(a) && AllSentences(b)
    ensures AllSentences(a + b)
  {
    assert forall k :: |a| <= k < |a + b| ==> (a + b)[k] == b[k - |a|];
  }

  /** Unmasking and stripping a non-blank piece gives a non-empty stripped sentence. */
  lemma CleanPiece(p: string)
    ensures AllSentences(CleanOf(p))
  {
    if Strip(p) != [] {
      StripProps(p);
      ReplaceNonBlank(p, Mask, Ellipsis);
      StripProps(Restore(p));
    }
  }

  lemma {:induction false} CleanupClean(ps: seq<string>)
    ensures AllSentences(Cleanup(ps))
  {
    if ps != [] {
      CleanupClean(ps[1..]);
      CleanPiece(ps[0]);
      AllSentencesConcat(CleanOf(ps[0]), Cleanup(ps[1..]));
    }
  }

  /** Every sentence is non-empty and has no whitespace at either end. */
  lemma SentencesClean(text: string)
    ensures AllSentences(SplitIntoSentences(text))
  {
    CleanupClean(Pieces(MaskEllipsis(text)));
  }

  /** A sentence that ends with `.`, `!` or `?`. */
  predicate EndsWithStop(s: string) {
    s != [] && IsStop(s[|s| - 1])
  }

  /** Every sentence but the last ends with a stop. */
  predicate StopsBeforeLast(ss: seq<string>) {
    forall k :: 0 <= k < |ss| - 1 ==> EndsWithStop(ss[k])
  }

  /** Unmasking keeps a final delimiter. */
  lemma RestoreEndsAtStop(p: string)
    requires EndsAtStop(p)
    ensures EndsAtStop(Restore(p))
  {
    MaskChars();
    if IsStop(p[|p| - 1]) {
      assert p == p[..|p| - 1] + [p[|p| - 1]];
      ReplaceSnocForeign(p[..|p| - 1], p[|p| - 1], Mask, Ellipsis);
    } else {
      var x := p[..|p| - 2];
      var d, w := p[|p| - 2], p[|p| - 1];
      assert p == (x + [d]) + [w];
      ReplaceSnocForeign(x, d, Mask, Ellipsis);
      ReplaceSnocForeign(x + [d], w, Mask, Ellipsis);
      var q := ReplaceAll(x, Mask, Ellipsis);
      assert Restore(p) == q + [d] + [w];
    }
  }

  /** A piece that ends with a delimiter is kept, and its sentence ends with the stop character. */
  lemma StopSurvives(p: string)
    requires EndsAtStop(p)
    ensures |CleanOf(p)| == 1 && EndsWithStop(CleanOf(p)[0])
  {
    RestoreEndsAtStop(p);
    StopStrip(p);
    StopStrip(Restore(p));
  }

  /** `strip()` keeps a final stop character, dropping at most the one space after it. */
  lemma StopStrip(s: string)
    requires EndsAtStop(s)
    ensures Strip(s) != [] && EndsWithStop(Strip(s))
  {
    var pos := if IsStop(s[|s| - 1]) then |s| - 1 else |s| - 2;
    KeptByLeftStrip(s, pos);
    var l := StripLeft(s);
    assert Strip(s) == StripRight(l);
    LeftStripKeepsEnd(s, l, pos);
    EndsWithStopRight(l);
  }

  lemma LeftStripKeepsEnd(s: string, l: string, pos: nat)
    requires EndsAtStop(s) && pos == (if IsStop(s[|s| - 1]) then |s| - 1 else |s| - 2)
    requires |s| - pos <= |l| <= |s| && l == s[|s| - |l|..]
    ensures EndsAtStop(l)
  {
    assert l[|l| - 1] == s[|s| - 1];
    if |l| >= 2 {
      assert l[|l| - 2] == s[|s| - 2];
    }
  }

  lemma EndsWithStopRight(l: string)
    requires EndsAtStop(l)
    ensures StripRight(l) != [] && EndsWithStop(StripRight(l))
  {
    if IsStop(l[|l| - 1]) {
      StopAtEnd(l);
    } else {
      StopThenSpace(l);
    }
  }

  /** `lstrip()` stops at the first non-space character. */
  lemma KeptByLeftStrip(s: string, pos: nat)
    requires pos < |s| && !IsSpace(s[pos])
    ensures |StripLeft(s)| >= |s| - pos && StripLeft(s) == s[LeadingSpaces(s)..]
  {
  }

  lemma StopAtEnd(l: string)
    requires l != [] && IsStop(l[|l| - 1])
    ensures StripRight(l) == l
  {
    assert TrailingSpaces(l) == 0;
  }

  lemma StopThenSpace(l: string)
    requires |l| >= 2 && IsStop(l[|l| - 2]) && IsSpace(l[|l| - 1])
    ensures StripRight(l) == l[..|l| - 1]
  {
    var l' := l[..|l| - 1];
    assert l'[|l'| - 1] == l[|l| - 2];
    assert TrailingSpaces(l') == 0;
    assert TrailingSpaces(l) == 1;
  }

  lemma {:induction false} CleanupEndsAtStop(ps: seq<string>)
    requires CutAtStops(ps)
    ensures StopsBeforeLast(Cleanup(ps))
  {
    if |ps| > 1 {
      var rest := ps[1..];
      assert forall k :: 0 <= k < |rest| - 1 ==> rest[k] == ps[k + 1];
      CleanupEndsAtStop(rest);
      StopSurvives(ps[0]);
      StopsPrepend(CleanOf(ps[0])[0], Cleanup(rest));
      assert CleanOf(ps[0]) == [CleanOf(ps[0])[0]];
    }
  }

  lemma StopsPrepend(x: string, r: seq<string>)
    requires EndsWithStop(x) && StopsBeforeLast(r)
    ensures StopsBeforeLast([x] + r)
  {
    assert forall k :: 1 <= k < |r| + 1 ==> ([x] + r)[k] == r[k - 1];
  }

  /** Every sentence but the last ends with `.`, `!` or `?`. */
  lemma SentencesEndAtStop(text: string)
    ensures StopsBeforeLast(SplitIntoSentences(text))
  {
    PiecesEndAtStop(MaskEllipsis(text));
    CleanupEndsAtStop(Pieces(MaskEllipsis(text)));
  }

  /** The text with its whitespace deleted. */
  function DropSpaces(s: string): string
  {
    if s == [] then [] else (if IsSpace(s[0]) then [] else [s[0]]) + DropSpaces(s[1..])
  }

  lemma {:induction false} DropSpacesConcat(a: string, b: string)
    ensures DropSpaces(a + b) == DropSpaces(a) + DropSpaces(b)
    decreases |a|
  {
    if a != [] {
      assert (a + b)[0] == a[0] && (a + b)[1..] == a[1..] + b;
      DropSpacesConcat(a[1..], b);
    } else {
      assert a + b == b;
    }
  }

  lemma {:induction false} DropSpacesAllSpace(s: string)
    requires forall k :: 0 <= k < |s| ==> IsSpace(s[k])
    ensures DropSpaces(s) == []
    decreases |s|
  {
    if s != [] {
      assert forall k :: 0 <= k < |s| - 1 ==> s[1..][k] == s[k + 1];
      DropSpacesAllSpace(s[1..]);
    }
  }

  lemma DropSpacesBlank(s: string)
    requires IsBlank(s)
    ensures DropSpaces(s) == []
  {
    assert forall k :: 0 <= k < |s| ==> s[k] in s;
    DropSpacesAllSpace(s);
  }

  lemma DropSpacesLeft(s: string)
    ensures DropSpaces(StripLeft(s)) == DropSpaces(s)
  {
    var r := StripLeft(s);
    var f := s[..|s| - |r|];
    assert s == f + r;
    DropSpacesAllSpace(f);
    DropSpacesConcat(f, r);
  }

  lemma DropSpacesRight(s: string)
    ensures DropSpaces(StripRight(s)) == DropSpaces(s)
  {
    var r := StripRight(s);
    var b := s[|r|..];
    assert s == r + b;
    assert forall k :: 0 <= k < |b| ==> b[k] == s[|r| + k];
    DropSpacesAllSpace(b);
    DropSpacesConcat(r, b);
  }

  /** `strip()` removes whitespace only. */
  lemma DropSpacesStrip(s: string)
    ensures DropSpaces(Strip(s)) == DropSpaces(s)
  {
    DropSpacesLeft(s);
    DropSpacesRight(StripLeft(s));
  }

  /** Every piece unmasked. */
  function Restored(ps: seq<string>): (r: seq<string>)
  {
    if ps == [] then [] else [Restore(ps[0])] + Restored(ps[1..])
  }

  /** A dropped piece is blank and a kept one loses only whitespace. */
  lemma CleanOfDrops(p: string)
    ensures DropSpaces(Concat(CleanOf(p))) == DropSpaces(Restore(p))
  {
    if Strip(p) == [] {
      StripBlank(p);
      ReplaceBlank(p, Mask, Ellipsis);
      DropSpacesBlank(p);
    } else {
      var x := Strip(Restore(p));
      assert CleanOf(p) == [x];
      ConcatSingle(x);
      DropSpacesStrip(Restore(p));
    }
  }

  lemma {:induction false} CleanupDrops(ps: seq<string>)
    ensures DropSpaces(Concat(Cleanup(ps))) == DropSpaces(Concat(Restored(ps)))
  {
    if ps != [] {
      var p := ps[0];
      CleanupDrops(ps[1..]);
      CleanOfDrops(p);
      ConcatAppend(CleanOf(p), Cleanup(ps[1..]));
      DropSpacesConcat(Concat(CleanOf(p)), Concat(Cleanup(ps[1..])));
      assert Restored(ps) == [Restore(p)] + Restored(ps[1..]);
      assert Concat(Restored(ps)) == Restore(p) + Concat(Restored(ps[1..]));
      DropSpacesConcat(Restore(p), Concat(Restored(ps[1..])));
    }
  }

  lemma {:induction false} ConcatAppend(a: seq<string>, b: seq<string>)
    ensures Concat(a + b) == Concat(a) + Concat(b)
  {
    if a == [] {
      assert a + b == b;
    } else {
      assert (a + b)[0] == a[0] && (a + b)[1..] == a[1..] + b;
      ConcatAppend(a[1..], b);
    }
  }

  lemma ConcatSingle(x: string)
    ensures Concat([x]) == x
  {
    assert [x][1..] == [];
  }

  lemma LastNotInMask(p: string)
    requires EndsAtStop(p)
    ensures p != [] && p[|p| - 1] !in Mask
  {
    MaskChars();
  }

  /** Unmasking piece by piece is unmasking the whole: no placeholder straddles a cut. */
  lemma {:induction false} RestoreConcat(ps: seq<string>)
    requires CutAtStops(ps)
    ensures Restore(Concat(ps)) == Concat(Restored(ps))
  {
    if |ps| == 1 {
      assert ps == [ps[0]];
      assert Restored(ps) == [Restore(ps[0])] + Restored([]);
      ConcatSingle(ps[0]);
      ConcatSingle(Restore(ps[0]));
    } else if |ps| > 1 {
      var rest := ps[1..];
      assert forall k :: 0 <= k < |rest| - 1 ==> rest[k] == ps[k + 1];
      RestoreConcat(rest);
      LastNotInMask(ps[0]);
      ReplaceConcat(ps[0], Concat(rest), Mask, Ellipsis);
      assert Restored(ps) == [Restore(ps[0])] + Restored(rest);
      assert Concat(Restored(ps)) == Restore(ps[0]) + Concat(Restored(rest));
    }
  }

  /**
   * Nothing but whitespace is lost: the sentences written one after the
   * other are the input up to whitespace, for any input that does not
   * itself hold the placeholder.
   */
  lemma SentencesKeepContent(text: string)
    requires !Contains(text, Mask)
    ensures DropSpaces(Concat(SplitIntoSentences(text))) == DropSpaces(text)
  {
    var m := MaskEllipsis(text);
    var ps := Pieces(m);
    CleanupDrops(ps);
    PiecesEndAtStop(m);
    RestoreConcat(ps);
    PiecesConcat(m);
    MaskChars();
    MaskRoundTrip(text, Ellipsis, Mask);
  }

  // ---------------------------------------------------------------------
  // chunk_sentences: the line loop
  // ---------------------------------------------------------------------

  /** A well-formed input line: its topic and the sentences of its paragraph. */
  datatype Parsed = Parsed(topic: string, sentences: seq<string>)

  /**
   * One input line: stripped, skipped when blank or when it does not hold
   * exactly two tab-separated fields; the topic is cut at its first `:`.
   */
  function ParseLine(line: string): Option<Parsed>
  {
    var l := Strip(line);
    if l == [] then None
    else
      var parts := SplitChar(l, '\t');
      if |parts| != 2 then None
      else Some(Parsed(BeforeFirst(parts[0], ':'), SplitIntoSentences(parts[1])))
  }

  /**
   * A line is used exactly when, stripped, it is non-empty and holds one
   * tab; the topic is then the first field up to its first colon and the
   * sentences are those of the text after the tab.
   */
  lemma ParseLineShape(line: string)
    ensures var l := Strip(line);
            ParseLine(line).Some? <==> l != [] && multiset(l)['\t'] == 1
    ensures var l := Strip(line);
            var f := BeforeFirst(l, '\t');
            ParseLine(line).Some? ==>
              && |f| < |l| && l == f + "\t" + l[|f| + 1..] && '\t' !in l[|f| + 1..]
              && ParseLine(line).value.topic == BeforeFirst(f, ':')
              && ParseLine(line).value.sentences == SplitIntoSentences(l[|f| + 1..])
  {
    var l := Strip(line);
    SplitCharCount(l, '\t');
    if l != [] && |SplitChar(l, '\t')| == 2 {
      TwoFields(l, '\t');
    }
  }

  /** One sentence with the topic of its line. */
  datatype Entry = Entry(topic: string, sentence: string)

  function Tagged(topic: string, ss: seq<string>): (r: seq<Entry>)
  {
    seq(|ss|, k requires 0 <= k < |ss| => Entry(topic, ss[k]))
  }

  /** The sentences of one line, in order, or none for a skipped line. */
  function LineEntries(line: string): seq<Entry>
  {
    match ParseLine(line)
    case None => []
    case Some(p) => Tagged(p.topic, p.sentences)
  }

  /** The sentences of all lines, line after line. */
  function AllEntries(lines: seq<string>): seq<Entry>
  {
    if lines == [] then []
    else AllEntries(lines[..|lines| - 1]) + LineEntries(lines[|lines| - 1])
  }

  /** The loop state: the set of sentences seen and the entries written. */
  datatype Chunk = Chunk(visited: set<string>, written: seq<Entry>)

  const Start := Chunk({}, [])

  // The per-sentence `strip()` of the loop is the parameter `trim` of the
  // members below; ChunkSentences passes Strip. Keeping it a parameter keeps
  // the definition of Strip out of the proofs about the loop.

  /** One sentence offered to the writer. */
  function Offer(st: Chunk, e: Entry, doUnique: bool, trim: string -> string): Chunk
  {
    var sent := trim(e.sentence);
    if doUnique && sent in st.visited then st
    else if sent != [] then Chunk(st.visited + {sent}, st.written + [Entry(e.topic, sent)])
    else st
  }

  /** The sentences offered one after the other. */
  function Feed(st: Chunk, es: seq<Entry>, doUnique: bool, trim: string -> string): Chunk
  {
    if es == [] then st
    else Offer(Feed(st, es[..|es| - 1], doUnique, trim), es[|es| - 1], doUnique, trim)
  }

  /** The output line of one entry. */
  function Render(e: Entry, keepTopic: bool): string
  {
    if keepTopic then e.topic + "\t" + e.sentence else e.sentence
  }

  function RenderAll(ws: seq<Entry>, keepTopic: bool): seq<string>
  {
    seq(|ws|, k requires 0 <= k < |ws| => Render(ws[k], keepTopic))
  }

  lemma FeedSnoc(es: seq<Entry>, e: Entry, doUnique: bool, trim: string -> string)
    ensures Feed(Start, es + [e], doUnique, trim) == Offer(Feed(Start, es, doUnique, trim), e, doUnique, trim)
  {
    assert (es + [e])[..|es|] == es;
  }

  lemma TaggedSnoc(topic: string, ss: seq<string>, j: nat)
    requires j < |ss|
    ensures Tagged(topic, ss[..j + 1]) == Tagged(topic, ss[..j]) + [Entry(topic, ss[j])]
  {
  }

  lemma RenderSnoc(ws: seq<Entry>, e: Entry, keepTopic: bool)
    ensures RenderAll(ws + [e], keepTopic) == RenderAll(ws, keepTopic) + [Render(e, keepTopic)]
  {
  }

  lemma AllEntriesSnoc(lines: seq<string>, i: nat)
    requires i < |lines|
    ensures AllEntries(lines[..i + 1]) == AllEntries(lines[..i]) + LineEntries(lines[i])
  {
    assert lines[..i + 1][..i] == lines[..i];
  }

  /** The inner loop: the sentences of one line offered in order. */
  method OfferSentences(visited0: set<string>, out0: seq<string>, ghost before: seq<Entry>,
                        topic: string, sentences: seq<string>, keepTopic: bool, doUnique: bool,
                        trim: string -> string)
    returns (visited: set<string>, out: seq<string>)
    requires visited0 == Feed(Start, before, doUnique, trim).visited
    requires out0 == RenderAll(Feed(Start, before, doUnique, trim).written, keepTopic)
    ensures visited == Feed(Start, before + Tagged(topic, sentences), doUnique, trim).visited
    ensures out == RenderAll(Feed(Start, before + Tagged(topic, sentences), doUnique, trim).written, keepTopic)
  {
    visited, out := visited0, out0;
    assert before + Tagged(topic, sentences[..0]) == before;
    for j := 0 to |sentences|
      invariant visited == Feed(Start, before + Tagged(topic, sentences[..j]), doUnique, trim).visited
      invariant out == RenderAll(Feed(Start, before + Tagged(topic, sentences[..j]), doUnique, trim).written, keepTopic)
    {
      ghost var prev := before + Tagged(topic, sentences[..j]);
      TaggedSnoc(topic, sentences, j);
      assert before + Tagged(topic, sentences[..j + 1]) == prev + [Entry(topic, sentences[j])];
      FeedSnoc(prev, Entry(topic, sentences[j]), doUnique, trim);
      var sent := trim(sentences[j]);
      if doUnique && sent in visited {
        continue;
      }
      if sent != [] {
        visited := visited + {sent};
        RenderSnoc(Feed(Start, prev, doUnique, trim).written, Entry(topic, sent), keepTopic);
        out := out + [Render(Entry(topic, sent), keepTopic)];
      }
    }
    assert sentences[..|sentences|] == sentences;
  }

  /** The whole script: the output lines for the input lines. */
  method ChunkSentences(lines: seq<string>, keepTopic: bool, doUnique: bool) returns (out: seq<string>)
    ensures out == RenderAll(Feed(Start, AllEntries(lines), doUnique, Strip).written, keepTopic)
  {
    var visited: set<string> := {};
    out := [];
    for i := 0 to |lines|
      invariant visited == Feed(Start, AllEntries(lines[..i]), doUnique, Strip).visited
      invariant out == RenderAll(Feed(Start, AllEntries(lines[..i]), doUnique, Strip).written, keepTopic)
    {
      AllEntriesSnoc(lines, i);
      var parsed := ParseLine(lines[i]);
      if parsed.None? {
        assert LineEntries(lines[i]) == [];
        assert AllEntries(lines[..i + 1]) == AllEntries(lines[..i]);
        continue;
      }
      assert LineEntries(lines[i]) == Tagged(parsed.value.topic, parsed.value.sentences);
      visited, out := OfferSentences(visited, out, AllEntries(lines[..i]),
                                     parsed.value.topic, parsed.value.sentences, keepTopic, doUnique, Strip);
    }
    assert lines[..|lines|] == lines;
  }

  // ---------------------------------------------------------------------
  // What the line loop writes
  // ---------------------------------------------------------------------

  /** The non-empty trimmed sentences among the entries. */
  function Seen(es: seq<Entry>, trim: string -> string): set<string>
  {
    set k | 0 <= k < |es| && trim(es[k].sentence) != [] :: trim(es[k].sentence)
  }

  function SentencesOf(ws: seq<Entry>): set<string>
  {
    set k | 0 <= k < |ws| :: ws[k].sentence
  }

  lemma SeenSnoc(es: seq<Entry>, e: Entry, trim: string -> string)
    ensures Seen(es + [e], trim) == Seen(es, trim) + (if trim(e.sentence) != [] then {trim(e.sentence)} else {})
  {
    var t := es + [e];
    assert forall k :: 0 <= k < |es| ==> t[k] == es[k];
    assert t[|es|] == e;
  }

  lemma SentencesOfSnoc(ws: seq<Entry>, w: Entry)
    ensures SentencesOf(ws + [w]) == SentencesOf(ws) + {w.sentence}
  {
    var t := ws + [w];
    assert forall k :: 0 <= k < |ws| ==> t[k] == ws[k];
    assert t[|ws|] == w;
  }

  /**
   * The set of seen sentences is exactly the set of non-empty trimmed
   * sentences offered so far, and exactly the set of sentences written:
   * with or without de-duplication every sentence is recorded.
   */
  lemma {:induction false} FeedVisited(es: seq<Entry>, doUnique: bool, trim: string -> string)
    ensures Feed(Start, es, doUnique, trim).visited == Seen(es, trim)
    ensures Feed(Start, es, doUnique, trim).visited == SentencesOf(Feed(Start, es, doUnique, trim).written)
  {
    if es != [] {
      var prev, e := es[..|es| - 1], es[|es| - 1];
      assert es == prev + [e];
      FeedVisited(prev, doUnique, trim);
      SeenSnoc(prev, e, trim);
      var st := Feed(Start, prev, doUnique, trim);
      var sent := trim(e.sentence);
      if !(doUnique && sent in st.visited) && sent != [] {
        SentencesOfSnoc(st.written, Entry(e.topic, sent));
      }
    }
  }

  /**
   * Reference for the de-duplicating mode: an entry is written, trimmed,
   * exactly when its trimmed sentence is non-empty and no earlier entry
   * had it.
   */
  function FirstOccurrences(es: seq<Entry>, trim: string -> string): seq<Entry>
  {
    if es == [] then []
    else
      var prev, e := es[..|es| - 1], es[|es| - 1];
      var sent := trim(e.sentence);
      FirstOccurrences(prev, trim) + (if sent != [] && sent !in Seen(prev, trim) then [Entry(e.topic, sent)] else [])
  }

  /** Reference for the mode without de-duplication: every non-empty trimmed sentence. */
  function NonEmpty(es: seq<Entry>, trim: string -> string): seq<Entry>
  {
    if es == [] then []
    else
      var prev, e := es[..|es| - 1], es[|es| - 1];
      var sent := trim(e.sentence);
      NonEmpty(prev, trim) + (if sent != [] then [Entry(e.topic, sent)] else [])
  }

  lemma {:induction false} UniqueWritesFirstOccurrences(es: seq<Entry>, trim: string -> string)
    ensures Feed(Start, es, true, trim).written == FirstOccurrences(es, trim)
  {
    if es != [] {
      var prev := es[..|es| - 1];
      UniqueWritesFirstOccurrences(prev, trim);
      FeedVisited(prev, true, trim);
    }
  }

  lemma {:induction false} AllWritesNonEmpty(es: seq<Entry>, trim: string -> string)
    ensures Feed(Start, es, false, trim).written == NonEmpty(es, trim)
  {
    if es != [] {
      AllWritesNonEmpty(es[..|es| - 1], trim);
    }
  }

  predicate Distinct(ws: seq<Entry>) {
    forall a, b :: 0 <= a < b < |ws| ==> ws[a].sentence != ws[b].sentence
  }

  lemma DistinctSnoc(ws: seq<Entry>, w: Entry)
    requires Distinct(ws) && w.sentence !in SentencesOf(ws)
    ensures Distinct(ws + [w])
  {
    var t := ws + [w];
    forall a, b | 0 <= a < b < |t|
      ensures t[a].sentence != t[b].sentence
    {
      if b == |ws| {
        assert t[a].sentence == ws[a].sentence;
      }
    }
  }

  lemma FirstOccurrencesSame(es: seq<Entry>, trim: string -> string)
    requires es != []
    requires var sent := trim(es[|es| - 1].sentence); sent == [] || sent in Seen(es[..|es| - 1], trim)
    ensures FirstOccurrences(es, trim) == FirstOccurrences(es[..|es| - 1], trim)
  {
  }

  /** The first occurrences are pairwise different and cover every seen sentence. */
  lemma {:induction false} FirstOccurrencesDistinct(es: seq<Entry>, trim: string -> string)
    ensures Distinct(FirstOccurrences(es, trim))
    ensures SentencesOf(FirstOccurrences(es, trim)) == Seen(es, trim)
  {
    if es != [] {
      var prev, e := es[..|es| - 1], es[|es| - 1];
      assert es == prev + [e];
      FirstOccurrencesDistinct(prev, trim);
      SeenSnoc(prev, e, trim);
      var sent := trim(e.sentence);
      if sent != [] && sent !in Seen(prev, trim) {
        DistinctSnoc(FirstOccurrences(prev, trim), Entry(e.topic, sent));
        SentencesOfSnoc(FirstOccurrences(prev, trim), Entry(e.topic, sent));
      } else {
        FirstOccurrencesSame(es, trim);
      }
    }
  }

  /** Every entry holds a sentence and a topic without a colon or a tab. */
  predicate CleanEntries(es: seq<Entry>) {
    forall k :: 0 <= k < |es| ==> IsSentence(es[k].sentence) && ':' !in es[k].topic && '\t' !in es[k].topic
  }

  lemma PrefixChars(p: string, s: string, c: char)
    requires p <= s && c !in s
    ensures c !in p
  {
  }

  lemma LineEntriesClean(line: string)
    ensures CleanEntries(LineEntries(line))
  {
    match ParseLine(line)
    case None =>
    case Some(p) =>
      var parts := SplitChar(Strip(line), '\t');
      PrefixChars(p.topic, parts[0], '\t');
      SentencesClean(parts[1]);
  }

  lemma {:induction false} AllEntriesClean(lines: seq<string>)
    ensures CleanEntries(AllEntries(lines))
  {
    if lines != [] {
      AllEntriesClean(lines[..|lines| - 1]);
      LineEntriesClean(lines[|lines| - 1]);
    }
  }

  /** Trimming leaves every sentence of these entries as it is. */
  predicate TrimKeeps(es: seq<Entry>, trim: string -> string) {
    forall k :: 0 <= k < |es| ==> trim(es[k].sentence) == es[k].sentence != []
  }

  lemma CleanTrimKeeps(es: seq<Entry>)
    requires CleanEntries(es)
    ensures TrimKeeps(es, Strip)
  {
    forall k | 0 <= k < |es|
      ensures Strip(es[k].sentence) == es[k].sentence != []
    {
      StrippedIsFixpoint(es[k].sentence);
    }
  }

  lemma NonEmptyStep(es: seq<Entry>, trim: string -> string)
    requires es != [] && TrimKeeps(es, trim)
    ensures TrimKeeps(es[..|es| - 1], trim)
    ensures NonEmpty(es[..|es| - 1], trim) == es[..|es| - 1] ==> NonEmpty(es, trim) == es
  {
    var prev, e := es[..|es| - 1], es[|es| - 1];
    forall k | 0 <= k < |prev|
      ensures trim(prev[k].sentence) == prev[k].sentence != []
    {
      assert prev[k] == es[k];
    }
    assert trim(e.sentence) == e.sentence != [];
    assert NonEmpty(es, trim) == NonEmpty(prev, trim) + [e];
    LastSplit(es);
  }

  lemma LastSplit<T>(s: seq<T>)
    requires s != []
    ensures s[..|s| - 1] + [s[|s| - 1]] == s
  {
  }

  lemma {:induction false} NonEmptyKept(es: seq<Entry>, trim: string -> string)
    requires TrimKeeps(es, trim)
    ensures NonEmpty(es, trim) == es
  {
    if es != [] {
      NonEmptyStep(es, trim);
      NonEmptyKept(es[..|es| - 1], trim);
    }
  }

  /**
   * Without de-duplication every sentence of every well-formed line is
   * written, in input order, with its line's topic.
   */
  lemma WritesEverySentence(lines: seq<string>)
    ensures Feed(Start, AllEntries(lines), false, Strip).written == AllEntries(lines)
  {
    AllWritesNonEmpty(AllEntries(lines), Strip);
    AllEntriesClean(lines);
    CleanTrimKeeps(AllEntries(lines));
    NonEmptyKept(AllEntries(lines), Strip);
  }

  /**
   * With de-duplication the sentences written are pairwise different, each
   * is the first occurrence of its text, and every sentence of the input is
   * among them.
   */
  lemma WritesEachSentenceOnce(lines: seq<string>)
    ensures var w := Feed(Start, AllEntries(lines), true, Strip).written;
            && w == FirstOccurrences(AllEntries(lines), Strip)
            && Distinct(w)
            && SentencesOf(w) == Seen(AllEntries(lines), Strip)
  {
    UniqueWritesFirstOccurrences(AllEntries(lines), Strip);
    FirstOccurrencesDistinct(AllEntries(lines), Strip);
  }

  /** With the topic kept, the topic is the text before the line's first tab and the sentence the rest. */
  lemma RenderSplitsBack(e: Entry)
    requires '\t' !in e.topic
    ensures var r := Render(e, true);
            && BeforeFirst(r, '\t') == e.topic && r[|e.topic| + 1..] == e.sentence
  {
    BeforeFirstOfSeparated(e.topic, '\t', e.sentence);
  }
}
