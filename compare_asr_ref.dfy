/**
 * The reference-versus-ASR comparison step (`batch_compare_asr_ref.py`):
 * text normalisation, word and character-bigram sets, Jaccard similarity
 * as an exact ratio, reference purification, the per-record score and
 * filter decision, and the loop that splits records into kept and deleted
 * lists, optionally sorted by character similarity.
 */
module CompareAsrRef {
  import opened Wrappers
  import opened Strings
  import opened Replace
  import opened Json
  import opened Sorting

  // ---------------------------------------------------------------------
  // clean_text
  // ---------------------------------------------------------------------

  /** The class `[.,!?;:"'’-]` that the first substitution turns into spaces. */
  predicate IsPunct(c: char) {
    || c == '.' || c == ',' || c == '!' || c == '?' || c == ';' || c == ':'
    || c == '"' || c == '\'' || c == '\U{2019}' || c == '-'
  }

  function PunctToSpace(s: string): string
  {
    seq(|s|, i requires 0 <= i < |s| => if IsPunct(s[i]) then ' ' else s[i])
  }

  /**
   * No punctuation mark survives; every character that is not a space is
   * the input's own at that position; a text without punctuation is left
   * as it is; and the substitution is idempotent.
   */
  lemma PunctToSpaceProps(s: string)
    ensures forall c :: c in PunctToSpace(s) ==> !IsPunct(c)
    ensures forall i :: 0 <= i < |s| && PunctToSpace(s)[i] != ' ' ==> PunctToSpace(s)[i] == s[i]
    ensures (forall i :: 0 <= i < |s| ==> !IsPunct(s[i])) ==> PunctToSpace(s) == s
    ensures PunctToSpace(PunctToSpace(s)) == PunctToSpace(s)
  {
  }

  /** `re.sub(r'\s+', ' ', s)`: each maximal whitespace run becomes one space. */
  function CollapseSpace(s: string): (r: string)
    ensures |r| <= |s|
    decreases |s|
  {
    if s == [] then []
    else if IsSpace(s[0]) then [' '] + CollapseSpace(StripLeft(s[1..]))
    else [s[0]] + CollapseSpace(s[1..])
  }

  lemma SingleSpacedCons(c: char, q: string)
    requires SingleSpaced(q) && (IsSpace(c) ==> c == ' ')
    requires c == ' ' ==> q == [] || !IsSpace(q[0])
    ensures SingleSpaced([c] + q)
  {
    var r := [c] + q;
    assert forall i :: 1 <= i < |r| ==> r[i] == q[i - 1];
  }

  lemma SuffixChars(s: string, t: string)
    requires |t| <= |s| && t == s[|s| - |t|..]
    ensures forall c :: c in t ==> c in s
  {
    forall c | c in t ensures c in s {
      var k :| 0 <= k < |t| && t[k] == c;
      assert s[|s| - |t| + k] == c;
    }
  }

  /** The collapsed text keeps emptiness and a leading space, and is single-spaced. */
  lemma {:induction false} CollapseSpaceProps(s: string)
    ensures CollapseSpace(s) == [] <==> s == []
    ensures s != [] ==> (IsSpace(CollapseSpace(s)[0]) <==> IsSpace(s[0]))
    ensures SingleSpaced(CollapseSpace(s))
    ensures forall c :: c in CollapseSpace(s) ==> c in s || c == ' '
    decreases |s|
  {
    if s != [] {
      if IsSpace(s[0]) {
        var t := StripLeft(s[1..]);
        CollapseSpaceProps(t);
        SuffixChars(s[1..], t);
        SuffixChars(s, s[1..]);
        var q := CollapseSpace(t);
        assert q == [] || !IsSpace(q[0]);
        SingleSpacedCons(' ', q);
      } else {
        CollapseSpaceProps(s[1..]);
        SuffixChars(s, s[1..]);
        SingleSpacedCons(s[0], CollapseSpace(s[1..]));
      }
    }
  }

  /** What `clean_text` guarantees of its output. */
  predicate Cleaned(t: string) {
    && (forall c :: c in t ==> !IsUpper(c) && !IsPunct(c))
    && SingleSpaced(t)
    && IsStripped(t)
  }

  /** `clean_text`: punctuation to spaces, whitespace runs to one space, strip, lower-case. */
  function CleanText(text: string): (r: string)
    ensures Cleaned(r)
  {
    var a := PunctToSpace(text);
    var b := CollapseSpace(a);
    var c := Strip(b);
    assert NoPunct(a);
    CleanTextLemma(a, b, c);
    ToLower(c)
  }

  lemma LowerKeepsShape(c: string)
    requires SingleSpaced(c) && IsStripped(c)
    ensures SingleSpaced(ToLower(c)) && IsStripped(ToLower(c))
    ensures forall x :: x in ToLower(c) ==> !IsUpper(x) && (IsPunct(x) ==> x in c)
  {
    var l := ToLower(c);
    assert forall k :: 0 <= k < |c| ==> (IsSpace(l[k]) <==> IsSpace(c[k]));
    assert forall k :: 0 <= k < |c| ==> (l[k] == ' ' <==> c[k] == ' ');
    forall x | x in l ensures !IsUpper(x) && (IsPunct(x) ==> x in c) {
      var k :| 0 <= k < |l| && l[k] == x;
      assert IsPunct(x) ==> x == c[k];
    }
  }

  predicate NoPunct(t: string) {
    forall c :: c in t ==> !IsPunct(c)
  }

  lemma CleanTextLemma(a: string, b: string, c: string)
    requires NoPunct(a)
    requires b == CollapseSpace(a) && c == Strip(b)
    ensures Cleaned(ToLower(c))
  {
    CollapseNoPunct(a);
    StripNoPunct(b);
    LowerCleaned(c);
  }

  lemma CollapseNoPunct(a: string)
    requires NoPunct(a)
    ensures NoPunct(CollapseSpace(a)) && SingleSpaced(CollapseSpace(a))
  {
    CollapseSpaceProps(a);
  }

  lemma StripNoPunct(b: string)
    requires NoPunct(b) && SingleSpaced(b)
    ensures NoPunct(Strip(b)) && SingleSpaced(Strip(b)) && IsStripped(Strip(b))
  {
    StripShape(b);
  }

  lemma LowerCleaned(c: string)
    requires NoPunct(c) && SingleSpaced(c) && IsStripped(c)
    ensures Cleaned(ToLower(c))
  {
    LowerKeepsShape(c);
  }

  /** `strip()` keeps single spacing and takes its characters from its input. */
  lemma StripShape(b: string)
    requires SingleSpaced(b)
    ensures SingleSpaced(Strip(b)) && IsStripped(Strip(b))
    ensures forall x :: x in Strip(b) ==> x in b
  {
    var l := StripLeft(b);
    var c := Strip(b);
    SingleSpacedSlice(b, |b| - |l|, |b|);
    SuffixChars(b, l);
    assert c == l[0..|c|];
    SingleSpacedSlice(l, 0, |c|);
    assert forall k :: 0 <= k < |c| ==> c[k] == l[k];
    StripProps(b);
  }

  lemma {:induction false} CollapseSingleSpaced(s: string)
    requires SingleSpaced(s)
    ensures CollapseSpace(s) == s
    decreases |s|
  {
    if s != [] {
      SingleSpacedSlice(s, 1, |s|);
      if IsSpace(s[0]) {
        if |s| > 1 {
          assert s[0] == ' ' && !(s[0] == ' ' && s[1] == ' ');
          assert !IsSpace(s[1]);
        }
        assert StripLeft(s[1..]) == s[1..];
        CollapseSingleSpaced(s[1..]);
        assert s == [' '] + s[1..];
      } else {
        CollapseSingleSpaced(s[1..]);
        assert s == [s[0]] + s[1..];
      }
    }
  }

  /** A cleaned text is a fixpoint of `clean_text`. */
  lemma CleanedIsFixpoint(t: string)
    requires Cleaned(t)
    ensures CleanText(t) == t
  {
    PunctToSpaceProps(t);
    CollapseSingleSpaced(t);
    StrippedIsFixpoint(t);
    ToLowerProps(t);
  }

  /** `clean_text` is idempotent. */
  lemma CleanTextIdempotent(text: string)
    ensures CleanText(CleanText(text)) == CleanText(text)
  {
    CleanedIsFixpoint(CleanText(text));
  }

  // ---------------------------------------------------------------------
  // get_words, get_chars, get_chars_bigram
  // ---------------------------------------------------------------------

  /** `get_words`: the set of whitespace-separated words of the cleaned text. */
  function Words(text: string): (r: set<string>)
    ensures forall w :: w in r ==> w != [] && ' ' !in w
    ensures forall w :: w in r <==> w in SplitWs(CleanText(text))
  {
    var ws := SplitWs(CleanText(text));
    SplitWsWords(CleanText(text));
    assert forall k :: 0 <= k < |ws| ==> IsWord(ws[k]);
    set k | 0 <= k < |ws| :: ws[k]
  }

  /**
   * The words are those of the cleaned text: joined with single spaces, the
   * words of `split()` give the cleaned text back, and there are none
   * exactly when the cleaned text is empty.
   */
  lemma WordsRejoin(text: string)
    ensures JoinWith(SplitWs(CleanText(text)), " ") == CleanText(text)
    ensures Words(text) == {} <==> CleanText(text) == []
  {
    var c := CleanText(text);
    SplitWsJoin(c);
    SplitWsNone(c);
    if c != [] {
      assert c[0] in c && !IsSpace(c[0]);
      var ws := SplitWs(c);
      assert ws[0] in Words(text);
    }
  }

  /** `clean_text(text).replace(' ', '')`. */
  function SpaceFree(text: string): (u: string)
    ensures ' ' !in u
  {
    ReplaceCharGone(CleanText(text), ' ', []);
    ReplaceAll(CleanText(text), " ", "")
  }

  /** `get_chars`: the set of characters of the space-free cleaned text. */
  function Chars(text: string): (r: set<char>)
    ensures ' ' !in r
    ensures forall c :: c in r <==> c in SpaceFree(text)
  {
    var u := SpaceFree(text);
    set k | 0 <= k < |u| :: u[k]
  }

  function PairAt(u: string, i: nat): string
    requires i + 1 < |u|
  {
    [u[i], u[i + 1]]
  }

  /** The set of contiguous two-character substrings of `u`. */
  function PairsOf(u: string): (r: set<string>)
    ensures forall b :: b in r ==> |b| == 2 && b[0] in u && b[1] in u
    ensures forall i :: 0 <= i < |u| - 1 ==> PairAt(u, i) in r
    ensures forall b :: b in r ==> exists i :: 0 <= i < |u| - 1 && b == PairAt(u, i)
    ensures |u| < 2 ==> r == {}
  {
    set i | 0 <= i < |u| - 1 :: PairAt(u, i)
  }

  /** `get_chars_bigram`: the contiguous pairs of the space-free cleaned text. */
  function Bigrams(text: string): (r: set<string>)
    ensures forall b :: b in r ==> |b| == 2 && ' ' !in b
    ensures r == PairsOf(SpaceFree(text))
  {
    var u := SpaceFree(text);
    var r := PairsOf(u);
    assert forall b :: b in r ==> ' ' !in b by {
      forall b | b in r ensures ' ' !in b {
        assert b == [b[0], b[1]];
      }
    }
    r
  }

  /**
   * Spaces go before pairing, so the pair that straddles a word boundary is
   * a bigram too ("Hello, world!" yields "ow", which the function's own
   * documentation leaves out of its example set).
   */
  lemma BigramsStraddleWords(text: string, w1: string, w2: string)
    requires CleanText(text) == w1 + " " + w2
    requires w1 != [] && w2 != [] && ' ' !in w1 && ' ' !in w2
    ensures [w1[|w1| - 1], w2[0]] in Bigrams(text)
  {
    DropSpaceBetween(w1, w2);
    var u := w1 + w2;
    assert PairAt(u, |w1| - 1) == [w1[|w1| - 1], w2[0]];
  }

  lemma DropSpaceBetween(w1: string, w2: string)
    requires w1 != [] && ' ' !in w1 && ' ' !in w2
    ensures ReplaceAll(w1 + " " + w2, " ", "") == w1 + w2
  {
    var sp: string := [' '];
    var tail := sp + w2;
    assert w1 + " " + w2 == w1 + tail;
    assert w1[|w1| - 1] in w1;
    ReplaceConcat(w1, tail, sp, []);
    ContainsSingle(w1, ' ');
    ReplaceAbsent(w1, sp, []);
    ContainsSingle(w2, ' ');
    ReplaceAbsent(w2, sp, []);
    assert sp <= tail && tail[1..] == w2;
    assert ReplaceAll(tail, sp, []) == ReplaceAll(w2, sp, []);
  }

  // ---------------------------------------------------------------------
  // jaccard_similarity
  // ---------------------------------------------------------------------

  lemma SubsetCard<T>(x: set<T>, y: set<T>)
    requires x <= y
    ensures |x| <= |y|
    ensures |x| == |y| ==> x == y
  {
    assert y == x + (y - x);
    assert x * (y - x) == {};
    assert |y| == |x| + |y - x|;
  }

  /**
   * `jaccard_similarity`: 1 for two empty sets, otherwise |A∩B| / |A∪B|.
   * The source's `else 0.0` fallback is unreachable: a union of sets that
   * are not both empty is never empty.
   */
  function Jaccard<T>(a: set<T>, b: set<T>): (r: real)
    ensures 0.0 <= r <= 1.0
    ensures r == 1.0 <==> a == b
    ensures r == 0.0 <==> (a * b == {} && a + b != {})
    ensures a + b != {} ==> r * (|a + b| as real) == |a * b| as real
  {
    if a == {} && b == {} then 1.0
    else if |a + b| > 0 then
      JaccardCounts(a, b);
      RatioFacts(|a * b|, |a + b|);
      (|a * b| as real) / (|a + b| as real)
    else
      assert false; 0.0
  }

  lemma JaccardCounts<T>(a: set<T>, b: set<T>)
    ensures |a * b| <= |a + b|
    ensures |a * b| == |a + b| <==> a == b
  {
    SubsetCard(a * b, a + b);
    if |a * b| == |a + b| {
      assert forall x :: x in a ==> x in a * b;
      assert forall x :: x in b ==> x in a * b;
    }
    if a == b {
      assert a * b == a + b;
    }
  }

  lemma RatioFacts(i: nat, u: nat)
    requires 0 < u && i <= u
    ensures 0.0 <= (i as real) / (u as real) <= 1.0
    ensures (i as real) / (u as real) == 1.0 <==> i == u
    ensures (i as real) / (u as real) == 0.0 <==> i == 0
    ensures ((i as real) / (u as real)) * (u as real) == i as real
  {
  }

  lemma JaccardSymmetric<T>(a: set<T>, b: set<T>)
    ensures Jaccard(a, b) == Jaccard(b, a)
  {
    assert a * b == b * a && a + b == b + a;
  }

  // ---------------------------------------------------------------------
  // purify_reference
  // ---------------------------------------------------------------------

  const LeftDouble: char := '\U{201C}'
  const RightDouble: char := '\U{201D}'
  const RightSingle: char := '\U{2019}'
  const LeftSingle: char := '\U{2018}'
  const Ellipsis: char := '\U{2026}'
  const EnDash: char := '\U{2013}'
  const EmDash: char := '\U{2014}'

  /** The typographic characters purification rewrites away. */
  predicate IsTypographic(c: char) {
    c == LeftDouble || c == RightDouble || c == RightSingle || c == LeftSingle
    || c == Ellipsis || c == EnDash || c == EmDash
  }

  /** The complement of the invalid-character class: `?&'\–—.!;:a-zA-Z0-9"{},: _-`. */
  predicate IsAllowed(c: char) {
    || c == '?' || c == '&' || c == '\'' || c == '\\' || c == EnDash || c == EmDash
    || c == '.' || c == '!' || c == ';' || c == ':'
    || ('a' <= c <= 'z') || ('A' <= c <= 'Z') || ('0' <= c <= '9')
    || c == '"' || c == '{' || c == '}' || c == ',' || c == ' ' || c == '_' || c == '-'
  }

  datatype Purified = Purified(text: string, isValid: bool)

  /** The first four replacements of `purify_reference`: curly quotes become straight ones. */
  function NormalizeQuotes(text: string): string
  {
    var t1 := ReplaceAll(text, [LeftDouble], "\"");
    var t2 := ReplaceAll(t1, [RightDouble], "\"");
    var t3 := ReplaceAll(t2, [RightSingle], "'");
    ReplaceAll(t3, [LeftSingle], "'")
  }

  /** The next three: the ellipsis character becomes "..." and both dashes become '-'. */
  function NormalizeDashes(text: string): string
  {
    var t5 := ReplaceAll(text, [Ellipsis], "...");
    var t6 := ReplaceAll(t5, [EnDash], "-");
    ReplaceAll(t6, [EmDash], "-")
  }

  /** The eight replacements of `purify_reference`, applied in order. */
  function PurifyText(text: string): string
  {
    ReplaceAll(NormalizeDashes(NormalizeQuotes(text)), "\\n", " ")
  }

  predicate IsCurlyQuote(c: char) {
    c == LeftDouble || c == RightDouble || c == RightSingle || c == LeftSingle
  }

  /**
   * `purify_reference`: the purified text is returned whether or not it is
   * valid, and it is valid exactly when every character is in the allowed class.
   */
  function Purify(text: string): (p: Purified)
    ensures forall c :: c in p.text ==> !IsTypographic(c)
    ensures !Contains(p.text, "\\n")
    ensures p.isValid <==> forall c :: c in p.text ==> IsAllowed(c)
  {
    var t := PurifyText(text);
    PurifyTextClean(text);
    Purified(t, forall c :: c in t ==> IsAllowed(c))
  }

  /** One replacement step: `c` is gone afterwards, and characters kept out so far stay out. */
  lemma ReplaceStep(s: string, c: char, rep: string, out: set<char>)
    requires c !in rep
    requires forall x :: x in out ==> x !in s && x !in rep
    ensures forall x :: x in out + {c} ==> x !in ReplaceAll(s, [c], rep)
  {
    ReplaceChars(s, [c], rep);
    ReplaceCharGone(s, c, rep);
  }

  lemma QuotesGone(text: string)
    ensures forall c :: c in NormalizeQuotes(text) ==> !IsCurlyQuote(c)
  {
    var t1 := ReplaceAll(text, [LeftDouble], "\"");
    var t2 := ReplaceAll(t1, [RightDouble], "\"");
    var t3 := ReplaceAll(t2, [RightSingle], "'");
    ReplaceStep(text, LeftDouble, "\"", {});
    ReplaceStep(t1, RightDouble, "\"", {LeftDouble});
    ReplaceStep(t2, RightSingle, "'", {LeftDouble, RightDouble});
    ReplaceStep(t3, LeftSingle, "'", {LeftDouble, RightDouble, RightSingle});
  }

  lemma DashesGone(t: string)
    requires forall c :: c in t ==> !IsCurlyQuote(c)
    ensures forall c :: c in NormalizeDashes(t) ==> !IsTypographic(c)
  {
    var t5 := ReplaceAll(t, [Ellipsis], "...");
    var t6 := ReplaceAll(t5, [EnDash], "-");
    ReplaceKeeps(t, [Ellipsis], "...", c => !IsCurlyQuote(c));
    ReplaceCharGone(t, Ellipsis, "...");
    ReplaceKeeps(t5, [EnDash], "-", c => !IsCurlyQuote(c) && c != Ellipsis);
    ReplaceCharGone(t5, EnDash, "-");
    ReplaceKeeps(t6, [EmDash], "-", c => !IsCurlyQuote(c) && c != Ellipsis && c != EnDash);
    ReplaceCharGone(t6, EmDash, "-");
  }

  /** A property every input and replacement character has holds of every output character. */
  lemma ReplaceKeeps(s: string, pat: string, rep: string, ok: char -> bool)
    requires pat != []
    requires forall c :: c in s ==> ok(c)
    requires forall c :: c in rep ==> ok(c)
    ensures forall c :: c in ReplaceAll(s, pat, rep) ==> ok(c)
  {
    ReplaceChars(s, pat, rep);
  }

  lemma PurifyTextClean(text: string)
    ensures forall c :: c in PurifyText(text) ==> !IsTypographic(c)
    ensures !Contains(PurifyText(text), "\\n")
  {
    var t7 := NormalizeDashes(NormalizeQuotes(text));
    QuotesGone(text);
    DashesGone(NormalizeQuotes(text));
    ReplaceChars(t7, "\\n", " ");
    ReplacePairGone(t7, '\\', 'n', " ");
  }

  /** Purifying a purified text changes nothing. */
  lemma PurifyIdempotent(text: string)
    ensures Purify(Purify(text).text) == Purify(text)
  {
    var t := Purify(text).text;
    ContainsSingle(t, LeftDouble);
    ReplaceAbsent(t, [LeftDouble], "\"");
    ContainsSingle(t, RightDouble);
    ReplaceAbsent(t, [RightDouble], "\"");
    ContainsSingle(t, RightSingle);
    ReplaceAbsent(t, [RightSingle], "'");
    ContainsSingle(t, LeftSingle);
    ReplaceAbsent(t, [LeftSingle], "'");
    ContainsSingle(t, Ellipsis);
    ReplaceAbsent(t, [Ellipsis], "...");
    ContainsSingle(t, EnDash);
    ReplaceAbsent(t, [EnDash], "-");
    ContainsSingle(t, EmDash);
    ReplaceAbsent(t, [EmDash], "-");
    ReplaceAbsent(t, "\\n", " ");
    assert PurifyText(t) == t;
  }

  // ---------------------------------------------------------------------
  // The score decision of process_comparison
  // ---------------------------------------------------------------------

  /** `ca.startswith(cr) and not cr.startswith(ca)`. */
  predicate ExtendsStrictly(ca: string, cr: string) {
    cr <= ca && !(ca <= cr)
  }

  lemma ExtendsStrictlyMeaning(ca: string, cr: string)
    ensures ExtendsStrictly(ca, cr) <==> |cr| < |ca| && ca[..|cr|] == cr
  {
  }

  datatype Score = Score(simWord: real, simChar: real, trailing: bool)

  /**
   * The four-way decision, in the source's order: an invalid reference, ASR
   * text that strictly extends the reference (only with `detectEndingNoise`),
   * a reference that says "my name is", and otherwise the two Jaccard scores.
   */
  function ScoreRecord(asrText: string, refText: string, isValid: bool, detectEndingNoise: bool): (sc: Score)
    ensures 0.0 <= sc.simWord <= 1.0 && 0.0 <= sc.simChar <= 1.0
    ensures sc.trailing <==>
              isValid && detectEndingNoise && ExtendsStrictly(CleanText(asrText), CleanText(refText))
    ensures !isValid || sc.trailing || Contains(refText, "my name is") ==>
              sc.simWord == 0.0 && sc.simChar == 0.0
    ensures isValid && !sc.trailing && !Contains(refText, "my name is") ==>
              && sc.simWord == Jaccard(Words(asrText), Words(refText))
              && sc.simChar == Jaccard(Bigrams(asrText), Bigrams(refText))
  {
    var ca := CleanText(asrText);
    var cr := CleanText(refText);
    if !isValid then Score(0.0, 0.0, false)
    else if ExtendsStrictly(ca, cr) && detectEndingNoise then Score(0.0, 0.0, true)
    else if Contains(refText, "my name is") then Score(0.0, 0.0, false)
    else Score(Jaccard(Words(asrText), Words(refText)), Jaccard(Bigrams(asrText), Bigrams(refText)), false)
  }

  /** A reference that cleans to nothing is strictly extended by any ASR text that does not. */
  lemma EmptyReferenceCountsAsTrailing(asrText: string, refText: string)
    requires CleanText(refText) == [] && CleanText(asrText) != []
    ensures ScoreRecord(asrText, refText, true, true) == Score(0.0, 0.0, true)
  {
  }

  /** An ASR text identical to a valid reference scores 1 on both measures. */
  lemma IdenticalTextScoresOne(text: string, detectEndingNoise: bool)
    requires !Contains(text, "my name is")
    ensures ScoreRecord(text, text, true, detectEndingNoise) == Score(1.0, 1.0, false)
  {
  }

  /** The filter: kept iff `sim_char >= min_char_sim`, unless a short reference scores below the short-line bar. */
  predicate Keep(simChar: real, refText: string, minCharSim: real, minCharSimShort: real) {
    simChar >= minCharSim && !(simChar < minCharSimShort && |refText| < 16)
  }

  // ---------------------------------------------------------------------
  // Names
  // ---------------------------------------------------------------------

  /** The reference file name: every ".wav" becomes ".txt", then every occurrence of the prefix goes. */
  function RefName(wavName: string, prefix: string): string
  {
    var t := ReplaceAll(wavName, ".wav", ".txt");
    if prefix != [] then ReplaceAll(t, prefix, "") else t
  }

  /**
   * The audio file `prefix + stem + ".wav"` has the reference file
   * `stem + ".txt"`, when ".wav" occurs only at the end of the name and the
   * prefix does not occur again in `stem + ".txt"`.  No ending of the stem
   * matters: no proper prefix of ".wav" is also a suffix of it, so no match
   * can start inside the stem and run into the extension.
   */
  lemma RefNameOfStem(prefix: string, stem: string)
    requires !Contains(prefix + stem, ".wav")
    requires prefix != [] ==> !Contains(stem + ".txt", prefix)
    ensures RefName(prefix + stem + ".wav", prefix) == stem + ".txt"
  {
    WavBecomesTxt(prefix + stem);
    assert prefix + stem + ".txt" == prefix + (stem + ".txt");
    if prefix != [] {
      LeadingPrefixDropped(prefix, stem + ".txt");
    }
  }

  lemma WavBecomesTxt(x: string)
    requires !Contains(x, ".wav")
    ensures ReplaceAll(x + ".wav", ".wav", ".txt") == x + ".txt"
  {
    assert ".wav"[1..] == "wav";
    ReplaceAtEnd(x, ".wav", ".txt");
  }

  lemma LeadingPrefixDropped(prefix: string, u: string)
    requires prefix != [] && !Contains(u, prefix)
    ensures ReplaceAll(prefix + u, prefix, "") == u
  {
    var t := prefix + u;
    assert prefix <= t && t[|prefix|..] == u;
    assert ReplaceAll(t, prefix, "") == "" + ReplaceAll(u, prefix, "");
    ReplaceAbsent(u, prefix, "");
  }

  /** The log of deleted records: ".jsonl" becomes ".deleted.jsonl", or the suffix is appended. */
  function DeletedLogName(outputJsonl: string): (r: string)
    ensures r != outputJsonl
    ensures Contains(r, ".deleted.jsonl")
    ensures !Contains(outputJsonl, ".jsonl") ==> r == outputJsonl + ".deleted.jsonl"
  {
    if Contains(outputJsonl, ".jsonl") then
      ReplaceLength(outputJsonl, ".jsonl", ".deleted.jsonl");
      ReplacementAppears(outputJsonl, ".jsonl", ".deleted.jsonl");
      ReplaceAll(outputJsonl, ".jsonl", ".deleted.jsonl")
    else
      var r := outputJsonl + ".deleted.jsonl";
      ContainsAt(r, |outputJsonl|, ".deleted.jsonl");
      r
  }

  // ---------------------------------------------------------------------
  // process_comparison
  // ---------------------------------------------------------------------

  datatype Params = Params(
    refDir: string,
    sortBySimilarity: bool,
    minCharSim: real,
    minCharSimShort: real,
    detectEndingNoise: bool,
    neglectPrefix: string)

  /** A scored record: the output record and the values the filter and the counter read. */
  datatype Row = Row(out: Record, simChar: real, refText: string, trailing: bool)

  /** What one input line comes to: a scored row, a missing reference, or an exception. */
  datatype Step = Scored(row: Row) | Missing | Malformed

  /** `sim_char` of an output record, the sort key. */
  function SimCharOf(rec: Record): real {
    if "sim_char" in rec && rec["sim_char"].Num? then rec["sim_char"].r else 0.0
  }

  /** The input record with the four fields added or overridden. */
  function Annotate(rec: Record, refText: string, sc: Score, isValid: bool): (out: Record)
    ensures out.Keys == rec.Keys + {"reference_text", "sim_word", "sim_char", "is_valid_reference"}
    ensures forall k :: k in rec && k !in {"reference_text", "sim_word", "sim_char", "is_valid_reference"}
              ==> out[k] == rec[k]
    ensures out["reference_text"] == Str(refText) && out["sim_word"] == Num(sc.simWord)
    ensures out["sim_char"] == Num(sc.simChar) && out["is_valid_reference"] == Bool(isValid)
    ensures SimCharOf(out) == sc.simChar
  {
    rec["reference_text" := Str(refText)]["sim_word" := Num(sc.simWord)]
       ["sim_char" := Num(sc.simChar)]["is_valid_reference" := Bool(isValid)]
  }

  /** The reference path of a line: the joined directory and derived `.txt` name. */
  function RefPath(rec: Record, p: Params): string
    requires "filename" in rec && rec["filename"].Str?
  {
    PathJoin(p.refDir, RefName(rec["filename"].s, p.neglectPrefix))
  }

  /**
   * The lines on which the source raises: no "filename" or no "text" key, a
   * name that is not a string, or, once the reference path exists, a file
   * that cannot be read (`None`: a directory, no permission, invalid UTF-8;
   * only `FileNotFoundError` is caught) or ASR text that is not a string.
   */
  predicate LineFails(rec: Record, files: map<string, Option<string>>, p: Params) {
    || "filename" !in rec || !rec["filename"].Str? || "text" !in rec
    || (RefPath(rec, p) in files && (files[RefPath(rec, p)].None? || !rec["text"].Str?))
  }

  /** Purify the reference, score the line and annotate the record. */
  function ScoreLine(rec: Record, refRaw: string, p: Params): (row: Row)
    requires "text" in rec && rec["text"].Str?
    ensures 0.0 <= row.simChar <= 1.0 && SimCharOf(row.out) == row.simChar
    ensures row.refText == Purify(Strip(refRaw)).text
    ensures row.trailing ==> p.detectEndingNoise && row.simChar == 0.0
    ensures row.out.Keys == rec.Keys + {"reference_text", "sim_word", "sim_char", "is_valid_reference"}
  {
    var pur := Purify(Strip(refRaw));
    var sc := ScoreRecord(rec["text"].s, pur.text, pur.isValid, p.detectEndingNoise);
    Row(Annotate(rec, pur.text, sc, pur.isValid), sc.simChar, pur.text, sc.trailing)
  }

  /** One line of the input: an exception, a missing reference file, or a scored row. */
  function ProcessRecord(rec: Record, files: map<string, Option<string>>, p: Params): (st: Step)
    ensures st.Malformed? <==> LineFails(rec, files, p)
    ensures st.Missing? <==> !LineFails(rec, files, p) && RefPath(rec, p) !in files
    ensures st.Scored? ==> files[RefPath(rec, p)].Some? && st.row == ScoreLine(rec, files[RefPath(rec, p)].value, p)
  {
    if "filename" !in rec || !rec["filename"].Str? || "text" !in rec then Malformed
    else
      var path := RefPath(rec, p);
      if path !in files then Missing
      else if files[path].None? || !rec["text"].Str? then Malformed
      else Scored(ScoreLine(rec, files[path].value, p))
  }

  /** The loop body of `process_comparison` as a value: one line to its outcome. */
  function LineStep(files: map<string, Option<string>>, p: Params): Record -> Step
  {
    rec => ProcessRecord(rec, files, p)
  }

  /** The outcome of each line under a line handler. */
  function StepsOf(records: seq<Record>, line: Record -> Step): (r: seq<Step>)
    ensures |r| == |records|
    ensures forall k :: 0 <= k < |r| ==> r[k] == line(records[k])
  {
    seq(|records|, k requires 0 <= k < |records| => line(records[k]))
  }

  /** What each input line comes to. */
  function Steps(records: seq<Record>, files: map<string, Option<string>>, p: Params): (r: seq<Step>)
    ensures |r| == |records|
    ensures forall k :: 0 <= k < |r| ==> r[k] == ProcessRecord(records[k], files, p)
  {
    StepsOf(records, LineStep(files, p))
  }

  /** The scored rows among the steps, in order. */
  function ScoredRows(steps: seq<Step>): seq<Row>
  {
    if steps == [] then []
    else
      var st := steps[|steps| - 1];
      ScoredRows(steps[..|steps| - 1]) + (if st.Scored? then [st.row] else [])
  }

  /** The scored rows of the lines whose reference exists, in input order. */
  function Rows(records: seq<Record>, files: map<string, Option<string>>, p: Params): seq<Row>
  {
    ScoredRows(Steps(records, files, p))
  }

  function Outs(rows: seq<Row>): seq<Record>
  {
    if rows == [] then [] else Outs(rows[..|rows| - 1]) + [rows[|rows| - 1].out]
  }

  function KeptRows(rows: seq<Row>, p: Params): seq<Row>
  {
    if rows == [] then []
    else
      var r := rows[|rows| - 1];
      KeptRows(rows[..|rows| - 1], p) + (if Keep(r.simChar, r.refText, p.minCharSim, p.minCharSimShort) then [r] else [])
  }

  function DroppedRows(rows: seq<Row>, p: Params): seq<Row>
  {
    if rows == [] then []
    else
      var r := rows[|rows| - 1];
      DroppedRows(rows[..|rows| - 1], p) + (if Keep(r.simChar, r.refText, p.minCharSim, p.minCharSimShort) then [] else [r])
  }

  function TrailingCount(rows: seq<Row>): nat
  {
    if rows == [] then 0
    else TrailingCount(rows[..|rows| - 1]) + (if rows[|rows| - 1].trailing then 1 else 0)
  }

  function MissingCount(steps: seq<Step>): nat
  {
    if steps == [] then 0
    else MissingCount(steps[..|steps| - 1]) + (if steps[|steps| - 1].Missing? then 1 else 0)
  }

  /** Stable ascending order by `sim_char`, when asked for. */
  function Arrange(recs: seq<Record>, sortBySimilarity: bool): seq<Record>
  {
    if sortBySimilarity then SortByKey(recs, SimCharOf) else recs
  }

  predicate WellFormed(records: seq<Record>, files: map<string, Option<string>>, p: Params) {
    forall i :: 0 <= i < |records| ==> !LineFails(records[i], files, p)
  }

  /**
   * The loop of `process_comparison`, with its body (`line`) as a
   * parameter.  An exception on any line leaves `ok` false;
   * otherwise the kept and deleted records, in input order, and the
   * trailing-noise counter are returned.
   */
  method SplitRecords(records: seq<Record>, line: Record -> Step, p: Params)
    returns (ok: bool, results: seq<Record>, deleted: seq<Record>, foundTrailingInvalid: nat)
    ensures ok <==> NoneMalformed(StepsOf(records, line))
    ensures ok ==> SplitState(ScoredRows(StepsOf(records, line)), p, results, deleted, foundTrailingInvalid)
  {
    results, deleted, foundTrailingInvalid := [], [], 0;
    ghost var steps := StepsOf(records, line);
    var i := 0;
    while i < |records|
      invariant 0 <= i <= |records|
      invariant NoneMalformed(steps[..i])
      invariant SplitState(ScoredRows(steps[..i]), p, results, deleted, foundTrailingInvalid)
    {
      var st := line(records[i]);
      assert st == steps[i];
      NoneMalformedSnoc(steps, i);
      if st.Malformed? {
        ok := false;
        return;
      }
      ScoredSnoc(steps, i);
      if st.Scored? {
        results, deleted, foundTrailingInvalid :=
          Absorb(ScoredRows(steps[..i]), st.row, p, results, deleted, foundTrailingInvalid);
      } else {
        assert ScoredRows(steps[..i]) + [] == ScoredRows(steps[..i]);
      }
      i := i + 1;
    }
    assert steps[..i] == steps;
    ok := true;
  }

  /** No line raised. */
  predicate NoneMalformed(steps: seq<Step>) {
    forall k :: 0 <= k < |steps| ==> !steps[k].Malformed?
  }

  lemma NoneMalformedSnoc(steps: seq<Step>, i: nat)
    requires i < |steps|
    ensures NoneMalformed(steps[..i + 1]) <==> NoneMalformed(steps[..i]) && !steps[i].Malformed?
    ensures steps[i].Malformed? ==> !NoneMalformed(steps)
  {
    assert steps[..i + 1][i] == steps[i];
    assert forall k :: 0 <= k < i ==> steps[..i + 1][k] == steps[..i][k];
  }

  /** The kept and deleted lists and the trailing-noise counter for the rows scored so far. */
  ghost predicate SplitState(rows: seq<Row>, p: Params, results: seq<Record>, deleted: seq<Record>, n: nat) {
    && results == Outs(KeptRows(rows, p))
    && deleted == Outs(DroppedRows(rows, p))
    && n == TrailingCount(rows)
  }

  /** One scored line: count it if it is trailing noise, then place its record. */
  method Absorb(ghost rows: seq<Row>, row: Row, p: Params, results: seq<Record>, deleted: seq<Record>, n: nat)
    returns (results': seq<Record>, deleted': seq<Record>, n': nat)
    requires SplitState(rows, p, results, deleted, n)
    ensures SplitState(rows + [row], p, results', deleted', n')
  {
    n' := n;
    if row.trailing {
      n' := n + 1;
    }
    results', deleted' := Place(row, p, results, deleted);
    AfterPlace(rows, row, p, results, deleted, n, results', deleted', n');
  }

  /** The filter decision for one scored line: append its record to the kept or to the deleted list. */
  method Place(row: Row, p: Params, results: seq<Record>, deleted: seq<Record>)
    returns (results': seq<Record>, deleted': seq<Record>)
    ensures Keep(row.simChar, row.refText, p.minCharSim, p.minCharSimShort) ==>
              results' == results + [row.out] && deleted' == deleted
    ensures !Keep(row.simChar, row.refText, p.minCharSim, p.minCharSimShort) ==>
              results' == results && deleted' == deleted + [row.out]
  {
    results', deleted' := results, deleted;
    if row.simChar >= p.minCharSim {
      if row.simChar < p.minCharSimShort && |row.refText| < 16 {
        deleted' := deleted + [row.out];
      } else {
        results' := results + [row.out];
      }
    } else {
      deleted' := deleted + [row.out];
    }
  }

  /**
   * `process_comparison`: the record split, then the optional stable sort
   * of both lists by `sim_char`.  The two lists are what the source writes
   * to the output file and to the deleted log.
   */
  method ProcessComparison(records: seq<Record>, files: map<string, Option<string>>, p: Params)
    returns (ok: bool, results: seq<Record>, deleted: seq<Record>, foundTrailingInvalid: nat)
    ensures ok <==> WellFormed(records, files, p)
    ensures ok ==> results == Arrange(Outs(KeptRows(Rows(records, files, p), p)), p.sortBySimilarity)
    ensures ok ==> deleted == Arrange(Outs(DroppedRows(Rows(records, files, p), p)), p.sortBySimilarity)
    ensures ok ==> foundTrailingInvalid == TrailingCount(Rows(records, files, p))
  {
    ok, results, deleted, foundTrailingInvalid := SplitRecords(records, LineStep(files, p), p);
    assert ok <==> WellFormed(records, files, p) by {
      var steps := Steps(records, files, p);
      assert forall k :: 0 <= k < |records| ==> (steps[k].Malformed? <==> LineFails(records[k], files, p));
    }
    if ok && p.sortBySimilarity {
      results := SortByKey(results, SimCharOf);
      deleted := SortByKey(deleted, SimCharOf);
    }
  }

  lemma ScoredSnoc(steps: seq<Step>, i: nat)
    requires i < |steps|
    ensures ScoredRows(steps[..i + 1]) ==
              ScoredRows(steps[..i]) + (if steps[i].Scored? then [steps[i].row] else [])
  {
    assert steps[..i + 1][..i] == steps[..i];
  }

  /** The lists and the counter after one placed row are those of the rows so far plus that row. */
  lemma AfterPlace(rows: seq<Row>, r: Row, p: Params, results: seq<Record>, deleted: seq<Record>, n: nat,
                   results': seq<Record>, deleted': seq<Record>, n': nat)
    requires SplitState(rows, p, results, deleted, n)
    requires Keep(r.simChar, r.refText, p.minCharSim, p.minCharSimShort) ==>
               results' == results + [r.out] && deleted' == deleted
    requires !Keep(r.simChar, r.refText, p.minCharSim, p.minCharSimShort) ==>
               results' == results && deleted' == deleted + [r.out]
    requires n' == if r.trailing then n + 1 else n
    ensures SplitState(rows + [r], p, results', deleted', n')
  {
    KeptOutsSnoc(rows, r, p);
    DroppedOutsSnoc(rows, r, p);
    TrailingSnoc(rows, r);
  }

  /** A placed row adds its record to the kept list exactly when it is kept. */
  lemma KeptOutsSnoc(rows: seq<Row>, r: Row, p: Params)
    ensures Outs(KeptRows(rows + [r], p)) ==
              Outs(KeptRows(rows, p)) + (if Keep(r.simChar, r.refText, p.minCharSim, p.minCharSimShort) then [r.out] else [])
  {
    assert (rows + [r])[..|rows|] == rows;
    var k := KeptRows(rows, p);
    if Keep(r.simChar, r.refText, p.minCharSim, p.minCharSimShort) {
      OutsSnoc(k, r);
    } else {
      assert k + [] == k;
    }
  }

  /** A placed row adds its record to the deleted list exactly when it is not kept. */
  lemma DroppedOutsSnoc(rows: seq<Row>, r: Row, p: Params)
    ensures Outs(DroppedRows(rows + [r], p)) ==
              Outs(DroppedRows(rows, p)) + (if Keep(r.simChar, r.refText, p.minCharSim, p.minCharSimShort) then [] else [r.out])
  {
    assert (rows + [r])[..|rows|] == rows;
    var d := DroppedRows(rows, p);
    if Keep(r.simChar, r.refText, p.minCharSim, p.minCharSimShort) {
      assert d + [] == d;
    } else {
      OutsSnoc(d, r);
    }
  }

  lemma TrailingSnoc(rows: seq<Row>, r: Row)
    ensures TrailingCount(rows + [r]) == TrailingCount(rows) + (if r.trailing then 1 else 0)
  {
    assert (rows + [r])[..|rows|] == rows;
  }

  lemma OutsSnoc(rows: seq<Row>, r: Row)
    ensures Outs(rows + [r]) == Outs(rows) + [r.out]
  {
    assert (rows + [r])[..|rows|] == rows;
  }

  // ---------------------------------------------------------------------
  // Properties of the record split
  // ---------------------------------------------------------------------

  /** Every scored row lands in exactly one of the two lists. */
  lemma KeptDroppedPartition(rows: seq<Row>, p: Params)
    ensures |KeptRows(rows, p)| + |DroppedRows(rows, p)| == |rows|
    ensures multiset(KeptRows(rows, p)) + multiset(DroppedRows(rows, p)) == multiset(rows)
  {
    KeptDroppedMultiset(rows, p);
    assert |multiset(KeptRows(rows, p))| == |KeptRows(rows, p)|;
    assert |multiset(DroppedRows(rows, p))| == |DroppedRows(rows, p)|;
    assert |multiset(rows)| == |rows|;
  }

  lemma {:induction false} KeptDroppedMultiset(rows: seq<Row>, p: Params)
    ensures multiset(KeptRows(rows, p)) + multiset(DroppedRows(rows, p)) == multiset(rows)
  {
    if rows != [] {
      KeptDroppedMultiset(rows[..|rows| - 1], p);
      MultisetSnoc(rows);
      KeptDroppedStep(rows, p);
    }
  }

  lemma KeptDroppedStep(rows: seq<Row>, p: Params)
    requires rows != []
    ensures multiset(KeptRows(rows, p)) + multiset(DroppedRows(rows, p)) ==
            multiset(KeptRows(rows[..|rows| - 1], p)) + multiset(DroppedRows(rows[..|rows| - 1], p))
            + multiset{rows[|rows| - 1]}
  {
  }

  /** The kept list holds exactly the rows that pass the filter, the deleted list the others. */
  lemma {:induction false} KeptExactlyWhenKeep(rows: seq<Row>, p: Params)
    ensures forall r :: r in KeptRows(rows, p) <==>
              r in rows && Keep(r.simChar, r.refText, p.minCharSim, p.minCharSimShort)
    ensures forall r :: r in DroppedRows(rows, p) <==>
              r in rows && !Keep(r.simChar, r.refText, p.minCharSim, p.minCharSimShort)
  {
    if rows != [] {
      KeptExactlyWhenKeep(rows[..|rows| - 1], p);
      assert rows == rows[..|rows| - 1] + [rows[|rows| - 1]];
    }
  }

  /** Lines with a reference file become rows; the others are only counted as missing. */
  lemma {:induction false} ScoredAccounting(steps: seq<Step>)
    requires forall k :: 0 <= k < |steps| ==> !steps[k].Malformed?
    ensures |ScoredRows(steps)| + MissingCount(steps) == |steps|
  {
    if steps != [] {
      var init := steps[..|steps| - 1];
      assert forall k :: 0 <= k < |init| ==> init[k] == steps[k];
      ScoredAccounting(init);
    }
  }

  /** On well-formed input every line is either scored or counted as missing. */
  lemma RowsAccounting(records: seq<Record>, files: map<string, Option<string>>, p: Params)
    requires WellFormed(records, files, p)
    ensures |Rows(records, files, p)| + MissingCount(Steps(records, files, p)) == |records|
  {
    ScoredAccounting(Steps(records, files, p));
  }

  lemma {:induction false} OutsLength(rows: seq<Row>)
    ensures |Outs(rows)| == |rows|
    ensures forall k :: 0 <= k < |rows| ==> Outs(rows)[k] == rows[k].out
  {
    if rows != [] {
      OutsLength(rows[..|rows| - 1]);
    }
  }

  /** With sorting on, both lists are in ascending `sim_char` order, a stable permutation of the unsorted lists. */
  lemma ArrangeSorted(recs: seq<Record>)
    ensures SortedByKey(Arrange(recs, true), SimCharOf)
    ensures multiset(Arrange(recs, true)) == multiset(recs)
    ensures forall k :: WithKey(Arrange(recs, true), SimCharOf, k) == WithKey(recs, SimCharOf, k)
  {
    SortByKeySorted(recs, SimCharOf);
    forall k ensures WithKey(Arrange(recs, true), SimCharOf, k) == WithKey(recs, SimCharOf, k) {
      SortByKeyStable(recs, SimCharOf, k);
    }
  }
}
