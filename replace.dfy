/**
 * Python's `s.replace(pat, rep)` for a non-empty pattern: a left-to-right
 * scan that rewrites each occurrence of `pat` it meets and resumes after it,
 * so occurrences never overlap.  Beside it sit `s.split(pat)` as an
 * independent reference (`replace` is `rep.join(s.split(pat))`) and the
 * facts the scripts rely on.
 */
module Replace {
  import opened Strings

  /** `pat in s` (Python's substring test). */
  predicate Contains(s: string, pat: string)
    decreases |s|
  {
    pat <= s || (s != [] && Contains(s[1..], pat))
  }

  function ReplaceAll(s: string, pat: string, rep: string): string
    requires pat != []
    decreases |s|
  {
    if s == [] then []
    else if pat <= s then rep + ReplaceAll(s[|pat|..], pat, rep)
    else [s[0]] + ReplaceAll(s[1..], pat, rep)
  }

  /** Python `s.split(pat)` for a non-empty separator. */
  function SplitOn(s: string, pat: string): (r: seq<string>)
    requires pat != []
    ensures |r| >= 1
    decreases |s|
  {
    if s == [] then [[]]
    else if pat <= s then [[]] + SplitOn(s[|pat|..], pat)
    else
      var t := SplitOn(s[1..], pat);
      [[s[0]] + t[0]] + t[1..]
  }

  /** The rewrite is the join of the split: `s.replace(p, r) == r.join(s.split(p))`. */
  lemma {:induction false} ReplaceIsJoinOfSplit(s: string, pat: string, rep: string)
    requires pat != []
    ensures ReplaceAll(s, pat, rep) == JoinWith(SplitOn(s, pat), rep)
    decreases |s|
  {
    if s == [] {
    } else if pat <= s {
      ReplaceIsJoinOfSplit(s[|pat|..], pat, rep);
      JoinAtMatch(s, pat, rep);
    } else {
      ReplaceIsJoinOfSplit(s[1..], pat, rep);
      JoinPastChar(s, pat, rep);
    }
  }

  lemma JoinAtMatch(s: string, pat: string, rep: string)
    requires pat != [] && s != [] && pat <= s
    requires ReplaceAll(s[|pat|..], pat, rep) == JoinWith(SplitOn(s[|pat|..], pat), rep)
    ensures ReplaceAll(s, pat, rep) == JoinWith(SplitOn(s, pat), rep)
  {
    var t := SplitOn(s[|pat|..], pat);
    assert SplitOn(s, pat) == [[]] + t;
    JoinCons([], t, rep);
  }

  lemma JoinPastChar(s: string, pat: string, rep: string)
    requires pat != [] && s != [] && !(pat <= s)
    requires ReplaceAll(s[1..], pat, rep) == JoinWith(SplitOn(s[1..], pat), rep)
    ensures ReplaceAll(s, pat, rep) == JoinWith(SplitOn(s, pat), rep)
  {
    var t := SplitOn(s[1..], pat);
    assert ReplaceAll(s, pat, rep) == [s[0]] + JoinWith(t, rep);
    SplitStep(s[0], t, rep);
    assert SplitOn(s, pat) == [[s[0]] + t[0]] + t[1..];
  }

  lemma SplitStep(c: char, t: seq<string>, rep: string)
    requires |t| >= 1
    ensures JoinWith([[c] + t[0]] + t[1..], rep) == [c] + JoinWith(t, rep)
  {
    if |t| == 1 {
      assert [[c] + t[0]] + t[1..] == [[c] + t[0]];
    } else {
      JoinCons([c] + t[0], t[1..], rep);
      JoinCons(t[0], t[1..], rep);
      assert t == [t[0]] + t[1..];
    }
  }

  lemma {:induction false} ContainsSuffix(s: string, k: nat, pat: string)
    requires k <= |s|
    ensures Contains(s[k..], pat) ==> Contains(s, pat)
    decreases k
  {
    if k > 0 {
      assert s[1..][k - 1..] == s[k..];
      ContainsSuffix(s[1..], k - 1, pat);
    }
  }

  lemma {:induction false} ContainsAt(s: string, k: nat, pat: string)
    requires k + |pat| <= |s| && s[k..k + |pat|] == pat
    ensures Contains(s, pat)
  {
    assert pat <= s[k..];
    ContainsSuffix(s, k, pat);
  }

  lemma {:induction false} ContainsSingle(s: string, c: char)
    ensures Contains(s, [c]) <==> c in s
    decreases |s|
  {
    if s != [] {
      ContainsSingle(s[1..], c);
      assert s == [s[0]] + s[1..];
    }
  }

  /** Without an occurrence of the pattern nothing is rewritten. */
  lemma {:induction false} ReplaceAbsent(s: string, pat: string, rep: string)
    requires pat != [] && !Contains(s, pat)
    ensures ReplaceAll(s, pat, rep) == s
    decreases |s|
  {
    if s != [] {
      ReplaceAbsent(s[1..], pat, rep);
    }
  }

  /**
   * A pattern whose first character occurs only once in it cannot match
   * across the join of a text without it and the pattern itself: the one
   * match is the final one.
   */
  lemma {:induction false} ReplaceAtEnd(x: string, pat: string, rep: string)
    requires pat != [] && pat[0] !in pat[1..] && !Contains(x, pat)
    ensures ReplaceAll(x + pat, pat, rep) == x + rep
    decreases |x|, 1
  {
    if x == [] {
      assert x + pat == pat;
      ReplaceWhole(pat, rep);
    } else {
      ReplaceAtEndPastChar(x, pat, rep);
    }
  }

  /** The step of `ReplaceAtEnd`: the first character is copied, and the rest is rewritten alike. */
  lemma {:induction false} ReplaceAtEndPastChar(x: string, pat: string, rep: string)
    requires pat != [] && pat[0] !in pat[1..] && x != [] && !Contains(x, pat)
    ensures ReplaceAll(x + pat, pat, rep) == x + rep
    decreases |x|, 0
  {
    var s := x + pat;
    var t := x[1..];
    NoMatchBeforeEnd(x, pat);
    ReplacePastChar(s, pat, rep);
    assert s[1..] == t + pat;
    ReplaceAtEnd(t, pat, rep);
    HeadAppend(x, rep);
  }

  lemma HeadAppend(x: string, u: string)
    requires x != []
    ensures [x[0]] + (x[1..] + u) == x + u
  {
    assert x == [x[0]] + x[1..];
  }

  lemma ReplaceWhole(pat: string, rep: string)
    requires pat != []
    ensures ReplaceAll(pat, pat, rep) == rep
  {
    assert pat[|pat|..] == [];
    assert ReplaceAll(pat, pat, rep) == rep + ReplaceAll([], pat, rep);
  }

  lemma ReplacePastChar(s: string, pat: string, rep: string)
    requires pat != [] && s != [] && !(pat <= s)
    ensures ReplaceAll(s, pat, rep) == [s[0]] + ReplaceAll(s[1..], pat, rep)
  {
  }

  lemma NoMatchBeforeEnd(x: string, pat: string)
    requires pat != [] && pat[0] !in pat[1..] && x != [] && !Contains(x, pat)
    ensures !(pat <= x + pat)
  {
    var s := x + pat;
    if |x| >= |pat| {
      assert s[..|pat|] == x[..|pat|];
    } else {
      assert s[|x|] == pat[0];
      assert pat[|x|] == pat[1..][|x| - 1];
    }
  }

  /** Every character of the result comes from the input or from the replacement. */
  lemma {:induction false} ReplaceChars(s: string, pat: string, rep: string)
    requires pat != []
    ensures forall c :: c in ReplaceAll(s, pat, rep) ==> c in s || c in rep
    decreases |s|
  {
    if s != [] {
      if pat <= s {
        ReplaceChars(s[|pat|..], pat, rep);
        assert forall c :: c in s[|pat|..] ==> c in s;
      } else {
        ReplaceChars(s[1..], pat, rep);
        assert forall c :: c in s[1..] ==> c in s;
      }
    }
  }

  /** Rewriting one character by text that lacks it leaves none of it behind. */
  lemma {:induction false} ReplaceCharGone(s: string, c: char, rep: string)
    requires c !in rep
    ensures c !in ReplaceAll(s, [c], rep)
    decreases |s|
  {
    if s != [] {
      if [c] <= s {
        ReplaceCharGone(s[1..], c, rep);
      } else {
        assert s[0] != c;
        ReplaceCharGone(s[1..], c, rep);
      }
    }
  }

  /** The first character of a rewrite. */
  lemma ReplaceHead(s: string, pat: string, rep: string)
    requires pat != [] && rep != [] && s != []
    ensures ReplaceAll(s, pat, rep) != []
    ensures ReplaceAll(s, pat, rep)[0] == if pat <= s then rep[0] else s[0]
  {
  }

  lemma {:induction false} NoPairInFront(x: string, y: string, a: char, b: char)
    requires a !in x && !Contains(y, [a, b])
    ensures !Contains(x + y, [a, b])
    decreases |x|
  {
    if x != [] {
      assert (x + y)[1..] == x[1..] + y;
      assert x[0] in x && (x + y)[0] == x[0] && x[0] != a;
      assert !([a, b] <= x + y);
      assert forall c :: c in x[1..] ==> c in x;
      NoPairInFront(x[1..], y, a, b);
    } else {
      assert x + y == y;
    }
  }

  /**
   * Rewriting a two-character pattern by non-empty text that holds neither
   * of its characters leaves no occurrence of the pattern behind.
   */
  lemma {:induction false} ReplacePairGone(s: string, a: char, b: char, rep: string)
    requires rep != [] && a !in rep && b !in rep
    ensures !Contains(ReplaceAll(s, [a, b], rep), [a, b])
    decreases |s|
  {
    var p := [a, b];
    var o := ReplaceAll(s, p, rep);
    if s == [] {
    } else if p <= s {
      ReplacePairGone(s[2..], a, b, rep);
      NoPairInFront(rep, ReplaceAll(s[2..], p, rep), a, b);
    } else {
      var o' := ReplaceAll(s[1..], p, rep);
      ReplacePairGone(s[1..], a, b, rep);
      assert o == [s[0]] + o' && o[1..] == o';
      if s[0] == a && |s| > 1 {
        ReplaceHead(s[1..], p, rep);
        assert s[1] == b ==> p <= s;
        assert o'[0] != b;
      }
      assert !(p <= o);
    }
  }

  /** A character outside the pattern stops every match: rewriting splits around it. */
  lemma {:induction false} ReplaceConcat(x: string, y: string, pat: string, rep: string)
    requires pat != [] && x != [] && x[|x| - 1] !in pat
    ensures ReplaceAll(x + y, pat, rep) == ReplaceAll(x, pat, rep) + ReplaceAll(y, pat, rep)
    decreases |x|, 1
  {
    if |pat| < |x| && pat <= x {
      ConcatAtMatch(x, y, pat, rep);
    } else {
      NoMatchAcross(x, y, pat);
      ConcatPastChar(x, y, pat, rep);
    }
  }

  lemma {:induction false} ConcatAtMatch(x: string, y: string, pat: string, rep: string)
    requires pat != [] && x != [] && x[|x| - 1] !in pat
    requires |pat| < |x| && pat <= x
    ensures ReplaceAll(x + y, pat, rep) == ReplaceAll(x, pat, rep) + ReplaceAll(y, pat, rep)
    decreases |x|, 0
  {
    var s := x + y;
    var x' := x[|pat|..];
    assert pat <= s;
    assert s[|pat|..] == x' + y;
    assert x'[|x'| - 1] == x[|x| - 1];
    ReplaceConcat(x', y, pat, rep);
  }

  lemma {:induction false} ConcatPastChar(x: string, y: string, pat: string, rep: string)
    requires pat != [] && x != [] && x[|x| - 1] !in pat
    requires !(pat <= x + y) && !(pat <= x)
    ensures ReplaceAll(x + y, pat, rep) == ReplaceAll(x, pat, rep) + ReplaceAll(y, pat, rep)
    decreases |x|, 0
  {
    var s := x + y;
    if |x| == 1 {
      assert s[1..] == y;
      assert ReplaceAll(x, pat, rep) == [x[0]];
    } else {
      var x' := x[1..];
      assert s[1..] == x' + y;
      assert x'[|x'| - 1] == x[|x| - 1];
      ReplaceConcat(x', y, pat, rep);
    }
  }

  lemma NoMatchAcross(x: string, y: string, pat: string)
    requires x != [] && x[|x| - 1] !in pat && !(|pat| < |x| && pat <= x)
    ensures !(pat <= x + y) && !(pat <= x)
  {
    if |pat| >= |x| {
      assert pat[|x| - 1] in pat;
      assert (x + y)[|x| - 1] == x[|x| - 1];
    } else {
      assert (x + y)[..|pat|] == x[..|pat|];
    }
  }

  lemma LeadNotIn(w: string, c: char)
    ensures w != [] && c !in w ==> w[0] != c
  {
    if w != [] { assert w[0] in w; }
  }

  /** A rewrite of `pat` by something without `w`'s lead character copies such a prefix from the input. */
  lemma {:induction false} RewritePrefixFromInput(t: string, a: string, b: string, w: string)
    requires a != [] && b != [] && b[0] !in w && w <= ReplaceAll(t, a, b)
    ensures w <= t
    decreases |t|
  {
    if w != [] && t != [] {
      LeadNotIn(w, b[0]);
      if a <= t {
        assert false;
      } else {
        assert forall c :: c in w[1..] ==> c in w;
        RewritePrefixFromInput(t[1..], a, b, w[1..]);
      }
    }
  }

  /**
   * Masking `a` as `b` and unmasking again gives the input back, when the
   * input never held `b` and `b`'s first character occurs only once in `b`.
   */
  lemma {:induction false} MaskRoundTrip(t: string, a: string, b: string)
    requires a != [] && b != [] && b[0] !in b[1..] && !Contains(t, b)
    ensures ReplaceAll(ReplaceAll(t, a, b), b, a) == t
    decreases |t|
  {
    if t == [] {
    } else if a <= t {
      var x := ReplaceAll(t[|a|..], a, b);
      assert ReplaceAll(t, a, b) == b + x;
      assert b <= b + x && (b + x)[|b|..] == x;
      ContainsSuffix(t, |a|, b);
      MaskRoundTrip(t[|a|..], a, b);
      assert t == a + t[|a|..];
    } else {
      var x := ReplaceAll(t[1..], a, b);
      var m := [t[0]] + x;
      assert ReplaceAll(t, a, b) == m;
      if b <= m {
        assert b[1..] <= x;
        RewritePrefixFromInput(t[1..], a, b, b[1..]);
        assert false;
      }
      assert m[1..] == x;
      MaskRoundTrip(t[1..], a, b);
      assert t == [t[0]] + t[1..];
    }
  }

  /** With a replacement at least as long as the pattern, nothing shrinks; one occurrence makes it grow. */
  lemma {:induction false} ReplaceLength(s: string, pat: string, rep: string)
    requires pat != [] && |rep| >= |pat|
    ensures |ReplaceAll(s, pat, rep)| >= |s|
    ensures |rep| > |pat| && Contains(s, pat) ==> |ReplaceAll(s, pat, rep)| > |s|
    decreases |s|
  {
    if s != [] {
      if pat <= s {
        ReplaceLength(s[|pat|..], pat, rep);
      } else {
        ReplaceLength(s[1..], pat, rep);
      }
    }
  }

  /** Where the pattern occurs, the replacement text occurs in the result. */
  lemma {:induction false} ReplacementAppears(s: string, pat: string, rep: string)
    requires pat != [] && Contains(s, pat)
    ensures Contains(ReplaceAll(s, pat, rep), rep)
    decreases |s|
  {
    if pat <= s {
      if rep == [] {
      } else {
        assert rep <= ReplaceAll(s, pat, rep);
      }
    } else {
      ReplacementAppears(s[1..], pat, rep);
      assert ReplaceAll(s, pat, rep)[1..] == ReplaceAll(s[1..], pat, rep);
    }
  }

  /** A character outside the pattern at the end passes through the rewrite unchanged. */
  lemma {:induction false} ReplaceSnocForeign(x: string, c: char, pat: string, rep: string)
    requires pat != [] && c !in pat
    ensures ReplaceAll(x + [c], pat, rep) == ReplaceAll(x, pat, rep) + [c]
    decreases |x|
  {
    var s := x + [c];
    if x == [] {
      assert s == [c];
      assert pat[0] in pat;
      assert !(pat <= s);
      assert s[1..] == [];
    } else if pat <= s {
      MatchBeforeForeign(x, c, pat);
      ReplaceSnocForeign(x[|pat|..], c, pat, rep);
    } else {
      assert !(pat <= x);
      assert s[1..] == x[1..] + [c];
      ReplaceSnocForeign(x[1..], c, pat, rep);
    }
  }

  lemma MatchBeforeForeign(x: string, c: char, pat: string)
    requires pat != [] && c !in pat && pat <= x + [c]
    ensures pat <= x && (x + [c])[|pat|..] == x[|pat|..] + [c]
  {
    assert pat[|pat| - 1] in pat;
    assert |pat| <= |x|;
    assert forall k :: 0 <= k < |pat| ==> pat[k] == x[k];
  }

  /** Text made only of whitespace is left alone by a pattern that starts with a non-space. */
  lemma {:induction false} ReplaceBlank(s: string, pat: string, rep: string)
    requires pat != [] && !IsSpace(pat[0]) && IsBlank(s)
    ensures ReplaceAll(s, pat, rep) == s
    decreases |s|
  {
    if s != [] {
      assert s[0] in s;
      assert forall c :: c in s[1..] ==> c in s;
      ReplaceBlank(s[1..], pat, rep);
      assert s == [s[0]] + s[1..];
    }
  }

  /** Rewriting by text that starts with a non-space keeps a non-blank text non-blank. */
  lemma {:induction false} ReplaceNonBlank(s: string, pat: string, rep: string)
    requires pat != [] && rep != [] && !IsSpace(rep[0]) && !IsBlank(s)
    ensures !IsBlank(ReplaceAll(s, pat, rep))
    decreases |s|
  {
    var o := ReplaceAll(s, pat, rep);
    if pat <= s {
      assert o[0] == rep[0] && o[0] in o;
    } else if !IsSpace(s[0]) {
      assert o[0] == s[0] && o[0] in o;
    } else {
      assert exists c :: c in s[1..] && !IsSpace(c) by {
        var c :| c in s && !IsSpace(c);
        var k :| 0 <= k < |s| && s[k] == c;
        assert k > 0 && s[1..][k - 1] == c;
      }
      ReplaceNonBlank(s[1..], pat, rep);
      var d :| d in ReplaceAll(s[1..], pat, rep) && !IsSpace(d);
      assert o == [s[0]] + ReplaceAll(s[1..], pat, rep);
      assert d in o;
    }
  }

  /** A text whose first character is outside the pattern's lead, put in front, creates no occurrence. */
  lemma {:induction false} NoPatInFront(x: string, y: string, pat: string)
    requires pat != [] && pat[0] !in x && !Contains(y, pat)
    ensures !Contains(x + y, pat)
    decreases |x|
  {
    if x != [] {
      assert (x + y)[1..] == x[1..] + y;
      assert x[0] in x && (x + y)[0] == x[0];
      assert !(pat <= x + y);
      assert forall c :: c in x[1..] ==> c in x;
      NoPatInFront(x[1..], y, pat);
    } else {
      assert x + y == y;
    }
  }

  /** A match right after a skipped character came from the input. */
  lemma PrefixFromRewrite(c: char, t: string, pat: string, rep: string)
    requires pat != [] && rep != [] && rep[0] !in pat
    ensures pat <= [c] + ReplaceAll(t, pat, rep) ==> pat <= [c] + t
  {
    var o := [c] + ReplaceAll(t, pat, rep);
    if pat <= o {
      assert pat == [c] + pat[1..];
      assert pat[1..] <= ReplaceAll(t, pat, rep);
      assert forall d :: d in pat[1..] ==> d in pat;
      RewritePrefixFromInput(t, pat, rep, pat[1..]);
    }
  }

  /** Rewriting by non-empty text that shares no character with the pattern leaves no occurrence behind. */
  lemma {:induction false} ReplaceGone(s: string, pat: string, rep: string)
    requires pat != [] && rep != [] && forall c :: c in rep ==> c !in pat
    ensures !Contains(ReplaceAll(s, pat, rep), pat)
    decreases |s|
  {
    if s == [] {
    } else if pat <= s {
      ReplaceGone(s[|pat|..], pat, rep);
      assert pat[0] in pat;
      NoPatInFront(rep, ReplaceAll(s[|pat|..], pat, rep), pat);
    } else {
      var o' := ReplaceAll(s[1..], pat, rep);
      ReplaceGone(s[1..], pat, rep);
      assert rep[0] in rep;
      PrefixFromRewrite(s[0], s[1..], pat, rep);
      assert s == [s[0]] + s[1..];
      var o := [s[0]] + o';
      assert ReplaceAll(s, pat, rep) == o && o[1..] == o';
    }
  }

  /** `s.split(pat)[0]`: the text before the first occurrence of `pat`, or all of `s`. */
  function BeforeMatch(s: string, pat: string): (r: string)
    requires pat != []
    ensures r <= s
    decreases |s|
  {
    if s == [] || pat <= s then [] else [s[0]] + BeforeMatch(s[1..], pat)
  }

  /** The text before the first match is the first field of the split. */
  lemma {:induction false} BeforeMatchIsFirstField(s: string, pat: string)
    requires pat != []
    ensures BeforeMatch(s, pat) == SplitOn(s, pat)[0]
    decreases |s|
  {
    if s != [] && !(pat <= s) {
      BeforeMatchIsFirstField(s[1..], pat);
    }
  }

  /**
   * The text before the first match holds no match, and it is all of `s`
   * exactly when `s` holds none; otherwise the match follows it.
   */
  lemma {:induction false} BeforeMatchProps(s: string, pat: string)
    requires pat != []
    ensures var r := BeforeMatch(s, pat);
            && !Contains(r, pat)
            && (r == s <==> !Contains(s, pat))
            && (r != s ==> pat <= s[|r|..])
    decreases |s|
  {
    if s != [] && !(pat <= s) {
      BeforeMatchProps(s[1..], pat);
      var r := BeforeMatch(s, pat);
      assert r == [s[0]] + BeforeMatch(s[1..], pat);
      assert r[1..] == BeforeMatch(s[1..], pat);
      assert !(pat <= r);
      assert s[|r|..] == s[1..][|r| - 1..];
    }
  }
}
