/**
 * String helpers that the scripts use through Python's `str` methods:
 * whitespace as `str.isspace()` sees it, ASCII `lower()`, `strip()`,
 * `split(sep)` for a one-character separator, `split()` on whitespace,
 * `sep.join(parts)`, `os.path.join` for two POSIX components, and the
 * decimal rendering `str(i)` with `zfill`.
 */
module Strings {

  /** Whitespace as Python's `str.isspace()`, `\s` and `strip()` see it. */
  predicate IsSpace(c: char) {
    || c == ' ' || c == '\t' || c == '\n' || c == '\r' || c == '\U{0B}' || c == '\U{0C}'
    || ('\U{1C}' <= c <= '\U{1F}') || c == '\U{85}' || c == '\U{A0}' || c == '\U{1680}'
    || ('\U{2000}' <= c <= '\U{200A}') || c == '\U{2028}' || c == '\U{2029}'
    || c == '\U{202F}' || c == '\U{205F}' || c == '\U{3000}'
  }

  /** Line boundaries as Python's `str.splitlines()` sees them. */
  predicate IsLineBreak(c: char) {
    || c == '\n' || c == '\r' || c == '\U{0B}' || c == '\U{0C}'
    || ('\U{1C}' <= c <= '\U{1E}') || c == '\U{85}' || c == '\U{2028}' || c == '\U{2029}'
  }

  predicate IsUpper(c: char) { 'A' <= c <= 'Z' }

  predicate IsDigit(c: char) { '0' <= c <= '9' }

  /** `lower()` restricted to ASCII letters. */
  function LowerChar(c: char): (d: char)
    ensures !IsUpper(d)
    ensures IsUpper(c) ==> 'a' <= d <= 'z' && d as int == c as int + 32
    ensures !IsUpper(c) ==> d == c
  {
    if IsUpper(c) then (c as int + 32) as char else c
  }

  function ToLower(s: string): string
  {
    seq(|s|, i requires 0 <= i < |s| => LowerChar(s[i]))
  }

  /**
   * No upper-case letter survives `lower()`, each one becomes its lower-case
   * letter, a text without upper-case letters is returned as it is, and
   * lowering twice is lowering once.
   */
  lemma ToLowerProps(s: string)
    ensures forall c :: c in ToLower(s) ==> !IsUpper(c)
    ensures forall i :: 0 <= i < |s| && IsUpper(s[i]) ==> ToLower(s)[i] as int == s[i] as int + 32
    ensures (forall i :: 0 <= i < |s| ==> !IsUpper(s[i])) ==> ToLower(s) == s
    ensures ToLower(ToLower(s)) == ToLower(s)
  {
  }

  /** The length of the leading whitespace run. */
  function LeadingSpaces(s: string): (n: nat)
    ensures n <= |s|
    ensures forall k :: 0 <= k < n ==> IsSpace(s[k])
    ensures n < |s| ==> !IsSpace(s[n])
  {
    if s != [] && IsSpace(s[0]) then 1 + LeadingSpaces(s[1..]) else 0
  }

  /** The length of the trailing whitespace run. */
  function TrailingSpaces(s: string): (n: nat)
    ensures n <= |s|
    ensures forall k :: |s| - n <= k < |s| ==> IsSpace(s[k])
    ensures n < |s| ==> !IsSpace(s[|s| - n - 1])
  {
    if s != [] && IsSpace(s[|s| - 1]) then 1 + TrailingSpaces(s[..|s| - 1]) else 0
  }

  /** `lstrip()`: drops the leading whitespace run. */
  function StripLeft(s: string): (r: string)
    ensures |r| <= |s| && r == s[|s| - |r|..]
    ensures forall k :: 0 <= k < |s| - |r| ==> IsSpace(s[k])
    ensures r == [] || !IsSpace(r[0])
  {
    s[LeadingSpaces(s)..]
  }

  /** `rstrip()`: drops the trailing whitespace run. */
  function StripRight(s: string): (r: string)
    ensures |r| <= |s| && r == s[..|r|]
    ensures forall k :: |r| <= k < |s| ==> IsSpace(s[k])
    ensures r == [] || !IsSpace(r[|r| - 1])
  {
    s[..|s| - TrailingSpaces(s)]
  }

  /** `strip()`: the slice left once both whitespace runs are dropped. */
  function Strip(s: string): (r: string)
  {
    StripRight(StripLeft(s))
  }

  predicate IsStripped(s: string) {
    s == [] || (!IsSpace(s[0]) && !IsSpace(s[|s| - 1]))
  }

  /** The only whitespace is the plain space, and no two spaces are adjacent. */
  predicate SingleSpaced(s: string) {
    && (forall i :: 0 <= i < |s| && IsSpace(s[i]) ==> s[i] == ' ')
    && (forall i :: 0 <= i < |s| - 1 ==> !(s[i] == ' ' && s[i + 1] == ' '))
  }

  lemma SingleSpacedSlice(b: string, i: nat, j: nat)
    requires SingleSpaced(b) && i <= j <= |b|
    ensures SingleSpaced(b[i..j])
  {
    var c := b[i..j];
    assert forall k :: 0 <= k < |c| ==> c[k] == b[i + k];
  }

  predicate IsBlank(s: string) {
    forall c :: c in s ==> IsSpace(c)
  }

  /**
   * `strip()` returns the slice of its input between the leading and the
   * trailing whitespace run; the slice has no whitespace at either end and
   * is empty exactly when the input is blank.
   */
  lemma StripProps(s: string)
    ensures IsStripped(Strip(s))
    ensures var i := |s| - |StripLeft(s)|;
              && i + |Strip(s)| <= |s| && Strip(s) == s[i..i + |Strip(s)|]
              && (forall k :: 0 <= k < i ==> IsSpace(s[k]))
              && (forall k :: i + |Strip(s)| <= k < |s| ==> IsSpace(s[k]))
    ensures Strip(s) == [] <==> IsBlank(s)
  {
    StripSlice(s);
    StripBlank(s);
    var l := StripLeft(s);
    var r := StripRight(l);
    if r != [] {
      assert r[0] == l[0];
    }
  }

  lemma StripSlice(s: string)
    ensures var i := |s| - |StripLeft(s)|;
              && i + |Strip(s)| <= |s| && Strip(s) == s[i..i + |Strip(s)|]
              && (forall k :: i + |Strip(s)| <= k < |s| ==> IsSpace(s[k]))
  {
    var l := StripLeft(s);
    var r := StripRight(l);
    assert Strip(s) == r;
    SliceTail(s, l, r);
  }

  lemma SliceTail(s: string, l: string, r: string)
    requires |l| <= |s| && l == s[|s| - |l|..]
    requires |r| <= |l| && r == l[..|r|]
    requires forall k :: |r| <= k < |l| ==> IsSpace(l[k])
    ensures var i := |s| - |l|;
              && i + |r| <= |s| && r == s[i..i + |r|]
              && (forall k :: i + |r| <= k < |s| ==> IsSpace(s[k]))
  {
    SliceOfSlice(s, l, r);
    StripTail(s, l, r);
  }

  /** A prefix of a suffix is a slice. */
  lemma SliceOfSlice(s: string, l: string, r: string)
    requires |l| <= |s| && l == s[|s| - |l|..]
    requires |r| <= |l| && r == l[..|r|]
    ensures r == s[|s| - |l|..|s| - |l| + |r|]
  {
    var i := |s| - |l|;
    assert forall k :: 0 <= k < |r| ==> r[k] == l[k] == s[i + k];
  }

  lemma StripTail(s: string, l: string, r: string)
    requires |l| <= |s| && l == s[|s| - |l|..]
    requires |r| <= |l| && forall k :: |r| <= k < |l| ==> IsSpace(l[k])
    ensures forall k :: |s| - |l| + |r| <= k < |s| ==> IsSpace(s[k])
  {
    var i := |s| - |l|;
    forall k | i + |r| <= k < |s| ensures IsSpace(s[k]) {
      assert s[k] == l[k - i];
    }
  }

  lemma StripBlank(s: string)
    ensures Strip(s) == [] <==> IsBlank(s)
  {
    var l := StripLeft(s);
    var r := StripRight(l);
    if r == [] {
      assert l == [];
      assert forall k :: 0 <= k < |s| ==> IsSpace(s[k]);
    } else {
      assert r[0] == l[0] && l == s[|s| - |l|..];
      assert l[0] in s;
    }
  }

  lemma StrippedIsFixpoint(s: string)
    requires IsStripped(s)
    ensures Strip(s) == s
  {
  }

  /** Python `s.split(c)` for a one-character separator. */
  function SplitChar(s: string, c: char): (r: seq<string>)
    ensures |r| >= 1
    ensures forall k :: 0 <= k < |r| ==> c !in r[k]
  {
    if s == [] then [[]]
    else if s[0] == c then [[]] + SplitChar(s[1..], c)
    else
      var t := SplitChar(s[1..], c);
      [[s[0]] + t[0]] + t[1..]
  }

  /** Python `sep.join(parts)`. */
  function JoinWith(parts: seq<string>, sep: string): string
  {
    if |parts| == 0 then []
    else if |parts| == 1 then parts[0]
    else parts[0] + sep + JoinWith(parts[1..], sep)
  }

  lemma JoinCons(x: string, t: seq<string>, sep: string)
    requires |t| >= 1
    ensures JoinWith([x] + t, sep) == x + sep + JoinWith(t, sep)
  {
    assert ([x] + t)[1..] == t;
  }

  /** Joining the pieces of `split(c)` with `c` gives the text back. */
  lemma {:induction false} SplitCharJoin(s: string, c: char)
    ensures JoinWith(SplitChar(s, c), [c]) == s
  {
    if s == [] {
    } else {
      SplitCharJoin(s[1..], c);
      SplitCharJoinStep(s, c);
    }
  }

  lemma SplitCharJoinStep(s: string, c: char)
    requires s != [] && JoinWith(SplitChar(s[1..], c), [c]) == s[1..]
    ensures JoinWith(SplitChar(s, c), [c]) == s
  {
    var t := SplitChar(s[1..], c);
    if s[0] == c {
      assert SplitChar(s, c) == [[]] + t;
      JoinAfterEmpty(t, s[1..], c);
      assert s == [c] + s[1..];
    } else {
      assert SplitChar(s, c) == [[s[0]] + t[0]] + t[1..];
      JoinExtendFirst(s[0], t, s[1..], [c]);
      assert s == [s[0]] + s[1..];
    }
  }

  lemma JoinAfterEmpty(t: seq<string>, j: string, c: char)
    requires |t| >= 1 && JoinWith(t, [c]) == j
    ensures JoinWith([[]] + t, [c]) == [c] + j
  {
    JoinCons([], t, [c]);
  }

  /** Putting `x` in front of the first part puts it in front of the joined text. */
  lemma JoinExtendFirst(x: char, t: seq<string>, j: string, sep: string)
    requires |t| >= 1 && JoinWith(t, sep) == j
    ensures JoinWith([[x] + t[0]] + t[1..], sep) == [x] + j
  {
    if |t| == 1 {
      assert [[x] + t[0]] + t[1..] == [[x] + t[0]];
    } else {
      var rest := JoinWith(t[1..], sep);
      JoinCons([x] + t[0], t[1..], sep);
      assert t == [t[0]] + t[1..];
      JoinCons(t[0], t[1..], sep);
      assert j == t[0] + sep + rest;
      assert [x] + t[0] + sep + rest == [x] + (t[0] + sep + rest);
    }
  }

  /** `s.endswith(suffix)`. */
  predicate EndsWith(s: string, suffix: string) {
    |suffix| <= |s| && s[|s| - |suffix|..] == suffix
  }

  /** No line boundary inside. */
  predicate NoBreak(x: string) {
    forall c :: c in x ==> !IsLineBreak(c)
  }

  /**
   * The pieces between line boundaries.  Python's `splitlines()` differs only
   * in empty pieces (it treats "\r\n" as one boundary and drops the piece
   * after a final boundary), which no caller here keeps.
   */
  function SplitAtBreaks(s: string): (r: seq<string>)
    ensures |r| >= 1
    ensures forall k :: 0 <= k < |r| ==> NoBreak(r[k])
  {
    if s == [] then [[]]
    else if IsLineBreak(s[0]) then [[]] + SplitAtBreaks(s[1..])
    else
      var t := SplitAtBreaks(s[1..]);
      assert forall c :: c in [s[0]] + t[0] ==> c == s[0] || c in t[0];
      assert NoBreak([s[0]] + t[0]);
      [[s[0]] + t[0]] + t[1..]
  }

  lemma NoBreakConcat(a: string, b: string)
    requires NoBreak(a) && NoBreak(b)
    ensures NoBreak(a + b)
  {
  }

  lemma {:induction false} SplitAtBreaksUnbroken(x: string, rest: string)
    requires NoBreak(x)
    ensures SplitAtBreaks(x) == [x]
    ensures SplitAtBreaks(x + "\n" + rest) == [x] + SplitAtBreaks(rest)
    decreases |x|
  {
    var s := x + "\n" + rest;
    if x == [] {
      assert s == ['\n'] + rest && s[1..] == rest;
    } else {
      assert s[0] == x[0] && s[1..] == x[1..] + "\n" + rest;
      assert forall c :: c in x[1..] ==> c in x;
      SplitAtBreaksUnbroken(x[1..], rest);
      assert x == [x[0]] + x[1..];
    }
  }

  /** Joining lines that hold no line boundary with "\n" and splitting again gives the lines back. */
  lemma {:induction false} SplitAtBreaksOfJoin(lines: seq<string>)
    requires |lines| >= 1
    requires forall k :: 0 <= k < |lines| ==> NoBreak(lines[k])
    ensures SplitAtBreaks(JoinWith(lines, "\n")) == lines
  {
    if |lines| == 1 {
      SplitAtBreaksUnbroken(lines[0], []);
    } else {
      var rest := lines[1..];
      assert forall k :: 0 <= k < |rest| ==> rest[k] == lines[k + 1];
      SplitAtBreaksOfJoin(rest);
      SplitAtBreaksUnbroken(lines[0], JoinWith(rest, "\n"));
      assert JoinWith(lines, "\n") == lines[0] + "\n" + JoinWith(rest, "\n");
      assert lines == [lines[0]] + rest;
    }
  }

  /** `s.split(c)[0]`: the text before the first `c`, or all of `s`. */
  function BeforeFirst(s: string, c: char): (r: string)
    ensures r <= s && c !in r
    ensures |r| < |s| ==> s[|r|] == c
  {
    if s == [] || s[0] == c then [] else [s[0]] + BeforeFirst(s[1..], c)
  }

  /** `s.split(c)[-1]`: the text after the last `c`, or all of `s`. */
  function AfterLast(s: string, c: char): (r: string)
  {
    if s == [] || s[|s| - 1] == c then [] else AfterLast(s[..|s| - 1], c) + [s[|s| - 1]]
  }

  /** The text after the last `c` is a suffix without `c`, preceded by `c` unless it is all of `s`. */
  lemma {:induction false} AfterLastProps(s: string, c: char)
    ensures var r := AfterLast(s, c);
            && |r| <= |s| && r == s[|s| - |r|..] && c !in r
            && (|r| < |s| ==> s[|s| - |r| - 1] == c)
  {
    if s != [] && s[|s| - 1] != c {
      var t := s[..|s| - 1];
      AfterLastProps(t, c);
      AfterLastStep(s, c, AfterLast(t, c));
    }
  }

  lemma AfterLastStep(s: string, c: char, r: string)
    requires s != [] && s[|s| - 1] != c
    requires var t := s[..|s| - 1];
             && |r| <= |t| && r == t[|t| - |r|..] && c !in r
             && (|r| < |t| ==> t[|t| - |r| - 1] == c)
    ensures var r' := r + [s[|s| - 1]];
            && |r'| <= |s| && r' == s[|s| - |r'|..] && c !in r'
            && (|r'| < |s| ==> s[|s| - |r'| - 1] == c)
  {
    var t := s[..|s| - 1];
    assert s == t + [s[|s| - 1]];
    assert s[|s| - |r| - 1..] == t[|t| - |r|..] + [s[|s| - 1]];
  }

  /** `split(c)` gives one field more than there are separators. */
  lemma {:induction false} SplitCharCount(s: string, c: char)
    ensures |SplitChar(s, c)| == multiset(s)[c] + 1
  {
    if s != [] {
      SplitCharCount(s[1..], c);
      assert s == [s[0]] + s[1..];
      assert multiset(s) == multiset([s[0]]) + multiset(s[1..]);
    }
  }

  /** The text before the first `c` of `a + [c] + b`, when `a` has none, is `a`. */
  lemma {:induction false} BeforeFirstOfSeparated(a: string, c: char, b: string)
    requires c !in a
    ensures BeforeFirst(a + [c] + b, c) == a
  {
    if a != [] {
      BeforeFirstOfSeparated(a[1..], c, b);
      assert (a + [c] + b)[1..] == a[1..] + [c] + b;
    }
  }

  lemma {:induction false} BeforeFirstIsFirstField(s: string, c: char)
    ensures BeforeFirst(s, c) == SplitChar(s, c)[0]
  {
    if s != [] && s[0] != c {
      BeforeFirstIsFirstField(s[1..], c);
    }
  }

  lemma {:induction false} AfterLastOfSeparated(prefix: string, c: char, v: string)
    requires c !in v
    ensures AfterLast(prefix + [c] + v, c) == v
    decreases |v|
  {
    var s := prefix + [c] + v;
    if v == [] {
      assert s[|s| - 1] == c;
    } else {
      assert s[..|s| - 1] == prefix + [c] + v[..|v| - 1];
      assert v[|v| - 1] in v;
      AfterLastOfSeparated(prefix, c, v[..|v| - 1]);
      assert v == v[..|v| - 1] + [v[|v| - 1]];
    }
  }

  /** Only the part after the last `c` matters once `c` occurs in it. */
  lemma {:induction false} AfterLastAppend(a: string, b: string, c: char)
    requires c in b
    ensures AfterLast(a + b, c) == AfterLast(b, c)
    decreases |b|
  {
    var s := a + b;
    assert s[|s| - 1] == b[|b| - 1];
    if b[|b| - 1] != c {
      var b' := b[..|b| - 1];
      assert b == b' + [b[|b| - 1]];
      assert c in b';
      assert s[..|s| - 1] == a + b';
      AfterLastAppend(a, b', c);
      assert AfterLast(s, c) == AfterLast(a + b', c) + [b[|b| - 1]];
      assert AfterLast(b, c) == AfterLast(b', c) + [b[|b| - 1]];
    }
  }

  /** Exactly two fields: the text is the first field, the separator `c`, and a second field without `c`. */
  lemma TwoFields(l: string, c: char)
    requires |SplitChar(l, c)| == 2
    ensures var f := BeforeFirst(l, c);
            && |f| < |l| && l == f + [c] + l[|f| + 1..] && c !in l[|f| + 1..]
            && SplitChar(l, c) == [f, l[|f| + 1..]]
  {
    var parts := SplitChar(l, c);
    SplitCharJoin(l, c);
    BeforeFirstIsFirstField(l, c);
    assert parts == [parts[0], parts[1]];
    assert parts[1..] == [parts[1]];
    assert l == parts[0] + [c] + parts[1];
  }

  /** The leading run of non-whitespace characters. */
  function LeadWord(s: string): (r: string)
    ensures r <= s && forall c :: c in r ==> !IsSpace(c)
    ensures |r| < |s| ==> IsSpace(s[|r|])
  {
    if s == [] || IsSpace(s[0]) then [] else [s[0]] + LeadWord(s[1..])
  }

  /** Python `s.split()` with no argument: the maximal non-whitespace runs. */
  function SplitWs(s: string): seq<string>
    decreases |s|
  {
    var t := StripLeft(s);
    if t == [] then []
    else
      var w := LeadWord(t);
      assert w != [];
      [w] + SplitWs(t[|w|..])
  }

  /** A non-empty run of non-whitespace characters. */
  predicate IsWord(w: string) {
    w != [] && forall c :: c in w ==> !IsSpace(c)
  }

  /** The words of `split()` are non-empty and hold no whitespace. */
  lemma {:induction false} SplitWsWords(s: string)
    ensures forall k :: 0 <= k < |SplitWs(s)| ==> IsWord(SplitWs(s)[k])
    decreases |s|
  {
    var t := StripLeft(s);
    if t != [] {
      var w := LeadWord(t);
      assert IsWord(w);
      var rest := SplitWs(t[|w|..]);
      SplitWsWords(t[|w|..]);
      var r := [w] + rest;
      assert SplitWs(s) == r;
      assert forall k :: 0 < k < |r| ==> r[k] == rest[k - 1];
    }
  }

  /** `split()` finds no word exactly in a blank text. */
  lemma SplitWsNone(s: string)
    ensures SplitWs(s) == [] <==> IsBlank(s)
  {
    LeftStripBlank(s);
  }

  lemma LeftStripBlank(s: string)
    ensures StripLeft(s) == [] <==> IsBlank(s)
  {
    var t := StripLeft(s);
    if t == [] {
      forall c | c in s
        ensures IsSpace(c)
      {
        var k :| 0 <= k < |s| && s[k] == c;
      }
    } else {
      assert t[0] == s[|s| - |t|];
    }
  }

  /**
   * On a stripped, single-spaced text `split()` undoes the join: the words,
   * joined with one space, are the text itself.
   */
  lemma {:induction false} SplitWsJoin(s: string)
    requires IsStripped(s) && SingleSpaced(s)
    ensures JoinWith(SplitWs(s), " ") == s
    decreases |s|, 1
  {
    if s != [] {
      if |LeadWord(s)| < |s| {
        SplitWsJoinPastWord(s);
      } else {
        SplitWsAtWord(s);
        assert LeadWord(s) == s;
      }
    }
  }

  /** The step of `SplitWsJoin`: the first word, one space, and the join of the rest. */
  lemma {:induction false} SplitWsJoinPastWord(s: string)
    requires IsStripped(s) && SingleSpaced(s) && s != [] && |LeadWord(s)| < |s|
    ensures JoinWith(SplitWs(s), " ") == s
    decreases |s|, 0
  {
    var w := LeadWord(s);
    var u := s[|w| + 1..];
    WordThenSpace(s);
    SingleSpacedSlice(s, |w| + 1, |s|);
    assert u[0] == s[|w| + 1] && u[|u| - 1] == s[|s| - 1];
    SplitWsJoin(u);
    SplitWsAtWord(s);
    SplitWsAfterSpace(s[|w|..]);
    assert s[|w|..][1..] == u;
    SplitWsAtWord(u);
    JoinCons(w, SplitWs(u), " ");
  }

  /** A text starting with a word splits into that word and the split of the rest. */
  lemma SplitWsAtWord(s: string)
    requires s != [] && !IsSpace(s[0])
    ensures SplitWs(s) == [LeadWord(s)] + SplitWs(s[|LeadWord(s)|..])
  {
    assert LeadingSpaces(s) == 0;
    assert StripLeft(s) == s;
  }

  /** In a stripped, single-spaced text a word that is not the whole text is followed by one space and a word. */
  lemma WordThenSpace(s: string)
    requires IsStripped(s) && SingleSpaced(s) && s != [] && |LeadWord(s)| < |s|
    ensures var n := |LeadWord(s)|;
            && n + 1 < |s| && s[n] == ' ' && !IsSpace(s[n + 1])
            && s == LeadWord(s) + " " + s[n + 1..]
  {
    var n := |LeadWord(s)|;
    assert s[n] == ' ';
    assert n < |s| - 1;
    assert s[..n] == LeadWord(s);
    assert s == s[..n] + [s[n]] + s[n + 1..];
  }

  /** A text starting with one space, followed by a word, splits as the rest does. */
  lemma SplitWsAfterSpace(r: string)
    requires |r| >= 2 && IsSpace(r[0]) && !IsSpace(r[1])
    ensures SplitWs(r) == SplitWs(r[1..])
  {
    assert LeadingSpaces(r) == 1 + LeadingSpaces(r[1..]);
    assert LeadingSpaces(r[1..]) == 0;
    assert StripLeft(r) == r[1..];
    assert StripLeft(r[1..]) == r[1..];
  }

  function PathJoin(d: string, n: string): string
  {
    if n != [] && n[0] == '/' then n
    else if d == [] || d[|d| - 1] == '/' then d + n
    else d + "/" + n
  }

  /** `os.path.basename(p)`: the part after the last '/'. */
  function Basename(p: string): string
  {
    AfterLast(p, '/')
  }

  function DigitChar(d: nat): (c: char)
    requires d < 10
    ensures IsDigit(c) && c as int - '0' as int == d
  {
    ('0' as int + d) as char
  }

  /** Python `str(n)` for a natural number. */
  function NatToString(n: nat): (r: string)
    ensures |r| >= 1 && forall c :: c in r ==> IsDigit(c)
  {
    if n < 10 then [DigitChar(n)] else NatToString(n / 10) + [DigitChar(n % 10)]
  }

  /** Python `str(i)` for any integer. */
  function IntToString(i: int): string
  {
    if i < 0 then "-" + NatToString(-i) else NatToString(i)
  }

  function Repeat(c: char, n: nat): (r: string)
    ensures |r| == n && forall k :: 0 <= k < n ==> r[k] == c
  {
    if n == 0 then [] else [c] + Repeat(c, n - 1)
  }

  /** Python `s.zfill(width)` for an unsigned digit string: left-pads with '0'. */
  function ZFill(s: string, width: int): string
  {
    if width > |s| then Repeat('0', width - |s|) + s else s
  }

  /**
   * `zfill` keeps the string as its suffix, pads only with zeros, reaches
   * the width, changes nothing in a string already that wide, and applying
   * it twice is applying it once.
   */
  lemma ZFillProps(s: string, width: int)
    ensures var r := ZFill(s, width);
            && |r| >= |s| && |r| >= width
            && r[|r| - |s|..] == s
            && (forall k :: 0 <= k < |r| - |s| ==> r[k] == '0')
            && (|s| >= width ==> r == s)
            && ZFill(r, width) == r
  {
  }

  /** The number a digit string denotes. */
  function DigitsValue(s: string): nat
    requires forall c :: c in s ==> IsDigit(c)
  {
    if s == [] then 0
    else
      assert s[|s| - 1] in s && IsDigit(s[|s| - 1]);
      DigitsValue(s[..|s| - 1]) * 10 + (s[|s| - 1] as int - '0' as int)
  }

  lemma {:induction false} NatToStringValue(n: nat)
    ensures DigitsValue(NatToString(n)) == n
  {
    var s := NatToString(n);
    if n >= 10 {
      NatToStringValue(n / 10);
      assert s[..|s| - 1] == NatToString(n / 10);
    } else {
      assert s[..|s| - 1] == [];
    }
  }

  lemma {:induction false} LeadingZerosValue(z: nat, s: string)
    requires forall c :: c in s ==> IsDigit(c)
    ensures forall c :: c in Repeat('0', z) + s ==> IsDigit(c)
    ensures DigitsValue(Repeat('0', z) + s) == DigitsValue(s)
    decreases |s|
  {
    var p := Repeat('0', z) + s;
    if s == [] {
      assert p == Repeat('0', z);
      ZerosValue(z);
    } else {
      var s' := s[..|s| - 1];
      assert p[..|p| - 1] == Repeat('0', z) + s';
      assert forall c :: c in s' ==> c in s;
      LeadingZerosValue(z, s');
    }
  }

  lemma {:induction false} ZerosValue(z: nat)
    ensures DigitsValue(Repeat('0', z)) == 0
  {
    if z > 0 {
      var p := Repeat('0', z);
      assert p[..|p| - 1] == Repeat('0', z - 1) by {
        assert p == Repeat('0', z - 1) + ['0'] by {
          assert forall k :: 0 <= k < z ==> p[k] == '0';
        }
      }
      ZerosValue(z - 1);
    }
  }

  /** Padding keeps the number: different numbers give different padded names. */
  lemma PaddedDecimalInjective(i: nat, j: nat, width: int)
    requires ZFill(NatToString(i), width) == ZFill(NatToString(j), width)
    ensures i == j
  {
    PaddedValue(i, width);
    PaddedValue(j, width);
  }

  /** The padded decimal still denotes the number. */
  lemma PaddedValue(i: nat, width: int)
    ensures forall c :: c in ZFill(NatToString(i), width) ==> IsDigit(c)
    ensures DigitsValue(ZFill(NatToString(i), width)) == i
  {
    var a := NatToString(i);
    var p := ZFill(a, width);
    assert p == Repeat('0', |p| - |a|) + a;
    LeadingZerosValue(|p| - |a|, a);
    NatToStringValue(i);
  }
}
