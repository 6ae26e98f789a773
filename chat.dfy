/**
 * What the two rewriting scripts share: the chat messages they send, what
 * one call of `openai.ChatCompletion.create` can come back with, and how a
 * reply is written out, one `f"{topic}:\t{line}"` per kept reply line.
 *
 * The chat service itself is left out: a run is given the outcome of each
 * call, numbered in the order the calls are made. Written lines are kept
 * without the newline `print` adds.
 */
module Chat {
  import opened Strings

  datatype Role = System | User | Assistant

  datatype Message = Message(role: Role, content: string)

  /**
   * What reading `response['choices'][0]['message']['content']` and
   * splitting it comes to: the text; a `KeyError`, which the scripts catch;
   * or a reply they cannot use and do not catch (an empty `choices` list
   * raises `IndexError`, a `None` content makes `split` raise).
   */
  datatype Response = Content(text: string) | MissingKey | Unusable

  /** One call of the chat service: a response, a `KeyboardInterrupt`, or any other exception. */
  datatype Outcome = Returned(response: Response) | Interrupted | Failed

  /** A call whose reply the scripts go on with: it returned, and the reply is text or a caught `KeyError`. */
  predicate Answered(o: Outcome) {
    o.Returned? && !o.response.Unusable?
  }

  /** The reply lines that are written: every line whose `strip()` is not empty, stripped. */
  function Kept(pieces: seq<string>): seq<string>
  {
    if pieces == [] then []
    else
      var last := pieces[|pieces| - 1];
      Kept(pieces[..|pieces| - 1]) + (if Strip(last) == [] then [] else [Strip(last)])
  }

  /** `lines[:limit]` when `limit > 0`, all of `lines` otherwise. */
  function Limited<T>(lines: seq<T>, limit: int): (r: seq<T>)
    ensures r <= lines
    ensures |r| == if limit > 0 && limit < |lines| then limit else |lines|
  {
    if limit > 0 && limit < |lines| then lines[..limit] else lines
  }

  /** `f"{topic}:\t{line}"` for every line. */
  function Tag(topic: string, lines: seq<string>): (r: seq<string>)
    ensures |r| == |lines|
  {
    seq(|lines|, k requires 0 <= k < |lines| => topic + ":\t" + lines[k])
  }

  /** What one reply adds to the output file. */
  function ReplyLines(topic: string, result: string): seq<string>
  {
    Tag(topic, Kept(SplitChar(result, '\n')))
  }

  lemma TagSnoc(topic: string, lines: seq<string>, x: string)
    ensures Tag(topic, lines + [x]) == Tag(topic, lines) + [topic + ":\t" + x]
  {
  }

  lemma KeptSnoc(pieces: seq<string>, k: nat)
    requires k < |pieces|
    ensures Kept(pieces[..k + 1]) == Kept(pieces[..k]) + (if Strip(pieces[k]) == [] then [] else [Strip(pieces[k])])
  {
    assert pieces[..k + 1][..k] == pieces[..k];
  }

  /** The loop `for para in result.split('\n')` that writes one reply. */
  method WriteReply(topic: string, result: string) returns (lines: seq<string>)
    ensures lines == ReplyLines(topic, result)
  {
    var pieces := SplitChar(result, '\n');
    lines := [];
    for k := 0 to |pieces|
      invariant lines == Tag(topic, Kept(pieces[..k]))
    {
      KeptSnoc(pieces, k);
      if Strip(pieces[k]) == [] {
        continue;
      }
      var para := Strip(pieces[k]);
      TagSnoc(topic, Kept(pieces[..k]), para);
      lines := lines + [topic + ":\t" + para];
    }
    assert pieces[..|pieces|] == pieces;
  }

  /** A character absent from a string is absent from its strip. */
  lemma StripWithout(s: string, c: char)
    requires c !in s
    ensures c !in Strip(s)
  {
    StripSlice(s);
    var i := |s| - |StripLeft(s)|;
    assert forall k :: 0 <= k < |Strip(s)| ==> Strip(s)[k] == s[i + k];
  }

  /** Every kept line is non-empty and stripped, and holds no character that no piece holds. */
  lemma {:induction false} KeptShape(pieces: seq<string>, c: char)
    ensures forall k :: 0 <= k < |Kept(pieces)| ==> Kept(pieces)[k] != [] && IsStripped(Kept(pieces)[k])
    ensures (forall k :: 0 <= k < |pieces| ==> c !in pieces[k]) ==>
              forall k :: 0 <= k < |Kept(pieces)| ==> c !in Kept(pieces)[k]
  {
    if pieces != [] {
      var last := pieces[|pieces| - 1];
      KeptShape(pieces[..|pieces| - 1], c);
      StripProps(last);
      if c !in last {
        StripWithout(last, c);
      }
    }
  }

  /** Lines that are already stripped and not empty are kept as they are. */
  lemma {:induction false} KeptUnchanged(pieces: seq<string>)
    requires forall k :: 0 <= k < |pieces| ==> pieces[k] != [] && IsStripped(pieces[k])
    ensures Kept(pieces) == pieces
  {
    if pieces != [] {
      var last := pieces[|pieces| - 1];
      KeptUnchanged(pieces[..|pieces| - 1]);
      StrippedIsFixpoint(last);
      assert pieces == pieces[..|pieces| - 1] + [last];
    }
  }

  /**
   * Each written line is the topic, `:\t`, and a non-empty stripped reply
   * line without a newline; dropping the prefix gives the kept lines back.
   */
  lemma ReplyLinesShape(topic: string, result: string)
    ensures var r := ReplyLines(topic, result);
            var kept := Kept(SplitChar(result, '\n'));
            && |r| == |kept|
            && forall k :: 0 <= k < |r| ==>
                 && r[k] == topic + ":\t" + kept[k]
                 && r[k][|topic| + 2..] == kept[k]
                 && kept[k] != [] && IsStripped(kept[k]) && '\n' !in kept[k]
  {
    KeptShape(SplitChar(result, '\n'), '\n');
    var r := ReplyLines(topic, result);
    var kept := Kept(SplitChar(result, '\n'));
    forall k | 0 <= k < |r|
      ensures r[k][|topic| + 2..] == kept[k]
    {
      assert r[k] == (topic + ":\t") + kept[k];
    }
  }

  /** What follows the `topic:\t` prefix of every line. */
  function Untag(topic: string, lines: seq<string>): (r: seq<string>)
    ensures |r| == |lines|
  {
    seq(|lines|, k requires 0 <= k < |lines| => if |topic| + 2 <= |lines[k]| then lines[k][|topic| + 2..] else [])
  }

  lemma UntagTag(topic: string, lines: seq<string>)
    ensures Untag(topic, Tag(topic, lines)) == lines
  {
    var t := Tag(topic, lines);
    forall k | 0 <= k < |lines|
      ensures Untag(topic, t)[k] == lines[k]
    {
      assert t[k] == (topic + ":\t") + lines[k];
    }
  }

  /** A reply whose lines are all stripped and non-empty is written in full: joining what follows the prefixes gives it back. */
  lemma ReplyRoundTrip(topic: string, result: string)
    requires forall k :: 0 <= k < |SplitChar(result, '\n')| ==>
               SplitChar(result, '\n')[k] != [] && IsStripped(SplitChar(result, '\n')[k])
    ensures JoinWith(Untag(topic, ReplyLines(topic, result)), "\n") == result
  {
    KeptUnchanged(SplitChar(result, '\n'));
    UntagTag(topic, Kept(SplitChar(result, '\n')));
    SplitCharJoin(result, '\n');
  }
}
