/**
 * `rewrite_chatting_style.py`: every usable input line is sent to a chat
 * model as a few-shot prompt, with up to three attempts per line, and the
 * reply is written out as `topic:\tline` lines.
 *
 * The chat service is the `outcomes` parameter: `outcomes(n)` is what the
 * `n`-th call of the run (counted from 0) returns. `requests` records the
 * messages of every call, in order. The prompt constants are parameters:
 * `system` is the system prompt and `fewShot` the example pairs.
 */
module RewriteChatting {
  import opened Strings
  import opened Wrappers
  import opened Chat

  /** The prefix of every user message. */
  const Ask := "Rewrite the following paragraph: "

  /** Attempts per line before the run gives up. */
  const Attempts := 3

  /** The number of few-shot examples the script ships. */
  const FewShotCount := 2

  // ---------------------------------------------------------------------
  // Input lines
  // ---------------------------------------------------------------------

  /** The two fields of a usable line: the topic (the first field up to its first ':') and the content. */
  datatype Item = Item(topic: string, content: string)

  /** `line.split('\t')` with exactly two fields, or `None` for a line that is skipped. */
  function ParseItem(line: string): Option<Item>
  {
    var parts := SplitChar(line, '\t');
    if |parts| != 2 then None else Some(Item(BeforeFirst(parts[0], ':'), parts[1]))
  }

  /**
   * A line is used exactly when it holds one tab; the content is then what
   * follows the tab, and the topic is the text before the tab up to its
   * first colon.
   */
  lemma ParseItemShape(line: string)
    ensures ParseItem(line).Some? <==> multiset(line)['\t'] == 1
    ensures var f := BeforeFirst(line, '\t');
            ParseItem(line).Some? ==>
              && line == f + "\t" + ParseItem(line).value.content
              && '\t' !in f && '\t' !in ParseItem(line).value.content
              && ParseItem(line).value.topic == BeforeFirst(f, ':')
              && ParseItem(line).value.topic <= f && ':' !in ParseItem(line).value.topic
  {
    SplitCharCount(line, '\t');
    if |SplitChar(line, '\t')| == 2 {
      TwoFields(line, '\t');
    }
  }

  // ---------------------------------------------------------------------
  // Messages
  // ---------------------------------------------------------------------

  /** The user/assistant pair of every few-shot example, in order. */
  function Examples(fewShot: seq<(string, string)>): (r: seq<Message>)
    ensures |r| == 2 * |fewShot|
  {
    if fewShot == [] then []
    else
      var last := fewShot[|fewShot| - 1];
      Examples(fewShot[..|fewShot| - 1]) + [Message(User, Ask + last.0), Message(Assistant, last.1)]
  }

  /** The messages of one request. */
  function Messages(system: string, fewShot: seq<(string, string)>, content: string): seq<Message>
  {
    [Message(System, system)] + Examples(fewShot) + [Message(User, Ask + content)]
  }

  lemma ExamplesSnoc(fewShot: seq<(string, string)>, k: nat)
    requires k < |fewShot|
    ensures Examples(fewShot[..k + 1]) == Examples(fewShot[..k]) + [Message(User, Ask + fewShot[k].0), Message(Assistant, fewShot[k].1)]
  {
    assert fewShot[..k + 1][..k] == fewShot[..k];
  }

  /** The `messages` list as the script builds it, one append at a time. */
  method BuildMessages(system: string, fewShot: seq<(string, string)>, content: string) returns (messages: seq<Message>)
    ensures messages == Messages(system, fewShot, content)
  {
    messages := [Message(System, system)];
    for k := 0 to |fewShot|
      invariant messages == [Message(System, system)] + Examples(fewShot[..k])
    {
      ExamplesSnoc(fewShot, k);
      messages := messages + [Message(User, Ask + fewShot[k].0)];
      messages := messages + [Message(Assistant, fewShot[k].1)];
    }
    assert fewShot[..|fewShot|] == fewShot;
    messages := messages + [Message(User, Ask + content)];
  }

  /** Example `k` sits at positions `2k` and `2k + 1`. */
  lemma {:induction false} ExamplesIndex(fewShot: seq<(string, string)>)
    ensures forall k :: 0 <= k < |fewShot| ==>
              && Examples(fewShot)[2 * k] == Message(User, Ask + fewShot[k].0)
              && Examples(fewShot)[2 * k + 1] == Message(Assistant, fewShot[k].1)
  {
    if fewShot != [] {
      ExamplesIndex(fewShot[..|fewShot| - 1]);
    }
  }

  /**
   * A request holds `2 + 2 * |fewShot|` messages: the system prompt, then
   * every example as a user/assistant pair, then the line's content as the
   * last user message; all user messages carry the same prefix.
   */
  lemma MessagesShape(system: string, fewShot: seq<(string, string)>, content: string)
    ensures var m := Messages(system, fewShot, content);
            && |m| == 2 + 2 * |fewShot|
            && m[0] == Message(System, system)
            && (forall k :: 0 <= k < |fewShot| ==>
                  m[1 + 2 * k] == Message(User, Ask + fewShot[k].0) && m[2 + 2 * k] == Message(Assistant, fewShot[k].1))
            && m[|m| - 1] == Message(User, Ask + content)
  {
    ExamplesIndex(fewShot);
  }

  /** With the script's two examples every request holds six messages. */
  lemma SixMessages(system: string, fewShot: seq<(string, string)>, content: string)
    requires |fewShot| == FewShotCount
    ensures |Messages(system, fewShot, content)| == 6
  {
  }

  // ---------------------------------------------------------------------
  // The retry loop
  // ---------------------------------------------------------------------

  datatype Status = Succeeded | Exhausted | Interrupt

  /** How the retry loop ended and how many calls it made. */
  datatype Retry = Retry(tries: nat, status: Status)

  /** The retry loop from attempt `a` on, its calls numbered from `base`. */
  function RetryFrom(outcomes: nat -> Outcome, base: nat, a: nat): Retry
    decreases Attempts - a
  {
    if a >= Attempts then Retry(a, Exhausted)
    else match outcomes(base + a)
      case Interrupted => Retry(a + 1, Interrupt)
      case Failed => RetryFrom(outcomes, base, a + 1)
      case Returned(_) => Retry(a + 1, Succeeded)
  }

  /** `for _ in range(3)` with the `success` flag: a `KeyboardInterrupt` escapes, other errors are retried. */
  method RetryLoop(outcomes: nat -> Outcome, base: nat) returns (r: Retry)
    ensures r == RetryFrom(outcomes, base, 0)
  {
    var success := false;
    var a := 0;
    while a < Attempts
      invariant 0 <= a <= Attempts
      invariant RetryFrom(outcomes, base, a) == RetryFrom(outcomes, base, 0)
      decreases Attempts - a
    {
      var outcome := outcomes(base + a);
      if outcome.Interrupted? {
        return Retry(a + 1, Interrupt);
      }
      if outcome.Returned? {
        success := true;
        break;
      }
      a := a + 1;
    }
    if !success {
      return Retry(Attempts, Exhausted);
    }
    r := Retry(a + 1, Succeeded);
  }

  /** Calls `base .. base+k-1` all raised an ordinary error. */
  predicate AllFailed(outcomes: nat -> Outcome, base: nat, k: nat)
  {
    forall i :: base <= i < base + k ==> outcomes(i).Failed?
  }

  /**
   * The loop makes one to three calls; every call but the last raised an
   * ordinary error; it succeeds or is interrupted on its last call, and it
   * is exhausted exactly when all three calls failed.
   */
  lemma {:induction false} RetryMeaning(outcomes: nat -> Outcome, base: nat, a: nat)
    requires a <= Attempts && AllFailed(outcomes, base, a)
    ensures var r := RetryFrom(outcomes, base, a);
            && a <= r.tries && 1 <= r.tries <= Attempts
            && AllFailed(outcomes, base, r.tries - 1)
            && (r.status == Succeeded <==> outcomes(base + r.tries - 1).Returned?)
            && (r.status == Interrupt <==> outcomes(base + r.tries - 1).Interrupted?)
            && (r.status == Exhausted <==> r.tries == Attempts && AllFailed(outcomes, base, Attempts))
    decreases Attempts - a
  {
    if a < Attempts && outcomes(base + a).Failed? {
      assert AllFailed(outcomes, base, a + 1);
      RetryMeaning(outcomes, base, a + 1);
    }
  }

  // ---------------------------------------------------------------------
  // One line
  // ---------------------------------------------------------------------

  /** How a run ended: normally, by the `break` after three failed attempts at line `idx`, or by an exception at line `idx`. */
  datatype End = Finished | GaveUp(idx: nat) | Raised(idx: nat)

  /** What the run has written, the requests it has made, and how it ended so far. */
  datatype Run = Run(out: seq<string>, requests: seq<seq<Message>>, end: End)

  function Copies(m: seq<Message>, k: nat): (r: seq<seq<Message>>)
    ensures |r| == k && forall i :: 0 <= i < k ==> r[i] == m
  {
    seq(k, i requires 0 <= i < k => m)
  }

  /**
   * One usable line at position `idx`: the retry loop, then the second
   * call, whose response is the one that is written.
   */
  function ItemStep(run: Run, idx: nat, item: Item, system: string, fewShot: seq<(string, string)>,
                    outcomes: nat -> Outcome): Run
  {
    var messages := Messages(system, fewShot, item.content);
    var n := |run.requests|;
    var r := RetryFrom(outcomes, n, 0);
    var tried := run.requests + Copies(messages, r.tries);
    if r.status == Interrupt then Run(run.out, tried, Raised(idx))
    else if r.status == Exhausted then Run(run.out, tried, GaveUp(idx))
    else CallAgain(run.out, tried, messages, item.topic, idx, outcomes(n + r.tries))
  }

  /** The second, unguarded call: its reply is written, a missing key skips the line, an exception ends the run. */
  function CallAgain(out: seq<string>, tried: seq<seq<Message>>, messages: seq<Message>, topic: string, idx: nat,
                     outcome: Outcome): Run
  {
    match outcome
      case Returned(Content(text)) => Run(out + ReplyLines(topic, text), tried + [messages], Finished)
      case Returned(MissingKey) => Run(out, tried + [messages], Finished)
      case _ => Run(out, tried + [messages], Raised(idx))
  }

  /** Line `idx` of the limited list: skipped before `start_idx`, after the run ended, or when it does not parse. */
  function LineStep(run: Run, idx: nat, line: string, startIdx: int, system: string,
                    fewShot: seq<(string, string)>, outcomes: nat -> Outcome): Run
  {
    if run.end != Finished || idx < startIdx then run
    else match ParseItem(line)
      case None => run
      case Some(item) => ItemStep(run, idx, item, system, fewShot, outcomes)
  }

  /** The run over the first `k` lines. */
  function RunTo(lines: seq<string>, k: nat, startIdx: int, system: string, fewShot: seq<(string, string)>,
                 outcomes: nat -> Outcome): Run
    requires k <= |lines|
  {
    if k == 0 then Run([], [], Finished)
    else LineStep(RunTo(lines, k - 1, startIdx, system, fewShot, outcomes), k - 1, lines[k - 1], startIdx, system, fewShot, outcomes)
  }

  /** The whole run: blank lines dropped, then `limit`, then `start_idx`. */
  function Rewrite(raw: seq<string>, limit: int, startIdx: int, system: string, fewShot: seq<(string, string)>,
                   outcomes: nat -> Outcome): Run
  {
    var lines := Limited(Kept(raw), limit);
    RunTo(lines, |lines|, startIdx, system, fewShot, outcomes)
  }

  /** The body of the line loop for a usable line; `requests` grows by one entry per call. */
  method ProcessItem(out: seq<string>, requests: seq<seq<Message>>, idx: nat, item: Item, system: string,
                     fewShot: seq<(string, string)>, outcomes: nat -> Outcome)
    returns (out': seq<string>, requests': seq<seq<Message>>, end: End)
    ensures Run(out', requests', end) == ItemStep(Run(out, requests, Finished), idx, item, system, fewShot, outcomes)
  {
    var messages := BuildMessages(system, fewShot, item.content);
    var r := RetryLoop(outcomes, |requests|);
    var n := |requests|;
    requests' := requests + Copies(messages, r.tries);
    out' := out;
    if r.status == Interrupt {
      return out', requests', Raised(idx);
    }
    if r.status == Exhausted {
      return out', requests', GaveUp(idx);
    }
    assert |requests'| == n + r.tries;
    out', requests', end := SecondCall(out', requests', messages, item.topic, idx, outcomes(|requests'|));
  }

  method SecondCall(out: seq<string>, tried: seq<seq<Message>>, messages: seq<Message>, topic: string, idx: nat,
                    outcome: Outcome)
    returns (out': seq<string>, requests': seq<seq<Message>>, end: End)
    ensures Run(out', requests', end) == CallAgain(out, tried, messages, topic, idx, outcome)
  {
    out', requests', end := out, tried + [messages], Finished;
    match outcome {
      case Returned(Content(text)) =>
        var written := WriteReply(topic, text);
        out' := out + written;
      case Returned(MissingKey) =>
      case _ =>
        end := Raised(idx);
    }
  }

  /** Once the run has ended, later lines change nothing. */
  lemma {:induction false} RunStays(lines: seq<string>, k: nat, m: nat, startIdx: int, system: string,
                                    fewShot: seq<(string, string)>, outcomes: nat -> Outcome)
    requires k <= m <= |lines|
    requires RunTo(lines, k, startIdx, system, fewShot, outcomes).end != Finished
    ensures RunTo(lines, m, startIdx, system, fewShot, outcomes) == RunTo(lines, k, startIdx, system, fewShot, outcomes)
    decreases m - k
  {
    if m > k {
      RunStays(lines, k, m - 1, startIdx, system, fewShot, outcomes);
    }
  }

  /** One round of the line loop while the run goes on. */
  method ProcessLine(out: seq<string>, requests: seq<seq<Message>>, idx: nat, line: string, startIdx: int,
                     system: string, fewShot: seq<(string, string)>, outcomes: nat -> Outcome)
    returns (out': seq<string>, requests': seq<seq<Message>>, end: End)
    ensures Run(out', requests', end) == LineStep(Run(out, requests, Finished), idx, line, startIdx, system, fewShot, outcomes)
  {
    if idx < startIdx {
      return out, requests, Finished;
    }
    var parsed := ParseItem(line);
    if parsed.None? {
      return out, requests, Finished;
    }
    out', requests', end := ProcessItem(out, requests, idx, parsed.value, system, fewShot, outcomes);
  }

  /** The line loop: stops at the first line that gives up or raises. */
  method RunLines(lines: seq<string>, startIdx: int, system: string, fewShot: seq<(string, string)>,
                  outcomes: nat -> Outcome)
    returns (out: seq<string>, requests: seq<seq<Message>>, end: End)
    ensures Run(out, requests, end) == RunTo(lines, |lines|, startIdx, system, fewShot, outcomes)
  {
    out, requests, end := [], [], Finished;
    for idx := 0 to |lines|
      invariant Run(out, requests, end) == RunTo(lines, idx, startIdx, system, fewShot, outcomes)
      invariant end == Finished
    {
      out, requests, end := ProcessLine(out, requests, idx, lines[idx], startIdx, system, fewShot, outcomes);
      if end != Finished {
        RunStays(lines, idx + 1, |lines|, startIdx, system, fewShot, outcomes);
        return;
      }
    }
  }

  /** `rewrite_paragraphs` of the chatting-style script, without its file handling. */
  method RewriteParagraphs(raw: seq<string>, limit: int, startIdx: int, system: string,
                           fewShot: seq<(string, string)>, outcomes: nat -> Outcome)
    returns (out: seq<string>, requests: seq<seq<Message>>, end: End)
    ensures Run(out, requests, end) == Rewrite(raw, limit, startIdx, system, fewShot, outcomes)
  {
    var lines := Kept(raw);
    if limit > 0 {
      lines := if limit < |lines| then lines[..limit] else lines;
    }
    out, requests, end := RunLines(lines, startIdx, system, fewShot, outcomes);
  }

  // ---------------------------------------------------------------------
  // Properties of a run
  // ---------------------------------------------------------------------

  /** Lines before `start_idx` are never sent: the run over them makes no request and writes nothing. */
  lemma {:induction false} NothingBeforeStart(lines: seq<string>, k: nat, startIdx: int, system: string,
                                              fewShot: seq<(string, string)>, outcomes: nat -> Outcome)
    requires k <= |lines| && k <= startIdx
    ensures RunTo(lines, k, startIdx, system, fewShot, outcomes) == Run([], [], Finished)
  {
    if k > 0 {
      NothingBeforeStart(lines, k - 1, startIdx, system, fewShot, outcomes);
    }
  }

  /**
   * The run gives up at line `idx` exactly when the three calls for it all
   * raised ordinary errors: it then has made three requests for that line,
   * written nothing for it, and makes no further call.
   */
  lemma GivesUpAfterThreeFailures(run: Run, idx: nat, item: Item, system: string,
                                  fewShot: seq<(string, string)>, outcomes: nat -> Outcome)
    ensures var next := ItemStep(run, idx, item, system, fewShot, outcomes);
            var n := |run.requests|;
            && (next.end == GaveUp(idx) <==> AllFailed(outcomes, n, Attempts))
            && (next.end == GaveUp(idx) ==>
                  next.out == run.out && next.requests == run.requests + Copies(Messages(system, fewShot, item.content), Attempts))
  {
    RetryMeaning(outcomes, |run.requests|, 0);
  }

  /**
   * When a line goes through, the response that is written is not the one
   * that succeeded: it is the one of the extra call right after it.
   */
  lemma SecondCallIsWritten(run: Run, idx: nat, item: Item, system: string,
                            fewShot: seq<(string, string)>, outcomes: nat -> Outcome)
    requires ItemStep(run, idx, item, system, fewShot, outcomes).end == Finished
    ensures var next := ItemStep(run, idx, item, system, fewShot, outcomes);
            var n := |run.requests|;
            var t := RetryFrom(outcomes, n, 0).tries;
            && 1 <= t <= Attempts
            && AllFailed(outcomes, n, t - 1) && outcomes(n + t - 1).Returned?
            && Answered(outcomes(n + t))
            && |next.requests| == n + t + 1
            && next.out == run.out + (if outcomes(n + t).response.Content?
                                      then ReplyLines(item.topic, outcomes(n + t).response.text) else [])
  {
    RetryMeaning(outcomes, |run.requests|, 0);
  }

  /** Every request has `2 + 2 * |fewShot|` messages, the system prompt first. */
  predicate WellShaped(requests: seq<seq<Message>>, system: string, fewShot: seq<(string, string)>)
  {
    forall i :: 0 <= i < |requests| ==> |requests[i]| == 2 + 2 * |fewShot| && requests[i][0] == Message(System, system)
  }

  lemma LineStepShaped(run: Run, idx: nat, line: string, startIdx: int, system: string,
                       fewShot: seq<(string, string)>, outcomes: nat -> Outcome)
    requires WellShaped(run.requests, system, fewShot)
    ensures WellShaped(LineStep(run, idx, line, startIdx, system, fewShot, outcomes).requests, system, fewShot)
  {
    var parsed := ParseItem(line);
    if run.end == Finished && idx >= startIdx && parsed.Some? {
      var cur := ItemStep(run, idx, parsed.value, system, fewShot, outcomes);
      ItemRequests(run, idx, parsed.value, system, fewShot, outcomes);
      MessagesShape(system, fewShot, parsed.value.content);
      forall i | 0 <= i < |cur.requests|
        ensures |cur.requests[i]| == 2 + 2 * |fewShot| && cur.requests[i][0] == Message(System, system)
      {
        if i < |run.requests| {
          assert cur.requests[i] == cur.requests[..|run.requests|][i];
        }
      }
    }
  }

  /** Every request of a run is the message list of one of its lines: `2 + 2 * |fewShot|` messages, the system prompt first. */
  lemma {:induction false} RequestsShape(lines: seq<string>, k: nat, startIdx: int, system: string,
                                         fewShot: seq<(string, string)>, outcomes: nat -> Outcome)
    requires k <= |lines|
    ensures WellShaped(RunTo(lines, k, startIdx, system, fewShot, outcomes).requests, system, fewShot)
  {
    if k > 0 {
      RequestsShape(lines, k - 1, startIdx, system, fewShot, outcomes);
      LineStepShaped(RunTo(lines, k - 1, startIdx, system, fewShot, outcomes), k - 1, lines[k - 1], startIdx, system, fewShot, outcomes);
    }
  }

  /**
   * A line makes one to four calls (up to three attempts and the extra one),
   * every one of them with the line's messages, and keeps the earlier requests.
   */
  lemma ItemRequests(run: Run, idx: nat, item: Item, system: string,
                     fewShot: seq<(string, string)>, outcomes: nat -> Outcome)
    ensures var next := ItemStep(run, idx, item, system, fewShot, outcomes);
            && |run.requests| < |next.requests| <= |run.requests| + Attempts + 1
            && next.requests[..|run.requests|] == run.requests
            && forall i :: |run.requests| <= i < |next.requests| ==> next.requests[i] == Messages(system, fewShot, item.content)
  {
    RetryMeaning(outcomes, |run.requests|, 0);
  }
}
