/**
 * `batch_asr_parallel.py`: one recogniser call per WAV file with a fixed
 * number of attempts, and the folder loop that writes one JSON line per
 * file and counts successes and failures.
 *
 * The recogniser is an oracle: `run(k)` is the outcome of attempt `k`
 * (0-based) on one file, either the text the recogniser printed or the
 * message of the exception it raised. The clock that stamps each record is
 * the parameter `stamp`.
 */
module AsrParallel {
  import opened Wrappers
  import opened Strings
  import opened Json

  /** The outcome of one recogniser call. */
  datatype Outcome = Printed(output: string) | Raised(message: string)

  /** What `process_single_file` returns: the file's basename and its text. */
  datatype FileResult = FileResult(filename: string, text: string)

  /** The default `max_retries`, the one `process_folder` uses. */
  const DefaultRetries := 3

  /**
   * The index of the first attempt among `0 .. n-1` that succeeds, or `n`
   * when none does.
   */
  function FirstSuccess(run: nat -> Outcome, n: nat): (k: nat)
    ensures k <= n
    ensures k < n ==> run(k).Printed?
    ensures k == n > 0 ==> run(n - 1).Raised?
    ensures forall j :: 0 <= j < k ==> run(j).Raised?
  {
    if n == 0 then 0
    else
      var k := FirstSuccess(run, n - 1);
      if k < n - 1 then k else if run(n - 1).Printed? then n - 1 else n
  }

  /** None of the first `n` attempts succeeds. */
  predicate NoneSucceed(run: nat -> Outcome, n: nat) {
    forall j :: 0 <= j < n ==> run(j).Raised?
  }

  /** The first success is the first attempt that does not fail. */
  lemma {:induction false} NoneSucceedIff(run: nat -> Outcome, n: nat)
    ensures NoneSucceed(run, n) <==> FirstSuccess(run, n) == n
  {
    if n > 0 {
      NoneSucceedIff(run, n - 1);
      if FirstSuccess(run, n - 1) < n - 1 {
        assert run(FirstSuccess(run, n - 1)).Printed?;
      }
    }
  }

  /** Once a success has happened, later attempts do not move it. */
  lemma {:induction false} FirstSuccessStable(run: nat -> Outcome, m: nat, n: nat)
    requires m <= n && FirstSuccess(run, m) < m
    ensures FirstSuccess(run, n) == FirstSuccess(run, m)
    decreases n - m
  {
    if m < n {
      FirstSuccessStable(run, m, n - 1);
    }
  }

  /** The text written for a file whose attempts all failed. */
  function ErrorText(maxRetries: int, message: string): string
  {
    "ERROR: Failed after " + IntToString(maxRetries) + " attempts: " + message
  }

  /**
   * The result of `process_single_file`: nothing at all when no attempt is
   * made, the stripped output of the first successful attempt, or the error
   * text with the last attempt's message.
   */
  function SingleFile(wavFile: string, maxRetries: int, run: nat -> Outcome): (r: Option<FileResult>)
    ensures r.Some? <==> maxRetries > 0
    ensures r.Some? ==> r.value.filename == Basename(wavFile)
  {
    if maxRetries <= 0 then None
    else
      var k := FirstSuccess(run, maxRetries);
      if k < maxRetries then Some(FileResult(Basename(wavFile), Strip(run(k).output)))
      else Some(FileResult(Basename(wavFile), ErrorText(maxRetries, run(maxRetries - 1).message)))
  }

  /** The number of two-second pauses: one after each failed attempt that is not the last. */
  function Pauses(maxRetries: int, run: nat -> Outcome): nat
  {
    if maxRetries <= 0 then 0
    else
      var k := FirstSuccess(run, maxRetries);
      if k < maxRetries then k else maxRetries - 1
  }

  /** The number of recogniser calls. */
  function Calls(maxRetries: int, run: nat -> Outcome): nat
  {
    if maxRetries <= 0 then 0
    else
      var k := FirstSuccess(run, maxRetries);
      if k < maxRetries then k + 1 else maxRetries
  }

  /** The retry loop of `process_single_file`; `pauses` counts the sleeps and `calls` the attempts. */
  method ProcessSingleFile(wavFile: string, maxRetries: int, run: nat -> Outcome)
    returns (r: Option<FileResult>, pauses: nat, calls: nat)
    ensures r == SingleFile(wavFile, maxRetries, run)
    ensures pauses == Pauses(maxRetries, run)
    ensures calls == Calls(maxRetries, run)
  {
    var filename := Basename(wavFile);
    pauses, calls := 0, 0;
    var attempt: nat := 0;
    while attempt < maxRetries
      invariant if maxRetries > 0 then attempt < maxRetries else attempt == 0
      invariant FirstSuccess(run, attempt) == attempt
      invariant pauses == attempt && calls == attempt
    {
      calls := calls + 1;
      NoneSucceedIff(run, attempt);
      match run(attempt)
      case Printed(output) =>
        FirstSuccessWins(wavFile, maxRetries, run, attempt);
        r := Some(FileResult(filename, Strip(output)));
        return;
      case Raised(message) =>
        assert FirstSuccess(run, attempt + 1) == attempt + 1;
        if attempt < maxRetries - 1 {
          pauses := pauses + 1;
        } else {
          NoneSucceedIff(run, maxRetries);
          AllAttemptsFail(wavFile, maxRetries, run);
          r := Some(FileResult(filename, ErrorText(maxRetries, message)));
          return;
        }
      attempt := attempt + 1;
    }
    CallsBounded(maxRetries, run);
    r := None;
  }

  /** On the first success, the stripped output of that attempt is returned after one pause per earlier failure. */
  lemma FirstSuccessWins(wavFile: string, maxRetries: int, run: nat -> Outcome, k: nat)
    requires k < maxRetries && run(k).Printed? && NoneSucceed(run, k)
    ensures SingleFile(wavFile, maxRetries, run) == Some(FileResult(Basename(wavFile), Strip(run(k).output)))
    ensures Pauses(maxRetries, run) == k && Calls(maxRetries, run) == k + 1
  {
    FirstSuccessAt(run, maxRetries, k);
  }

  lemma FirstSuccessAt(run: nat -> Outcome, n: nat, k: nat)
    requires k < n && run(k).Printed? && NoneSucceed(run, k)
    ensures FirstSuccess(run, n) == k
  {
    NoneSucceedIff(run, k);
    assert FirstSuccess(run, k + 1) == k;
    FirstSuccessStable(run, k + 1, n);
  }

  /** When every attempt fails, the error text names the attempt count and the last message. */
  lemma AllAttemptsFail(wavFile: string, maxRetries: int, run: nat -> Outcome)
    requires maxRetries > 0 && NoneSucceed(run, maxRetries)
    ensures SingleFile(wavFile, maxRetries, run)
         == Some(FileResult(Basename(wavFile), ErrorText(maxRetries, run(maxRetries - 1).message)))
    ensures "ERROR:" <= SingleFile(wavFile, maxRetries, run).value.text
    ensures Pauses(maxRetries, run) == maxRetries - 1 && Calls(maxRetries, run) == maxRetries
  {
    NoneSucceedIff(run, maxRetries);
  }

  /** Never more calls than `max_retries`, and one pause fewer than calls unless the first call succeeds. */
  lemma CallsBounded(maxRetries: int, run: nat -> Outcome)
    ensures maxRetries > 0 ==> 1 <= Calls(maxRetries, run) <= maxRetries
    ensures maxRetries > 0 ==> Pauses(maxRetries, run) == Calls(maxRetries, run) - 1
    ensures maxRetries <= 0 ==> Calls(maxRetries, run) == 0 && Pauses(maxRetries, run) == 0
  {
  }

  // ---------------------------------------------------------------------
  // process_folder
  // ---------------------------------------------------------------------

  /** A text counts as a failure when it starts with `ERROR:`. */
  predicate IsFailure(text: string) {
    "ERROR:" <= text
  }

  /** One line of the output file: a file's result and the time it was written. */
  datatype Line = Line(result: FileResult, timestamp: string)

  /** The JSON object of a line: exactly the keys `filename`, `text` and `timestamp`. */
  function JsonOf(l: Line): Record
  {
    map["filename" := Str(l.result.filename), "text" := Str(l.result.text), "timestamp" := Str(l.timestamp)]
  }

  /** The result for one file, with the default number of attempts. */
  function FileText(wavFile: string, run: string -> nat -> Outcome): FileResult
  {
    SingleFile(wavFile, DefaultRetries, run(wavFile)).value
  }

  /** The records for the files, in the order of the list (the pool's `imap` keeps it). */
  function FolderRecords(wavFiles: seq<string>, run: string -> nat -> Outcome, stamp: nat -> string): (r: seq<Line>)
    ensures |r| == |wavFiles|
  {
    if wavFiles == [] then []
    else
      FolderRecords(wavFiles[..|wavFiles| - 1], run, stamp)
      + [Line(FileText(wavFiles[|wavFiles| - 1], run), stamp(|wavFiles|))]
  }

  /** The number of files among the first `n` whose text counts as a failure. */
  function Failures(wavFiles: seq<string>, run: string -> nat -> Outcome): nat
  {
    if wavFiles == [] then 0
    else
      Failures(wavFiles[..|wavFiles| - 1], run)
      + (if IsFailure(FileText(wavFiles[|wavFiles| - 1], run).text) then 1 else 0)
  }

  /** The worker the pool maps over the files: `process_single_file` with its default attempts, unpacked. */
  method ProcessFile(wavFile: string, run: string -> nat -> Outcome) returns (result: FileResult)
    ensures result == FileText(wavFile, run)
  {
    var r, _, _ := ProcessSingleFile(wavFile, DefaultRetries, run(wavFile));
    result := r.value;
  }

  /** One round of the folder loop: the record for file `idx`, counted as a failure or a success. */
  method RecordFile(wavFiles: seq<string>, run: string -> nat -> Outcome, stamp: nat -> string, idx: nat,
                    records: seq<Line>, successCount: nat, failCount: nat)
    returns (records': seq<Line>, successCount': nat, failCount': nat)
    requires idx < |wavFiles|
    requires records == FolderRecords(wavFiles[..idx], run, stamp)
    requires failCount == Failures(wavFiles[..idx], run)
    ensures records' == FolderRecords(wavFiles[..idx + 1], run, stamp)
    ensures failCount' == Failures(wavFiles[..idx + 1], run)
    ensures successCount' + failCount' == successCount + failCount + 1
  {
    var result := ProcessFile(wavFiles[idx], run);
    FolderSnoc(wavFiles, run, stamp, idx);
    records' := records + [Line(result, stamp(idx + 1))];
    successCount', failCount' := successCount, failCount;
    if IsFailure(result.text) {
      failCount' := failCount + 1;
    } else {
      successCount' := successCount + 1;
    }
  }

  /**
   * The folder loop: one record per file in order, a failure counted for
   * each text starting with `ERROR:` and a success for every other.
   */
  method ProcessFolder(wavFiles: seq<string>, run: string -> nat -> Outcome, stamp: nat -> string)
    returns (records: seq<Line>, successCount: nat, failCount: nat)
    ensures records == FolderRecords(wavFiles, run, stamp)
    ensures failCount == Failures(wavFiles, run)
    ensures successCount + failCount == |records| == |wavFiles|
  {
    records := [];
    successCount, failCount := 0, 0;
    for idx := 0 to |wavFiles|
      invariant records == FolderRecords(wavFiles[..idx], run, stamp)
      invariant failCount == Failures(wavFiles[..idx], run)
      invariant successCount + failCount == idx
    {
      records, successCount, failCount := RecordFile(wavFiles, run, stamp, idx, records, successCount, failCount);
    }
    assert wavFiles[..|wavFiles|] == wavFiles;
  }

  lemma FolderSnoc(wavFiles: seq<string>, run: string -> nat -> Outcome, stamp: nat -> string, idx: nat)
    requires idx < |wavFiles|
    ensures FolderRecords(wavFiles[..idx + 1], run, stamp)
         == FolderRecords(wavFiles[..idx], run, stamp) + [Line(FileText(wavFiles[idx], run), stamp(idx + 1))]
    ensures Failures(wavFiles[..idx + 1], run)
         == Failures(wavFiles[..idx], run) + (if IsFailure(FileText(wavFiles[idx], run).text) then 1 else 0)
  {
    assert wavFiles[..idx + 1][..idx] == wavFiles[..idx];
  }

  /** Record `k` is the result for file `k`, stamped with the progress index `k + 1`. */
  lemma {:induction false} RecordsShape(wavFiles: seq<string>, run: string -> nat -> Outcome, stamp: nat -> string, k: nat)
    requires k < |wavFiles|
    ensures FolderRecords(wavFiles, run, stamp)[k] == Line(FileText(wavFiles[k], run), stamp(k + 1))
    decreases |wavFiles|, 1
  {
    if k < |wavFiles| - 1 {
      RecordsShapeEarlier(wavFiles, run, stamp, k);
    } else {
      RecordsLast(wavFiles, run, stamp);
    }
  }

  /** The case of a record before the last one: it is already in the records of the shorter folder. */
  lemma {:induction false} RecordsShapeEarlier(wavFiles: seq<string>, run: string -> nat -> Outcome, stamp: nat -> string, k: nat)
    requires k < |wavFiles| - 1
    ensures FolderRecords(wavFiles, run, stamp)[k] == Line(FileText(wavFiles[k], run), stamp(k + 1))
    decreases |wavFiles|, 0
  {
    RecordsShape(wavFiles[..|wavFiles| - 1], run, stamp, k);
    RecordsPrefix(wavFiles, run, stamp, k);
  }

  lemma RecordsLast(wavFiles: seq<string>, run: string -> nat -> Outcome, stamp: nat -> string)
    requires wavFiles != []
    ensures FolderRecords(wavFiles, run, stamp)[|wavFiles| - 1]
         == Line(FileText(wavFiles[|wavFiles| - 1], run), stamp(|wavFiles|))
  {
  }

  lemma RecordsPrefix(wavFiles: seq<string>, run: string -> nat -> Outcome, stamp: nat -> string, k: nat)
    requires k < |wavFiles| - 1
    ensures FolderRecords(wavFiles, run, stamp)[k] == FolderRecords(wavFiles[..|wavFiles| - 1], run, stamp)[k]
    ensures wavFiles[..|wavFiles| - 1][k] == wavFiles[k]
  {
  }

  /**
   * A file counts as failed exactly when all three attempts raised, or when
   * the recogniser's own successful output, stripped, starts with `ERROR:`.
   */
  lemma FailureMeaning(wavFile: string, run: string -> nat -> Outcome)
    ensures IsFailure(FileText(wavFile, run).text) <==>
              NoneSucceed(run(wavFile), DefaultRetries)
              || (var k := FirstSuccess(run(wavFile), DefaultRetries);
                  k < DefaultRetries && IsFailure(Strip(run(wavFile)(k).output)))
  {
    NoneSucceedIff(run(wavFile), DefaultRetries);
  }

  /** The failure count never exceeds the number of files. */
  lemma {:induction false} FailuresBounded(wavFiles: seq<string>, run: string -> nat -> Outcome)
    ensures Failures(wavFiles, run) <= |wavFiles|
  {
    if wavFiles != [] {
      FailuresBounded(wavFiles[..|wavFiles| - 1], run);
    }
  }

  /** The record of file `k` names the file by its basename. */
  lemma RecordFilename(wavFiles: seq<string>, run: string -> nat -> Outcome, stamp: nat -> string, k: nat)
    requires k < |wavFiles|
    ensures FolderRecords(wavFiles, run, stamp)[k].result.filename == Basename(wavFiles[k])
  {
    RecordsShape(wavFiles, run, stamp, k);
  }

  /** An object a line can be read back from: all three fields are strings. */
  predicate IsLineJson(rec: Record) {
    && "filename" in rec && rec["filename"].Str?
    && "text" in rec && rec["text"].Str?
    && "timestamp" in rec && rec["timestamp"].Str?
  }

  /** Reading a line back from its JSON object. */
  function LineOfJson(rec: Record): Line
    requires IsLineJson(rec)
  {
    Line(FileResult(rec["filename"].s, rec["text"].s), rec["timestamp"].s)
  }

  /**
   * A written line reads back as itself, and an object with exactly the
   * three string fields is the JSON of the line it reads as.
   */
  lemma JsonRoundTrip(l: Line, rec: Record)
    ensures JsonOf(l).Keys == {"filename", "text", "timestamp"}
    ensures IsLineJson(JsonOf(l)) && LineOfJson(JsonOf(l)) == l
    ensures rec.Keys == {"filename", "text", "timestamp"} && IsLineJson(rec) ==>
              JsonOf(LineOfJson(rec)) == rec
  {
    if rec.Keys == {"filename", "text", "timestamp"} && IsLineJson(rec) {
      var j := JsonOf(LineOfJson(rec));
      assert forall k :: k in rec ==> k in j && j[k] == rec[k];
    }
  }
}
