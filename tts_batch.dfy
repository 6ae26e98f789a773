/**
 * `run_chirp3_tts_batch.py`: voice selection from a comma-separated list,
 * the zero-padded output names, the `start_idx` and `limit` slicing, and
 * the order in which synthesis jobs are issued, one batch per voice.
 *
 * The synthesiser itself is left out: a job records what one call of
 * `synthesize_speech_with_chirp3` is given (the prompt, the audio file, the
 * transcript file and the voice). The input file is given as its lines,
 * each still ending with its newline, as `readlines()` returns them.
 */
module TtsBatch {
  import opened Strings
  import opened Wrappers

  /** The voice selection the synthesiser is given. */
  datatype Voice = Voice(name: string, languageCode: string)

  const LanguageCode := "en-US"

  /** `get_voice_from_name`: the Chirp 3 HD voice of the given short name, in US English. */
  function GetVoiceFromName(voice: string): (r: Voice)
    ensures r.languageCode == LanguageCode
    ensures r.name == LanguageCode + "-Chirp3-HD-" + voice
  {
    Voice(LanguageCode + "-Chirp3-HD-" + voice, LanguageCode)
  }

  /** The short name a voice was built from, when it is a US-English Chirp 3 HD voice. */
  function ShortName(v: Voice): Option<string>
  {
    var p := LanguageCode + "-Chirp3-HD-";
    if v.languageCode == LanguageCode && p <= v.name then Some(v.name[|p|..]) else None
  }

  /** A voice gives back its short name, and a short name read from a voice builds that voice. */
  lemma VoiceRoundTrip(name: string, v: Voice)
    ensures ShortName(GetVoiceFromName(name)) == Some(name)
    ensures ShortName(v).Some? ==> GetVoiceFromName(ShortName(v).value) == v
  {
    var p := LanguageCode + "-Chirp3-HD-";
    assert GetVoiceFromName(name).name == p + name;
    if ShortName(v).Some? {
      assert v.name == p + v.name[|p|..];
    }
  }

  /** Different short names give different voices. */
  lemma VoiceNamesDistinct(a: string, b: string)
    requires a != b
    ensures GetVoiceFromName(a) != GetVoiceFromName(b)
  {
    var p := LanguageCode + "-Chirp3-HD-";
    assert GetVoiceFromName(a).name[|p|..] == a;
    assert GetVoiceFromName(b).name[|p|..] == b;
  }

  /** The entries of `voices.split(',')`, stripped. */
  function VoiceEntries(voices: string): (r: seq<string>)
    ensures |r| == |SplitChar(voices, ',')|
  {
    var parts := SplitChar(voices, ',');
    seq(|parts|, k requires 0 <= k < |parts| => Strip(parts[k]))
  }

  /** The loop that builds `voices_to_synthesize`: one voice per entry, in order. */
  method VoicesToSynthesize(voices: string) returns (vs: seq<Voice>)
    ensures |vs| == |SplitChar(voices, ',')| >= 1
    ensures forall k :: 0 <= k < |vs| ==> vs[k] == GetVoiceFromName(Strip(SplitChar(voices, ',')[k]))
  {
    var parts := SplitChar(voices, ',');
    vs := [];
    for k := 0 to |parts|
      invariant |vs| == k
      invariant forall j :: 0 <= j < k ==> vs[j] == GetVoiceFromName(Strip(parts[j]))
    {
      var name := Strip(parts[k]);
      vs := vs + [GetVoiceFromName(name)];
    }
  }

  /** Several voices exactly when the list holds a comma (an empty entry still counts). */
  lemma MultivoiceIffComma(voices: string)
    ensures |SplitChar(voices, ',')| > 1 <==> ',' in voices
  {
    SplitCharCount(voices, ',');
  }

  /** The sub-directory of a voice in multivoice mode: its name after the last `-`. */
  function Subdir(voice: Voice): string
  {
    AfterLast(voice.name, '-')
  }

  /** The sub-directory is the short name itself unless that holds a `-`. */
  lemma SubdirOfVoice(v: string)
    ensures '-' !in v ==> Subdir(GetVoiceFromName(v)) == v
    ensures '-' in v ==> Subdir(GetVoiceFromName(v)) == AfterLast(v, '-')
  {
    var name := GetVoiceFromName(v).name;
    if '-' in v {
      AfterLastAppend(LanguageCode + "-Chirp3-HD-", v, '-');
    } else {
      assert name == (LanguageCode + "-Chirp3-HD") + ['-'] + v;
      AfterLastOfSeparated(LanguageCode + "-Chirp3-HD", '-', v);
    }
  }

  // ---------------------------------------------------------------------
  // Output names
  // ---------------------------------------------------------------------

  /** The extensions of the audio and of the transcript files. */
  const Wav := ".wav"
  const Txt := ".txt"

  /** `f"{prefix}{str(i).zfill(num_digits)}{ext}"` */
  function FileName(prefix: string, i: nat, numDigits: int, ext: string): string
  {
    prefix + ZFill(NatToString(i), numDigits) + ext
  }

  /** The padded number is never shorter than the width nor than the plain decimal. */
  lemma FileNameLength(prefix: string, i: nat, numDigits: int, ext: string)
    ensures var d := |FileName(prefix, i, numDigits, ext)| - |prefix| - |ext|;
            d >= numDigits && d >= |NatToString(i)|
  {
  }

  /** Different indices give different names. */
  lemma FileNamesDistinct(prefix: string, i: nat, j: nat, numDigits: int, ext: string)
    requires i != j
    ensures FileName(prefix, i, numDigits, ext) != FileName(prefix, j, numDigits, ext)
  {
    var a, b := ZFill(NatToString(i), numDigits), ZFill(NatToString(j), numDigits);
    if FileName(prefix, i, numDigits, ext) == FileName(prefix, j, numDigits, ext) {
      var x, y := prefix + a + ext, prefix + b + ext;
      assert |a| == |b|;
      assert x[|prefix|..|prefix| + |a|] == a;
      assert y[|prefix|..|prefix| + |b|] == b;
      PaddedDecimalInjective(i, j, numDigits);
    }
  }

  /**
   * An output path `os.path.join(dir, f"{prefix}{str(index).zfill(num_digits)}{ext}")`,
   * kept as its parts; `Path` spells it out.
   */
  datatype Numbered = Numbered(dir: string, prefix: string, index: nat, numDigits: int, ext: string)

  function Path(f: Numbered): string
  {
    PathJoin(f.dir, FileName(f.prefix, f.index, f.numDigits, f.ext))
  }

  /** Two paths that differ only in their number are different. */
  lemma NumberedDistinct(a: Numbered, b: Numbered)
    requires a.dir == b.dir && a.prefix == b.prefix && a.numDigits == b.numDigits && a.ext == b.ext
    requires a.index != b.index
    ensures Path(a) != Path(b)
  {
    PathsDistinct(a.dir, a.prefix, a.index, b.index, a.numDigits, a.ext);
  }

  /** The list comprehension of the paths numbered `0 .. count-1` inside `dir`. */
  function Names(dir: string, prefix: string, count: nat, numDigits: int, ext: string): (r: seq<Numbered>)
    ensures |r| == count
  {
    seq(count, i requires 0 <= i < count => Numbered(dir, prefix, i, numDigits, ext))
  }

  /** `os.path.join` to one directory is injective on names that agree on being absolute. */
  lemma PathJoinInjective(dir: string, a: string, b: string)
    requires a != [] && b != [] && (a[0] == '/' <==> b[0] == '/')
    ensures PathJoin(dir, a) == PathJoin(dir, b) ==> a == b
  {
    if a[0] != '/' {
      if dir == [] || dir[|dir| - 1] == '/' {
        assert PathJoin(dir, a)[|dir|..] == a && PathJoin(dir, b)[|dir|..] == b;
      } else {
        assert PathJoin(dir, a)[|dir| + 1..] == a && PathJoin(dir, b)[|dir| + 1..] == b;
      }
    }
  }

  /** A name starts with its prefix, or with a digit when the prefix is empty. */
  lemma FileNameHead(prefix: string, i: nat, numDigits: int, ext: string)
    ensures var a := FileName(prefix, i, numDigits, ext);
            a != [] && (if prefix != [] then a[0] == prefix[0] else IsDigit(a[0]))
  {
    PaddedValue(i, numDigits);
    var z := ZFill(NatToString(i), numDigits);
    assert z[0] in z;
  }

  /** Different indices give different paths inside one directory. */
  lemma PathsDistinct(dir: string, prefix: string, i: nat, j: nat, numDigits: int, ext: string)
    requires i != j
    ensures PathJoin(dir, FileName(prefix, i, numDigits, ext)) != PathJoin(dir, FileName(prefix, j, numDigits, ext))
  {
    FileNamesDistinct(prefix, i, j, numDigits, ext);
    FileNameHead(prefix, i, numDigits, ext);
    FileNameHead(prefix, j, numDigits, ext);
    PathJoinInjective(dir, FileName(prefix, i, numDigits, ext), FileName(prefix, j, numDigits, ext));
  }

  // ---------------------------------------------------------------------
  // batch_texts_to_outfiles
  // ---------------------------------------------------------------------

  /** What one synthesis call is given. */
  datatype Job = Job(text: string, audioFile: Numbered, textFile: Numbered, voice: Voice)

  /** `zip(input_texts, output_filenames, output_textfiles)`, as jobs for one voice. */
  function Zip3(texts: seq<string>, wavs: seq<Numbered>, txts: seq<Numbered>, voice: Voice): seq<Job>
  {
    if texts == [] || wavs == [] || txts == [] then []
    else [Job(texts[0], wavs[0], txts[0], voice)] + Zip3(texts[1..], wavs[1..], txts[1..], voice)
  }

  /** `list(lines)[:limit]` when `limit > 0`, otherwise every line. */
  function Limit(jobs: seq<Job>, limit: int): seq<Job>
  {
    if limit > 0 && limit < |jobs| then jobs[..limit] else jobs
  }

  function Jobs(texts: seq<string>, wavs: seq<Numbered>, txts: seq<Numbered>, limit: int, voice: Voice): seq<Job>
  {
    Limit(Zip3(texts, wavs, txts, voice), limit)
  }

  function Min3(a: nat, b: nat, c: nat): nat
  {
    if a <= b && a <= c then a else if b <= c then b else c
  }

  /** The zip stops at the shortest list and pairs equal positions. */
  lemma {:induction false} Zip3Meaning(texts: seq<string>, wavs: seq<Numbered>, txts: seq<Numbered>, voice: Voice)
    ensures |Zip3(texts, wavs, txts, voice)| == Min3(|texts|, |wavs|, |txts|)
    ensures forall k :: 0 <= k < |Zip3(texts, wavs, txts, voice)| ==>
              Zip3(texts, wavs, txts, voice)[k] == Job(texts[k], wavs[k], txts[k], voice)
  {
    if !(texts == [] || wavs == [] || txts == []) {
      Zip3Meaning(texts[1..], wavs[1..], txts[1..], voice);
    }
  }

  /**
   * The jobs of one call: the first `limit` positions (all of them when
   * `limit <= 0`) of the shortest list, position `k` pairing the `k`-th
   * text with the `k`-th names.
   */
  lemma JobsMeaning(texts: seq<string>, wavs: seq<Numbered>, txts: seq<Numbered>, limit: int, voice: Voice)
    ensures var m := Min3(|texts|, |wavs|, |txts|);
            |Jobs(texts, wavs, txts, limit, voice)| == if limit > 0 && limit < m then limit else m
    ensures forall k :: 0 <= k < |Jobs(texts, wavs, txts, limit, voice)| ==>
              Jobs(texts, wavs, txts, limit, voice)[k] == Job(texts[k], wavs[k], txts[k], voice)
  {
    Zip3Meaning(texts, wavs, txts, voice);
  }

  /** `batch_texts_to_outfiles`: one synthesis call per kept line, in order. */
  method BatchTextsToOutfiles(texts: seq<string>, wavs: seq<Numbered>, txts: seq<Numbered>, limit: int, voice: Voice)
    returns (jobs: seq<Job>)
    ensures jobs == Jobs(texts, wavs, txts, limit, voice)
  {
    var lines := Zip3(texts, wavs, txts, voice);
    if limit > 0 && limit < |lines| {
      lines := lines[..limit];
    }
    jobs := [];
    for k := 0 to |lines|
      invariant jobs == lines[..k]
    {
      jobs := jobs + [lines[k]];
    }
    assert lines[..|lines|] == lines;
  }

  // ---------------------------------------------------------------------
  // batch
  // ---------------------------------------------------------------------

  /** `l[n:]` for `n >= 0`. */
  function Drop<T>(l: seq<T>, n: nat): (r: seq<T>)
    ensures |r| == if n >= |l| then 0 else |l| - n
  {
    if n == 0 then l else if n >= |l| then [] else l[n..]
  }

  lemma DropIndex<T>(l: seq<T>, n: nat)
    ensures forall k :: 0 <= k < |Drop(l, n)| ==> Drop(l, n)[k] == l[n + k]
  {
  }

  lemma DropDrop<T>(l: seq<T>, a: nat, b: nat)
    ensures Drop(Drop(l, a), b) == Drop(l, a + b)
  {
  }

  /** The slice offset: `start_idx` when positive, otherwise no slicing. */
  function Offset(startIdx: int): nat
  {
    if startIdx > 0 then startIdx else 0
  }

  /** The texts left after `v` voices, each voice cutting `s` more from the front. */
  function Remaining(input: seq<string>, v: nat, s: nat): seq<string>
  {
    if v == 0 then input else Drop(Remaining(input, v - 1, s), s)
  }

  /** The repeated cut is one cut by `v * s`. */
  lemma {:induction false} RemainingIsDrop(input: seq<string>, v: nat, s: nat)
    ensures Remaining(input, v, s) == Drop(input, v * s)
  {
    if v > 0 {
      RemainingIsDrop(input, v - 1, s);
      DropDrop(input, (v - 1) * s, s);
      assert (v - 1) * s + s == v * s;
    }
  }

  /** The audio directory of a voice: its sub-directory of the root in multivoice mode. */
  function OutDir(root: string, voice: Voice, multivoice: bool): string
  {
    if multivoice then PathJoin(root, Subdir(voice)) else root
  }

  /**
   * The transcript directory of voice `v`: `textdir or output_dir`, where
   * `textdir` is what the previous voice left (the argument for the first one).
   */
  function TextDirAt(textdir: string, root: string, vs: seq<Voice>, v: nat): string
    requires v < |vs|
  {
    var before := if v == 0 then textdir else TextDirAt(textdir, root, vs, v - 1);
    if before != [] then before else OutDir(root, vs[v], |vs| > 1)
  }

  /** Once the first voice has a transcript directory, every later voice keeps it. */
  lemma {:induction false} TextDirSticky(textdir: string, root: string, vs: seq<Voice>, v: nat)
    requires v < |vs|
    ensures TextDirAt(textdir, root, vs, 0) == if textdir != [] then textdir else OutDir(root, vs[0], |vs| > 1)
    ensures TextDirAt(textdir, root, vs, 0) != [] ==> TextDirAt(textdir, root, vs, v) == TextDirAt(textdir, root, vs, 0)
  {
    if v > 0 {
      TextDirSticky(textdir, root, vs, v - 1);
    }
  }

  /**
   * The jobs of voice `v` when it is handed `texts`: names are built for
   * every position of `texts`, and texts and names are then cut by the
   * same offset.
   */
  function VoiceJobs(texts: seq<string>, v: nat, vs: seq<Voice>, root: string, textdir: string,
                     prefix: string, numDigits: int, startIdx: int, limit: int): seq<Job>
    requires v < |vs|
  {
    var s := Offset(startIdx);
    Jobs(Drop(texts, s),
         Drop(Names(OutDir(root, vs[v], |vs| > 1), prefix, |texts|, numDigits, Wav), s),
         Drop(Names(TextDirAt(textdir, root, vs, v), prefix, |texts|, numDigits, Txt), s),
         limit, vs[v])
  }

  function Min(a: int, b: int): int
  {
    if a <= b then a else b
  }

  /** The number of jobs of one call: the texts past the offset, cut to `limit` when that is positive. */
  function JobCount(count: int, startIdx: int, limit: int): nat
  {
    var s := Offset(startIdx);
    var m := if count > s then count - s else 0;
    if limit > 0 && limit < m then limit else m
  }

  /** The jobs of three equally long lists cut by the same offset pair equal positions past the offset. */
  lemma JobsOfDrops(texts: seq<string>, wavs: seq<Numbered>, txts: seq<Numbered>, startIdx: int, limit: int, voice: Voice)
    requires |wavs| == |texts| && |txts| == |texts|
    ensures var s := Offset(startIdx);
            var jobs := Jobs(Drop(texts, s), Drop(wavs, s), Drop(txts, s), limit, voice);
            && |jobs| == JobCount(|texts|, startIdx, limit)
            && forall j :: 0 <= j < |jobs| ==> jobs[j] == Job(texts[s + j], wavs[s + j], txts[s + j], voice)
  {
    var s := Offset(startIdx);
    DropIndex(texts, s);
    DropIndex(wavs, s);
    DropIndex(txts, s);
    JobsMeaning(Drop(texts, s), Drop(wavs, s), Drop(txts, s), limit, voice);
  }

  /** Job `j` of a call pairs text `s + j` with the names numbered `s + j`. */
  lemma VoiceJobsShape(texts: seq<string>, v: nat, vs: seq<Voice>, root: string, textdir: string,
                       prefix: string, numDigits: int, startIdx: int, limit: int)
    requires v < |vs|
    ensures var jobs := VoiceJobs(texts, v, vs, root, textdir, prefix, numDigits, startIdx, limit);
            && |jobs| == JobCount(|texts|, startIdx, limit)
            && forall j :: 0 <= j < |jobs| ==>
                 jobs[j] == Job(texts[Offset(startIdx) + j],
                                Numbered(OutDir(root, vs[v], |vs| > 1), prefix, Offset(startIdx) + j, numDigits, Wav),
                                Numbered(TextDirAt(textdir, root, vs, v), prefix, Offset(startIdx) + j, numDigits, Txt),
                                vs[v])
  {
    JobsOfDrops(texts, Names(OutDir(root, vs[v], |vs| > 1), prefix, |texts|, numDigits, Wav),
                Names(TextDirAt(textdir, root, vs, v), prefix, |texts|, numDigits, Txt), startIdx, limit, vs[v]);
  }

  /** The audio and transcript file of job `j` of a call. */
  lemma VoiceJobFiles(texts: seq<string>, v: nat, vs: seq<Voice>, root: string, textdir: string,
                      prefix: string, numDigits: int, startIdx: int, limit: int, j: nat)
    requires v < |vs|
    requires j < |VoiceJobs(texts, v, vs, root, textdir, prefix, numDigits, startIdx, limit)|
    ensures var job := VoiceJobs(texts, v, vs, root, textdir, prefix, numDigits, startIdx, limit)[j];
            && job.audioFile == Numbered(OutDir(root, vs[v], |vs| > 1), prefix, Offset(startIdx) + j, numDigits, Wav)
            && job.textFile == Numbered(TextDirAt(textdir, root, vs, v), prefix, Offset(startIdx) + j, numDigits, Txt)
  {
    VoiceJobsShape(texts, v, vs, root, textdir, prefix, numDigits, startIdx, limit);
  }

  /** Within one call no two jobs write the same audio file or the same transcript file. */
  lemma VoiceJobsDistinctFiles(texts: seq<string>, v: nat, vs: seq<Voice>, root: string, textdir: string,
                               prefix: string, numDigits: int, startIdx: int, limit: int, j: nat, k: nat)
    requires v < |vs|
    requires j < k < |VoiceJobs(texts, v, vs, root, textdir, prefix, numDigits, startIdx, limit)|
    ensures var jobs := VoiceJobs(texts, v, vs, root, textdir, prefix, numDigits, startIdx, limit);
            Path(jobs[j].audioFile) != Path(jobs[k].audioFile) && Path(jobs[j].textFile) != Path(jobs[k].textFile)
  {
    var jobs := VoiceJobs(texts, v, vs, root, textdir, prefix, numDigits, startIdx, limit);
    VoiceJobFiles(texts, v, vs, root, textdir, prefix, numDigits, startIdx, limit, j);
    VoiceJobFiles(texts, v, vs, root, textdir, prefix, numDigits, startIdx, limit, k);
    NumberedDistinct(jobs[j].audioFile, jobs[k].audioFile);
    NumberedDistinct(jobs[j].textFile, jobs[k].textFile);
  }

  /** The jobs of voice `v` as the script issues them: it is handed what the earlier voices left of the texts. */
  function VoiceCall(input: seq<string>, v: nat, vs: seq<Voice>, root: string, textdir: string,
                     prefix: string, numDigits: int, startIdx: int, limit: int): seq<Job>
    requires v < |vs|
  {
    VoiceJobs(Remaining(input, v, Offset(startIdx)), v, vs, root, textdir, prefix, numDigits, startIdx, limit)
  }

  /** The jobs of voice `v` when every voice is handed the whole input. */
  function AlignedCall(input: seq<string>, v: nat, vs: seq<Voice>, root: string, textdir: string,
                       prefix: string, numDigits: int, startIdx: int, limit: int): seq<Job>
    requires v < |vs|
  {
    VoiceJobs(input, v, vs, root, textdir, prefix, numDigits, startIdx, limit)
  }

  /** The job speaks line `k` of the input. */
  predicate SpeaksLine(job: Job, input: seq<string>, k: int)
  {
    0 <= k < |input| && job.text == input[k]
  }

  /**
   * As written: voice `v` speaks text `(v + 1) * s + j` into the files
   * numbered `s + j`, so for `start_idx > 0` every voice after the first
   * has its texts shifted against the file names, and has fewer of them.
   */
  lemma BatchShifted(input: seq<string>, v: nat, vs: seq<Voice>, root: string, textdir: string,
                     prefix: string, numDigits: int, startIdx: int, limit: int)
    requires v < |vs|
    ensures var jobs := VoiceCall(input, v, vs, root, textdir, prefix, numDigits, startIdx, limit);
            var s := Offset(startIdx);
            var c := Min(|input|, v * s);
            && |jobs| == JobCount(|input| - c, startIdx, limit)
            && forall j :: 0 <= j < |jobs| ==>
                 && SpeaksLine(jobs[j], input, c + s + j)
                 && jobs[j].audioFile == Numbered(OutDir(root, vs[v], |vs| > 1), prefix, s + j, numDigits, Wav)
  {
    var s := Offset(startIdx);
    var c: nat := v * s;
    RemainingIsDrop(input, v, s);
    assert VoiceCall(input, v, vs, root, textdir, prefix, numDigits, startIdx, limit)
        == VoiceJobs(Drop(input, c), v, vs, root, textdir, prefix, numDigits, startIdx, limit);
    DroppedJobs(input, c, v, vs, root, textdir, prefix, numDigits, startIdx, limit);
  }

  /** A voice handed the input without its first `c` lines speaks line `c + s + j` into file `s + j`. */
  lemma DroppedJobs(input: seq<string>, c: nat, v: nat, vs: seq<Voice>, root: string, textdir: string,
                    prefix: string, numDigits: int, startIdx: int, limit: int)
    requires v < |vs|
    ensures var jobs := VoiceJobs(Drop(input, c), v, vs, root, textdir, prefix, numDigits, startIdx, limit);
            var s := Offset(startIdx);
            && |jobs| == JobCount(|input| - Min(|input|, c), startIdx, limit)
            && forall j :: 0 <= j < |jobs| ==>
                 && SpeaksLine(jobs[j], input, Min(|input|, c) + s + j)
                 && jobs[j].audioFile == Numbered(OutDir(root, vs[v], |vs| > 1), prefix, s + j, numDigits, Wav)
  {
    DropIndex(input, c);
    VoiceJobsShape(Drop(input, c), v, vs, root, textdir, prefix, numDigits, startIdx, limit);
  }

  /** Three lines, two voices, `start_idx == 1`: the second voice speaks the third line into file 1. */
  lemma BatchShiftedExample(input: seq<string>, vs: seq<Voice>, root: string, textdir: string,
                            prefix: string, numDigits: int)
    requires |input| == 3 && |vs| == 2
    ensures var jobs := VoiceCall(input, 1, vs, root, textdir, prefix, numDigits, 1, 0);
            && |jobs| == 1
            && SpeaksLine(jobs[0], input, 2)
            && jobs[0].audioFile == Numbered(OutDir(root, vs[1], true), prefix, 1, numDigits, Wav)
  {
    BatchShifted(input, 1, vs, root, textdir, prefix, numDigits, 1, 0);
  }

  /** Corrected: every voice speaks text `s + j` into the files numbered `s + j`, and all voices get the same number of jobs. */
  lemma AlignedPairs(input: seq<string>, v: nat, vs: seq<Voice>, root: string, textdir: string,
                     prefix: string, numDigits: int, startIdx: int, limit: int)
    requires v < |vs|
    ensures var jobs := AlignedCall(input, v, vs, root, textdir, prefix, numDigits, startIdx, limit);
            var s := Offset(startIdx);
            && |jobs| == JobCount(|input|, startIdx, limit)
            && forall j :: 0 <= j < |jobs| ==>
                 && SpeaksLine(jobs[j], input, s + j)
                 && jobs[j].audioFile == Numbered(OutDir(root, vs[v], |vs| > 1), prefix, s + j, numDigits, Wav)
                 && jobs[j].textFile == Numbered(TextDirAt(textdir, root, vs, v), prefix, s + j, numDigits, Txt)
  {
    VoiceJobsShape(input, v, vs, root, textdir, prefix, numDigits, startIdx, limit);
  }

  /** The directories the voice loop carries from one voice to the next. */
  datatype Dirs = Dirs(textdir: string, outDir: string)

  /** The directories before voice `i`. */
  predicate DirsBefore(d: Dirs, i: nat, vs: seq<Voice>, root: string, textdir: string)
    requires i <= |vs|
  {
    && d.textdir == (if i == 0 then textdir else TextDirAt(textdir, root, vs, i - 1))
    && (|vs| <= 1 ==> d.outDir == root)
  }

  /** The body of the voice loop: the names, the slicing and the call for voice `i`, handed `texts`. */
  method OneVoice(texts: seq<string>, d: Dirs, i: nat, vs: seq<Voice>, root: string, textdir: string,
                  prefix: string, numDigits: int, startIdx: int, limit: int)
    returns (jobs: seq<Job>, texts': seq<string>, d': Dirs)
    requires i < |vs| && DirsBefore(d, i, vs, root, textdir)
    ensures jobs == VoiceJobs(texts, i, vs, root, textdir, prefix, numDigits, startIdx, limit)
    ensures texts' == Drop(texts, Offset(startIdx))
    ensures DirsBefore(d', i + 1, vs, root, textdir)
  {
    var td, outDir := d.textdir, d.outDir;
    if |vs| > 1 {
      outDir := PathJoin(root, Subdir(vs[i]));
    }
    var wavs := Names(outDir, prefix, |texts|, numDigits, Wav);
    td := if td != [] then td else outDir;
    var txts := Names(td, prefix, |texts|, numDigits, Txt);
    texts' := texts;
    if startIdx > 0 {
      texts', wavs, txts := Drop(texts, startIdx), Drop(wavs, startIdx), Drop(txts, startIdx);
    }
    assert outDir == OutDir(root, vs[i], |vs| > 1);
    assert td == TextDirAt(textdir, root, vs, i);
    jobs := BatchTextsToOutfiles(texts', wavs, txts, limit, vs[i]);
    d' := Dirs(td, outDir);
  }

  /** One round of the loop as written: voice `i` is handed what the earlier voices left. */
  method NextVoice(ghost input: seq<string>, texts: seq<string>, d: Dirs, i: nat, vs: seq<Voice>, root: string,
                   textdir: string, prefix: string, numDigits: int, startIdx: int, limit: int)
    returns (jobs: seq<Job>, texts': seq<string>, d': Dirs)
    requires i < |vs| && DirsBefore(d, i, vs, root, textdir)
    requires texts == Remaining(input, i, Offset(startIdx))
    ensures jobs == VoiceCall(input, i, vs, root, textdir, prefix, numDigits, startIdx, limit)
    ensures texts' == Remaining(input, i + 1, Offset(startIdx))
    ensures DirsBefore(d', i + 1, vs, root, textdir)
  {
    jobs, texts', d' := OneVoice(texts, d, i, vs, root, textdir, prefix, numDigits, startIdx, limit);
  }

  /** One round of the corrected loop: voice `i` is handed the whole input. */
  method AlignedVoice(input: seq<string>, d: Dirs, i: nat, vs: seq<Voice>, root: string,
                      textdir: string, prefix: string, numDigits: int, startIdx: int, limit: int)
    returns (jobs: seq<Job>, d': Dirs)
    requires i < |vs| && DirsBefore(d, i, vs, root, textdir)
    ensures jobs == AlignedCall(input, i, vs, root, textdir, prefix, numDigits, startIdx, limit)
    ensures DirsBefore(d', i + 1, vs, root, textdir)
  {
    var rest;
    jobs, rest, d' := OneVoice(input, d, i, vs, root, textdir, prefix, numDigits, startIdx, limit);
  }

  /** `[f(0), ..., f(n-1)]`, built one element at a time. */
  function Calls<T>(f: nat -> T, n: nat): (r: seq<T>)
    ensures |r| == n
  {
    if n == 0 then [] else Calls(f, n - 1) + [f(n - 1)]
  }

  lemma {:induction false} CallsIndex<T>(f: nat -> T, n: nat)
    ensures forall v :: 0 <= v < n ==> Calls(f, n)[v] == f(v)
  {
    if n > 0 {
      CallsIndex(f, n - 1);
    }
  }

  /** The calls of every voice as the script issues them, as one function of the voice's position. */
  function VoiceCallOf(input: seq<string>, vs: seq<Voice>, root: string, textdir: string,
                       prefix: string, numDigits: int, startIdx: int, limit: int): nat -> seq<Job>
  {
    (v: nat) => if v < |vs| then VoiceCall(input, v, vs, root, textdir, prefix, numDigits, startIdx, limit) else []
  }

  /** The corrected calls of every voice, as one function of the voice's position. */
  function AlignedCallOf(input: seq<string>, vs: seq<Voice>, root: string, textdir: string,
                         prefix: string, numDigits: int, startIdx: int, limit: int): nat -> seq<Job>
  {
    (v: nat) => if v < |vs| then AlignedCall(input, v, vs, root, textdir, prefix, numDigits, startIdx, limit) else []
  }

  /** The loop over the voices of `batch`, which hands each voice what the previous one left. */
  method RunVoices(input: seq<string>, vs: seq<Voice>, root: string, limit: int, textdir: string,
                   prefix: string, numDigits: int, startIdx: int)
    returns (calls: seq<seq<Job>>)
    ensures calls == Calls(VoiceCallOf(input, vs, root, textdir, prefix, numDigits, startIdx, limit), |vs|)
  {
    ghost var f := VoiceCallOf(input, vs, root, textdir, prefix, numDigits, startIdx, limit);
    var texts, d := input, Dirs(textdir, root);
    calls := [];
    for i := 0 to |vs|
      invariant calls == Calls(f, i)
      invariant texts == Remaining(input, i, Offset(startIdx))
      invariant DirsBefore(d, i, vs, root, textdir)
    {
      var jobs;
      jobs, texts, d := NextVoice(input, texts, d, i, vs, root, textdir, prefix, numDigits, startIdx, limit);
      assert jobs == f(i);
      calls := calls + [jobs];
    }
  }

  /** `batch` as written: one call of `batch_texts_to_outfiles` per voice; `textdir == ""` is `None`. */
  method Batch(input: seq<string>, outputDir: string, limit: int, textdir: string, prefix: string,
               numDigits: int, voices: string, startIdx: int)
    returns (calls: seq<seq<Job>>, vs: seq<Voice>)
    ensures |vs| == |SplitChar(voices, ',')| && |calls| == |vs|
    ensures forall k :: 0 <= k < |vs| ==> vs[k] == GetVoiceFromName(Strip(SplitChar(voices, ',')[k]))
    ensures forall v :: 0 <= v < |calls| ==>
              calls[v] == VoiceCall(input, v, vs, outputDir, textdir, prefix, numDigits, startIdx, limit)
  {
    vs := VoicesToSynthesize(voices);
    calls := RunVoices(input, vs, outputDir, limit, textdir, prefix, numDigits, startIdx);
    CallsIndex(VoiceCallOf(input, vs, outputDir, textdir, prefix, numDigits, startIdx, limit), |vs|);
  }

  /** The corrected loop over the voices: every voice is handed the whole input. */
  method RunVoicesAligned(input: seq<string>, vs: seq<Voice>, root: string, limit: int, textdir: string,
                          prefix: string, numDigits: int, startIdx: int)
    returns (calls: seq<seq<Job>>)
    ensures calls == Calls(AlignedCallOf(input, vs, root, textdir, prefix, numDigits, startIdx, limit), |vs|)
  {
    ghost var f := AlignedCallOf(input, vs, root, textdir, prefix, numDigits, startIdx, limit);
    var d := Dirs(textdir, root);
    calls := [];
    for i := 0 to |vs|
      invariant calls == Calls(f, i)
      invariant DirsBefore(d, i, vs, root, textdir)
    {
      var jobs;
      jobs, d := AlignedVoice(input, d, i, vs, root, textdir, prefix, numDigits, startIdx, limit);
      assert jobs == f(i);
      calls := calls + [jobs];
    }
  }

  /** `batch` with the slice taken from the whole input for every voice. */
  method BatchAligned(input: seq<string>, outputDir: string, limit: int, textdir: string, prefix: string,
                      numDigits: int, voices: string, startIdx: int)
    returns (calls: seq<seq<Job>>, vs: seq<Voice>)
    ensures |vs| == |SplitChar(voices, ',')| && |calls| == |vs|
    ensures forall k :: 0 <= k < |vs| ==> vs[k] == GetVoiceFromName(Strip(SplitChar(voices, ',')[k]))
    ensures forall v :: 0 <= v < |calls| ==>
              calls[v] == AlignedCall(input, v, vs, outputDir, textdir, prefix, numDigits, startIdx, limit)
  {
    vs := VoicesToSynthesize(voices);
    calls := RunVoicesAligned(input, vs, outputDir, limit, textdir, prefix, numDigits, startIdx);
    CallsIndex(AlignedCallOf(input, vs, outputDir, textdir, prefix, numDigits, startIdx, limit), |vs|);
  }
}
