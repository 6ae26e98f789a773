/**
 * `organize_filtered_wavs_txts.py`: reads the comparison records, and for
 * every record whose character similarity reaches the threshold copies
 * the wav into one directory and writes its reference text to a `.txt` of
 * the same name in another, counting the pairs copied and the records
 * skipped.
 *
 * The file system is a parameter: `wavFiles` is the set of source paths
 * that exist, and `io(k)` says whether the copy and the opening of the
 * `.txt` for line `k` raise.
 */
module OrganizePairs {
  import opened Wrappers
  import opened Strings
  import opened Replace
  import opened Json

  datatype Dirs = Dirs(wavSrc: string, wavDst: string, txtDst: string)

  /** Whether `shutil.copy2` and `open(txt_dst, 'w')` raise for one line. */
  datatype Io = Io(copyFails: bool, openFails: bool)

  /** `wav_name.replace('.wav', '.txt')`. */
  function TxtName(wavName: string): string
  {
    ReplaceAll(wavName, ".wav", ".txt")
  }

  /**
   * What one line comes to: an exception that ends the script, a skip for
   * the threshold, a missing source wav, an exception inside the `try`
   * (at the copy, at the opening of the `.txt`, or at its write, which
   * leaves the file empty), or a copied pair.
   */
  datatype Fate =
    | Crash
    | BelowThreshold
    | NoWav(src: string)
    | CopyError
    | OpenError(src: string, dst: string)
    | WriteError(src: string, dst: string, txt: string)
    | Copied(src: string, dst: string, txt: string, text: string)

  /** One record under the source's rules. */
  function FateOf(rec: Record, minSim: real, wavFiles: set<string>, d: Dirs, io: Io): Fate
  {
    match NumberOr0(rec, "sim_char")
      case None => Crash
      case Some(sim) =>
        if sim < minSim then BelowThreshold
        else if "filename" !in rec || !rec["filename"].Str? then Crash
        else
          var wavName := rec["filename"].s;
          var src := PathJoin(d.wavSrc, wavName);
          var dst := PathJoin(d.wavDst, wavName);
          var txt := PathJoin(d.txtDst, TxtName(wavName));
          if src !in wavFiles then NoWav(src)
          else if io.copyFails then CopyError
          else if io.openFails then OpenError(src, dst)
          else if "reference_text" !in rec || !rec["reference_text"].Str? then WriteError(src, dst, txt)
          else Copied(src, dst, txt, rec["reference_text"].s)
  }

  /** The counters, the copies made, the `.txt` files written with their contents, and whether the script raised. */
  datatype Tally = Tally(copied: nat, skipped: nat, copies: seq<(string, string)>, texts: seq<(string, string)>,
                         crashed: bool)

  /** What one line does to the tally. */
  function Step(t: Tally, f: Fate): Tally
  {
    if t.crashed then t
    else match f
      case Crash => t.(crashed := true)
      case BelowThreshold => t.(skipped := t.skipped + 1)
      case NoWav(_) => t
      case CopyError => t.(skipped := t.skipped + 1)
      case OpenError(src, dst) => t.(skipped := t.skipped + 1, copies := t.copies + [(src, dst)])
      case WriteError(src, dst, txt) =>
        t.(skipped := t.skipped + 1, copies := t.copies + [(src, dst)], texts := t.texts + [(txt, "")])
      case Copied(src, dst, txt, text) =>
        t.(copied := t.copied + 1, copies := t.copies + [(src, dst)], texts := t.texts + [(txt, text)])
  }

  /** The fate of every line. */
  function Fates(records: seq<Record>, minSim: real, wavFiles: set<string>, d: Dirs, io: nat -> Io): (r: seq<Fate>)
    ensures |r| == |records|
  {
    seq(|records|, k requires 0 <= k < |records| => FateOf(records[k], minSim, wavFiles, d, io(k)))
  }

  /** The tally after the first `k` lines. */
  function Run(fates: seq<Fate>, k: nat): Tally
    requires k <= |fates|
  {
    if k == 0 then Tally(0, 0, [], [], false) else Step(Run(fates, k - 1), fates[k - 1])
  }

  function Organize(records: seq<Record>, minSim: real, wavFiles: set<string>, d: Dirs, io: nat -> Io): Tally
  {
    var fates := Fates(records, minSim, wavFiles, d, io);
    Run(fates, |fates|)
  }

  // ---------------------------------------------------------------------
  // The loop
  // ---------------------------------------------------------------------

  /** The `try` block once the source wav is known to exist. */
  method CopyPair(rec: Record, src: string, dst: string, txt: string, io: Io,
                  copies: seq<(string, string)>, texts: seq<(string, string)>)
    returns (ok: bool, copies': seq<(string, string)>, texts': seq<(string, string)>)
    ensures io.copyFails ==> !ok && copies' == copies && texts' == texts
    ensures !io.copyFails ==> copies' == copies + [(src, dst)]
    ensures !io.copyFails && io.openFails ==> !ok && texts' == texts
    ensures !io.copyFails && !io.openFails ==>
              if "reference_text" in rec && rec["reference_text"].Str?
              then ok && texts' == texts + [(txt, rec["reference_text"].s)]
              else !ok && texts' == texts + [(txt, "")]
  {
    copies', texts' := copies, texts;
    if io.copyFails {
      return false, copies', texts';
    }
    copies' := copies' + [(src, dst)];
    if io.openFails {
      return false, copies', texts';
    }
    if "reference_text" !in rec || !rec["reference_text"].Str? {
      texts' := texts' + [(txt, "")];
      return false, copies', texts';
    }
    texts' := texts' + [(txt, rec["reference_text"].s)];
    ok := true;
  }

  /** One line of the loop while the script runs. */
  method OrganizeLine(t: Tally, rec: Record, minSim: real, wavFiles: set<string>, d: Dirs, io: Io)
    returns (t': Tally)
    requires !t.crashed
    ensures t' == Step(t, FateOf(rec, minSim, wavFiles, d, io))
  {
    var sim := NumberOr0(rec, "sim_char");
    if sim.None? {
      return t.(crashed := true);
    }
    if sim.value < minSim {
      return t.(skipped := t.skipped + 1);
    }
    if "filename" !in rec || !rec["filename"].Str? {
      return t.(crashed := true);
    }
    var wavName := rec["filename"].s;
    var txtName := TxtName(wavName);
    var wavSrc := PathJoin(d.wavSrc, wavName);
    var wavDst := PathJoin(d.wavDst, wavName);
    var txtDst := PathJoin(d.txtDst, txtName);
    if wavSrc !in wavFiles {
      return t;
    }
    var ok, copies, texts := CopyPair(rec, wavSrc, wavDst, txtDst, io, t.copies, t.texts);
    if ok {
      t' := Tally(t.copied + 1, t.skipped, copies, texts, false);
    } else {
      t' := Tally(t.copied, t.skipped + 1, copies, texts, false);
    }
  }

  lemma {:induction false} RunStays(fates: seq<Fate>, k: nat, m: nat)
    requires k <= m <= |fates| && Run(fates, k).crashed
    ensures Run(fates, m) == Run(fates, k)
    decreases m - k
  {
    if m > k {
      RunStays(fates, k, m - 1);
    }
  }

  /** `organize_pairs` without its printing and directory creation. */
  method OrganizeAll(records: seq<Record>, minSim: real, wavFiles: set<string>, d: Dirs, io: nat -> Io)
    returns (t: Tally)
    ensures t == Organize(records, minSim, wavFiles, d, io)
  {
    ghost var fates := Fates(records, minSim, wavFiles, d, io);
    t := Tally(0, 0, [], [], false);
    for k := 0 to |records|
      invariant t == Run(fates, k) && !t.crashed
    {
      assert fates[k] == FateOf(records[k], minSim, wavFiles, d, io(k));
      t := OrganizeLine(t, records[k], minSim, wavFiles, d, io(k));
      if t.crashed {
        RunStays(fates, k + 1, |records|);
        return;
      }
    }
  }

  // ---------------------------------------------------------------------
  // Properties
  // ---------------------------------------------------------------------

  /**
   * A record with a numeric `sim_char` (0 when absent) is skipped for the
   * threshold exactly when it is below `min_similarity`.
   */
  lemma SkipRule(rec: Record, minSim: real, wavFiles: set<string>, d: Dirs, io: Io, sim: real)
    requires NumberOr0(rec, "sim_char") == Some(sim)
    ensures FateOf(rec, minSim, wavFiles, d, io) == BelowThreshold <==> sim < minSim
    ensures "sim_char" !in rec ==> (FateOf(rec, minSim, wavFiles, d, io) == BelowThreshold <==> 0.0 < minSim)
  {
  }

  /**
   * Every line that gets past the threshold has a string file name; its
   * wav is copied from the source to the wav directory under that name and
   * its text goes to the txt directory under the `.txt` name; a copied
   * pair's text is exactly the record's `reference_text`.
   */
  lemma FateNames(rec: Record, minSim: real, wavFiles: set<string>, d: Dirs, io: Io)
    ensures var f := FateOf(rec, minSim, wavFiles, d, io);
            !f.Crash? && !f.BelowThreshold? ==>
              && "filename" in rec && rec["filename"].Str?
              && var w := rec["filename"].s;
              && (f.NoWav? || f.OpenError? || f.WriteError? || f.Copied? ==> f.src == PathJoin(d.wavSrc, w))
              && (f.OpenError? || f.WriteError? || f.Copied? ==> f.dst == PathJoin(d.wavDst, w))
              && (f.WriteError? || f.Copied? ==> f.txt == PathJoin(d.txtDst, TxtName(w)))
              && (f.Copied? <==> PathJoin(d.wavSrc, w) in wavFiles && !io.copyFails && !io.openFails
                                 && "reference_text" in rec && rec["reference_text"].Str?)
              && (f.Copied? ==> f.text == rec["reference_text"].s)
  {
  }

  /** A name without ".wav" keeps its name; `stem.wav` with a dot-free stem becomes `stem.txt`. */
  lemma TxtNameShape(wavName: string, stem: string)
    ensures !Contains(wavName, ".wav") ==> TxtName(wavName) == wavName
    ensures '.' !in stem ==> TxtName(stem + ".wav") == stem + ".txt"
  {
    if !Contains(wavName, ".wav") {
      ReplaceAbsent(wavName, ".wav", ".txt");
    }
    if '.' !in stem {
      StemWav(stem);
    }
  }

  lemma {:induction false} StemWav(stem: string)
    requires '.' !in stem
    ensures ReplaceAll(stem + ".wav", ".wav", ".txt") == stem + ".txt"
    decreases |stem|
  {
    if stem == [] {
      assert stem + ".wav" == ".wav";
      assert ".wav"[4..] == [];
      assert stem + ".txt" == ".txt";
    } else {
      var s := stem + ".wav";
      assert s[0] == stem[0] && stem[0] != '.';
      assert !(".wav" <= s);
      assert s[1..] == stem[1..] + ".wav";
      assert forall c :: c in stem[1..] ==> c in stem;
      StemWav(stem[1..]);
      assert stem + ".txt" == [stem[0]] + (stem[1..] + ".txt");
    }
  }

  /** The lines before the first one that raises. */
  function Processed(fates: seq<Fate>): (r: seq<Fate>)
    ensures r <= fates && Crash !in r
    ensures |r| < |fates| ==> fates[|r|] == Crash
  {
    if Crash !in fates then fates else Processed(fates[..|fates| - 1])
  }

  function CopiedCount(fates: seq<Fate>): nat
  {
    if fates == [] then 0 else CopiedCount(fates[..|fates| - 1]) + (if fates[|fates| - 1].Copied? then 1 else 0)
  }

  /** Lines that count as skipped: below the threshold, or an exception inside the `try`. */
  predicate Skips(f: Fate)
  {
    f.BelowThreshold? || f.CopyError? || f.OpenError? || f.WriteError?
  }

  function SkippedCount(fates: seq<Fate>): nat
  {
    if fates == [] then 0 else SkippedCount(fates[..|fates| - 1]) + (if Skips(fates[|fates| - 1]) then 1 else 0)
  }

  function MissingCount(fates: seq<Fate>): nat
  {
    if fates == [] then 0 else MissingCount(fates[..|fates| - 1]) + (if fates[|fates| - 1].NoWav? then 1 else 0)
  }

  lemma {:induction false} CountsAdd(fates: seq<Fate>)
    requires Crash !in fates
    ensures CopiedCount(fates) + SkippedCount(fates) + MissingCount(fates) == |fates|
  {
    if fates != [] {
      assert forall f :: f in fates[..|fates| - 1] ==> f in fates;
      CountsAdd(fates[..|fates| - 1]);
    }
  }

  /**
   * The script raises exactly when some line raises; until then the
   * copied counter counts the copied pairs and the skipped counter the
   * lines below the threshold or failing inside the `try`, while lines
   * whose wav is missing count in neither; so neither counter, nor their
   * sum, exceeds the number of lines.
   */
  lemma {:induction false} RunCounts(fates: seq<Fate>, k: nat)
    requires k <= |fates|
    ensures var t := Run(fates, k);
            var done := Processed(fates[..k]);
            && (t.crashed <==> Crash in fates[..k])
            && t.copied == CopiedCount(done)
            && t.skipped == SkippedCount(done)
            && t.copied + t.skipped + MissingCount(done) == |done|
            && t.copied + t.skipped <= k
  {
    var prefix := fates[..k];
    if Crash !in prefix {
      CleanCounts(fates, k);
      CountsAdd(prefix);
    } else {
      var done := Processed(prefix);
      var j := |done|;
      assert done == fates[..j] && fates[j] == Crash;
      assert forall f :: f in fates[..j] ==> f in prefix;
      CleanCounts(fates, j);
      CountsAdd(done);
      RunStays(fates, j + 1, k);
    }
  }

  /** Before any line raises, the counters count the copied and the skipped lines. */
  lemma {:induction false} CleanCounts(fates: seq<Fate>, k: nat)
    requires k <= |fates| && Crash !in fates[..k]
    ensures !Run(fates, k).crashed
    ensures Run(fates, k).copied == CopiedCount(fates[..k]) && Run(fates, k).skipped == SkippedCount(fates[..k])
  {
    if k > 0 {
      assert fates[..k] == fates[..k - 1] + [fates[k - 1]];
      assert forall f :: f in fates[..k - 1] ==> f in fates[..k];
      CleanCounts(fates, k - 1);
      CountsStep(Run(fates, k - 1), fates[..k - 1], fates[k - 1]);
    }
  }

  lemma CountsStep(t: Tally, done: seq<Fate>, f: Fate)
    requires !t.crashed && f != Crash
    requires t.copied == CopiedCount(done) && t.skipped == SkippedCount(done)
    ensures Step(t, f).copied == CopiedCount(done + [f]) && Step(t, f).skipped == SkippedCount(done + [f])
    ensures !Step(t, f).crashed
  {
    CountsSnoc(done, f);
  }

  lemma CountsSnoc(fates: seq<Fate>, f: Fate)
    ensures CopiedCount(fates + [f]) == CopiedCount(fates) + (if f.Copied? then 1 else 0)
    ensures SkippedCount(fates + [f]) == SkippedCount(fates) + (if Skips(f) then 1 else 0)
    ensures MissingCount(fates + [f]) == MissingCount(fates) + (if f.NoWav? then 1 else 0)
  {
    assert (fates + [f])[..|fates|] == fates;
  }

  /** With no line raising, copied + skipped + missing wavs accounts for every line. */
  lemma AllAccounted(records: seq<Record>, minSim: real, wavFiles: set<string>, d: Dirs, io: nat -> Io)
    ensures var fates := Fates(records, minSim, wavFiles, d, io);
            var t := Organize(records, minSim, wavFiles, d, io);
            && t.copied + t.skipped <= |records|
            && (Crash !in fates ==> !t.crashed && t.copied + t.skipped + MissingCount(fates) == |records|)
  {
    var fates := Fates(records, minSim, wavFiles, d, io);
    RunCounts(fates, |fates|);
    assert fates[..|fates|] == fates;
  }

  /** A line's step: the copied counter moves only for a copied pair, which adds both its wav and its text. */
  lemma StepEffect(t: Tally, f: Fate)
    requires !t.crashed
    ensures var t' := Step(t, f);
            && (t'.copied == t.copied + 1 <==> f.Copied?)
            && (t'.skipped == t.skipped + 1 <==> Skips(f))
            && (f.Copied? ==> t'.copies == t.copies + [(f.src, f.dst)] && t'.texts == t.texts + [(f.txt, f.text)])
            && (f.NoWav? || f.BelowThreshold? || f.CopyError? ==> t'.copies == t.copies && t'.texts == t.texts)
  {
  }
}
