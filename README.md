# chirp3_client in Dafny

This project models the data-preparation scripts of `chirp3_client`, a set of
command-line tools that build a text-to-speech corpus with Google's Chirp 3
voices. The tools cover four stages:

- Synthesise numbered `.wav` files from a text file, once per voice.
- Transcribe the `.wav` files with a speech recogniser, with retries.
- Compare each transcript with its reference text and filter the pairs by
  Jaccard similarity.
- Copy the surviving pairs into a clean corpus.

Alongside these are:

- A speaker-diarization transcript builder.
- A sentence chunker.
- Two scripts that have a chat model write or restyle paragraphs.

Every network service is an oracle parameter, and so is every file-system
query. This covers the recogniser, the synthesiser, the chat model, the
clock, file existence and the exceptions raised by copies and opens. Each oracle
is indexed by the number of the call, so a run is a function of its inputs and
its oracles. Files that are read are given as sequences of lines (or a map
from path to contents); files that are written are returned as sequences of
lines, records or jobs.

One module models one script:

| module | script | form |
|---|---|---|
| `CompareAsrRef` | `batch_compare_asr_ref.py` | `clean_text`, the `get_*` sets, `jaccard_similarity` and `purify_reference` as functions; the record loop of `process_comparison` as methods proved against fold functions |
| `Diarization` | `run_cloud_asr_batch_speaker_diarization.py` | `merge_consecutive_speakers`, `format_sentence` and the line loop of `batch` as methods, proved against run and line functions |
| `ChunkSentences` | `chunk_sentences.py` | `split_into_sentences` as a function; the line and sentence loops as methods proved against a fold with the `visited` set |
| `AsrParallel` | `batch_asr_parallel.py` | the retry loop of `process_single_file` and the counting loop of `process_folder` as methods |
| `TtsBatch` | `run_chirp3_tts_batch.py` | `get_voice_from_name`, the file naming, `batch_texts_to_outfiles` and the voice loop of `batch` |
| `Chat` | shared by both rewriting scripts | messages, call outcomes and the loop that writes one reply |
| `RewriteChatting` | `rewrite_chatting_style.py` | the whole script: parsing, the message list, the three-attempt retry, the extra call and the output |
| `RewriteParagraphs` | `rewrite_paragraphs.py` | the whole script: `strip('\n')`/`split('\t')` parsing, grouping by file name, topic cleaning, the few-shot messages and the request loops |
| `OrganizePairs` | `organize_filtered_wavs_txts.py` | the whole script: the per-line fate and the counter loop |

The modules `Strings`, `Replace`, `Sorting`, `Json` and `Wrappers` give the
Python built-ins the scripts use:

- `str.strip`, `split`, `join`, `splitlines` and `lower` (ASCII).
- `str.replace`, as non-overlapping left-to-right replacement.
- `os.path.join`, `zfill`, and `sorted` / `list.sort` (stable).
- JSON values.

## Where the code and its documentation differ

The model follows the code in each of these places:

- The example in the `get_chars_bigram` docstring leaves out the bigrams that
  straddle two words (`"ow"` in `"Hello, world!"`). The code removes the
  spaces first, so it does produce them (`CompareAsrRef.BigramsStraddleWords`).
- In `run_chirp3_tts_batch.py`, `textdir = textdir or output_dir` is assigned
  inside the voice loop. In a multi-voice run without `textdir`, every voice's
  transcripts therefore go to the first voice's directory
  (`TtsBatch.TextDirSticky`).
- In `rewrite_chatting_style.py`, the response that is written is not the one
  the retry loop obtained. The code makes a second, unguarded
  `ChatCompletion.create` call and writes its reply
  (`RewriteChatting.SecondCallIsWritten`).
- The last user message of `rewrite_paragraphs.py` is `"Topic: '" + topic`,
  with a single opening quote.
- `process_comparison`'s docstring says the filter
  threshold defaults to 0.5 for `char_sim` only, while the code adds a second
  threshold for references shorter than 16 characters (`CompareAsrRef.Keep`).
- The same docstring says `sort_by_similarity` sorts by word similarity, but
  the code sorts both lists on `sim_char` (`CompareAsrRef.ArrangeSorted`).

## Model

| member | source | states |
|---|---|---|
| `Strings.StripProps` | chirp3_client/batch_compare_asr_ref.py:13 | `strip()` leaves neither leading nor trailing whitespace, returns a contiguous slice of its input, and is empty exactly for a blank string |
| `Strings.StrippedIsFixpoint` | chirp3_client/chunk_sentences.py:57 | stripping an already stripped string changes nothing |
| `Strings.ToLowerProps` | chirp3_client/batch_compare_asr_ref.py:13 | after `lower()` no upper-case letter remains and each became its lower-case letter; a text without upper-case letters comes back unchanged, and lowering twice is lowering once |
| `Strings.SplitChar` | chirp3_client/chunk_sentences.py:45 | `split(c)` gives at least one field and no field contains `c` |
| `Strings.SplitCharJoin` | chirp3_client/rewrite_chatting_style.py:128 | joining the fields of `split(c)` with `c` gives the string back |
| `Strings.SplitCharCount` | chirp3_client/chunk_sentences.py:45-46 | `split(c)` has one field more than the string has occurrences of `c`, so two fields means exactly one separator |
| `Strings.TwoFields` | chirp3_client/chunk_sentences.py:51 | a line with two fields is the first field, the separator and the second field, neither holding the separator |
| `Strings.BeforeFirstIsFirstField` | chirp3_client/chunk_sentences.py:52 | cutting at the first `c` is `split(c)[0]` |
| `Strings.AfterLastProps` | chirp3_client/run_chirp3_tts_batch.py:156 | `split('-')[-1]` is a suffix without `-`, preceded by `-` unless it is the whole string |
| `Strings.SplitAtBreaksOfJoin` | chirp3_client/run_cloud_asr_batch_speaker_diarization.py:80 | splitting at line breaks a `"\n"`-join of unbroken lines gives the lines back |
| `Strings.SplitWsWords` | chirp3_client/batch_compare_asr_ref.py:17 | every field of whitespace `split()` is a non-empty word without whitespace |
| `Strings.SplitWsNone` | chirp3_client/batch_compare_asr_ref.py:17 | whitespace `split()` finds no word exactly when the text is blank |
| `Strings.SplitWsJoin` | chirp3_client/batch_compare_asr_ref.py:17 | on a stripped text whose only whitespace is single spaces, the fields of `split()` joined with one space give the text back |
| `Strings.ZFillProps` | chirp3_client/run_chirp3_tts_batch.py:160 | `zfill(w)` keeps the string as its suffix, pads only with zeros, reaches width `w`, leaves a string that is already that wide unchanged, and is idempotent |
| `Strings.PaddedValue` | chirp3_client/run_chirp3_tts_batch.py:160 | the zero-padded decimal of `i` has only digits and denotes `i` |
| `Strings.PaddedDecimalInjective` | chirp3_client/run_chirp3_tts_batch.py:160 | two different indices never get the same zero-padded decimal |
| `Replace.ReplaceIsJoinOfSplit` | chirp3_client/batch_compare_asr_ref.py:99 | `replace(pat, rep)` equals splitting at `pat` and joining with `rep` |
| `Replace.ReplaceAbsent` | chirp3_client/organize_filtered_wavs_txts.py:43 | replacing a pattern that does not occur changes nothing |
| `Replace.ReplaceGone` | chirp3_client/batch_compare_asr_ref.py:53 | after a replacement whose text shares no character with the pattern, the pattern no longer occurs |
| `Replace.ReplaceChars` | chirp3_client/batch_compare_asr_ref.py:49-52 | every character of a replacement's result comes from the input or from the replacement text |
| `Replace.MaskRoundTrip` | chirp3_client/chunk_sentences.py:16 | masking a pattern with a marker absent from the text, and unmasking, gives the text back |
| `Replace.ReplaceConcat` | chirp3_client/chunk_sentences.py:25 | a replacement distributes over a concatenation whose left part ends in a character not in the pattern |
| `Replace.ReplacementAppears` | chirp3_client/batch_compare_asr_ref.py:168 | when the pattern occurs, the replacement occurs in the result |
| `Replace.BeforeMatchIsFirstField` | chirp3_client/rewrite_paragraphs.py:69 | the text before the first match is `split(pat)[0]` |
| `Replace.BeforeMatchProps` | chirp3_client/rewrite_paragraphs.py:69 | `split(pat)[0]` holds no match, is the whole string exactly when there is none, and is otherwise followed by the pattern |
| `Sorting.SortByKey` | chirp3_client/batch_compare_asr_ref.py:155-157 | sorting by key keeps the length and is a permutation |
| `Sorting.SortByKeySorted` | chirp3_client/batch_compare_asr_ref.py:155-157 | the result is in ascending key order |
| `Sorting.SortByKeyStable` | chirp3_client/batch_compare_asr_ref.py:155-157 | records with equal keys keep their relative order (`list.sort` is stable) |
| `Sorting.SortNames` | chirp3_client/run_cloud_asr_batch_speaker_diarization.py:239 | `sorted` of the names is a permutation of them |
| `Sorting.SortNamesSorted` | chirp3_client/run_cloud_asr_batch_speaker_diarization.py:239 | `sorted` names are in lexicographic order |
| `CompareAsrRef.PunctToSpaceProps` | chirp3_client/batch_compare_asr_ref.py:10 | after the first substitution no punctuation mark remains, every non-space character is the input's own at that position, a text without punctuation is unchanged, and the substitution is idempotent |
| `CompareAsrRef.CollapseSpaceProps` | chirp3_client/batch_compare_asr_ref.py:12 | collapsing whitespace runs gives an empty result exactly for an empty input, starts with whitespace exactly when the input does, leaves no two adjacent spaces, and introduces no character but the space |
| `CompareAsrRef.CleanText` | chirp3_client/batch_compare_asr_ref.py:7-13 | the cleaned text has no punctuation, no upper-case letter, no whitespace at either end and only single spaces |
| `CompareAsrRef.CleanedIsFixpoint` | chirp3_client/batch_compare_asr_ref.py:7-13 | a text with those properties is left unchanged by `clean_text` |
| `CompareAsrRef.CleanTextIdempotent` | chirp3_client/batch_compare_asr_ref.py:7-13 | cleaning twice is cleaning once |
| `CompareAsrRef.Words` | chirp3_client/batch_compare_asr_ref.py:15-17 | the set holds exactly the fields of `split()` on the cleaned text, each non-empty and without a space |
| `CompareAsrRef.WordsRejoin` | chirp3_client/batch_compare_asr_ref.py:15-17 | the words of the cleaned text, joined with single spaces, give the cleaned text back, and there are none exactly when the cleaned text is empty |
| `CompareAsrRef.Chars` | chirp3_client/batch_compare_asr_ref.py:19-21 | the set holds exactly the characters of the space-free cleaned text and no space |
| `CompareAsrRef.PairsOf` | chirp3_client/batch_compare_asr_ref.py:28 | the set holds every two-character window of the text and nothing else, and is empty for a text shorter than two |
| `CompareAsrRef.Bigrams` | chirp3_client/batch_compare_asr_ref.py:23-28 | the bigrams are the windows of the space-free cleaned text, each two non-space characters |
| `CompareAsrRef.BigramsStraddleWords` | chirp3_client/batch_compare_asr_ref.py:23-28 | for a cleaned text of two words, the last letter of the first and the first letter of the second form a bigram |
| `CompareAsrRef.Jaccard` | chirp3_client/batch_compare_asr_ref.py:30-36 | the similarity lies in [0, 1]; it is 1 exactly for equal sets (two empty sets included) and 0 exactly for disjoint sets that are not both empty; otherwise it is intersection size over union size |
| `CompareAsrRef.JaccardCounts` | chirp3_client/batch_compare_asr_ref.py:34-35 | the intersection is never larger than the union and equals it exactly for equal sets |
| `CompareAsrRef.JaccardSymmetric` | chirp3_client/batch_compare_asr_ref.py:30-36 | the similarity does not depend on the order of the sets |
| `CompareAsrRef.QuotesGone` | chirp3_client/batch_compare_asr_ref.py:49-50 | after the quote replacements no curly quote remains |
| `CompareAsrRef.DashesGone` | chirp3_client/batch_compare_asr_ref.py:51-52 | after the ellipsis and dash replacements no typographic character remains |
| `CompareAsrRef.Purify` | chirp3_client/batch_compare_asr_ref.py:40-59 | the purified text holds no typographic character and no literal backslash-n, and it is valid exactly when every character is in the allowed class |
| `CompareAsrRef.PurifyIdempotent` | chirp3_client/batch_compare_asr_ref.py:40-59 | purifying a purified text changes neither the text nor the verdict |
| `CompareAsrRef.ExtendsStrictlyMeaning` | chirp3_client/batch_compare_asr_ref.py:119 | the trailing-noise test holds exactly when the cleaned reference is a proper prefix of the cleaned transcript |
| `CompareAsrRef.ScoreRecord` | chirp3_client/batch_compare_asr_ref.py:110-130 | both scores are in [0, 1]; an invalid reference, trailing noise (only with `detect_ending_noise`) or "my name is" scores 0; otherwise the scores are the word and bigram Jaccard similarities |
| `CompareAsrRef.EmptyReferenceCountsAsTrailing` | chirp3_client/batch_compare_asr_ref.py:119-123 | a reference that cleans to nothing is flagged as trailing noise against any transcript that does not |
| `CompareAsrRef.IdenticalTextScoresOne` | chirp3_client/batch_compare_asr_ref.py:128-130 | a transcript identical to a valid reference without "my name is" scores 1 on both measures |
| `CompareAsrRef.RefNameOfStem` | chirp3_client/batch_compare_asr_ref.py:99-101 | the audio file `prefix + stem + ".wav"` looks up the reference `stem + ".txt"`, for any stem, provided `.wav` occurs only at the end and the prefix does not occur again |
| `CompareAsrRef.DeletedLogName` | chirp3_client/batch_compare_asr_ref.py:167-170 | the deleted log is never the output file, always mentions `.deleted.jsonl`, and is the output name plus that suffix when it has no `.jsonl` |
| `CompareAsrRef.Annotate` | chirp3_client/batch_compare_asr_ref.py:136-142 | the output record is the input record with exactly the four fields added or overridden, every other field unchanged |
| `CompareAsrRef.ScoreLine` | chirp3_client/batch_compare_asr_ref.py:105-142 | a scored line carries the purified stripped reference and a `sim_char` in [0, 1]; trailing noise is only flagged with the option on and scores 0 |
| `CompareAsrRef.ProcessRecord` | chirp3_client/batch_compare_asr_ref.py:94-133 | a line raises exactly on a missing `filename`/`text` key, a non-string name, or, once the reference path exists, an unreadable reference file or a non-string transcript; it is skipped exactly when the reference file is missing; otherwise it is scored against that file's contents |
| `CompareAsrRef.Steps` | chirp3_client/batch_compare_asr_ref.py:94 | every input line has its own outcome, in order |
| `CompareAsrRef.SplitRecords` | chirp3_client/batch_compare_asr_ref.py:93-153 | the loop succeeds exactly when no line raises, and then returns the kept records, the deleted records and the trailing counter of the scored rows |
| `CompareAsrRef.Place` | chirp3_client/batch_compare_asr_ref.py:144-152 | a kept row goes to the results and a dropped row to the deleted list, and the other list is unchanged |
| `CompareAsrRef.Absorb` | chirp3_client/batch_compare_asr_ref.py:119-152 | one scored row extends the kept and deleted lists and the trailing counter exactly as the rows so far plus that row prescribe |
| `CompareAsrRef.ProcessComparison` | chirp3_client/batch_compare_asr_ref.py:62-181 | without an exception, the output and the deleted log are the kept and the dropped records in input order, sorted stably by `sim_char` when asked; the counter counts the trailing-noise rows |
| `CompareAsrRef.KeptDroppedPartition` | chirp3_client/batch_compare_asr_ref.py:144-152 | every scored row lands in exactly one of the two lists: their sizes add up and their multisets make up the rows |
| `CompareAsrRef.KeptExactlyWhenKeep` | chirp3_client/batch_compare_asr_ref.py:144-152 | a row is in the results exactly when it reaches `min_char_sim` and is not a short reference below the short-line bar, and in the deleted list exactly otherwise |
| `CompareAsrRef.ScoredAccounting` | chirp3_client/batch_compare_asr_ref.py:131-133 | without exceptions, scored rows plus missing references add up to the lines |
| `CompareAsrRef.RowsAccounting` | chirp3_client/batch_compare_asr_ref.py:131-133 | on input where no line raises, every line is either scored or skipped for a missing reference |
| `CompareAsrRef.OutsLength` | chirp3_client/batch_compare_asr_ref.py:161-163 | one output record per row, in row order |
| `CompareAsrRef.ArrangeSorted` | chirp3_client/batch_compare_asr_ref.py:155-157 | the sorted list is in ascending `sim_char` order, a permutation of the list, and keeps the order among equal scores |
| `Diarization.RunsProps` | chirp3_client/run_cloud_asr_batch_speaker_diarization.py:49-78 | the runs are maximal (non-empty, neighbours of different speakers), expand back to exactly the words, and are empty exactly for no words |
| `Diarization.RunsUnique` | chirp3_client/run_cloud_asr_batch_speaker_diarization.py:49-78 | any maximal segmentation of the words is the one the loop builds |
| `Diarization.RunsCount` | chirp3_client/run_cloud_asr_batch_speaker_diarization.py:60 | there is one run more than there are speaker changes |
| `Diarization.RunsKeepWords` | chirp3_client/run_cloud_asr_batch_speaker_diarization.py:49-78 | the runs' words, in order, are the input's words |
| `Diarization.FormatSentence` | chirp3_client/run_cloud_asr_batch_speaker_diarization.py:82-90 | the loop of seven replacements computes the formatted sentence |
| `Diarization.FormatHasNoSpaceBeforePunct` | chirp3_client/run_cloud_asr_batch_speaker_diarization.py:82-90 | in a formatted sentence of plain words no space precedes `, . ? ! ' ; :` and no two spaces are adjacent |
| `Diarization.FormatUnbroken` | chirp3_client/run_cloud_asr_batch_speaker_diarization.py:82-90 | formatting words without line breaks produces no line break |
| `Diarization.CloseRun` | chirp3_client/run_cloud_asr_batch_speaker_diarization.py:61-66 | closing a run formats it, with the `Speaker n: ` prefix when asked |
| `Diarization.MergeConsecutiveSpeakers` | chirp3_client/run_cloud_asr_batch_speaker_diarization.py:49-80 | the loop returns the newline-join of one formatted line per maximal speaker run |
| `Diarization.MergedTextOfNothing` | chirp3_client/run_cloud_asr_batch_speaker_diarization.py:72-80 | no words give the empty transcript |
| `Diarization.MergedLinesSplitBack` | chirp3_client/run_cloud_asr_batch_speaker_diarization.py:80 | for words without line breaks, splitting the transcript into lines gives the run lines back, one more than the speaker changes |
| `Diarization.WavFiles` | chirp3_client/run_cloud_asr_batch_speaker_diarization.py:236 | a listing entry is kept exactly when it ends in `.wav` |
| `Diarization.TrimmedClean` | chirp3_client/run_cloud_asr_batch_speaker_diarization.py:242-244 | at most one written line per transcript line, each non-empty and stripped |
| `Diarization.PrefixedIndex` | chirp3_client/run_cloud_asr_batch_speaker_diarization.py:244 | each written line is the file name, a tab and the stripped transcript line |
| `Diarization.EmitLines` | chirp3_client/run_cloud_asr_batch_speaker_diarization.py:242-244 | the loop appends the prefixed non-blank stripped lines of one transcript |
| `Diarization.EmittedPerRun` | chirp3_client/run_cloud_asr_batch_speaker_diarization.py:239-244 | a file whose runs all print something writes one line per speaker run, each its name, a tab and that run's stripped line |
| `Diarization.BatchStopsAtFailure` | chirp3_client/run_cloud_asr_batch_speaker_diarization.py:239-244 | once a recognition fails, the batch writes nothing more |
| `Diarization.BatchOkIffAllRecognized` | chirp3_client/run_cloud_asr_batch_speaker_diarization.py:239-244 | the batch finishes exactly when every file is recognised |
| `Diarization.BatchFinishesIffAllRecognized` | chirp3_client/run_cloud_asr_batch_speaker_diarization.py:236-244 | the batch finishes exactly when every `.wav` entry of the listing is recognised at its path joined under the input directory |
| `Diarization.Batch` | chirp3_client/run_cloud_asr_batch_speaker_diarization.py:226-244 | the batch writes the lines of the sorted `.wav` files in order, up to the first failed recognition |
| `ChunkSentences.PiecesConcat` | chirp3_client/chunk_sentences.py:19-22 | the pieces of the split, rejoined with their endings, are the text |
| `ChunkSentences.PiecesEndAtStop` | chirp3_client/chunk_sentences.py:19-22 | every piece but the last ends at `.`, `!` or `?` followed by whitespace or the end |
| `ChunkSentences.MaskedHasNoEllipsis` | chirp3_client/chunk_sentences.py:16 | after masking, no `...` is left to split at |
| `ChunkSentences.SentencesClean` | chirp3_client/chunk_sentences.py:25 | every sentence is non-empty and stripped |
| `ChunkSentences.SentencesEndAtStop` | chirp3_client/chunk_sentences.py:19-25 | every sentence but the last ends with `.`, `!` or `?` |
| `ChunkSentences.SentencesKeepContent` | chirp3_client/chunk_sentences.py:5-27 | for a text without the mask, the sentences together hold exactly the text's non-space characters, in order |
| `ChunkSentences.ParseLineShape` | chirp3_client/chunk_sentences.py:41-54 | a line is used exactly when, stripped, it is non-empty with exactly one tab; the topic is the first field up to its first colon and the sentences are those of the second field |
| `ChunkSentences.OfferSentences` | chirp3_client/chunk_sentences.py:56-66 | the sentence loop updates `visited` and the output exactly as the fold over the line's sentences prescribes |
| `ChunkSentences.ChunkSentences` | chirp3_client/chunk_sentences.py:29-69 | the output is the rendering of the fold over every sentence of every used line |
| `ChunkSentences.FeedVisited` | chirp3_client/chunk_sentences.py:59-62 | `visited` is exactly the set of non-empty stripped sentences offered, and the set of sentences written |
| `ChunkSentences.UniqueWritesFirstOccurrences` | chirp3_client/chunk_sentences.py:59-62 | with `do_unique`, the sentences written are the first occurrences |
| `ChunkSentences.AllWritesNonEmpty` | chirp3_client/chunk_sentences.py:59-62 | without `do_unique`, every non-empty sentence is written |
| `ChunkSentences.FirstOccurrencesDistinct` | chirp3_client/chunk_sentences.py:59-62 | the first occurrences are pairwise different and cover every sentence offered |
| `ChunkSentences.WritesEverySentence` | chirp3_client/chunk_sentences.py:56-66 | without `do_unique`, every sentence of every used line is written, in order |
| `ChunkSentences.WritesEachSentenceOnce` | chirp3_client/chunk_sentences.py:56-66 | with `do_unique`, the written sentences are pairwise different, each the first occurrence of its text, and together they are every sentence of the input |
| `ChunkSentences.RenderSplitsBack` | chirp3_client/chunk_sentences.py:63-64 | with `keep_topic`, the text before the first tab of a written line is the topic and the rest is the sentence |
| `AsrParallel.FirstSuccess` | chirp3_client/batch_asr_parallel.py:30-38 | the first successful attempt, with every earlier attempt raising; or no success, with the last attempt raising |
| `AsrParallel.NoneSucceedIff` | chirp3_client/batch_asr_parallel.py:30-47 | no attempt succeeds exactly when the search runs to the end |
| `AsrParallel.SingleFile` | chirp3_client/batch_asr_parallel.py:21-47 | a result exists exactly when at least one attempt is allowed, and it always names the file's basename |
| `AsrParallel.ProcessSingleFile` | chirp3_client/batch_asr_parallel.py:21-47 | the retry loop returns the file's result and makes the counted calls and pauses |
| `AsrParallel.FirstSuccessWins` | chirp3_client/batch_asr_parallel.py:36-38 | the first successful attempt gives the stripped printed text, after that many pauses and one call more |
| `AsrParallel.AllAttemptsFail` | chirp3_client/batch_asr_parallel.py:41-47 | when every attempt raises, the text starts with `ERROR:`, after `max_retries - 1` pauses and `max_retries` calls |
| `AsrParallel.CallsBounded` | chirp3_client/batch_asr_parallel.py:30-47 | between one and `max_retries` calls, with one pause fewer than calls |
| `AsrParallel.JsonRoundTrip` | chirp3_client/batch_asr_parallel.py:82-86 | a written record reads back as its line, and an object with exactly the `filename`, `text` and `timestamp` string fields is the record of the line it reads as |
| `AsrParallel.ProcessFolder` | chirp3_client/batch_asr_parallel.py:65-110 | one record per file, in order; the failure counter counts the `ERROR:` texts and the two counters add up to the number of files |
| `AsrParallel.RecordFile` | chirp3_client/batch_asr_parallel.py:80-97 | one round of the folder loop extends the records and the failure count from the first `idx` files to the first `idx + 1`, and adds exactly one to the two counters together |
| `AsrParallel.RecordsShape` | chirp3_client/batch_asr_parallel.py:80-86 | record `k` is file `k`'s result stamped at position `k + 1` |
| `AsrParallel.FailureMeaning` | chirp3_client/batch_asr_parallel.py:94-97 | a file counts as failed exactly when all three attempts raised, or when its successful output itself starts with `ERROR:` |
| `AsrParallel.FailuresBounded` | chirp3_client/batch_asr_parallel.py:94-97 | failures never exceed the number of files |
| `AsrParallel.RecordFilename` | chirp3_client/batch_asr_parallel.py:28 | every record names its file's basename |
| `TtsBatch.VoiceRoundTrip` | chirp3_client/run_chirp3_tts_batch.py:42-51 | the short name can be read back from the voice's `en-US-Chirp3-HD-` name, and a short name read from a US-English voice builds that same voice |
| `TtsBatch.VoiceNamesDistinct` | chirp3_client/run_chirp3_tts_batch.py:42-51 | different names give different voices |
| `TtsBatch.VoicesToSynthesize` | chirp3_client/run_chirp3_tts_batch.py:142-147 | one voice per comma-separated entry, built from the stripped entry |
| `TtsBatch.MultivoiceIffComma` | chirp3_client/run_chirp3_tts_batch.py:149-150 | a run is multi-voice exactly when the list holds a comma |
| `TtsBatch.SubdirOfVoice` | chirp3_client/run_chirp3_tts_batch.py:156 | a voice's sub-directory is its given name, or the part after that name's last `-` |
| `TtsBatch.FileNameLength` | chirp3_client/run_chirp3_tts_batch.py:160 | the number in a file name takes at least `num_digits` characters, and never fewer than the decimal of the index |
| `TtsBatch.PathsDistinct` | chirp3_client/run_chirp3_tts_batch.py:160-165 | two indices never share an output path in one directory |
| `TtsBatch.Zip3Meaning` | chirp3_client/run_chirp3_tts_batch.py:117 | the zip stops at the shortest list and pairs equal positions |
| `TtsBatch.JobsMeaning` | chirp3_client/run_chirp3_tts_batch.py:117-119 | the jobs are the first `limit` of the zip (all when `limit <= 0`), position `k` pairing the `k`-th text and names |
| `TtsBatch.BatchTextsToOutfiles` | chirp3_client/run_chirp3_tts_batch.py:115-121 | the loop makes one synthesis job per zipped text and file pair, up to the limit, in order |
| `TtsBatch.DropDrop` | chirp3_client/run_chirp3_tts_batch.py:168 | slicing `[s:]` twice is slicing once by the sum |
| `TtsBatch.RemainingIsDrop` | chirp3_client/run_chirp3_tts_batch.py:167-168 | after `v` voices the texts are the input without its first `v * s` lines |
| `TtsBatch.TextDirSticky` | chirp3_client/run_chirp3_tts_batch.py:162 | the first voice's transcript directory is `textdir`, or else its output directory; when that is not empty, every later voice keeps it |
| `TtsBatch.VoiceJobsShape` | chirp3_client/run_chirp3_tts_batch.py:153-173 | the call for one voice handed some texts has job `j` pairing text `s + j` with the audio and transcript files numbered `s + j` |
| `TtsBatch.VoiceJobsDistinctFiles` | chirp3_client/run_chirp3_tts_batch.py:160-173 | no two jobs of one call write the same audio file or the same transcript file |
| `TtsBatch.BatchShifted` | chirp3_client/run_chirp3_tts_batch.py:167-173 | as written, voice `v` speaks line `min(n, v * s) + s + j` of the `n` input lines into file `s + j` |
| `TtsBatch.BatchShiftedExample` | chirp3_client/run_chirp3_tts_batch.py:167-173 | three lines, two voices, `start_idx = 1`: the second voice speaks line 2 into file 1 |
| `TtsBatch.AlignedPairs` | chirp3_client/run_chirp3_tts_batch.py:159-173 | corrected: every voice speaks line `s + j` into the files numbered `s + j`, and every voice gets the same number of jobs |
| `TtsBatch.Batch` | chirp3_client/run_chirp3_tts_batch.py:126-173 | as written: one voice per entry, and one call per voice, each handed what the earlier voices left of the texts |
| `TtsBatch.BatchAligned` | chirp3_client/run_chirp3_tts_batch.py:126-173 | corrected: the same voices and calls, but every voice slices the whole input |
| `Chat.Limited` | chirp3_client/rewrite_chatting_style.py:67-68 | `lines[:limit]` for a positive limit is a prefix of that length (or all lines), and all lines otherwise |
| `Chat.WriteReply` | chirp3_client/rewrite_chatting_style.py:128-132 | the loop writes `topic:\t` and the stripped line for every non-blank reply line |
| `Chat.KeptShape` | chirp3_client/rewrite_chatting_style.py:128-131 | every kept reply line is non-empty and stripped, and holds no character absent from all pieces |
| `Chat.ReplyLinesShape` | chirp3_client/rewrite_chatting_style.py:128-132 | every written line is the topic, `:\t` and a non-empty stripped line without a newline, and dropping the prefix gives that line back |
| `Chat.UntagTag` | chirp3_client/rewrite_chatting_style.py:132 | removing the `topic:\t` prefix undoes adding it |
| `Chat.ReplyRoundTrip` | chirp3_client/rewrite_chatting_style.py:128-132 | a reply of non-empty stripped lines can be read back from what is written |
| `RewriteChatting.ParseItemShape` | chirp3_client/rewrite_chatting_style.py:74-79 | a line is used exactly when it holds one tab; the topic is the first field up to its first colon and the content the second |
| `RewriteChatting.BuildMessages` | chirp3_client/rewrite_chatting_style.py:83-90 | the loop builds the system prompt, the few-shot pairs and the content request |
| `RewriteChatting.ExamplesIndex` | chirp3_client/rewrite_chatting_style.py:85-88 | example `k` is the prefixed user question at `2k` and the assistant answer at `2k + 1` |
| `RewriteChatting.MessagesShape` | chirp3_client/rewrite_chatting_style.py:83-90 | a request holds `2 + 2 * examples` messages: the system prompt, then every example as a user/assistant pair, then the prefixed content last |
| `RewriteChatting.SixMessages` | chirp3_client/rewrite_chatting_style.py:20-25 | with the script's two examples every request holds six messages |
| `RewriteChatting.RetryLoop` | chirp3_client/rewrite_chatting_style.py:94-111 | the loop computes the number of attempts and how it ended |
| `RewriteChatting.RetryMeaning` | chirp3_client/rewrite_chatting_style.py:94-111 | one to three calls, all but the last failing; success or interruption at the last call exactly when it returned or was interrupted; exhausted exactly when all three failed |
| `RewriteChatting.SecondCall` | chirp3_client/rewrite_chatting_style.py:117-133 | the second call writes the reply lines of its response, nothing for a missing key, and ends the run on an exception or a reply without usable content |
| `RewriteChatting.ProcessItem` | chirp3_client/rewrite_chatting_style.py:81-133 | one line is the retry loop followed by the second call |
| `RewriteChatting.ProcessLine` | chirp3_client/rewrite_chatting_style.py:70-79 | a line before `start_idx` or with the wrong number of tabs is skipped, and any other is processed |
| `RewriteChatting.RunStays` | chirp3_client/rewrite_chatting_style.py:105-115 | once the run broke off or raised, later lines change nothing |
| `RewriteChatting.RunLines` | chirp3_client/rewrite_chatting_style.py:70-133 | the loop over the lines computes the run over all of them |
| `RewriteChatting.RewriteParagraphs` | chirp3_client/rewrite_chatting_style.py:44-134 | the script is the run over the limited list of non-blank stripped input lines |
| `RewriteChatting.NothingBeforeStart` | chirp3_client/rewrite_chatting_style.py:71-72 | the lines before `start_idx` write nothing and make no call |
| `RewriteChatting.GivesUpAfterThreeFailures` | chirp3_client/rewrite_chatting_style.py:113-115 | the run gives up at a line exactly when its three calls all failed, having sent the same request three times and written nothing for it |
| `RewriteChatting.SecondCallIsWritten` | chirp3_client/rewrite_chatting_style.py:94-133 | when a line goes through, the written reply is that of the extra call right after the successful one |
| `RewriteChatting.LineStepShaped` | chirp3_client/rewrite_chatting_style.py:83-121 | every request a line adds has the full message layout |
| `RewriteChatting.RequestsShape` | chirp3_client/rewrite_chatting_style.py:70-133 | every request of the run starts with the system prompt and has `2 + 2 * examples` messages |
| `RewriteChatting.ItemRequests` | chirp3_client/rewrite_chatting_style.py:94-121 | a processed line makes one to four calls, all with its own messages, and keeps the earlier requests |
| `RewriteParagraphs.StripNewlinesProps` | chirp3_client/rewrite_paragraphs.py:44 | `strip('\n')` leaves no newline at either end and keeps every other character, tabs included |
| `RewriteParagraphs.FieldsCount` | chirp3_client/rewrite_paragraphs.py:45-46 | a line unpacks into two fields exactly when it holds one tab |
| `RewriteParagraphs.ParseMeaning` | chirp3_client/rewrite_paragraphs.py:45-46 | the unpacking fails exactly when some line does not have two fields; otherwise each line gives its two fields, in order |
| `RewriteParagraphs.PairOfLine` | chirp3_client/rewrite_paragraphs.py:44-46 | a parsed line is the file name, a tab and the paragraph, neither holding a tab |
| `RewriteParagraphs.GroupKeys` | chirp3_client/rewrite_paragraphs.py:42-50 | `filenames` has no repeats and the same names as the map's keys, which are exactly the names in the input |
| `RewriteParagraphs.GroupContents` | chirp3_client/rewrite_paragraphs.py:46-50 | each file's list holds its paragraphs in input order |
| `RewriteParagraphs.GroupOrder` | chirp3_client/rewrite_paragraphs.py:47-49 | the file names come in the order of their first occurrence |
| `RewriteParagraphs.GroupTotal` | chirp3_client/rewrite_paragraphs.py:46-50 | the lists together hold one paragraph per input line |
| `RewriteParagraphs.GroupParagraphs` | chirp3_client/rewrite_paragraphs.py:40-50 | the reading loop computes the grouping, or fails at a malformed line |
| `RewriteParagraphs.TopicShape` | chirp3_client/rewrite_paragraphs.py:69-71 | a sample's topic holds no `-` and no `.wav`, and is the fixed topic exactly when the cut name mentions `ishowspeed` |
| `RewriteParagraphs.TopicIdempotent` | chirp3_client/rewrite_paragraphs.py:69-71 | cleaning a cleaned topic changes nothing |
| `RewriteParagraphs.DialogueIndex` | chirp3_client/rewrite_paragraphs.py:67-74 | sample `k` gives the topic message at `2k` and the paragraph at `2k + 1` |
| `RewriteParagraphs.BuildMessages` | chirp3_client/rewrite_paragraphs.py:65-76 | the loop builds the system prompt, the sample pairs and the topic request |
| `RewriteParagraphs.MessagesShape` | chirp3_client/rewrite_paragraphs.py:65-76 | a request holds eight messages for three samples: the system prompt, each sample's cleaned topic and paragraph, and `Topic: '` with the topic last |
| `RewriteParagraphs.MakeRequest` | chirp3_client/rewrite_paragraphs.py:64-92 | one round samples, sends the request and writes the reply lines, nothing for a missing key, and marks an exception or a reply without usable content |
| `RewriteParagraphs.TopicRunRaised` | chirp3_client/rewrite_paragraphs.py:78-82 | after an exception the remaining rounds change nothing |
| `RewriteParagraphs.RequestTopic` | chirp3_client/rewrite_paragraphs.py:63-92 | the inner loop computes the rounds for one topic |
| `RewriteParagraphs.RequestTopics` | chirp3_client/rewrite_paragraphs.py:61-92 | the outer loop computes the rounds for every topic |
| `RewriteParagraphs.RewriteParagraphs` | chirp3_client/rewrite_paragraphs.py:21-93 | the script fails before writing when the grouping fails, and otherwise runs the rounds over the limited non-blank topics |
| `RewriteParagraphs.RequestExplained` | chirp3_client/rewrite_paragraphs.py:64-92 | one round adds one request unless the run stopped or there are fewer than three paragraphs, and raises exactly when sampling fails, the call fails or its reply has no usable content |
| `RewriteParagraphs.TopicRequests` | chirp3_client/rewrite_paragraphs.py:63-92 | Over one topic's rounds every request sent has eight messages ending with the topic message, every line written starts with `topic:\t`, and without an exception exactly one request is sent per round. |
| `RewriteParagraphs.RunCount` | chirp3_client/rewrite_paragraphs.py:59-92 | over `k` topics and `r` rounds there are at most `k * r` requests, exactly `k * r` without an exception, and every call before a final raise returned |
| `RewriteParagraphs.AllRequestsMade` | chirp3_client/rewrite_paragraphs.py:59-92 | with three paragraphs or more and every call answered with text or a missing key, every topic gets all its rounds |
| `OrganizePairs.CopyPair` | chirp3_client/organize_filtered_wavs_txts.py:52-69 | the copy, then the `.txt` write: a failed copy changes nothing, a failed open keeps the copy, and success records both the copy and the text |
| `OrganizePairs.OrganizeLine` | chirp3_client/organize_filtered_wavs_txts.py:35-69 | one line's body updates the counters as its fate prescribes |
| `OrganizePairs.RunStays` | chirp3_client/organize_filtered_wavs_txts.py:35-42 | once a line raised, later lines change nothing |
| `OrganizePairs.OrganizeAll` | chirp3_client/organize_filtered_wavs_txts.py:33-69 | the loop computes the tally over all lines |
| `OrganizePairs.SkipRule` | chirp3_client/organize_filtered_wavs_txts.py:38-40 | a line is skipped for the threshold exactly when its `sim_char` (0 when absent) is below the minimum |
| `OrganizePairs.FateNames` | chirp3_client/organize_filtered_wavs_txts.py:42-64 | the source, destination and `.txt` paths are the joined names, and a pair is copied exactly when its wav exists, nothing raises and the record has a string `reference_text`, which becomes the text |
| `OrganizePairs.TxtNameShape` | chirp3_client/organize_filtered_wavs_txts.py:43 | a name without `.wav` keeps its name, and `stem.wav` with a dot-free stem becomes `stem.txt` |
| `OrganizePairs.Processed` | chirp3_client/organize_filtered_wavs_txts.py:33-69 | the lines handled are those before the first raising line |
| `OrganizePairs.CountsAdd` | chirp3_client/organize_filtered_wavs_txts.py:38-69 | among lines that do not raise, copied, skipped and missing-wav lines add up to all of them |
| `OrganizePairs.RunCounts` | chirp3_client/organize_filtered_wavs_txts.py:29-69 | the script raises exactly when some line raises; until then `copied_count` counts the copied pairs and `skipped_count` the lines below the threshold or failing in the `try`, while missing wavs count in neither |
| `OrganizePairs.AllAccounted` | chirp3_client/organize_filtered_wavs_txts.py:29-73 | the two counters never exceed the lines, and without an exception copied, skipped and missing wavs account for every line |
| `OrganizePairs.StepEffect` | chirp3_client/organize_filtered_wavs_txts.py:52-69 | only a copied pair moves the copied counter, and it records both its wav copy and its text; a line below the threshold, without its wav or whose copy failed records nothing |

## Left out

- Printing, progress output, `verbose` flags and the `argh` command-line layer are not modelled. Only what is written to files is modelled.
- Reading the API keys and the chat-model selection are not modelled: `load_api_key`, `chirp3-keys.json`, `model`, `temperature` and the `qwen` base URL. The system prompt and few-shot examples of `rewrite_chatting_style.py` are parameters, not the literal texts.
- The services are oracles indexed by call number. These are the speech recogniser (`run_asr`, `run_asr_long`, `upload_to_gcs`), the synthesiser (`synthesize_speech_with_chirp3`) and the chat model. What each service does with its input is left out.
- `time.sleep` is not modelled, and neither is the clock. The pauses are counted, and the timestamps are the parameter `stamp`.
- `random.seed(42)` and `random.sample` are an oracle of index lists, assumed to be three distinct positions whenever there are at least three paragraphs. The Mersenne Twister sequence is not modelled.
- Directory creation (`os.makedirs`) is not modelled. This includes the error `os.makedirs("")` raises when the output directory is empty.
- `shutil.copy2` is modelled without its effect on later existence checks. Its metadata copy and any partly written file are left out.
- Floating point is exact `real` arithmetic. The similarity scores and thresholds are `real`s, and rounding is not modelled.
- `str.lower` is modelled on ASCII letters only.
- `os.path.join` is modelled for POSIX paths.
- Whitespace (`Strings.IsSpace`) is exactly the set `str.isspace` accepts, which is also what `\s` matches in a `str` pattern. It is written out as a fixed list of characters, not derived from the Unicode database.
- A reference file that exists but cannot be read is an oracle value (`None` in the file map). Which of a directory, a permission error or invalid UTF-8 causes it is not modelled; all of them raise, because only `FileNotFoundError` is caught.
- A chat reply without usable content (an empty `choices` list, or a `None` content that `split` rejects) is the response `Unusable`, which raises. What in the reply causes it is not modelled.
- `json.loads` of a malformed line is not modelled: records are given decoded. Non-string field values are modelled where the source would raise on them.
- `pool.imap` with worker processes is modelled as a sequential map. `imap` keeps the order, so the records are the same.
- `rewrite_chatting_style.py` opens its output in append mode when `start_idx > 0`. The model returns only the lines this run adds.
- The `single` commands and the one-speaker recogniser script `run_cloud_asr_batch_1speaker.py` are not part of this model.
- TopicRequests: it is proved for any sampler that gives three distinct in-range paragraph positions whenever there are at least three paragraphs, which is what `random.sample` guarantees, and not for the particular positions `random.seed(42)` produces; its eight-message count and the position of the topic message hold for the script's three samples (`Shots`) and are not generalised to another sample size.
- `AsrParallel.ProcessSingleFile`: `max_retries` is a parameter for both functions. Only `process_folder`'s default of 3 is fixed (`DefaultRetries`).

## Findings

| source | as written | input that shows it | evidently intended | confidence | as-written member | corrected member |
|---|---|---|---|---|---|---|
| chirp3_client/run_chirp3_tts_batch.py:168 | `input_texts = input_texts[start_idx:]` reassigns the text list inside the voice loop. Each later voice re-slices what the previous one left and builds its file names from the shorter list. | three input lines, `voices="A,B"`, `start_idx=1`: voice B speaks line 2 into file number 1, and line 1 is never spoken by B | every voice speaks line `start_idx + j` into the files numbered `start_idx + j` | not executed | `TtsBatch.BatchShiftedExample` (on `TtsBatch.BatchShifted` and `TtsBatch.Batch`) | `TtsBatch.AlignedPairs` (on `TtsBatch.BatchAligned`) |
