# Legendei automático — a verified model of the subtitle pipeline

Legendei automático is a desktop tool. It takes one video or audio file, or
a folder walked recursively. It transcribes each media file with a Whisper
speech model and can translate the text with Google Translate. It writes one
SubRip (`.srt`) subtitle file per media file. The whole program lives in
`interface_legenda.py`.

This project models the part of that file that decides what gets written and
what the user is told:

- **Timestamp**: `format_timestamp`. A seconds offset becomes `HH:MM:SS,mmm`.
  This includes the edge where the milliseconds round up to 1000 and are not
  carried into the seconds.
- **Subtitles**: the segment loop of `transcrever_video`. It numbers blocks
  from 1 and strips each text. It translates only when the two language codes
  differ, and a translator exception keeps the original text. It polls the
  cancel flag before every segment.
- **Media**: how `iniciar_thread` builds the file list. One chosen file, or
  every file in an `os.walk` whose lower-cased name ends with one of the nine
  `EXTENSOES_VIDEO`.
- **Paths**: where a subtitle goes. That is the fixed destination folder when
  it is a directory, otherwise the video's folder, then the video's stem plus
  `.srt`. POSIX `basename`, `dirname`, `join` and `splitext` are modelled.
- **Cancellation** and **Batch**: `executar_processamento_em_lote`.
  - The model is loaded once, and a load failure is fatal.
  - The loop checks the flag at its top.
  - Each file is either a success or an entry `"name (message)"`, and the SRT
    files are written in queue order.
  - After the loop, a final check of the flag decides between the
    interruption notice and the summary.
- **Report**: the status line and dialog for each ending. The summary lists
  at most five error entries, then `"\n... e outros."`.
- **Progress**: `RedirecionadorTexto`, the stand-in for `sys.stderr`. It turns
  the engine's progress output into the status line.
- **Controls**: the window state the run depends on: the stop flag, the
  status line, the two buttons and the log. This covers
  `cancelar_operacao`, `resetar_interface`, the start of a run and `log`.

How the world outside the program is represented:

- The cancel flag is a `threading.Event` set by another thread. It is modelled
  by the first check point at which the worker sees it set: `CancelledAt(file,
  slot)`.
  - Slot 0 is the test at the top of the batch loop.
  - Slot `j + 1` is the test before segment `j`.
  - The test after the loop is `(number of files, 0)`.
  - Because the event is never cleared during a run, it stays visible at
    every later check point.
- The speech model, the translator and the file system are parameters, as
  plain values and functions. `Batch.Env` holds those the batch loop uses:
  the load result, the transcriptions, the translator, the cancel flag and
  `os.path.isdir`. The fixed destination is tested again for every file
  (line 317), so `Env.isDir(i)` is the answer while file `i` is handled.
  `os.path.isfile` and the `os.walk` listing are parameters
  of `Media.PrepareRun` and `Media.Candidates`. CUDA availability is a
  parameter of `Batch.SelectDevice`.
- The two language boxes are read again for every file (lines 367-368), and
  they stay selectable during a run. So `Batch.Settings` holds the pair of
  codes read for each file, as a function of the file's position:
  `Settings.codes(i)` is `Batch.CodesFor` of the two names read when file `i`
  starts, and `Batch.TranslatesIffNamesDiffer` then says that file `i` is
  translated exactly when those names differ.
- The content of each SRT file is computed as a string. The model returns it
  as an `SrtWrite(path, content)` instead of writing a file.

One might expect a file cancelled while its segments are being written to
count as neither a success nor a failure. But `transcrever_video` returns
normally at line 380, so the caller goes on to `sucessos += 1` (lines
325-328). The partly written file is counted as a success
(`Batch.MidFileCancelCountsAsSuccess`). The flag is then also seen after the
loop, so the run ends with the interruption notice and that count is never
shown.

## Model

| member | source | states |
|---|---|---|
| Timestamp.RoundHalfEven | interface_legenda.py:241 | Python's `round` on an exact value: within one half of `x`, and even when `x` is exactly halfway. |
| Timestamp.ClockOf | interface_legenda.py:236-242 | Minutes and seconds are below 60, and the clock's whole seconds are `t` rounded down. The clock is within half a millisecond of `t`. Milliseconds are at most 1000, and equal 1000 exactly when the fraction is at least 0.9995. |
| Timestamp.ClockUnique | interface_legenda.py:236-242 | Any decomposition `t = 3600h + 60m + s + f` with `m, s < 60` and `0 <= f < 1` is the one `format_timestamp` computes. |
| Timestamp.ParseRender | interface_legenda.py:243 | A rendered clock reads back as itself, whatever the widths of the hour and millisecond fields. |
| Timestamp.Render | interface_legenda.py:243 | Rendering is specified by `Timestamp.ParseRender` (it reads back) and `Timestamp.FixedWidthIff` (its width). |
| Timestamp.FormatTimestamp | interface_legenda.py:236-243 | `format_timestamp` is `Render` of `ClockOf`; `Timestamp.ParseFormat` and `Timestamp.TimecodeReadsBack` state what its text holds. |
| Timestamp.ParseFormat | interface_legenda.py:236-243 | The timecode text reads back as `ClockOf(t)`, so only the sub-millisecond part of `t` is lost. |
| Timestamp.TimecodeReadsBack | interface_legenda.py:236-243 | A timecode holds no line break and no space, and it reads back. |
| Timestamp.FixedWidthIff | interface_legenda.py:243 | The timecode is exactly 12 characters wide iff the hours are below 100 and the milliseconds are below 1000. `02d`/`03d` pad and never cut. |
| Timestamp.FormatZero | interface_legenda.py:236-243 | `0.0` gives `00:00:00,000`. |
| Timestamp.FormatOneHourOneMinute | interface_legenda.py:236-243 | `3661.5` gives `01:01:01,500`. |
| Timestamp.FormatMillisOverflow | interface_legenda.py:241-243 | `0.9996` gives milliseconds 1000 and the text `00:00:00,1000`. |
| Text.StripEmptyIff | interface_legenda.py:29 | `strip()` is empty iff every character is Python whitespace. |
| Text.StripEnds | interface_legenda.py:33 | A stripped text neither starts nor ends with whitespace. |
| Text.StripKeepsSlice | interface_legenda.py:33 | A stripped text is a contiguous slice of the original. |
| Text.StripDropsSpace | interface_legenda.py:33 | What lies before and after the kept slice is whitespace. |
| Text.Strip | interface_legenda.py:29 | `str.strip()`; `Text.StripKeepsSlice` and `Text.StripDropsSpace` state that it is a slice with only whitespace around it, and `Text.StripEnds` that the slice neither starts nor ends with whitespace, which fixes it. `Text.StripEmptyIff` gives Python's truth test. |
| Text.RemoveDrops | interface_legenda.py:33 | `replace(c, "")` leaves no `c`, adds nothing, and returns a text without `c` unchanged. |
| Text.RemoveAppend | interface_legenda.py:33 | `replace(c, "")` works piecewise over a concatenation, so every other character is kept in order. |
| Text.RemoveChar | interface_legenda.py:33 | A single character is dropped iff it is `c`. |
| Text.Lower | interface_legenda.py:261 | `lower()` keeps the length and lowers each ASCII capital. |
| Text.EndsWithAny | interface_legenda.py:261 | `endswith(tuple)` holds iff the text ends with one of the suffixes. |
| Text.ContainsIff | interface_legenda.py:41 | `pattern in s` holds iff the pattern occurs at some index. |
| Text.NatToString | interface_legenda.py:243 | The decimal text of `n` is non-empty digits whose value is `n`, with no leading zero. |
| Text.PadZeros | interface_legenda.py:243 | `{n:0wd}` is digits with value `n`, of width `max(w, digits of n)`. |
| Text.PadZerosWidth | interface_legenda.py:243 | The padded text is exactly `w` wide iff `n < 10^w`. |
| Text.JoinWithHasPart | interface_legenda.py:346 | Every part occurs in `sep.join(parts)`. |
| Text.JoinWithEndsWithLast | interface_legenda.py:346 | `sep.join(parts)` ends with the last part. |
| Text.JoinWith | interface_legenda.py:346 | `"\n".join`; empty for no parts, the part itself for one, and `Text.JoinWithHasPart` and `Text.JoinWithEndsWithLast` for more. |
| Progress.CleanIgnoresBreak | interface_legenda.py:33 | CR and LF are deleted wherever they occur: the cleaned text of `a + [x] + b` with `x` a CR or LF is that of `a + b`. |
| Progress.CleanOfOneLine | interface_legenda.py:33 | A text without CR and LF is only stripped. |
| Progress.BreaksDropped | interface_legenda.py:33 | After both replacements no CR or LF is left, and the text is no longer. |
| Progress.CleanIsOneLine | interface_legenda.py:33 | No CR or LF is left anywhere in the cleaned text, which is no longer than the original. |
| Progress.Clean | interface_legenda.py:33 | `texto_limpo`; `Progress.CleanIsOneLine`, `Progress.CleanOfOneLine` and `Progress.CleanIgnoresBreak` state that it is the stripped text with every CR and LF deleted. |
| Progress.MatchLengthUnique | interface_legenda.py:36 | At one position at most one group length matches `(\d{1,3})%`. |
| Progress.GroupAt | interface_legenda.py:36 | The greedy group at a position matches, or no group length matches there at all. |
| Progress.SearchFrom | interface_legenda.py:36 | The result is the leftmost match at or after `from`, or there is no match. |
| Progress.PercentGroup | interface_legenda.py:36-39 | A group exists iff the pattern matches somewhere. The group is 1 to 3 digits. |
| Progress.PercentGroupLeftmost | interface_legenda.py:36-39 | Whenever the pattern matches at `i` with `k` digits and nowhere before `i`, `group(1)` is `s[i..i + k]`: the digits of the leftmost match. |
| Progress.ClassifyFilters | interface_legenda.py:28-34 | A write is ignored iff its stripped text is empty. It is dropped as too short iff it is not blank and its cleaned text is under 3 characters. Otherwise it is classified on its cleaned text. This specifies `Progress.Classify`. |
| Progress.ClassifyLine | interface_legenda.py:36-42 | A percentage is shown iff the pattern matches, with `PercentGroup`, the leftmost match's digits by `Progress.PercentGroupLeftmost`. Otherwise a download notice is shown iff "Downloading" or "it/s" occurs, with the first 30 characters. Otherwise nothing changes. |
| Progress.StatusUpdate | interface_legenda.py:28-42 | Blank, short and unrecognised writes leave the status alone. A percentage wins over a download notice and shows `⏳ Processando... NN%`. Without a percentage, a line with `Downloading` or `it/s` shows `📥 Baixando arquivos: ` with its first 30 characters and `...`. This specifies `Progress.StatusAfter`. |
| Progress.ClassifyBlankExample | interface_legenda.py:29 | A bare `"\r\n"` write is ignored. |
| Progress.PercentBarExample | interface_legenda.py:36-40 | `45%\|####` shows the percentage `45`. |
| Progress.ClassifyLongNumberExample | interface_legenda.py:36-39 | In `12345%` the leftmost match groups `345`. |
| Paths.LastIndex | interface_legenda.py:310 | `rfind`: the last index holding the character, or -1. |
| Paths.Basename | interface_legenda.py:310 | The basename has no separator and ends the path, right after a `/` when it is not the whole path. |
| Paths.HeadTail | interface_legenda.py:310 | The head up to the last `/` plus the basename is the path. |
| Paths.StripTrailingSlashes | interface_legenda.py:320 | The result is a prefix that does not end in `/`. |
| Paths.StripTrailingSlashesDropsSlashes | interface_legenda.py:320 | Only slashes are removed. |
| Paths.Dirname | interface_legenda.py:320 | `os.path.dirname`; `Paths.JoinDirnameBasename` states that it is the folder the basename sits in. |
| Paths.JoinDirnameBasename | interface_legenda.py:320 | When the last separator is not doubled, `join(dirname(p), basename(p)) == p`, so with no fixed destination the subtitle goes into the video's own folder. |
| Paths.DirnameAfterSingleSlash | interface_legenda.py:320 | After a single `/`, the folder is everything before it. |
| Paths.SplitAtLastSlash | interface_legenda.py:310 | A path with a separator is the text before its last `/`, the `/`, and the basename. |
| Paths.JoinPlainName | interface_legenda.py:323 | Joining a name without separators adds a `/` unless the folder is empty or already ends in one. |
| Paths.Join | interface_legenda.py:323 | `join(a, b)` ends with `b`. |
| Paths.SplitExt | interface_legenda.py:322 | The root and the extension put back together are the path. |
| Paths.SplitExtShape | interface_legenda.py:322 | An extension is empty, or starts with its only dot and contains no separator. |
| Paths.StemOfExtension | interface_legenda.py:322 | For a name ending in a one-dot extension, the stem drops it exactly when something other than dots precedes it. |
| Paths.OutputFolder | interface_legenda.py:317-320 | The fixed destination when it is non-empty and a directory, otherwise the video's folder. |
| Paths.SubtitleNameShape | interface_legenda.py:322-323 | The subtitle name is one path component that ends in `.srt`. |
| Paths.SubtitleName | interface_legenda.py:322-323 | The stem plus `.srt`; `Paths.SubtitleNameShape` states its shape. |
| Paths.SubtitlePath | interface_legenda.py:317-323 | The output path; `Paths.SubtitlePathShape` states its shape. |
| Paths.SubtitlePathShape | interface_legenda.py:317-323 | The subtitle path is the folder, a separator when needed, then the name. Its basename is that name, so the file lands directly in the folder. |
| Paths.BasenameOfJoin | interface_legenda.py:262 | Joining a plain file name to a folder keeps it as the basename. |
| Cancellation.SeenMonotone | interface_legenda.py:308 | Once a check point sees the flag, every later check point does too. |
| Cancellation.FirstStopFrom | interface_legenda.py:307-308 | The first index in `from..n` whose test fires, or `n`. No earlier index fires. |
| Cancellation.FirstStop | interface_legenda.py:379-380 | How far a loop over `n` items gets before its stop test fires. |
| Cancellation.FirstStopUnique | interface_legenda.py:307-308 | Any `r` with the three properties of `FirstStop` equals it. |
| Subtitles.WriteSubtitles | interface_legenda.py:372-391 | The loop stops at the first segment whose check sees the flag. The content is exactly the blocks of the segments before it, with each text stripped and translated only when the codes differ and the translator answered. |
| Subtitles.SubtitleText | interface_legenda.py:384-389 | The text of a segment; `Subtitles.SubtitleTextFallback` states when it is the stripped text and when the translation. |
| Subtitles.SubtitleTextFallback | interface_legenda.py:384-389 | Without translation, or when the translator raised, the stripped text is written; otherwise the translation. |
| Subtitles.Block | interface_legenda.py:391 | One SRT block; `Subtitles.BlockReadsBack` states that it reads back as its number, timecodes and text. |
| Subtitles.SrtText | interface_legenda.py:378-391 | The whole file for the segments; `Subtitles.WriteSubtitles`, `Subtitles.StoppedWriteIsShorterFile` and `Subtitles.CancelledWriteIsPrefix` relate it to what the loop writes. |
| Subtitles.JoinedPrefix | interface_legenda.py:378-391 | Fewer blocks give a prefix of the text. |
| Subtitles.JoinedAgree | interface_legenda.py:391 | The text depends only on the blocks written. |
| Subtitles.StoppedWriteIsShorterFile | interface_legenda.py:379-380 | A write stopped after `n` segments is the SRT file of those `n` segments. |
| Subtitles.CancelledWriteIsPrefix | interface_legenda.py:378-391 | A cancelled write is a prefix of the complete file, cut at a block boundary. |
| Subtitles.SameLanguageIgnoresTranslator | interface_legenda.py:372-376 | With equal codes the translator is never consulted. |
| Subtitles.TranslatorAnswersDecide | interface_legenda.py:386-389 | The file depends on the translator only through its answers for the stripped texts. |
| Subtitles.TimecodesReadBack | interface_legenda.py:391 | The line `a --> z` reads back as the two timecodes. |
| Subtitles.HeaderReadsBack | interface_legenda.py:391 | The number line and the timecode line of a block read back, and the text follows. |
| Subtitles.BlockWithTimecodesReadsBack | interface_legenda.py:391 | A block whose timecodes read back reads back as a whole. |
| Subtitles.BlockReadsBack | interface_legenda.py:382-391 | Every block written reads back: its number, both timecodes to the millisecond `ClockOf` keeps, and the text with its blank line. |
| Subtitles.NumberedBlockReadsBack | interface_legenda.py:379-391 | Block `k` is numbered `k + 1` and carries the timecodes and text of segment `k`, so numbering is 1-based, contiguous and in segment order. |
| Subtitles.BlockOfIs | interface_legenda.py:379-391 | Block `k` is built from segment `k`. |
| Media.CollectMedia | interface_legenda.py:253-262 | The list is exactly the candidates: the chosen file if it is a file, or the media files of the walk when the origin is a folder. |
| Media.Candidates | interface_legenda.py:253-262 | The list specification; `Media.InWalkIff` and `Media.WalkOrder` state which paths it holds and in what order. |
| Media.CollectListing | interface_legenda.py:260-262 | The inner loop collects exactly a directory's media files, joined to its root, in listing order. |
| Media.FlattenAppend | interface_legenda.py:259-262 | Appending to the walk appends to the result. |
| Media.InFlattenIff | interface_legenda.py:259-262 | A path is collected iff some element contributes it. |
| Media.InListingIff | interface_legenda.py:260-262 | A path is listed for a directory iff it is the root joined with one of its media names. |
| Media.InWalkIff | interface_legenda.py:258-262 | A path is collected iff some directory of the walk holds a media name that joins to it. |
| Media.WalkOrder | interface_legenda.py:259-262 | Paths from an earlier part of the walk come before those from a later part. |
| Media.ListingOrder | interface_legenda.py:260-262 | Within a directory, listing order is kept. |
| Media.CollectedAreMedia | interface_legenda.py:61 | Every collected path's basename passes the extension test. |
| Media.UpperCaseMediaName | interface_legenda.py:261 | `AULA.MP4` is a media name. |
| Media.IsMediaName | interface_legenda.py:261 | The case-folded extension test; `Media.InListingIff`, `Media.UpperCaseMediaName`, `Media.MediaNameLastLetter` and `Media.TextFileIsNotMedia` state what it accepts. |
| Media.MediaNameLastLetter | interface_legenda.py:61 | A media name ends, in lower case, with one of the extensions' last letters. |
| Media.TextFileIsNotMedia | interface_legenda.py:61 | `notas.txt` is not picked up. |
| Media.PrepareRun | interface_legenda.py:246-266 | No origin gives the warning. An empty list gives the error. Otherwise the run starts on exactly the candidate list. |
| Batch.SelectDevice | interface_legenda.py:288-289 | `cuda` iff the choice contains "GPU" and CUDA is available, `cpu` otherwise. |
| Batch.DeviceChoices | interface_legenda.py:94 | "GPU (Recomendado)" uses CUDA when it is available. "CPU (Lento)" always uses the CPU. |
| Batch.CodesFor | interface_legenda.py:367-368 | The codes of two names, `LANGUAGES[...]`; `Batch.TranslatesIffNamesDiffer` states when they differ. |
| Batch.TranslatesIffNamesDiffer | interface_legenda.py:48-51 | The codes of two names differ iff the names differ. |
| Batch.TranscribeVideo | interface_legenda.py:366-391 | An exception before the file opens is that failure. Otherwise the file written holds the blocks written before the flag was seen. |
| Batch.ProcessFile | interface_legenda.py:310-325 | One file's result is its specification, `ResultOf`. |
| Batch.ResultOf | interface_legenda.py:310-334 | One file's result; `Batch.FailsIffRaised`, `Batch.NoCancelWritesWholeFiles` and `Batch.MidFileSaved` state what it is. |
| Batch.ErrorEntry | interface_legenda.py:334 | The entry `"name (message)"`; `Report.CollectedEntriesAreClosed` and `Batch.ErrorsIff` state what it holds. |
| Batch.Count | interface_legenda.py:326-334 | A saved file adds a success and its write. A failure adds the entry `"name (message)"`. |
| Batch.RunQueue | interface_legenda.py:303-336 | The counts, the entries and the writes are those of the files handled before the top-of-loop check saw the flag. |
| Batch.RunBatch | interface_legenda.py:279-363 | A load failure ends the run with no file written. Otherwise the queue runs, and the final check picks the interruption or the summary with the run's counts. |
| Batch.TallyStep | interface_legenda.py:326-334 | Handling one more file adds its result to the tally. |
| Batch.Record | interface_legenda.py:325-334 | Adding one result; `Batch.TallyStep`, `Batch.TallyCounts`, `Batch.ErrorsIff` and `Batch.WritesIff` state that a saved file adds one success and its write, and a failure adds its entry. |
| Batch.TallyCounts | interface_legenda.py:303-334 | Successes plus entries equal the files handled. There is one write per success. |
| Batch.TallyGrows | interface_legenda.py:326-334 | The lists only grow, so they follow the queue's order. |
| Batch.ErrorsIff | interface_legenda.py:330-334 | The entries name exactly the handled files that failed, each with its message. |
| Batch.ErrorHasFailure | interface_legenda.py:330-334 | Every entry comes from a handled file that failed, with its message. |
| Batch.FailureIsListed | interface_legenda.py:330-334 | Every handled file that failed has its entry. |
| Batch.WritesIff | interface_legenda.py:325-328 | The files written are exactly those of the handled files that were saved. |
| Batch.FailsIffRaised | interface_legenda.py:314-334 | A file fails iff its transcription raised, with that message. Otherwise its SRT goes to the subtitle path. |
| Batch.NoCancelHandlesAll | interface_legenda.py:307-339 | Without a cancellation, every file is handled and accounted for, and the summary is shown. |
| Batch.NoCancelWritesWholeFiles | interface_legenda.py:378-391 | Without a cancellation, each transcribed file gets its complete SRT text. |
| Batch.ProcessedCount | interface_legenda.py:307-308 | A cancellation at the top of file `f` handles `f` files. One during its segments handles `f + 1`. |
| Batch.SegmentsWritten | interface_legenda.py:379-380 | A cancellation before segment `slot - 1` leaves the blocks of the segments before it. |
| Batch.MidFileCancelCountsAsSuccess | interface_legenda.py:325-328 | A cancellation during file `f`'s segments counts `f` as a success with a prefix of its text. `f` is the last file handled, and the run ends interrupted. |
| Batch.MidFileSaved | interface_legenda.py:325-328 | A file cancelled during its segments is saved with the SRT text of the segments before the cancellation, a prefix of its whole text. |
| Batch.CancelledFileContent | interface_legenda.py:379-380 | The content left by a cancellation before segment `slot - 1` is the SRT text of the segments before it. |
| Batch.SavedCountsOne | interface_legenda.py:326-328 | A saved file adds exactly one success. |
| Report.ListedErrors | interface_legenda.py:346 | `erros[:5]` is the whole list when it has at most five entries, and exactly its first five otherwise. |
| Report.Summary | interface_legenda.py:344-347 | `resumo`; `Report.OmittedIffMoreThanFive`, `Report.ListsFirstFive` and `Report.SummaryWithoutErrorsEndsInZero` state what it holds. |
| Report.Counts | interface_legenda.py:344 | The two count lines; `Report.SummaryOpensWithCounts` states that every summary starts with them, with the number of entries as the failure count. |
| Report.SummaryOpensWithCounts | interface_legenda.py:344-347 | Every summary starts with the count lines for its successes and its number of error entries. |
| Report.ReportOf | interface_legenda.py:339-360 | The error dialog is shown iff the load failed. The info dialog is shown iff the queue finished without errors. A finished run shows the summary. |
| Report.OmittedIffMoreThanFive | interface_legenda.py:344-347 | The summary ends with `"\n... e outros."` iff there are more than five entries. |
| Report.SummaryWithoutErrorsEndsInZero | interface_legenda.py:344 | With no errors, the summary ends with the failure count, `0`. |
| Report.SummaryWithFewErrorsEndsInParen | interface_legenda.py:345-346 | With one to five errors, the summary ends with the last entry's `)`. |
| Report.ListsFirstFive | interface_legenda.py:346 | Each of the first five entries appears in the summary. |
| Report.CollectedEntriesAreClosed | interface_legenda.py:334 | Every collected entry ends with `)`. |
| Report.RunSummaryOmitsIff | interface_legenda.py:339-347 | A run's summary carries the trailer iff more than five handled files failed. |
| Controls.LogLine | interface_legenda.py:207-211 | A log line is `>> `, the message and a line break. |
| Controls.Panel.constructor | interface_legenda.py:99-101 | The window starts waiting, with the run button ready and the cancel button disabled. |
| Controls.Panel.Log | interface_legenda.py:207-211 | Appends one line to the log and changes nothing else. |
| Controls.Panel.StartRun | interface_legenda.py:268-274 | Clears the flag and the log, locks the run button and frees the cancel button. The panel stays valid. |
| Controls.Panel.CancelOperation | interface_legenda.py:224-229 | The first request sets the flag, sets the status, logs the notice and locks the button. A later request changes nothing. |
| Controls.Panel.ResetInterface | interface_legenda.py:231-233 | The run button is ready and the cancel button disabled. The flag, status and log are kept. |
| Controls.Panel.Redirected | interface_legenda.py:28-42 | Only the status changes, as `Progress.StatusAfter` says. |
| Controls.CancelTwice | interface_legenda.py:224-229 | Two cancellation requests have the effect of one. |

## Left out

- The tkinter window: how it is laid out and styled, the file dialogs, the
  model-information text (`INFO_MODELOS`) and `limpar_paths`. They draw the
  window or pick paths, and the paths become inputs of the model.
- Status texts and log messages during the run, except the cancellation
  notice. This covers "Carregando Modelo IA...", "Processando i/total: name",
  the per-file and summary log lines, and "Traduzindo para ...". They are
  display-only and do not decide what is written.
- Threads and `root.after` scheduling. The worker thread is one sequential
  run. The cancel button's effect is a check-point index, and the GUI
  callbacks scheduled by `RedirecionadorTexto.write` are applied in order.
- `whisper.load_model`, `model.transcribe`, `torch.cuda.is_available` and
  `GoogleTranslator` are parameters, not code. A failed load is
  `Env.loadError`. A transcription raised by the model, by the translator's
  constructor or by `open` is `Outcome.Raised`.
- A write error in the middle of an SRT file, and an exception from a `log`
  call inside the per-file `try`, are not modelled. Because of this, a failure
  here never leaves a partly written file behind.
- The file system is an input. `os.path.isfile`, `os.path.isdir` and `os.walk`
  are parameters, and the SRT content is returned instead of written.
- `sys.stderr` swapping and restoring, `resource_path`, the `__main__` block
  and `NullWriter` are left out. They are process setup.
- Timestamp.ClockOf: offsets are exact non-negative reals, not IEEE doubles.
  Floating-point rounding in `seconds / 3600`, `%=` and `* 1000` is not
  modelled.
- Text.Lower: only ASCII capitals are lowered. Python's full Unicode case
  mapping is left out.
- Progress.PercentGroup: `\d` is taken as ASCII `0`-`9`, whereas Python also
  accepts other Unicode decimal digits.
- Paths.Basename, Paths.Dirname, Paths.Join, Paths.SplitExt follow POSIX
  `posixpath` with `/` as the only separator. Windows drive letters and `\`
  are not modelled.
- Several videos can map to one subtitle path (the same stem with a fixed
  destination, or `a.mp4` and `a.mkv` in one folder). Each still gets its own
  `SrtWrite` in `writes`. The file left on disk is the last write to that
  path, because each `open(..., "w")` truncates. The model lists the writes
  in order and does not compute the final disk state.
- The model name and the device are read once, at the start of the run
  (lines 286-289), and only `Batch.SelectDevice` is modelled. Whisper's use
  of them is part of the transcription parameter.
- Subtitles.WriteSubtitles takes the timecode function as a parameter, and
  the application passes `Timestamp.FormatTimestamp`. That makes the contract
  about the blocks independent of how timecodes are rendered.
