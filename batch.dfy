/** The batch run (`executar_processamento_em_lote` and `transcrever_video`):
    load the model once, then for each file, unless cancelled, transcribe it
    and write its SRT file, counting successes and collecting errors, and
    finally report. */
module Batch {
  import opened Options
  import opened Text
  import opened Timestamp
  import opened Paths
  import opened Cancellation
  import opened Subtitles

  /** `LANGUAGES`: the names the language boxes offer, and their codes. */
  const Languages: map<string, string> := map[
    "Português" := "pt", "Inglês" := "en", "Espanhol" := "es",
    "Francês" := "fr", "Alemão" := "de", "Italiano" := "it",
    "Japonês" := "ja", "Chinês" := "zh", "Russo" := "ru"]

  /** `"cuda" if "GPU" in device_choice and torch.cuda.is_available() else "cpu"` */
  function SelectDevice(choice: string, cudaAvailable: bool): (device: string)
    ensures device == "cuda" <==> Contains(choice, "GPU") && cudaAvailable
    ensures device == "cpu" <==> !(Contains(choice, "GPU") && cudaAvailable)
  {
    if Contains(choice, "GPU") && cudaAvailable then "cuda" else "cpu"
  }

  /** The two entries of the device box: the recommended one asks for the
      GPU and falls back to the CPU without CUDA, the slow one never uses
      the GPU. */
  lemma DeviceChoices(cudaAvailable: bool)
    ensures SelectDevice("GPU (Recomendado)", cudaAvailable) == if cudaAvailable then "cuda" else "cpu"
    ensures SelectDevice("CPU (Lento)", cudaAvailable) == "cpu"
  {
    assert StartsWith("GPU (Recomendado)", "GPU");
    NotContainedWithoutFirst("CPU (Lento)", "GPU");
  }

  /** The codes of the names chosen in the two language boxes
      (`LANGUAGES[...]`, which the read-only boxes always find). */
  function CodesFor(sourceName: string, targetName: string): (string, string)
    requires sourceName in Languages && targetName in Languages
  {
    (Languages[sourceName], Languages[targetName])
  }

  /** Different names in the language boxes stand for different codes, so
      the texts are translated exactly when the two names differ. */
  lemma TranslatesIffNamesDiffer(sourceName: string, targetName: string)
    requires sourceName in Languages && targetName in Languages
    ensures CodesFor(sourceName, targetName).0 != CodesFor(sourceName, targetName).1
            <==> sourceName != targetName
  {
  }

  /** What the run reads from the settings panel: `codes(i)` is the pair of
      language codes read from the two boxes when file `i` starts
      (`transcrever_video` reads them again for every file, and the boxes
      stay selectable during a run), that is `CodesFor` of the two names
      read then, and `dest` the fixed destination
      folder read once (empty when none). */
  datatype Settings = Settings(codes: nat -> (string, string), dest: string)

  /** Whether the segments of file `i` are translated: the two codes read
      for it differ. */
  predicate Translating(settings: Settings, i: nat) {
    settings.codes(i).0 != settings.codes(i).1
  }

  /** `model.transcribe` for one file: its segments, or the message of the
      exception raised before the SRT file was opened (by the speech model,
      by the translator's constructor or by `open`). */
  datatype Outcome = Transcribed(segments: seq<Segment>) | Raised(message: string)

  /** Everything outside the program: whether `whisper.load_model` raised,
      each file's transcription, the translator's answers for each file,
      when the user cancels, and `os.path.isdir` as it answers while file
      `i` is handled (the destination is tested again for every file). */
  datatype Env = Env(loadError: Option<string>, transcribe: nat -> Outcome,
                     translate: nat -> Translator, cancel: Cancel, isDir: nat -> string -> bool)

  /** One SRT file as written to disk. */
  datatype SrtWrite = SrtWrite(path: string, content: string)

  /** What `transcrever_video` did for one file. */
  datatype FileResult = Saved(write: SrtWrite) | Failed(message: string)

  /** How the run ends: the load failed, the queue was interrupted, or the
      queue finished and its summary is shown. */
  datatype RunEnd =
    | FatalError(message: string)
    | Interrupted(successes: nat, errors: seq<string>)
    | Finished(successes: nat, errors: seq<string>)

  /** Successes, error entries and files written so far. */
  datatype Tally = Tally(successes: nat, errors: seq<string>, writes: seq<SrtWrite>)

  // ---------------------------------------------------------------------
  // Specification of the run
  // ---------------------------------------------------------------------

  /** `f"{nome_arq} ({msg_erro})"` */
  function ErrorEntry(video: string, message: string): string {
    Basename(video) + " (" + message + ")"
  }

  /** The cancel flag as the segment loop of file `i` sees it. */
  function SegmentStop(c: Cancel, i: nat): nat -> bool {
    (j: nat) => Seen(c, i, j + 1)
  }

  /** The cancel flag as the top of the batch loop sees it. */
  function FileStop(c: Cancel): nat -> bool {
    (i: nat) => Seen(c, i, 0)
  }

  /** The SRT text of file `i` with segments `segs`: the blocks written
      before the segment loop saw the flag. */
  function FileContent(segs: seq<Segment>, settings: Settings, env: Env, i: nat): string
  {
    Joined(BlockOf(segs, Translating(settings, i), env.translate(i), FormatTimestamp),
           FirstStop(SegmentStop(env.cancel, i), |segs|))
  }

  /** What happens to file `i`. */
  function ResultOf(files: seq<string>, settings: Settings, env: Env, i: nat): FileResult
    requires i < |files|
  {
    match env.transcribe(i)
    case Raised(m) => Failed(m)
    case Transcribed(segs) =>
      Saved(SrtWrite(SubtitlePath(files[i], settings.dest, env.isDir(i)), FileContent(segs, settings, env, i)))
  }

  /** Adding one file's result to the tally. */
  function Record(t: Tally, video: string, r: FileResult): Tally {
    match r
    case Saved(w) => Tally(t.successes + 1, t.errors, t.writes + [w])
    case Failed(m) => Tally(t.successes, t.errors + [ErrorEntry(video, m)], t.writes)
  }

  /** Each file's result, as a function of its position in the queue. */
  function Results(files: seq<string>, settings: Settings, env: Env): nat -> FileResult {
    (i: nat) => if i < |files| then ResultOf(files, settings, env, i) else Failed([])
  }

  /** The tally after the first `n` files, given each file's result. */
  function Tallied(files: seq<string>, result: nat -> FileResult, n: nat): Tally
    requires n <= |files|
  {
    if n == 0 then Tally(0, [], [])
    else Record(Tallied(files, result, n - 1), files[n - 1], result(n - 1))
  }

  /** The tally after the first `n` files of the run. */
  function TallyUpTo(files: seq<string>, settings: Settings, env: Env, n: nat): Tally
    requires n <= |files|
  {
    Tallied(files, Results(files, settings, env), n)
  }

  /** How many files the loop handles before it sees the flag at its top. */
  function Processed(files: seq<string>, c: Cancel): nat {
    FirstStop(FileStop(c), |files|)
  }

  // ---------------------------------------------------------------------
  // The run
  // ---------------------------------------------------------------------

  /** `transcrever_video` after the transcription: translate when the codes
      differ, and write the blocks until the flag is seen. */
  method TranscribeVideo(outcome: Outcome, path: string, source: string, target: string,
                         translate: Translator, stop: nat -> bool)
    returns (result: FileResult)
    ensures outcome.Raised? ==> result == Failed(outcome.message)
    ensures outcome.Transcribed? ==>
      result == Saved(SrtWrite(path, Joined(BlockOf(outcome.segments, source != target, translate, FormatTimestamp),
                                            FirstStop(stop, |outcome.segments|))))
  {
    match outcome
    case Raised(m) =>
      result := Failed(m);
    case Transcribed(segs) =>
      var content, written := WriteSubtitles(segs, source, target, translate, stop, FormatTimestamp);
      result := Saved(SrtWrite(path, content));
  }

  /** The body of the per-file `try`: resolve the output path and run
      `transcrever_video`. */
  method ProcessFile(files: seq<string>, i: nat, settings: Settings, env: Env)
    returns (result: FileResult)
    requires i < |files|
    ensures result == ResultOf(files, settings, env, i)
  {
    var video := files[i];
    var name := Basename(video);
    var folder := OutputFolder(video, settings.dest, env.isDir(i));
    var path := Join(folder, SplitExt(name).0 + ".srt");
    assert path == SubtitlePath(video, settings.dest, env.isDir(i));
    var (source, target) := settings.codes(i);
    result := TranscribeVideo(env.transcribe(i), path, source, target, env.translate(i), SegmentStop(env.cancel, i));
  }

  /** The `try`/`except` around one file: a written file is a success, an
      exception an entry `"name (message)"` in the error list. */
  method Count(successes: nat, errors: seq<string>, writes: seq<SrtWrite>, video: string, result: FileResult)
    returns (successes': nat, errors': seq<string>, writes': seq<SrtWrite>)
    ensures Tally(successes', errors', writes') == Record(Tally(successes, errors, writes), video, result)
  {
    successes', errors', writes' := successes, errors, writes;
    if result.Saved? {
      writes' := writes + [result.write];
      successes' := successes + 1;
    } else {
      errors' := errors + [ErrorEntry(video, result.message)];
    }
  }

  /** The loop over the files: stop at the top when the flag is set,
      otherwise process the file and count it. */
  method RunQueue(files: seq<string>, settings: Settings, env: Env)
    returns (successes: nat, errors: seq<string>, writes: seq<SrtWrite>)
    ensures Tally(successes, errors, writes) == TallyUpTo(files, settings, env, Processed(files, env.cancel))
  {
    successes := 0;
    errors := [];
    writes := [];
    var i := 0;
    while i < |files|
      invariant 0 <= i <= |files|
      invariant forall k: nat :: k < i ==> !FileStop(env.cancel)(k)
      invariant Tally(successes, errors, writes) == TallyUpTo(files, settings, env, i)
    {
      if Seen(env.cancel, i, 0) {
        break;
      }
      var result := ProcessFile(files, i, settings, env);
      TallyStep(files, settings, env, i, Tally(successes, errors, writes), result);
      successes, errors, writes := Count(successes, errors, writes, files[i], result);
      i := i + 1;
    }
    FirstStopUnique(FileStop(env.cancel), |files|, i);
  }

  /** The whole run: a failed model load ends it before any file; otherwise
      the queue runs and the flag, checked once more, decides between the
      interruption notice and the summary. */
  method RunBatch(files: seq<string>, settings: Settings, env: Env)
    returns (writes: seq<SrtWrite>, end: RunEnd)
    ensures env.loadError.Some? ==> writes == [] && end == FatalError(env.loadError.value)
    ensures env.loadError.None? ==>
      var t := TallyUpTo(files, settings, env, Processed(files, env.cancel));
      && writes == t.writes
      && end == if Seen(env.cancel, |files|, 0) then Interrupted(t.successes, t.errors)
                else Finished(t.successes, t.errors)
  {
    if env.loadError.Some? {
      return [], FatalError(env.loadError.value);
    }
    var successes, errors;
    successes, errors, writes := RunQueue(files, settings, env);
    if Seen(env.cancel, |files|, 0) {
      end := Interrupted(successes, errors);
    } else {
      end := Finished(successes, errors);
    }
  }

  lemma TallyStep(files: seq<string>, settings: Settings, env: Env, i: nat, t: Tally, r: FileResult)
    requires i < |files|
    requires t == TallyUpTo(files, settings, env, i) && r == ResultOf(files, settings, env, i)
    ensures TallyUpTo(files, settings, env, i + 1) == Record(t, files[i], r)
  {
  }

  // ---------------------------------------------------------------------
  // Properties of the run
  // ---------------------------------------------------------------------

  /** Every handled file is either a success or an error entry, and each
      success wrote exactly one file. */
  lemma {:induction false} TallyCounts(files: seq<string>, result: nat -> FileResult, n: nat)
    requires n <= |files|
    ensures Tallied(files, result, n).successes + |Tallied(files, result, n).errors| == n
    ensures |Tallied(files, result, n).writes| == Tallied(files, result, n).successes
  {
    if n > 0 {
      TallyCounts(files, result, n - 1);
    }
  }

  /** The lists only grow: the tally after `m` files is a prefix of the
      tally after `n >= m` files, so both lists follow the queue's order. */
  lemma {:induction false} TallyGrows(files: seq<string>, result: nat -> FileResult, m: nat, n: nat)
    requires m <= n <= |files|
    ensures Tallied(files, result, m).errors <= Tallied(files, result, n).errors
    ensures Tallied(files, result, m).writes <= Tallied(files, result, n).writes
    ensures Tallied(files, result, m).successes <= Tallied(files, result, n).successes
    decreases n - m
  {
    if m < n {
      TallyGrows(files, result, m, n - 1);
    }
  }

  /** The error list names exactly the handled files that failed, each
      with its message. */
  lemma ErrorsIff(files: seq<string>, result: nat -> FileResult, n: nat, e: string)
    requires n <= |files|
    ensures e in Tallied(files, result, n).errors <==>
      exists i :: 0 <= i < n && result(i).Failed? && e == ErrorEntry(files[i], result(i).message)
  {
    if e in Tallied(files, result, n).errors {
      var i := ErrorHasFailure(files, result, n, e);
    } else {
      forall i | 0 <= i < n && result(i).Failed?
        ensures e != ErrorEntry(files[i], result(i).message)
      {
        FailureIsListed(files, result, n, i);
      }
    }
  }

  /** Every entry comes from a handled file that failed. */
  lemma {:induction false} ErrorHasFailure(files: seq<string>, result: nat -> FileResult, n: nat, e: string)
    returns (i: nat)
    requires n <= |files| && e in Tallied(files, result, n).errors
    ensures i < n && result(i).Failed? && e == ErrorEntry(files[i], result(i).message)
  {
    var before := Tallied(files, result, n - 1).errors;
    var r := result(n - 1);
    assert Tallied(files, result, n).errors == if r.Failed? then before + [ErrorEntry(files[n - 1], r.message)] else before;
    if e in before {
      i := ErrorHasFailure(files, result, n - 1, e);
    } else {
      i := n - 1;
    }
  }

  /** Every handled file that failed has its entry. */
  lemma {:induction false} FailureIsListed(files: seq<string>, result: nat -> FileResult, n: nat, i: nat)
    requires i < n <= |files| && result(i).Failed?
    ensures ErrorEntry(files[i], result(i).message) in Tallied(files, result, n).errors
  {
    var before := Tallied(files, result, n - 1).errors;
    var r := result(n - 1);
    assert Tallied(files, result, n).errors == if r.Failed? then before + [ErrorEntry(files[n - 1], r.message)] else before;
    if i < n - 1 {
      FailureIsListed(files, result, n - 1, i);
    }
  }

  /** The files written are exactly those of the handled files that were
      saved. */
  lemma {:induction false} WritesIff(files: seq<string>, result: nat -> FileResult, n: nat, w: SrtWrite)
    requires n <= |files|
    ensures w in Tallied(files, result, n).writes <==>
      exists i :: 0 <= i < n && result(i).Saved? && w == result(i).write
  {
    if n > 0 {
      WritesIff(files, result, n - 1, w);
      var before := Tallied(files, result, n - 1).writes;
      var r := result(n - 1);
      var after := Tallied(files, result, n).writes;
      assert after == if r.Saved? then before + [r.write] else before;
      if w in after {
        if w in before {
          var i :| 0 <= i < n - 1 && result(i).Saved? && w == result(i).write;
          assert 0 <= i < n;
        } else {
          assert r.Saved? && w == r.write;
        }
      } else {
        forall i | 0 <= i < n && result(i).Saved?
          ensures w != result(i).write
        {
          if i == n - 1 {
            assert r.write in after;
          }
        }
      }
    }
  }

  /** A file fails exactly when its transcription raised, with that
      message, and otherwise its SRT file goes next to the video or into
      the destination folder. */
  lemma FailsIffRaised(files: seq<string>, settings: Settings, env: Env, i: nat)
    requires i < |files|
    ensures Results(files, settings, env)(i).Failed? <==> env.transcribe(i).Raised?
    ensures env.transcribe(i).Raised? ==> Results(files, settings, env)(i).message == env.transcribe(i).message
    ensures env.transcribe(i).Transcribed? ==>
      Results(files, settings, env)(i).write.path == SubtitlePath(files[i], settings.dest, env.isDir(i))
  {
  }

  /** Without a cancellation every file is handled and the run ends with
      the summary. */
  lemma NoCancelHandlesAll(files: seq<string>, settings: Settings, env: Env)
    requires env.cancel == NeverCancelled
    ensures Processed(files, env.cancel) == |files|
    ensures !Seen(env.cancel, |files|, 0)
    ensures TallyUpTo(files, settings, env, |files|).successes + |TallyUpTo(files, settings, env, |files|).errors| == |files|
  {
    FirstStopUnique(FileStop(env.cancel), |files|, |files|);
    TallyCounts(files, Results(files, settings, env), |files|);
  }

  /** Without a cancellation each transcribed file gets its complete SRT
      text. */
  lemma NoCancelWritesWholeFiles(files: seq<string>, settings: Settings, env: Env, i: nat)
    requires env.cancel == NeverCancelled && i < |files| && env.transcribe(i).Transcribed?
    ensures ResultOf(files, settings, env, i) ==
      Saved(SrtWrite(SubtitlePath(files[i], settings.dest, env.isDir(i)),
                     SrtText(env.transcribe(i).segments, Translating(settings, i), env.translate(i), FormatTimestamp)))
  {
    var segs := env.transcribe(i).segments;
    FirstStopUnique(SegmentStop(env.cancel, i), |segs|, |segs|);
  }

  /** A cancellation at `slot` of file `f` stops the queue after `f` files
      when it came before the file started (slot 0) and after `f + 1`
      files when it came during the file's segments. */
  lemma ProcessedCount(files: seq<string>, f: nat, slot: nat)
    ensures Processed(files, CancelledAt(f, slot)) ==
      if slot == 0 then (if f < |files| then f else |files|)
      else (if f + 1 < |files| then f + 1 else |files|)
  {
    var r := if slot == 0 then (if f < |files| then f else |files|)
             else (if f + 1 < |files| then f + 1 else |files|);
    FirstStopUnique(FileStop(CancelledAt(f, slot)), |files|, r);
  }

  /** A cancellation before segment `slot - 1` of a file leaves the blocks
      of the segments before it. */
  lemma SegmentsWritten(f: nat, slot: nat, n: nat)
    requires slot > 0
    ensures FirstStop(SegmentStop(CancelledAt(f, slot), f), n) == if slot - 1 < n then slot - 1 else n
  {
    FirstStopUnique(SegmentStop(CancelledAt(f, slot), f), n, if slot - 1 < n then slot - 1 else n);
  }

  /** Cancelling while file `f` is being written: the loop returns from
      `transcrever_video` normally, so the file counts as a success with
      the blocks written so far (a prefix of its complete text), it is the
      last file handled, and the run ends interrupted. */
  lemma MidFileCancelCountsAsSuccess(files: seq<string>, settings: Settings, env: Env, f: nat, slot: nat)
    requires env.cancel == CancelledAt(f, slot) && slot > 0 && f < |files|
    requires env.transcribe(f).Transcribed?
    ensures Processed(files, env.cancel) == f + 1
    ensures ResultOf(files, settings, env, f).Saved?
    ensures TallyUpTo(files, settings, env, f + 1).successes == TallyUpTo(files, settings, env, f).successes + 1
    ensures
      var segs := env.transcribe(f).segments;
      var written := if slot - 1 < |segs| then slot - 1 else |segs|;
      ResultOf(files, settings, env, f).write.content
        == SrtText(segs[..written], Translating(settings, f), env.translate(f), FormatTimestamp)
      && StartsWith(SrtText(segs, Translating(settings, f), env.translate(f), FormatTimestamp),
                    ResultOf(files, settings, env, f).write.content)
    ensures Seen(env.cancel, |files|, 0)
  {
    ProcessedCount(files, f, slot);
    MidFileSaved(files, settings, env, f, slot);
    SavedCountsOne(files, settings, env, f);
  }

  lemma MidFileSaved(files: seq<string>, settings: Settings, env: Env, f: nat, slot: nat)
    requires env.cancel == CancelledAt(f, slot) && slot > 0 && f < |files|
    requires env.transcribe(f).Transcribed?
    ensures ResultOf(files, settings, env, f).Saved?
    ensures
      var segs := env.transcribe(f).segments;
      var written := if slot - 1 < |segs| then slot - 1 else |segs|;
      ResultOf(files, settings, env, f).write.content
        == SrtText(segs[..written], Translating(settings, f), env.translate(f), FormatTimestamp)
      && StartsWith(SrtText(segs, Translating(settings, f), env.translate(f), FormatTimestamp),
                    ResultOf(files, settings, env, f).write.content)
  {
    var segs := env.transcribe(f).segments;
    assert ResultOf(files, settings, env, f).write.content == FileContent(segs, settings, env, f);
    CancelledFileContent(segs, settings, env, f, slot);
  }

  /** A saved file adds one success. */
  lemma SavedCountsOne(files: seq<string>, settings: Settings, env: Env, i: nat)
    requires i < |files| && ResultOf(files, settings, env, i).Saved?
    ensures TallyUpTo(files, settings, env, i + 1).successes == TallyUpTo(files, settings, env, i).successes + 1
  {
    TallyStep(files, settings, env, i, TallyUpTo(files, settings, env, i), ResultOf(files, settings, env, i));
  }

  /** The content left by a cancellation before segment `slot - 1` of file
      `i`: the SRT text of the segments before it, a prefix of the whole. */
  lemma CancelledFileContent(segs: seq<Segment>, settings: Settings, env: Env, i: nat, slot: nat)
    requires env.cancel == CancelledAt(i, slot) && slot > 0
    ensures
      var written := if slot - 1 < |segs| then slot - 1 else |segs|;
      FileContent(segs, settings, env, i) == SrtText(segs[..written], Translating(settings, i), env.translate(i), FormatTimestamp)
      && StartsWith(SrtText(segs, Translating(settings, i), env.translate(i), FormatTimestamp), FileContent(segs, settings, env, i))
  {
    var written := if slot - 1 < |segs| then slot - 1 else |segs|;
    SegmentsWritten(i, slot, |segs|);
    var translating := Translating(settings, i);
    StoppedWriteIsShorterFile(segs, written, translating, env.translate(i), FormatTimestamp);
    CancelledWriteIsPrefix(segs, written, translating, env.translate(i), FormatTimestamp);
  }
}
