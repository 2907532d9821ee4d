/** Writing one SRT file from the segments of a transcription: the loop of
    `transcrever_video`. */
module Subtitles {
  import opened Options
  import opened Text
  import opened Timestamp
  import opened Cancellation

  /** One entry of `result['segments']`. */
  datatype Segment = Segment(start: Seconds, end: Seconds, text: string)

  /** The translator's answer for segment `j` of the file: `Some(t)` when
      `translate` returned `t`, `None` when it raised. */
  type Translator = (nat, string) -> Option<string>

  /** The text written for segment `j`: its stripped text, replaced by the
      translation when translating and the translator answered. */
  function SubtitleText(seg: Segment, j: nat, translating: bool, translate: Translator): string {
    var text := Strip(seg.text);
    if translating && translate(j, text).Some? then translate(j, text).value else text
  }

  /** The stripped text is written whenever there is no translation to
      use: the languages agree or the translator raised. Otherwise the
      translation is written. */
  lemma SubtitleTextFallback(seg: Segment, j: nat, translating: bool, translate: Translator)
    ensures !translating || translate(j, Strip(seg.text)).None? ==>
              SubtitleText(seg, j, translating, translate) == Strip(seg.text)
    ensures translating && translate(j, Strip(seg.text)).Some? ==>
              SubtitleText(seg, j, translating, translate) == translate(j, Strip(seg.text)).value
  {
  }

  /** One SRT block: number, timecode line, text and a blank line. */
  function Block(number: nat, start: string, end: string, text: string): string {
    NatToString(number) + "\n" + TimecodeLine(start, end) + "\n" + text + "\n\n"
  }

  function TimecodeLine(start: string, end: string): string {
    start + " --> " + end
  }

  /** How an offset is written on the timecode line; the application passes
      `FormatTimestamp`. */
  type Timecode = Seconds -> string

  /** Block `k` of the file written for `segs`: number `k + 1`, the
      timecodes of segment `k` and its text. */
  function BlockOf(segs: seq<Segment>, translating: bool, translate: Translator, timecode: Timecode): nat -> string {
    (k: nat) =>
      if k < |segs| then
        Block(k + 1, timecode(segs[k].start), timecode(segs[k].end),
              SubtitleText(segs[k], k, translating, translate))
      else []
  }

  /** The first `n` blocks, one after the other. */
  function Joined(block: nat -> string, n: nat): string {
    if n == 0 then [] else Joined(block, n - 1) + block(n - 1)
  }

  /** The SRT text of writing `segs` in full. */
  function SrtText(segs: seq<Segment>, translating: bool, translate: Translator, timecode: Timecode): string {
    Joined(BlockOf(segs, translating, translate, timecode), |segs|)
  }

  /** The segment loop.  `stop(j)` is the cancel flag as seen just before
      segment `j`; the file is opened for writing (truncated) first, and a
      cancellation leaves the blocks written so far. */
  method WriteSubtitles(segs: seq<Segment>, source: string, target: string,
                        translate: Translator, stop: nat -> bool, timecode: Timecode)
    returns (content: string, written: nat)
    ensures written == FirstStop(stop, |segs|)
    ensures content == Joined(BlockOf(segs, source != target, translate, timecode), written)
  {
    var translating := source != target;
    ghost var block := BlockOf(segs, translating, translate, timecode);
    content := [];
    var i := 0;
    while i < |segs|
      invariant 0 <= i <= |segs|
      invariant forall j: nat :: j < i ==> !stop(j)
      invariant content == Joined(block, i)
    {
      if stop(i) {
        written := i;
        return;
      }
      var start := timecode(segs[i].start);
      var end := timecode(segs[i].end);
      var text := Strip(segs[i].text);
      if translating {
        var answer := translate(i, text);
        if answer.Some? {
          text := answer.value;
        }
      }
      assert text == SubtitleText(segs[i], i, translating, translate);
      content := content + Block(i + 1, start, end, text);
      i := i + 1;
    }
    written := |segs|;
  }

  // ---------------------------------------------------------------------
  // Properties
  // ---------------------------------------------------------------------

  /** Fewer blocks give a prefix. */
  lemma {:induction false} JoinedPrefix(block: nat -> string, m: nat, n: nat)
    requires m <= n
    ensures StartsWith(Joined(block, n), Joined(block, m))
    decreases n
  {
    if m < n {
      JoinedPrefix(block, m, n - 1);
      var x := Joined(block, n - 1);
      assert Joined(block, n) == x + block(n - 1);
      assert (x + block(n - 1))[..|Joined(block, m)|] == x[..|Joined(block, m)|];
    }
  }

  /** Only the first `n` blocks matter. */
  lemma {:induction false} JoinedAgree(f: nat -> string, g: nat -> string, n: nat)
    requires forall k: nat :: k < n ==> f(k) == g(k)
    ensures Joined(f, n) == Joined(g, n)
    decreases n
  {
    if n > 0 {
      JoinedAgree(f, g, n - 1);
    }
  }

  /** What a write that stopped after `n` segments leaves is the SRT text of
      those `n` segments. */
  lemma StoppedWriteIsShorterFile(segs: seq<Segment>, n: nat, translating: bool, translate: Translator, timecode: Timecode)
    requires n <= |segs|
    ensures Joined(BlockOf(segs, translating, translate, timecode), n) == SrtText(segs[..n], translating, translate, timecode)
  {
    var f := BlockOf(segs, translating, translate, timecode);
    var g := BlockOf(segs[..n], translating, translate, timecode);
    forall k: nat | k < n
      ensures f(k) == g(k)
    {
      assert segs[..n][k] == segs[k];
    }
    JoinedAgree(f, g, n);
  }

  /** A cancelled write leaves a prefix of the complete file, cut at a block
      boundary. */
  lemma CancelledWriteIsPrefix(segs: seq<Segment>, n: nat, translating: bool, translate: Translator, timecode: Timecode)
    requires n <= |segs|
    ensures StartsWith(SrtText(segs, translating, translate, timecode), SrtText(segs[..n], translating, translate, timecode))
  {
    StoppedWriteIsShorterFile(segs, n, translating, translate, timecode);
    JoinedPrefix(BlockOf(segs, translating, translate, timecode), n, |segs|);
  }

  /** Without translation the translator is never consulted. */
  lemma SameLanguageIgnoresTranslator(segs: seq<Segment>, t1: Translator, t2: Translator, timecode: Timecode)
    ensures SrtText(segs, false, t1, timecode) == SrtText(segs, false, t2, timecode)
  {
    var f := BlockOf(segs, false, t1, timecode);
    var g := BlockOf(segs, false, t2, timecode);
    forall k: nat | k < |segs|
      ensures f(k) == g(k)
    {
      assert SubtitleText(segs[k], k, false, t1) == SubtitleText(segs[k], k, false, t2);
    }
    JoinedAgree(f, g, |segs|);
  }

  /** The file depends on the translator only through its answers for the
      segments' stripped texts. */
  lemma TranslatorAnswersDecide(segs: seq<Segment>, t1: Translator, t2: Translator, timecode: Timecode)
    requires forall k :: 0 <= k < |segs| ==> t1(k, Strip(segs[k].text)) == t2(k, Strip(segs[k].text))
    ensures SrtText(segs, true, t1, timecode) == SrtText(segs, true, t2, timecode)
  {
    var f := BlockOf(segs, true, t1, timecode);
    var g := BlockOf(segs, true, t2, timecode);
    forall k: nat | k < |segs|
      ensures f(k) == g(k)
    {
      var text := Strip(segs[k].text);
      assert t1(k, text) == t2(k, text);
      assert SubtitleText(segs[k], k, true, t1) == SubtitleText(segs[k], k, true, t2);
      assert f(k) == Block(k + 1, timecode(segs[k].start), timecode(segs[k].end), SubtitleText(segs[k], k, true, t1));
      assert g(k) == Block(k + 1, timecode(segs[k].start), timecode(segs[k].end), SubtitleText(segs[k], k, true, t2));
    }
    JoinedAgree(f, g, |segs|);
  }

  // ---------------------------------------------------------------------
  // Reading a block back
  // ---------------------------------------------------------------------

  /** The number line and the timecode line of a block, and what follows. */
  datatype Header = Header(number: nat, start: Clock, end: Clock, rest: string)

  /** Reads `a --> z` as two timecodes. */
  function ParseTimecodes(line: string): Option<(Clock, Clock)> {
    match SplitFirst(line, ' ')
    case None => None
    case Some(p) =>
      if StartsWith(p.1, "--> ") then
        match ParseTimestamp(p.0)
        case None => None
        case Some(a) =>
          match ParseTimestamp(p.1[4..])
          case None => None
          case Some(z) => Some((a, z))
      else None
  }

  function ParseHeader(b: string): Option<Header> {
    match SplitFirst(b, '\n')
    case None => None
    case Some(p1) =>
      match SplitFirst(p1.1, '\n')
      case None => None
      case Some(p2) =>
        if p1.0 != [] && AllDigits(p1.0) then
          match ParseTimecodes(p2.0)
          case None => None
          case Some(codes) => Some(Header(DigitsValue(p1.0), codes.0, codes.1, p2.1))
        else None
  }

  lemma TimecodesReadBack(a: string, z: string, ca: Clock, cz: Clock)
    requires ' ' !in a
    requires ParseTimestamp(a) == Some(ca) && ParseTimestamp(z) == Some(cz)
    ensures ParseTimecodes(TimecodeLine(a, z)) == Some((ca, cz))
  {
    assert TimecodeLine(a, z) == a + [' '] + ("--> " + z);
    SplitFirstAt(a, ' ', "--> " + z);
    assert ("--> " + z)[4..] == z;
  }

  /** The header of `n\nline\ntext\n\n` reads back when its pieces do. */
  lemma HeaderReadsBack(n: string, line: string, text: string, codes: (Clock, Clock))
    requires n != [] && AllDigits(n)
    requires '\n' !in line
    requires ParseTimecodes(line) == Some(codes)
    ensures ParseHeader(n + "\n" + line + "\n" + text + "\n\n")
         == Some(Header(DigitsValue(n), codes.0, codes.1, text + "\n\n"))
  {
    NoSeparatorInDigits(n, '\n');
    var rest := text + "\n\n";
    assert n + "\n" + line + "\n" + text + "\n\n" == n + ['\n'] + (line + ['\n'] + rest);
    SplitFirstAt(n, '\n', line + ['\n'] + rest);
    SplitFirstAt(line, '\n', rest);
  }

  /** A block whose timecodes read back reads back as a whole. */
  lemma BlockWithTimecodesReadsBack(number: nat, a: string, z: string, text: string, ca: Clock, cz: Clock)
    requires '\n' !in a && ' ' !in a && '\n' !in z
    requires ParseTimestamp(a) == Some(ca) && ParseTimestamp(z) == Some(cz)
    ensures ParseHeader(Block(number, a, z, text)) == Some(Header(number, ca, cz, text + "\n\n"))
  {
    TimecodesReadBack(a, z, ca, cz);
    HeaderReadsBack(NatToString(number), TimecodeLine(a, z), text, (ca, cz));
  }

  /** Every block the application writes reads back: its number, both
      timecodes to the millisecond `ClockOf` keeps, and the text with its
      blank line. */
  lemma BlockReadsBack(number: nat, start: Seconds, end: Seconds, text: string)
    ensures ParseHeader(Block(number, FormatTimestamp(start), FormatTimestamp(end), text))
         == Some(Header(number, ClockOf(start), ClockOf(end), text + "\n\n"))
  {
    TimecodeReadsBack(start);
    TimecodeReadsBack(end);
    BlockWithTimecodesReadsBack(number, FormatTimestamp(start), FormatTimestamp(end), text, ClockOf(start), ClockOf(end));
  }

  /** Block `k` of a file written with `FormatTimestamp` is numbered `k + 1`
      and carries the timecodes and text of segment `k`: numbering is
      1-based, contiguous and in segment order. */
  lemma NumberedBlockReadsBack(segs: seq<Segment>, translating: bool, translate: Translator, k: nat)
    requires k < |segs|
    ensures ParseHeader(BlockOf(segs, translating, translate, FormatTimestamp)(k))
         == Some(Header(k + 1, ClockOf(segs[k].start), ClockOf(segs[k].end),
                        SubtitleText(segs[k], k, translating, translate) + "\n\n"))
  {
    var text := SubtitleText(segs[k], k, translating, translate);
    BlockOfIs(segs, translating, translate, FormatTimestamp, k);
    BlockReadsBack(k + 1, segs[k].start, segs[k].end, text);
  }

  lemma BlockOfIs(segs: seq<Segment>, translating: bool, translate: Translator, timecode: Timecode, k: nat)
    requires k < |segs|
    ensures BlockOf(segs, translating, translate, timecode)(k)
         == Block(k + 1, timecode(segs[k].start), timecode(segs[k].end), SubtitleText(segs[k], k, translating, translate))
  {
  }
}
