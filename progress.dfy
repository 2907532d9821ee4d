/** `RedirecionadorTexto`: the object installed as `sys.stderr` while a batch
    runs. It turns the speech engine's diagnostic output into the one-line
    status shown to the user: a percentage when a line carries one, a
    download notice while model files are fetched, and nothing otherwise.

    `write` ignores blank text and hands the rest to `_atualizar_label`
    (through the GUI event queue, which only delays it). */
module Progress {
  import opened Options
  import opened Text

  /** The text `_atualizar_label` inspects: every CR and LF removed, then
      stripped (`text.replace("\r", "").replace("\n", "").strip()`). */
  function Clean(text: string): string
  {
    Strip(Remove(Remove(text, '\r'), '\n'))
  }

  /** The cleaned text is one line: no CR or LF is left anywhere in it. */
  lemma CleanIsOneLine(text: string)
    ensures '\r' !in Clean(text) && '\n' !in Clean(text)
    ensures |Clean(text)| <= |text|
  {
    var u := Remove(Remove(text, '\r'), '\n');
    BreaksDropped(text);
    StripKeepsSlice(u);
    assert forall x :: x in Clean(text) ==> x in u;
  }

  lemma BreaksDropped(text: string)
    ensures '\r' !in Remove(Remove(text, '\r'), '\n')
    ensures '\n' !in Remove(Remove(text, '\r'), '\n')
    ensures |Remove(Remove(text, '\r'), '\n')| <= |text|
  {
    RemoveDrops(text, '\r');
    RemoveDrops(Remove(text, '\r'), '\n');
    RemoveKeepsAbsent(Remove(text, '\r'), '\n', '\r');
  }

  /** A text that is already one line is only stripped. */
  lemma CleanOfOneLine(text: string)
    requires '\r' !in text && '\n' !in text
    ensures Clean(text) == Strip(text)
  {
    RemoveDrops(text, '\r');
    RemoveDrops(text, '\n');
  }

  /** A CR or LF anywhere in the text makes no difference: the cleaned text
      is that of the text without it. */
  lemma CleanIgnoresBreak(a: string, x: char, b: string)
    requires x == '\r' || x == '\n'
    ensures Clean(a + [x] + b) == Clean(a + b)
  {
    BreakRemoved(a, x, b);
  }

  lemma BreakRemoved(a: string, x: char, b: string)
    requires x == '\r' || x == '\n'
    ensures Remove(Remove(a + [x] + b, '\r'), '\n') == Remove(Remove(a + b, '\r'), '\n')
  {
    var ra, rx, rb := Remove(a, '\r'), Remove([x], '\r'), Remove(b, '\r');
    var na, nx, nb := Remove(ra, '\n'), Remove(rx, '\n'), Remove(rb, '\n');
    assert Remove(a + [x] + b, '\r') == ra + rx + rb by {
      RemoveThree(a, [x], b, '\r');
    }
    assert Remove(ra + rx + rb, '\n') == na + nx + nb by {
      RemoveThree(ra, rx, rb, '\n');
    }
    assert nx == [] by {
      BreakVanishes(x);
    }
    assert na + nx + nb == na + nb;
    assert Remove(Remove(a + b, '\r'), '\n') == na + nb by {
      RemoveAppend(a, b, '\r');
      RemoveAppend(ra, rb, '\n');
    }
  }

  lemma BreakVanishes(x: char)
    requires x == '\r' || x == '\n'
    ensures Remove(Remove([x], '\r'), '\n') == []
  {
    RemoveChar(x, '\r');
    if x == '\n' {
      RemoveChar(x, '\n');
    }
  }

  lemma RemoveThree(p: string, q: string, r: string, c: char)
    ensures Remove(p + q + r, c) == Remove(p, c) + Remove(q, c) + Remove(r, c)
  {
    RemoveAppend(p + q, r, c);
    RemoveAppend(p, q, c);
  }

  lemma {:induction false} RemoveKeepsAbsent(s: string, c: char, x: char)
    requires x !in s
    ensures x !in Remove(s, c)
  {
    if s != [] {
      RemoveKeepsAbsent(s[1..], c, x);
    }
  }

  // ---------------------------------------------------------------------
  // re.search(r"(\d{1,3})%", s)
  // ---------------------------------------------------------------------

  /** The pattern matches at position `i` with a group of `k` digits. */
  predicate MatchAt(s: string, i: int, k: int) {
    && 0 <= i && 1 <= k <= 3 && i + k < |s|
    && (forall j :: i <= j < i + k ==> IsDigit(s[j]))
    && s[i + k] == '%'
  }

  /** At one position at most one group length matches: a longer group would
      need the `%` to be a digit, a shorter one a digit to be `%`. */
  lemma MatchLengthUnique(s: string, i: int, k: int, k': int)
    requires MatchAt(s, i, k) && MatchAt(s, i, k')
    ensures k == k'
  {
  }

  /** The greedy `\d{1,3}` tried at position `i`: three digits first, then
      two, then one, keeping the first length followed by `%`; 0 when none is. */
  function GroupAt(s: string, i: nat): (k: nat)
    ensures k == 0 || MatchAt(s, i, k)
    ensures k == 0 ==> forall k' :: !MatchAt(s, i, k')
  {
    if MatchAt(s, i, 3) then 3
    else if MatchAt(s, i, 2) then 2
    else if MatchAt(s, i, 1) then 1
    else 0
  }

  /** The search from position `from` on: the leftmost position where the
      pattern matches, with its group length. */
  function SearchFrom(s: string, from: nat): (r: Option<(nat, nat)>)
    ensures r.Some? ==> from <= r.value.0 && MatchAt(s, r.value.0, r.value.1)
    ensures r.Some? ==> forall i, k :: from <= i < r.value.0 ==> !MatchAt(s, i, k)
    ensures r.None? ==> forall i, k :: from <= i ==> !MatchAt(s, i, k)
    decreases |s| - from
  {
    if from >= |s| then None
    else if GroupAt(s, from) > 0 then Some((from, GroupAt(s, from)))
    else SearchFrom(s, from + 1)
  }

  /** `match_porcentagem.group(1)`, when the search succeeds. */
  function PercentGroup(s: string): (r: Option<string>)
    ensures r.Some? ==> 1 <= |r.value| <= 3 && AllDigits(r.value)
    ensures r.Some? <==> exists i, k :: MatchAt(s, i, k)
  {
    match SearchFrom(s, 0)
    case None => None
    case Some(p) =>
      var g := s[p.0..p.0 + p.1];
      assert forall j :: 0 <= j < |g| ==> g[j] == s[p.0 + j];
      Some(g)
  }

  /** The group reported is that of the leftmost match: whenever the
      pattern matches at `i` with a group of `k` digits and nowhere before
      `i`, `group(1)` is `s[i..i + k]`. */
  lemma PercentGroupLeftmost(s: string, i: nat, k: nat)
    requires MatchAt(s, i, k)
    requires forall i', k' :: 0 <= i' < i ==> !MatchAt(s, i', k')
    ensures PercentGroup(s) == Some(s[i..i + k])
  {
    var p := SearchFrom(s, 0).value;
    assert p.0 == i;
    MatchLengthUnique(s, i, k, p.1);
  }

  // ---------------------------------------------------------------------
  // Classification and the resulting status
  // ---------------------------------------------------------------------

  /** What one write does to the status line. */
  datatype Reading =
    | Blank                      // `if text and text.strip()` fails: nothing is scheduled
    | TooShort                   // cleaned text shorter than 3 characters
    | Percent(digits: string)    // the leftmost `\d{1,3}%` group
    | Downloading(head: string)  // no percentage, but "Downloading" or "it/s": the first 30 characters
    | Unrecognised               // none of the above: status left as it was

  /** `write` followed by `_atualizar_label`. */
  function Classify(text: string): Reading {
    if text == [] || Strip(text) == [] then Blank
    else
      var clean := Clean(text);
      if |clean| < 3 then TooShort
      else ClassifyLine(clean)
  }

  /** The two filters: blank text (`text and text.strip()` false) schedules
      nothing, and a cleaned text under three characters is dropped. */
  lemma ClassifyFilters(text: string)
    ensures Classify(text).Blank? <==> Strip(text) == []
    ensures Classify(text).TooShort? <==> Strip(text) != [] && |Clean(text)| < 3
    ensures Strip(text) != [] && |Clean(text)| >= 3 ==> Classify(text) == ClassifyLine(Clean(text))
  {
    if text == [] {
      assert StripLeft(text) == [];
    } else if Strip(text) != [] && |Clean(text)| >= 3 {
      var r := ClassifyLine(Clean(text));
      assert r.Percent? || r.Downloading? || r.Unrecognised?;
    }
  }

  /** The part of `_atualizar_label` after the length filter. */
  function ClassifyLine(clean: string): (r: Reading)
    ensures r.Percent? || r.Downloading? || r.Unrecognised?
    ensures r.Percent? <==> PercentGroup(clean).Some?
    ensures r.Percent? ==> PercentGroup(clean) == Some(r.digits)
    ensures r.Downloading? <==>
              PercentGroup(clean).None? && (Contains(clean, "Downloading") || Contains(clean, "it/s"))
    ensures r.Downloading? ==>
              && StartsWith(clean, r.head)
              && |r.head| == if |clean| < 30 then |clean| else 30
  {
    match PercentGroup(clean)
    case Some(d) => Percent(d)
    case None =>
      if Contains(clean, "Downloading") || Contains(clean, "it/s")
      then Downloading(clean[..if |clean| < 30 then |clean| else 30])
      else Unrecognised
  }

  const ProcessingPrefix: string := "\U{23F3} Processando... "
  const DownloadingPrefix: string := "\U{1F4E5} Baixando arquivos: "

  /** The status line after `text` was written to the redirected stream. */
  function StatusAfter(status: string, text: string): (r: string)
  {
    match Classify(text)
    case Percent(d) => ProcessingPrefix + d + "%"
    case Downloading(h) => DownloadingPrefix + h + "..."
    case _ => status
  }

  /** Writes that are blank, too short or unrecognised leave the status
      alone; a percentage anywhere in the line wins over a download notice;
      the percentage shown is the group of the leftmost match. */
  lemma StatusUpdate(status: string, text: string)
    ensures Strip(text) == [] ==> StatusAfter(status, text) == status
    ensures |Clean(text)| < 3 ==> StatusAfter(status, text) == status
    ensures Strip(text) != [] && |Clean(text)| >= 3 && PercentGroup(Clean(text)).Some? ==>
              StatusAfter(status, text) == ProcessingPrefix + PercentGroup(Clean(text)).value + "%"
    ensures (!Contains(Clean(text), "Downloading") && !Contains(Clean(text), "it/s")
             && PercentGroup(Clean(text)).None?) ==> StatusAfter(status, text) == status
    ensures Strip(text) != [] && |Clean(text)| >= 3 && PercentGroup(Clean(text)).None?
            && (Contains(Clean(text), "Downloading") || Contains(Clean(text), "it/s")) ==>
              StatusAfter(status, text)
                == DownloadingPrefix + Clean(text)[..if |Clean(text)| < 30 then |Clean(text)| else 30] + "..."
  {
    ClassifyFilters(text);
    if Strip(text) != [] && |Clean(text)| >= 3 {
      var r := ClassifyLine(Clean(text));
      assert PercentGroup(Clean(text)).Some? ==> r == Percent(PercentGroup(Clean(text)).value);
      if r.Downloading? {
        assert r.head == Clean(text)[..|r.head|];
      }
    }
  }

  /** A write made only of a line break is ignored. */
  lemma ClassifyBlankExample()
    ensures Classify("\r\n") == Blank
  {
    assert AllSpace("\r\n");
  }

  /** A progress-bar line shows its percentage. */
  lemma PercentBarExample()
    ensures ClassifyLine("45%|####") == Percent("45")
  {
    var s := "45%|####";
    assert GroupAt(s, 0) == 2 by {
      assert !MatchAt(s, 0, 3) && MatchAt(s, 0, 2);
    }
    assert s[0..2] == "45";
  }

  /** Greedy matching of at most three digits: in "12345%" the leftmost
      match starts at the third digit and its group is "345". */
  lemma ClassifyLongNumberExample()
    ensures PercentGroup("12345%") == Some("345")
  {
    var s := "12345%";
    assert !MatchAt(s, 0, 3) && !MatchAt(s, 0, 2) && !MatchAt(s, 0, 1);
    assert !MatchAt(s, 1, 3) && !MatchAt(s, 1, 2) && !MatchAt(s, 1, 1);
    assert MatchAt(s, 2, 3);
    assert SearchFrom(s, 2) == Some((2, 3));
    assert SearchFrom(s, 0) == Some((2, 3));
    assert s[2..5] == "345";
  }
}
