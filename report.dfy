/** The end of `executar_processamento_em_lote`: the status line and the
    dialog shown for each way a run can end, and the summary of a finished
    queue. */
module Report {
  import opened Text
  import opened Batch

  /** At most this many error entries are listed: `erros[:5]`. */
  const MaxListed: nat := 5

  /** The trailer added when some errors were not listed. */
  const Omitted: string := "\n... e outros."

  /** `erros[:5]` */
  function ListedErrors(errors: seq<string>): (r: seq<string>)
    ensures |r| <= MaxListed && r <= errors
    ensures |errors| <= MaxListed ==> r == errors
    ensures |errors| > MaxListed ==> r == errors[..MaxListed]
  {
    if |errors| <= MaxListed then errors else errors[..MaxListed]
  }

  /** The two count lines that open the summary. */
  function Counts(successes: nat, failures: nat): string {
    "Processamento Concluído!\n\n\U{2705} Sucessos: " + NatToString(successes) + "\n\U{274C} Falhas: " + NatToString(failures)
  }

  /** `resumo`: the counts, then, when there are errors, the first five
      entries one per line and, past five, the trailer. */
  function Summary(successes: nat, errors: seq<string>): string {
    var counts := Counts(successes, |errors|);
    if errors == [] then counts
    else
      var listing := counts + "\n\nArquivos com erro:\n" + JoinWith("\n", ListedErrors(errors));
      if |errors| > MaxListed then listing + Omitted else listing
  }

  datatype DialogKind = Info | Warning | Failure

  /** A `messagebox` call: its kind, title and text. */
  datatype Dialog = Dialog(kind: DialogKind, title: string, text: string)

  /** What the user is shown at the end: the status line and a dialog. */
  datatype Notice = Notice(status: string, dialog: Dialog)

  /** The report for each way a run ends. */
  function ReportOf(end: RunEnd): (r: Notice)
    ensures r.dialog.kind == Failure <==> end.FatalError?
    ensures r.dialog.kind == Info <==> end.Finished? && end.errors == []
    ensures end.FatalError? ==> r.dialog.text == end.message
    ensures end.Finished? ==> r.dialog.text == Summary(end.successes, end.errors)
  {
    match end
    case FatalError(m) => Notice("Erro Fatal", Dialog(Failure, "Erro Crítico", m))
    case Interrupted(_, _) =>
      Notice("Processo Interrompido.", Dialog(Warning, "Cancelado", "A fila foi interrompida pelo usuário."))
    case Finished(s, e) =>
      if e == [] then Notice("Fila finalizada!", Dialog(Info, "Sucesso Total", Summary(s, e)))
      else Notice("Fila finalizada!", Dialog(Warning, "Concluído com Erros", Summary(s, e)))
  }

  // ---------------------------------------------------------------------
  // Properties of the summary
  // ---------------------------------------------------------------------

  /** An error entry `"name (message)"` ends with a closing parenthesis. */
  predicate ClosedEntry(e: string) {
    e != [] && e[|e| - 1] == ')'
  }

  /** The summary ends with the trailer exactly when more than five errors
      were collected (entries end with `)`, the counts with a digit). */
  lemma OmittedIffMoreThanFive(successes: nat, errors: seq<string>)
    requires forall k :: 0 <= k < |errors| ==> ClosedEntry(errors[k])
    ensures EndsWith(Summary(successes, errors), Omitted) <==> |errors| > MaxListed
  {
    var r := Summary(successes, errors);
    if errors == [] {
      SummaryWithoutErrorsEndsInZero(successes);
      NotEndingInDot(r);
    } else if |errors| <= MaxListed {
      SummaryWithFewErrorsEndsInParen(successes, errors);
      NotEndingInDot(r);
    }
  }

  lemma NotEndingInDot(r: string)
    requires r != [] && r[|r| - 1] != '.'
    ensures !EndsWith(r, Omitted)
  {
  }

  /** Every summary opens with the two count lines, the failure count being
      the number of entries. */
  lemma SummaryOpensWithCounts(successes: nat, errors: seq<string>)
    ensures StartsWith(Summary(successes, errors), Counts(successes, |errors|))
  {
    var counts := Counts(successes, |errors|);
    if errors != [] {
      var listing := counts + "\n\nArquivos com erro:\n" + JoinWith("\n", ListedErrors(errors));
      assert listing == counts + ("\n\nArquivos com erro:\n" + JoinWith("\n", ListedErrors(errors)));
      assert (listing + Omitted)[..|counts|] == counts;
      assert listing[..|counts|] == counts;
    }
  }

  /** With no errors the summary ends with the failure count, `0`. */
  lemma SummaryWithoutErrorsEndsInZero(successes: nat)
    ensures Summary(successes, []) != [] && Summary(successes, [])[|Summary(successes, [])| - 1] == '0'
  {
    var n := NatToString(0);
    var r := Summary(successes, []);
    assert r == Counts(successes, 0);
    assert r[|r| - 1] == n[|n| - 1];
  }

  lemma SummaryWithFewErrorsEndsInParen(successes: nat, errors: seq<string>)
    requires 0 < |errors| <= MaxListed
    requires ClosedEntry(errors[|errors| - 1])
    ensures Summary(successes, errors) != [] && Summary(successes, errors)[|Summary(successes, errors)| - 1] == ')'
  {
    var joined := JoinWith("\n", errors);
    var last := errors[|errors| - 1];
    JoinWithEndsWithLast("\n", errors);
    assert joined[|joined| - 1] == last[|last| - 1];
    var r := Summary(successes, errors);
    assert r == (Counts(successes, |errors|) + "\n\nArquivos com erro:\n") + joined;
  }

  /** Each of the first five error entries appears in the summary. */
  lemma ListsFirstFive(successes: nat, errors: seq<string>, k: nat) returns (i: int)
    requires k < |errors| && k < MaxListed
    ensures OccursAt(Summary(successes, errors), errors[k], i)
  {
    var listed := ListedErrors(errors);
    assert listed[k] == errors[k];
    var j := JoinWithHasPart("\n", listed, k);
    var before := Counts(successes, |errors|) + "\n\nArquivos com erro:\n";
    OccursAfter(before, JoinWith("\n", listed), errors[k], j);
    i := |before| + j;
    if |errors| > MaxListed {
      OccursBefore(before + JoinWith("\n", listed), Omitted, errors[k], i);
    }
  }

  /** Every entry the run collects is closed by `)`. */
  lemma CollectedEntriesAreClosed(files: seq<string>, result: nat -> FileResult, n: nat)
    requires n <= |files|
    ensures forall k :: 0 <= k < |Tallied(files, result, n).errors| ==> ClosedEntry(Tallied(files, result, n).errors[k])
  {
    var errors := Tallied(files, result, n).errors;
    forall k | 0 <= k < |errors|
      ensures ClosedEntry(errors[k])
    {
      ErrorsIff(files, result, n, errors[k]);
      var i :| 0 <= i < n && result(i).Failed? && errors[k] == ErrorEntry(files[i], result(i).message);
    }
  }

  /** The summary of a finished run ends with the trailer exactly when more
      than five of the handled files failed. */
  lemma RunSummaryOmitsIff(files: seq<string>, settings: Settings, env: Env)
    ensures
      var t := TallyUpTo(files, settings, env, Processed(files, env.cancel));
      EndsWith(Summary(t.successes, t.errors), Omitted) <==> Processed(files, env.cancel) - t.successes > MaxListed
  {
    var n := Processed(files, env.cancel);
    var result := Results(files, settings, env);
    TallyCounts(files, result, n);
    CollectedEntriesAreClosed(files, result, n);
    OmittedIffMoreThanFive(Tallied(files, result, n).successes, Tallied(files, result, n).errors);
  }
}
