/** The window's mutable state that the run depends on: the stop flag, the
    status line, the two buttons and the log area (`resetar_interface`,
    `cancelar_operacao`, the start of a run in `iniciar_thread`, `log`, and
    the status updates of the redirected error stream). */
module Controls {
  import Progress

  const RunIdle: string := "\U{1F680} INICIAR PROCESSO"
  const RunBusy: string := "Processando..."
  const CancelIdle: string := "cancelar operação"
  const CancelPending: string := "Parando..."
  const CancelRequested: string := "Solicitando cancelamento..."
  const CancelNotice: string := "!!! CANCELAMENTO SOLICITADO !!!"

  /** A line of the log area: `">> " + mensagem + "\n"`. */
  function LogLine(message: string): (line: string)
    ensures |line| == |message| + 4
    ensures line[..3] == ">> " && line[|line| - 1] == '\n'
    ensures line[3..|line| - 1] == message
  {
    ">> " + message + "\n"
  }

  class Panel {
    /** `stop_event` */
    var stopRequested: bool
    /** `status_sistema_var` */
    var status: string
    /** `btn_run`: whether it can be clicked, and its text. */
    var runEnabled: bool
    var runLabel: string
    /** `btn_cancelar` */
    var cancelEnabled: bool
    var cancelLabel: string
    /** The text of `log_area`. */
    var log: string

    /** The two buttons are never clickable together, each button's text
        matches its state, and the cancel button is only clickable while no
        cancellation is pending. */
    predicate Valid()
      reads this
    {
      && !(runEnabled && cancelEnabled)
      && (runEnabled <==> runLabel == RunIdle)
      && (runLabel == RunIdle || runLabel == RunBusy)
      && (cancelLabel == CancelIdle || cancelLabel == CancelPending)
      && (cancelEnabled ==> !stopRequested && cancelLabel == CancelIdle)
      && (cancelLabel == CancelPending ==> stopRequested)
    }

    /** The window as built: waiting, run button ready, cancel button
        disabled, empty log. */
    constructor ()
      ensures Valid()
      ensures !stopRequested && status == "Aguardando comando..." && log == []
      ensures runEnabled && runLabel == RunIdle && !cancelEnabled && cancelLabel == CancelIdle
    {
      stopRequested := false;
      status := "Aguardando comando...";
      runEnabled := true;
      runLabel := RunIdle;
      cancelEnabled := false;
      cancelLabel := CancelIdle;
      log := [];
    }

    /** `log`: append one line to the log area. */
    method Log(message: string)
      modifies this
      ensures log == old(log) + LogLine(message)
      ensures stopRequested == old(stopRequested) && status == old(status)
      ensures runEnabled == old(runEnabled) && runLabel == old(runLabel)
      ensures cancelEnabled == old(cancelEnabled) && cancelLabel == old(cancelLabel)
    {
      log := log + LogLine(message);
    }

    /** The start of a run once the list of files is not empty: clear the
        flag, lock the run button, unlock the cancel button, clear the log. */
    method StartRun()
      requires Valid()
      modifies this
      ensures Valid()
      ensures !stopRequested && log == [] && status == old(status)
      ensures !runEnabled && runLabel == RunBusy
      ensures cancelEnabled && cancelLabel == CancelIdle
    {
      stopRequested := false;
      runEnabled := false;
      runLabel := RunBusy;
      cancelEnabled := true;
      cancelLabel := CancelIdle;
      log := [];
    }

    /** `cancelar_operacao`: the first request sets the flag, reports it and
        locks the cancel button; any later one changes nothing. */
    method CancelOperation()
      requires Valid()
      modifies this
      ensures Valid()
      ensures stopRequested
      ensures old(stopRequested) ==>
        && status == old(status) && log == old(log)
        && cancelEnabled == old(cancelEnabled) && cancelLabel == old(cancelLabel)
      ensures !old(stopRequested) ==>
        && status == CancelRequested && log == old(log) + LogLine(CancelNotice)
        && !cancelEnabled && cancelLabel == CancelPending
      ensures runEnabled == old(runEnabled) && runLabel == old(runLabel)
    {
      if !stopRequested {
        stopRequested := true;
        status := CancelRequested;
        Log(CancelNotice);
        cancelEnabled := false;
        cancelLabel := CancelPending;
      }
    }

    /** `resetar_interface`, scheduled when the run ends however it ends:
        the run button is ready again and the cancel button disabled. The
        flag is left as it is until the next run clears it. */
    method ResetInterface()
      requires Valid()
      modifies this
      ensures Valid()
      ensures runEnabled && runLabel == RunIdle && !cancelEnabled && cancelLabel == CancelIdle
      ensures stopRequested == old(stopRequested) && status == old(status) && log == old(log)
    {
      runEnabled := true;
      runLabel := RunIdle;
      cancelEnabled := false;
      cancelLabel := CancelIdle;
    }

    /** A write of the speech model to the redirected error stream: the
        status line follows its progress readings. */
    method Redirected(text: string)
      requires Valid()
      modifies this
      ensures Valid()
      ensures status == Progress.StatusAfter(old(status), text)
      ensures stopRequested == old(stopRequested) && log == old(log)
      ensures runEnabled == old(runEnabled) && runLabel == old(runLabel)
      ensures cancelEnabled == old(cancelEnabled) && cancelLabel == old(cancelLabel)
    {
      status := Progress.StatusAfter(status, text);
    }
  }

  /** Requesting a cancellation twice has the effect of requesting it once:
      the second request finds the flag set and leaves the panel alone. */
  method CancelTwice(p: Panel)
    requires p.Valid()
    modifies p
    ensures p.Valid() && p.stopRequested
    ensures old(p.stopRequested) ==>
      && p.status == old(p.status) && p.log == old(p.log)
      && p.cancelEnabled == old(p.cancelEnabled) && p.cancelLabel == old(p.cancelLabel)
    ensures !old(p.stopRequested) ==>
      && p.status == CancelRequested && p.log == old(p.log) + LogLine(CancelNotice)
      && !p.cancelEnabled && p.cancelLabel == CancelPending
    ensures p.runEnabled == old(p.runEnabled) && p.runLabel == old(p.runLabel)
  {
    p.CancelOperation();
    ghost var once := p.log;
    p.CancelOperation();
    assert p.log == once;
  }
}
