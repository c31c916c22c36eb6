/** The enabled state of the "Install Python" button on `InstallPythonPage`
    (ui_pages.py), driven by version checks and installation runs. */
module InstallPage {
  import opened Outcomes
  import ProcessRunner

  /** What happens to the page, in order. */
  datatype PageEvent =
    | VersionChecked(py: ProcessResult)   // `py -<version> --version` ran (or could not be run)
    | InstallClicked                      // `start_python_installation`
    | InstallFinished(returnCode: int)    // the worker's finished signal reached the page

  /** The button right after construction. */
  const InitiallyEnabled: bool := false

  /** How one event sets the button. A missing `py` launcher makes
      `check_output` raise `FileNotFoundError`, which the check does not
      catch (it catches only `CalledProcessError`), so the button keeps its
      state; so does any other exception of the call. The completion handler enables
      the button and disables it again on success. */
  function Step(enabled: bool, e: PageEvent): (r: bool)
    ensures Decides(e) ==> (r <==> Enables(e))
    ensures !Decides(e) ==> r == enabled
  {
    match e
    case VersionChecked(py) =>
      if py.Exited? then py.code != 0 else enabled
    case InstallClicked => false
    case InstallFinished(code) => code != 0
  }

  /** The button after a sequence of events. */
  function InstallButton(events: seq<PageEvent>): bool
    decreases |events|
  {
    if events == [] then InitiallyEnabled
    else Step(InstallButton(events[..|events| - 1]), events[|events| - 1])
  }

  /** Whether an event decides the button on its own, and what it sets. */
  predicate Decides(e: PageEvent) {
    !(e.VersionChecked? && !e.py.Exited?)
  }

  predicate Enables(e: PageEvent) {
    || (e.VersionChecked? && e.py.Exited? && e.py.code != 0)
    || (e.InstallFinished? && e.returnCode != 0)
  }

  /** The button is enabled exactly when some event decided it and the last
      one that did reported a missing Python version or a failed install. */
  lemma {:induction false} InstallButtonLastDecision(events: seq<PageEvent>)
    ensures InstallButton(events) <==>
      exists i :: 0 <= i < |events| && Decides(events[i]) && Enables(events[i])
        && forall j :: i < j < |events| ==> !Decides(events[j])
    decreases |events|
  {
    if events != [] {
      var n := |events| - 1;
      var init := events[..n];
      InstallButtonLastDecision(init);
      assert forall i :: 0 <= i < n ==> init[i] == events[i];
      if Decides(events[n]) {
        if InstallButton(events) {
          assert Enables(events[n]);
        }
      } else {
        if exists i :: 0 <= i < |events| && Decides(events[i]) && Enables(events[i])
            && forall j :: i < j < |events| ==> !Decides(events[j]) {
          var i :| 0 <= i < |events| && Decides(events[i]) && Enables(events[i])
            && forall j :: i < j < |events| ==> !Decides(events[j]);
          assert i < n;
        }
      }
    }
  }

  /** What the page sees of a worker run: only the finished signal matters
      to the button; output lines go to the console. */
  function WorkerEvents(trace: seq<ProcessRunner.Event>): (r: seq<PageEvent>)
    ensures |r| <= |trace|
    ensures forall k :: 0 <= k < |r| ==> r[k].InstallFinished?
  {
    if trace == [] then []
    else
      var head := if trace[0].Finished? then [InstallFinished(trace[0].returnCode)] else [];
      head + WorkerEvents(trace[1..])
  }

  /** The worker is handed a Python callable where `Popen` expects a command,
      so `Popen` raises `TypeError` and the thread ends without a signal. */
  const InstallWorkerChild: ProcessRunner.Child := ProcessRunner.SpawnFailed

  /** `start_python_installation` followed by everything its worker emits. */
  function StartInstallation(version: string): (r: seq<PageEvent>)
    ensures r == [InstallClicked]
  {
    assert ProcessRunner.Trace(InstallWorkerChild, version) == [];
    [InstallClicked] + WorkerEvents(ProcessRunner.Trace(InstallWorkerChild, version))
  }

  /** Clicking "Install Python" leaves the button disabled: no finished
      signal ever arrives, so it stays disabled until a later version check
      reports the version missing. */
  lemma InstallLeavesButtonDisabled(before: seq<PageEvent>, version: string, after: seq<PageEvent>)
    requires forall k :: 0 <= k < |after| ==> !Enables(after[k])
    ensures !InstallButton(before + StartInstallation(version) + after)
  {
    var clicked := before + [InstallClicked];
    assert clicked[..|before|] == before;
    assert !InstallButton(clicked);
    StaysDisabled(clicked, after);
  }

  /** Events that never enable the button keep a disabled button disabled. */
  lemma {:induction false} StaysDisabled(events: seq<PageEvent>, after: seq<PageEvent>)
    requires !InstallButton(events)
    requires forall k :: 0 <= k < |after| ==> !Enables(after[k])
    ensures !InstallButton(events + after)
    decreases |after|
  {
    if after != [] {
      var init := after[..|after| - 1];
      StaysDisabled(events, init);
      assert (events + after)[..|events + after| - 1] == events + init;
      assert !Enables(after[|after| - 1]);
    } else {
      assert events + after == events;
    }
  }

  /** Had the worker been given a runnable command, the button would end up
      enabled exactly when the install failed. */
  lemma RunningWorkerReports(before: seq<PageEvent>, output: string, code: int, version: string)
    ensures InstallButton(before + [InstallClicked] + WorkerEvents(ProcessRunner.Trace(ProcessRunner.Ran(output, code), version))) == (code != 0)
  {
    var trace := ProcessRunner.Trace(ProcessRunner.Ran(output, code), version);
    var events := before + [InstallClicked] + WorkerEvents(trace);
    WorkerEventsLast(trace);
    InstallButtonLastDecision(events);
    assert events[|events| - 1] == InstallFinished(code);
  }

  /** A trace that ends in its only finished signal yields that signal last. */
  lemma {:induction false} WorkerEventsLast(trace: seq<ProcessRunner.Event>)
    requires trace != [] && trace[|trace| - 1].Finished?
    ensures var r := WorkerEvents(trace); r != [] && r[|r| - 1] == InstallFinished(trace[|trace| - 1].returnCode)
    decreases |trace|
  {
    if |trace| > 1 {
      WorkerEventsLast(trace[1..]);
    }
  }
}
