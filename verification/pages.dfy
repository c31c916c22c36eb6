/** The rules of the venv and conda pages (ui_pages.py) that do not depend
    on Qt: the venv-name field, the environment pickers and their
    placeholder entries, the selected-environment labels, the actions
    behind the buttons, and the conda creation flow. */
module Pages {
  import opened PyStr
  import Decimal
  import opened Outcomes
  import Registry
  import opened SelectionStore
  import ProcessRunner
  import Launcher

  // ---------------------------------------------------------------------
  // the venv name field (`CreateVenvPage.format_venv_name`)

  predicate IsAscii(c: char) {
    c < '\U{80}'
  }

  predicate IsAsciiText(s: string) {
    forall k :: 0 <= k < |s| ==> IsAscii(s[k])
  }

  /** `str.isalnum` on an ASCII character. */
  predicate IsAsciiAlnum(c: char) {
    ('a' <= c <= 'z') || ('A' <= c <= 'Z') || ('0' <= c <= '9')
  }

  /** `str.lower` on an ASCII character. */
  function LowerAscii(c: char): char {
    if 'A' <= c <= 'Z' then (c as int + 32) as char else c
  }

  /** The characters a formatted venv name consists of. */
  predicate IsFolderChar(c: char) {
    ('a' <= c <= 'z') || ('0' <= c <= '9') || c == '_'
  }

  function FormatChar(c: char): char {
    var l := LowerAscii(c);
    if IsAsciiAlnum(l) || l == '_' then l else '_'
  }

  /** `format_venv_name`: lower-case the text, then replace every character
      that is neither alphanumeric nor `_` by `_`. */
  function FormatVenvName(text: string): (r: string)
    requires IsAsciiText(text)
    ensures |r| == |text|
    ensures forall k :: 0 <= k < |r| ==> IsFolderChar(r[k])
    ensures forall k :: 0 <= k < |r| ==> (r[k] == '_' <==> !IsAsciiAlnum(text[k]))
    ensures forall k :: 0 <= k < |r| && IsAsciiAlnum(text[k]) ==> r[k] == LowerAscii(text[k])
  {
    seq(|text|, k requires 0 <= k < |text| => FormatChar(text[k]))
  }

  /** Formatting a formatted name changes nothing. */
  lemma FormatVenvNameIdempotent(text: string)
    requires IsAsciiText(text)
    ensures IsAsciiText(FormatVenvName(text))
    ensures FormatVenvName(FormatVenvName(text)) == FormatVenvName(text)
  {
  }

  /** A name is left as it is exactly when it already consists of folder
      characters. */
  lemma FormatVenvNameFixedPoint(text: string)
    requires IsAsciiText(text)
    ensures FormatVenvName(text) == text <==> forall k :: 0 <= k < |text| ==> IsFolderChar(text[k])
  {
    if forall k :: 0 <= k < |text| ==> IsFolderChar(text[k]) {
      assert forall k :: 0 <= k < |text| ==> FormatVenvName(text)[k] == text[k];
    }
  }

  // ---------------------------------------------------------------------
  // the environment pickers (`load_venvs`, `load_conda_envs`)

  const NoVenvsEntry: string := "No venvs found."
  const NoCondaEnvsEntry: string := "No conda envs found."

  /** A combo box of environment names together with the enabled state it
      shares with its page's activation buttons. */
  datatype Picker = Picker(items: seq<string>, enabled: bool)

  /** Refilling a picker: the names, or the placeholder entry and everything
      disabled when there are none. */
  function Fill(names: seq<string>, placeholder: string): (p: Picker)
    ensures p.items != []
    ensures p.enabled <==> names != []
    ensures p.enabled ==> p.items == names
    ensures !p.enabled ==> p.items == [placeholder]
  {
    if names == [] then Picker([placeholder], false) else Picker(names, true)
  }

  /** `load_venvs`: the combo is cleared first; when `find_local_venvs` raises
      it stays empty and the buttons keep their state. */
  function LoadVenvs(listing: Registry.Listing, before: Picker): (p: Picker)
    ensures listing.Unreadable? ==> p == Picker([], before.enabled)
    ensures listing.Entries? ==> (p.enabled <==> exists i :: 0 <= i < |listing.entries| && Registry.IsVenv(listing.entries[i]))
    ensures listing.Entries? && p.enabled ==> p.items == Registry.VenvNames(listing.entries)
    ensures listing.Entries? && !p.enabled ==> p.items == [NoVenvsEntry]
  {
    match Registry.FindLocalVenvs(listing)
    case Err(_) => Picker([], before.enabled)
    case Ok(names) =>
      Registry.VenvNamesEmpty(listing.entries);
      Fill(names, NoVenvsEntry)
  }

  /** `load_conda_envs`: the combo is cleared first; when `list_conda_envs`
      raises, the combo stays empty, the button keeps its state and the
      exception reaches the caller. */
  function LoadCondaEnvs(conda: ProcessResult, before: Picker): (p: Picker)
    ensures conda.Raised? <==> p.items == []
    ensures conda.Raised? ==> p.enabled == before.enabled
    ensures !conda.Raised? ==> (p.enabled <==> Registry.ListCondaEnvs(conda).value != [])
    ensures !conda.Raised? && p.enabled ==> p.items == Registry.ListCondaEnvs(conda).value
    ensures !conda.Raised? && !p.enabled ==> p.items == [NoCondaEnvsEntry]
  {
    match Registry.ListCondaEnvs(conda)
    case Err(_) => Picker([], before.enabled)
    case Ok(names) => Fill(names, NoCondaEnvsEntry)
  }

  /** `QComboBox.currentText()` after a refill: the first item, or the empty
      string for an empty combo. */
  function CurrentText(p: Picker): string {
    if p.items == [] then [] else p.items[0]
  }

  // ---------------------------------------------------------------------
  // the button actions

  /** What a handler does beyond dialogs and log lines: save a selection, or
      open an activated terminal. */
  datatype Effect = Save(envType: string, envName: string) | Launch(envType: string, envName: string)

  /** `ActivateEnvPage.activate_only`. */
  function ActivateOnly(selected: string): (r: seq<Effect>)
    ensures selected == NoVenvsEntry <==> r == []
    ensures r != [] ==> r == [Save("venv", selected)]
  {
    if selected == NoVenvsEntry then [] else [Save("venv", selected)]
  }

  /** `ActivateEnvPage.show_activation_info`; `launchChosen` is the dialog
      answer. */
  function ShowVenvActivation(selected: string, launchChosen: bool): (r: seq<Effect>)
    ensures r != [] <==> selected != NoVenvsEntry && launchChosen
    ensures r != [] ==> r == [Launch("venv", selected)]
  {
    if selected == NoVenvsEntry then []
    else if launchChosen then [Launch("venv", selected)]
    else []
  }

  /** `CreateCondaPage.show_existing_activation_info`: saves the selection
      before asking, then launches on request. */
  function ShowCondaActivation(selected: string, launchChosen: bool): (r: seq<Effect>)
    ensures selected == NoCondaEnvsEntry <==> r == []
    ensures r != [] ==> r[0] == Save("conda", selected) && (|r| == 2 <==> launchChosen)
    ensures |r| == 2 ==> r[1] == Launch("conda", selected)
  {
    if selected == NoCondaEnvsEntry then []
    else [Save("conda", selected)] + (if launchChosen then [Launch("conda", selected)] else [])
  }

  /** When no venv is found, whatever the user does on the page has no effect. */
  lemma EmptyVenvListInert(before: Picker, launchChosen: bool)
    ensures var p := LoadVenvs(Registry.Entries([]), before);
      !p.enabled && ActivateOnly(CurrentText(p)) == [] && ShowVenvActivation(CurrentText(p), launchChosen) == []
  {
  }

  /** A real venv directory named like the placeholder is listed but can
      never be activated or selected. */
  lemma PlaceholderShadowsVenv(entries: seq<Registry.DirEntry>, i: nat, launchChosen: bool)
    requires var names := Registry.VenvNames(entries); i < |names| && names[i] == NoVenvsEntry
    ensures var p := LoadVenvs(Registry.Entries(entries), Picker([], false));
      p.enabled && i < |p.items| && ActivateOnly(p.items[i]) == [] && ShowVenvActivation(p.items[i], launchChosen) == []
  {
  }

  /** Every other listed venv is selected by "Activate Only". */
  lemma ListedVenvSelectable(entries: seq<Registry.DirEntry>, i: nat)
    requires var names := Registry.VenvNames(entries); i < |names| && names[i] != NoVenvsEntry
    ensures var p := LoadVenvs(Registry.Entries(entries), Picker([], false));
      i < |p.items| && ActivateOnly(p.items[i]) == [Save("venv", Registry.VenvNames(entries)[i])]
  {
  }

  // ---------------------------------------------------------------------
  // the selected-environment labels (`load_and_display`)

  datatype Page = VenvPage | CondaPage

  function PageEnvType(page: Page): string {
    match page
    case VenvPage => "venv"
    case CondaPage => "conda"
  }

  function SelectedPrefix(page: Page): string {
    match page
    case VenvPage => "Selected venv: "
    case CondaPage => "Selected conda env: "
  }

  function NothingSelected(page: Page): string {
    match page
    case VenvPage => "No venv selected"
    case CondaPage => "No conda env selected"
  }

  /** The label text for a loaded selection. */
  function SelectionLabel(page: Page, sel: Selection): string {
    if sel.Stored? && sel.envType == PageEnvType(page) && sel.envName != [] then SelectedPrefix(page) + sel.envName
    else NothingSelected(page)
  }

  /** `load_and_display`: an unreadable settings file makes
      `load_selected_env` raise and the label keeps its text. */
  function LoadAndDisplay(page: Page, file: FileState, previous: string): (r: string)
    ensures file.Unreadable? ==> r == previous
    ensures file.Missing? ==> r == NothingSelected(page)
  {
    match LoadSelectedEnv(file)
    case Err(_) => previous
    case Ok(sel) => SelectionLabel(page, sel)
  }

  /** A page names an environment exactly when the stored selection is of
      its own type and has a non-empty name. */
  lemma SelectionLabelNames(page: Page, sel: Selection, name: string)
    ensures SelectionLabel(page, sel) == SelectedPrefix(page) + name <==>
      sel == Stored(PageEnvType(page), name) && name != []
  {
    var text := SelectionLabel(page, sel);
    assert NothingSelected(page)[0] != (SelectedPrefix(page) + name)[0];
    if text == SelectedPrefix(page) + name && sel.Stored? {
      assert sel.envName == text[|SelectedPrefix(page)|..] == name;
    }
  }

  /** The two pages never both show a selection. */
  lemma PagesExclusive(sel: Selection)
    ensures SelectionLabel(VenvPage, sel) == NothingSelected(VenvPage) || SelectionLabel(CondaPage, sel) == NothingSelected(CondaPage)
  {
  }

  /** After a page saves a clean, non-empty name, that page shows it and the
      other page shows nothing selected. */
  lemma LabelAfterSave(page: Page, name: string, linesep: string, previous: string)
    requires IsCleanField(name) && name != []
    requires TextIO.IsLineSeparator(linesep)
    ensures var file := SaveSelectedEnv(PageEnvType(page), name, linesep);
      && LoadSelectedEnv(file) == Ok(Stored(PageEnvType(page), name))
      && LoadAndDisplay(page, file, previous) == SelectedPrefix(page) + name
      && LoadAndDisplay(OtherPage(page), file, previous) == NothingSelected(OtherPage(page))
  {
    PageEnvTypeClean(page);
    SelectionRoundTrip(PageEnvType(page), name, linesep);
    LabelsOfSelection(page, SaveSelectedEnv(PageEnvType(page), name, linesep), name, previous);
  }

  lemma LabelsOfSelection(page: Page, file: FileState, name: string, previous: string)
    requires LoadSelectedEnv(file) == Ok(Stored(PageEnvType(page), name)) && name != []
    ensures LoadAndDisplay(page, file, previous) == SelectedPrefix(page) + name
    ensures LoadAndDisplay(OtherPage(page), file, previous) == NothingSelected(OtherPage(page))
  {
    var sel := Stored(PageEnvType(page), name);
    var other := OtherPage(page);
    DisplayOfLoaded(page, file, previous, sel);
    DisplayOfLoaded(other, file, previous, sel);
    assert PageEnvType(other)[0] != PageEnvType(page)[0];
  }

  /** A readable settings file shows the label of what it holds. */
  lemma DisplayOfLoaded(page: Page, file: FileState, previous: string, sel: Selection)
    requires LoadSelectedEnv(file) == Ok(sel)
    ensures LoadAndDisplay(page, file, previous) == SelectionLabel(page, sel)
  {
  }

  lemma PageEnvTypeClean(page: Page)
    ensures IsCleanField(PageEnvType(page))
  {
    var t := PageEnvType(page);
    assert forall k :: 0 <= k < |t| ==> 'a' <= t[k] <= 'v';
  }

  function OtherPage(page: Page): Page {
    if page.VenvPage? then CondaPage else VenvPage
  }

  // ---------------------------------------------------------------------
  // creating a conda environment (`CreateCondaPage.create_and_show_info`)

  /** What `create_and_show_info` does before the worker runs: the name
      chosen, the settings file written, the refilled picker, the label
      shown and the worker's command, if the worker starts. */
  datatype CondaStart = CondaStart(
    finalName: string,
    saved: FileState,
    picker: Picker,
    shown: string,
    command: Option<seq<string>>)

  /** `create_and_show_info` up to starting the worker. `conda` is what
      `conda env list` reports while the name is chosen, `condaRefill` what
      it reports when the picker is refilled after the save, and `before`
      the picker beforehand. When `create_conda_env` raises, the handler's
      `except` only reports the error: nothing is saved and no worker
      starts. When the refill raises, the selection is already saved, the
      picker is left cleared, the label keeps its text and no worker starts. */
  function StartCondaCreation(nameText: string, version: string, conda: ProcessResult, condaRefill: ProcessResult,
                              linesep: string, previous: string, before: Picker): (r: Option<CondaStart>)
    ensures r.None? <==> conda.Raised?
    ensures r.Some? ==> var start := r.value;
      && start.finalName !in Registry.ListCondaEnvs(conda).value
      && start.saved == SaveSelectedEnv("conda", start.finalName, linesep)
      && start.picker == LoadCondaEnvs(condaRefill, before)
      && (condaRefill.Raised? ==> start.shown == previous)
      && (!condaRefill.Raised? ==> start.shown == LoadAndDisplay(CondaPage, start.saved, previous))
      && (start.command.Some? <==> !condaRefill.Raised?)
      && (start.command.Some? ==>
            start.command.value == ["conda", "create", "-n", start.finalName, "python=" + version, "-y"])
      && ('\n' !in nameText && '\r' !in nameText ==> IsCleanField(start.finalName) && start.finalName != [])
  {
    match Registry.CreateCondaEnv(Strip(nameText), conda)
    case Err(_) => None
    case Ok(finalName) =>
      CondaNameClean(nameText, conda, finalName);
      var saved := SaveSelectedEnv("conda", finalName, linesep);
      var picker := LoadCondaEnvs(condaRefill, before);
      if condaRefill.Raised? then Some(CondaStart(finalName, saved, picker, previous, None))
      else
        Some(CondaStart(finalName, saved, picker, LoadAndDisplay(CondaPage, saved, previous),
                        Some(["conda", "create", "-n", finalName, "python=" + version, "-y"])))
  }

  /** What the finished handler leaves behind: the conda picker, the
      selection label, and the terminal it launched, if any. */
  datatype Completion = Completion(picker: Picker, shown: string, launch: Option<Launcher.Launch>)

  /** `handle_conda_process_completion`: on success the picker is reloaded
      from `condaAfter`, the label from `fileAfter` (the settings file as it
      is by then), and a terminal is launched for the environment. Either
      reload can raise, which ends the handler there. On failure only an
      error dialog is shown. */
  function HandleCondaCompletion(returnCode: int, envName: string, condaAfter: ProcessResult, fileAfter: FileState,
                                 before: Picker, previous: string, isNt: bool, popenRaises: bool): (r: Completion)
    ensures returnCode != 0 ==> r == Completion(before, previous, None)
    ensures returnCode == 0 ==> r.picker == LoadCondaEnvs(condaAfter, before)
    ensures condaAfter.Raised? ==> r.shown == previous
    ensures returnCode == 0 && !condaAfter.Raised? ==> r.shown == LoadAndDisplay(CondaPage, fileAfter, previous)
    ensures r.launch.Some? <==> returnCode == 0 && !condaAfter.Raised? && !fileAfter.Unreadable?
    ensures r.launch.Some? ==> r.launch.value == Launcher.LaunchActivatedCmd("conda", envName, isNt, popenRaises)
  {
    if returnCode != 0 then Completion(before, previous, None)
    else
      var picker := LoadCondaEnvs(condaAfter, before);
      if condaAfter.Raised? then Completion(picker, previous, None)
      else
        var shown := LoadAndDisplay(CondaPage, fileAfter, previous);
        match LoadSelectedEnv(fileAfter)
        case Err(_) => Completion(picker, shown, None)
        case Ok(_) => Completion(picker, shown, Some(Launcher.LaunchActivatedCmd("conda", envName, isNt, popenRaises)))
  }

  /** The whole flow: the start, what the worker emits for `child` (the
      `conda create` process), and what the finished handler does, if a
      finished signal arrives. `condaAfter` and `fileAfter` are what
      `conda env list` and the settings file hold by then. */
  function CreateConda(nameText: string, version: string, conda: ProcessResult, condaRefill: ProcessResult,
                       linesep: string, previous: string, before: Picker, child: ProcessRunner.Child,
                       condaAfter: ProcessResult, fileAfter: FileState, isNt: bool, popenRaises: bool)
    : (r: (Option<CondaStart>, seq<ProcessRunner.Event>, Option<Completion>))
    ensures r.0.None? <==> conda.Raised?
    ensures r.0.None? || r.0.value.command.None? ==> r.1 == [] && r.2.None?
    ensures r.0.Some? && r.0.value.command.Some? ==> r.1 == ProcessRunner.Trace(child, r.0.value.finalName)
    ensures r.2.Some? <==> !conda.Raised? && !condaRefill.Raised? && child.Ran?
    ensures r.2.Some? ==>
      (r.2.value.launch.Some? <==> child.exitCode == 0 && !condaAfter.Raised? && !fileAfter.Unreadable?)
    ensures r.2.Some? && r.2.value.launch.Some? ==>
      r.2.value.launch.value == Launcher.LaunchActivatedCmd("conda", r.0.value.finalName, isNt, popenRaises)
  {
    match StartCondaCreation(nameText, version, conda, condaRefill, linesep, previous, before)
    case None => (None, [], None)
    case Some(start) =>
      if start.command.None? then (Some(start), [], None)
      else
        var trace := ProcessRunner.Trace(child, start.finalName);
        var completion :=
          if trace != [] && trace[|trace| - 1].Finished? then
            var last := trace[|trace| - 1];
            Some(HandleCondaCompletion(last.returnCode, last.envName, condaAfter, fileAfter, start.picker, start.shown,
                                       isNt, popenRaises))
          else None;
        (Some(start), trace, completion)
  }

  /** When nothing touches the settings file while `conda create` runs, a
      successful run shows the new environment as selected and launches
      its terminal unless the conda reload raises. */
  lemma CreateCondaUndisturbed(nameText: string, version: string, conda: ProcessResult, condaRefill: ProcessResult,
                               linesep: string, previous: string, before: Picker, child: ProcessRunner.Child,
                               condaAfter: ProcessResult, isNt: bool, popenRaises: bool)
    requires '\n' !in nameText && '\r' !in nameText
    requires TextIO.IsLineSeparator(linesep)
    ensures var start := StartCondaCreation(nameText, version, conda, condaRefill, linesep, previous, before);
      start.Some? && start.value.command.Some? && child.Ran? && child.exitCode == 0 && !condaAfter.Raised? ==>
        var r := CreateConda(nameText, version, conda, condaRefill, linesep, previous, before, child, condaAfter,
                             start.value.saved, isNt, popenRaises);
        && r.2.Some?
        && r.2.value.shown == SelectedPrefix(CondaPage) + start.value.finalName
        && r.2.value.launch.Some?
  {
    var start := StartCondaCreation(nameText, version, conda, condaRefill, linesep, previous, before);
    if start.Some? && start.value.command.Some? && child.Ran? && child.exitCode == 0 && !condaAfter.Raised? {
      var st := start.value;
      assert IsCleanField(st.finalName) && st.finalName != [] && st.saved == SaveSelectedEnv("conda", st.finalName, linesep);
      CreateCondaFinishes(nameText, version, conda, condaRefill, linesep, previous, before, child, condaAfter,
                          st.saved, isNt, popenRaises, st);
      CompletionAfterSave(st.finalName, linesep, condaAfter, st.picker, st.shown, isNt, popenRaises);
    }
  }

  /** Once the worker has started, a run of `child` that exits with 0 hands
      the finished handler that code and the created name. */
  lemma CreateCondaFinishes(nameText: string, version: string, conda: ProcessResult, condaRefill: ProcessResult,
                            linesep: string, previous: string, before: Picker, child: ProcessRunner.Child,
                            condaAfter: ProcessResult, fileAfter: FileState, isNt: bool, popenRaises: bool,
                            st: CondaStart)
    requires StartCondaCreation(nameText, version, conda, condaRefill, linesep, previous, before) == Some(st)
    requires st.command.Some? && child.Ran? && child.exitCode == 0
    ensures CreateConda(nameText, version, conda, condaRefill, linesep, previous, before, child, condaAfter,
                        fileAfter, isNt, popenRaises).2
            == Some(HandleCondaCompletion(0, st.finalName, condaAfter, fileAfter, st.picker, st.shown, isNt, popenRaises))
  {
    var trace := ProcessRunner.Trace(child, st.finalName);
    assert trace[|trace| - 1] == ProcessRunner.Finished(0, st.finalName);
  }


  /** A successful finish with the settings file as saved at the start
      shows the environment and launches its terminal, unless the conda
      reload raises. */
  lemma CompletionAfterSave(name: string, linesep: string, condaAfter: ProcessResult, before: Picker,
                            previous: string, isNt: bool, popenRaises: bool)
    requires IsCleanField(name) && name != []
    requires TextIO.IsLineSeparator(linesep)
    ensures var r := HandleCondaCompletion(0, name, condaAfter, SaveSelectedEnv("conda", name, linesep), before,
                                           previous, isNt, popenRaises);
      !condaAfter.Raised? ==> r.shown == SelectedPrefix(CondaPage) + name && r.launch.Some?
  {
    LabelAfterSave(CondaPage, name, linesep, previous);
  }


  /** A name typed on one line yields a clean, non-empty environment name. */
  lemma CondaNameClean(nameText: string, conda: ProcessResult, finalName: string)
    requires Registry.CreateCondaEnv(Strip(nameText), conda) == Ok(finalName)
    ensures '\n' !in nameText && '\r' !in nameText ==> IsCleanField(finalName) && finalName != []
  {
    var base := Registry.BaseName(Strip(nameText));
    var k: nat :| finalName == Registry.Candidate(base, k);
    if '\n' !in nameText && '\r' !in nameText {
      BaseNameClean(nameText);
      CandidateClean(base, k);
    }
  }

  /** The name typed, stripped and defaulted, is clean when typed on one line. */
  lemma BaseNameClean(nameText: string)
    requires '\n' !in nameText && '\r' !in nameText
    ensures IsCleanField(Registry.BaseName(Strip(nameText))) && Registry.BaseName(Strip(nameText)) != []
  {
    StripKeeps(nameText, '\n');
    StripKeeps(nameText, '\r');
  }

  lemma StripKeeps(s: string, c: char)
    ensures c !in s ==> c !in Strip(s)
  {
  }

  lemma CandidateClean(base: string, k: nat)
    requires IsCleanField(base) && base != []
    ensures IsCleanField(Registry.Candidate(base, k)) && Registry.Candidate(base, k) != []
  {
    if k > 0 {
      var digits := Decimal.NatToString(k);
      var name := base + "_" + digits;
      assert name == Registry.Candidate(base, k);
      assert name[0] == base[0];
      assert name[|name| - 1] == digits[|digits| - 1];
      assert forall i :: 0 <= i < |name| ==> (i < |base| && name[i] == base[i]) || name[i] == '_' || Decimal.IsDigit(name[i]);
    }
  }

  /** The environment created is the one saved as selected, and shown as
      selected once the refill succeeds. */
  lemma StartCondaCreationSelects(nameText: string, version: string, conda: ProcessResult, condaRefill: ProcessResult,
                                  linesep: string, previous: string, before: Picker)
    requires '\n' !in nameText && '\r' !in nameText
    requires TextIO.IsLineSeparator(linesep)
    ensures var r := StartCondaCreation(nameText, version, conda, condaRefill, linesep, previous, before);
      r.Some? ==>
        && LoadSelectedEnv(r.value.saved) == Ok(Stored("conda", r.value.finalName))
        && (r.value.command.Some? ==> r.value.shown == SelectedPrefix(CondaPage) + r.value.finalName)
  {
    var r := StartCondaCreation(nameText, version, conda, condaRefill, linesep, previous, before);
    if r.Some? {
      var name := r.value.finalName;
      assert IsCleanField(name) && name != [];
      LabelAfterSave(CondaPage, name, linesep, previous);
    }
  }

  /** When the refill after the save raises, the `except` of the handler
      catches it: the settings file already names the new environment as
      selected, but the picker is left empty, the label unchanged, and no
      worker starts, so the environment is never created. */
  lemma RefillRaisedLeavesSelection(nameText: string, version: string, conda: ProcessResult, condaRefill: ProcessResult,
                                    linesep: string, previous: string, before: Picker)
    requires '\n' !in nameText && '\r' !in nameText
    requires TextIO.IsLineSeparator(linesep)
    requires !conda.Raised? && condaRefill.Raised?
    ensures var r := StartCondaCreation(nameText, version, conda, condaRefill, linesep, previous, before);
      && r.Some?
      && LoadSelectedEnv(r.value.saved) == Ok(Stored("conda", r.value.finalName))
      && r.value.picker.items == []
      && r.value.shown == previous
      && r.value.command.None?
  {
    StartCondaCreationSelects(nameText, version, conda, condaRefill, linesep, previous, before);
  }

  /** After a successful run the terminal opened activates exactly the
      environment just created. */
  lemma CreateCondaLaunches(nameText: string, version: string, conda: ProcessResult, condaRefill: ProcessResult,
                            linesep: string, previous: string, before: Picker, child: ProcessRunner.Child,
                            condaAfter: ProcessResult, fileAfter: FileState, isNt: bool, popenRaises: bool)
    requires '\n' !in nameText && '\r' !in nameText
    ensures var r := CreateConda(nameText, version, conda, condaRefill, linesep, previous, before, child, condaAfter,
                                 fileAfter, isNt, popenRaises);
      r.2.Some? && r.2.value.launch.Some? ==>
        var launch := r.2.value.launch.value;
        && !launch.NoName?
        && (launch.LaunchFailed? <==> popenRaises)
        && Launcher.ActivatedCondaEnv(launch.argv[2]) == Some(r.0.value.finalName)
  {
    var r := CreateConda(nameText, version, conda, condaRefill, linesep, previous, before, child, condaAfter,
                         fileAfter, isNt, popenRaises);
    if r.0.Some? {
      Launcher.CondaCommandActivates(r.0.value.finalName, isNt);
    }
  }
}
