# KamiSetup core, modelled in Dafny

KamiSetup is a small Qt desktop tool for Python environments. It creates venvs and conda environments, lists them, remembers which one is selected, and opens a terminal with that environment activated. It can also install a Python version. The GUI shells out to `py`, `conda` and `cmd.exe`. Beneath that sit a few sequential decision and string rules. This project models those rules and proves properties about them:

- unique-name resolution for new environments (`myenv`, `myenv_1`, …);
- parsing of `conda env list` output;
- discovery of local venvs;
- the two-line selection file written by `save_selected_env` and read by `load_selected_env`;
- patch-version resolution in `get_full_version`;
- the event trace of the `InstallWorker` thread;
- building the command line that launches an activated terminal;
- the venv-name sanitiser;
- the pickers and their placeholder entries;
- the "selected environment" labels;
- the conda creation flow;
- the enabled state of the "Install Python" button.

Modules, one per component:

- `PyStr`: the Python `str` behaviour the code relies on (`isspace`, `strip`, `split()`, `split(sep)`, `splitlines`, `<`).
- `Decimal`: `str(n)` and `int(s)`.
- `Outcomes`: `Option`, `Result`, process outcomes and exceptions.
- `TextIO`: text-mode newline translation and `readline`.
- `Registry`: name search, conda list parsing, venv discovery.
- `SelectionStore`: the selection file.
- `VersionResolver`: `get_full_version` as written, plus the intended resolver.
- `VersionFindings`: the discrepancy between the two resolvers.
- `ProcessRunner`: `InstallWorker.run`.
- `Launcher`: `launch_activated_cmd`.
- `Pages`: the venv and conda pages.
- `InstallPage`: the install button.

External effects become parameters of the model:

- the output and exit status of a child process (`ProcessResult`, `Child`);
- the directory listing (`Listing`) and the settings file (`FileState`);
- the fetched release index (`IndexFetch`);
- `os.name` (`isNt`), `os.linesep` (`linesep`);
- whether `Popen` raises (`popenRaises`) and the answer to a dialog (`launchChosen`).

Where the code and its documentation disagree, the model follows the code:

- `load_selected_env` catches only `FileNotFoundError`, so any other read error reaches the caller. `load_and_display` then keeps its old label.
- `find_local_venvs` raises on an unreadable directory. `load_venvs` then leaves the combo empty (it was cleared first) and the buttons unchanged.
- The "Check Python Version" handler does not catch `FileNotFoundError` or any other exception except `CalledProcessError`. A missing `py` launcher therefore leaves the install button as it was.
- Two calls read the child's output as text with the locale codec: the `check_output(..., text=True)` of `conda env list` and the `Popen(..., text=True)` pipe of `InstallWorker`. For them, undecodable output raises `UnicodeDecodeError`, and in `check_output` that happens before the exit status is looked at. Any call, `check_call` included, can also raise an `OSError` other than `FileNotFoundError` while spawning. `list_conda_envs` catches neither, so the error passes through `create_conda_env` and `load_conda_envs`. `load_conda_envs` leaves the combo empty, since it was cleared first, and the buttons unchanged. In `InstallWorker.run`, `readline` raises after the lines already read were emitted, and no finished signal follows (`ProcessResult.Raised`, `Child.ReadFailed`).
- `start_python_installation` hands `InstallWorker` a Python callable where `Popen` expects a command. The thread raises before emitting anything, so no finished signal arrives and the install button stays disabled (`InstallPage.InstallLeavesButtonDisabled`).
- `get_full_version` is documented to return the latest patch. It actually returns the patch that is smallest as a string (see Findings).

## Model

| member | source | states |
|---|---|---|
| Registry.ResolveUniqueName | backend_functions.py:81-86 | The loop returns `base` or `base_k`. The name is not taken, every earlier candidate `base`, `base_1` … `base_{k-1}` is taken, and `k` never exceeds the number of taken names. It equals the first-free-candidate reference `UniqueName`. |
| Registry.BaseName | backend_functions.py:81 | `env_name or "myenv"` is never empty, and a non-empty name is used as given. |
| Registry.Candidate | backend_functions.py:86 | Every candidate `base` or `f"{base}_{num}"` starts with `base`. It equals `base` exactly for index 0. |
| Registry.UniqueIndex | backend_functions.py:84-86 | Only one suffix index has a free candidate with every earlier candidate taken. The first-free search finds it. |
| Registry.FreeIndex | backend_functions.py:84-86 | Starting after a run of taken candidates, the search ends at a free candidate. Everything before it is taken, and the index is at most the number of taken names, so the search terminates. |
| Registry.CandidateInjective | backend_functions.py:86 | `base_j` and `base_k` are different names for different indices, so the candidates never repeat. |
| Registry.CandidatesBound | backend_functions.py:84-86 | If the first `n` candidates are all taken, at least `n` names are taken. This bounds the loop. |
| Registry.CreateVirtualEnv | backend_functions.py:79-90 | The name is the first free candidate of `env_name or "myenv"` among existing paths. The command is `py -<version> -m venv <name>`. It succeeds exactly when `py` ran and exited 0, and then returns the name. A missing `py` or a non-zero exit gives the corresponding error. Any other exception of the call is an error the function does not catch. |
| Registry.EnvName | backend_functions.py:111 | The first word of a listed line is a non-empty, whitespace-free token. |
| Registry.EnvNameFirstWord | backend_functions.py:111 | That word is exactly the first maximal run of non-whitespace characters of the line. |
| Registry.ListsEnv | backend_functions.py:110 | The line filter: the stripped line is non-empty, the unstripped line does not start with `#`, and it contains a U+0020 space. `Registry.LineEnvMember` and `Registry.ParseEnvListMembers` state what passing it means for the result. |
| Registry.LineEnv | backend_functions.py:110-112 | One output line contributes at most one name, and that name is a token. |
| Registry.ParseEnvList | backend_functions.py:109-113 | The parsed names are never more than the lines, and each is a token. |
| Registry.ParseEnvListMembers | backend_functions.py:109-113 | A name is listed exactly when some line is non-blank after stripping, does not start with `#`, contains a space, and has that name as its first word. |
| Registry.LineEnvMember | backend_functions.py:110-112 | A line contributes a name exactly when it passes the filter and starts with that name. |
| Registry.ParseEnvListContributions | backend_functions.py:109-113 | A name is listed exactly when some line contributes it. |
| Registry.ParseEnvListAppend | backend_functions.py:109-112 | Parsing goes line by line and keeps order: the names of `a + b` are those of `a` followed by those of `b`. |
| Registry.ParseEnvListLine | backend_functions.py:110-112 | A single line yields its first word if it passes the filter, and nothing otherwise. |
| Registry.ListCondaEnvs | backend_functions.py:103-116 | A missing `conda` or a non-zero exit gives the empty list, not an error. Any other exception of `check_output` escapes, and only that case is an error. Otherwise the result is the parse of the output's lines. |
| Registry.ListCondaEnvsOfLines | backend_functions.py:106-113 | When conda prints one terminated line per entry, `splitlines` recovers those lines. The result is then the names parsed from them. |
| Registry.Elements | backend_functions.py:138 | The membership test `final_name in list_conda_envs()` sees exactly the listed names. |
| Registry.CreateCondaEnv | backend_functions.py:132-144 | When `list_conda_envs` raises, so does the search, and only then. Otherwise the chosen name is not listed. It is `base_k` for some `k` no larger than the list, and every earlier candidate is listed. |
| Registry.CreateCondaEnvWithoutConda | backend_functions.py:134-142 | When conda is missing, the list is empty and the requested (or default) name is used as is. |
| Registry.VenvNames | backend_functions.py:69-76 | No more names than entries. A name is reported exactly when some entry of that name is a directory holding `Scripts/activate.bat`. |
| Registry.IsVenv | backend_functions.py:72-74 | An entry counts as a venv when it is a directory holding `Scripts/activate.bat`. `Registry.VenvNamesEmpty` and `Registry.FindLocalVenvs` state the consequences for the listing. |
| Registry.VenvNamesEmpty | backend_functions.py:69-76 | No venv is reported exactly when no entry qualifies. |
| Registry.VenvNamesAppend | backend_functions.py:70-75 | Discovery keeps listing order: the venvs of `a + b` are those of `a` followed by those of `b`. |
| Registry.FindLocalVenvs | backend_functions.py:67-76 | An unreadable directory is an error, and only then. Otherwise the result is the qualifying names in listing order. |
| SelectionStore.SaveSelectedEnv | backend_functions.py:147-150 | Saving always leaves a settings file on disk. Read back in text mode, it holds `type\nname` for either line separator, provided neither field contains a carriage return. |
| SelectionStore.LoadSelectedEnv | backend_functions.py:153-161 | A missing file gives `(None, None)` and only a missing file does. An unreadable file raises and only that does. A readable file gives two fields with no line break and no edge whitespace. Which two lines these are is stated by `LoadFirstTwo`. |
| SelectionStore.ParseSelection | backend_functions.py:156-159 | Two `readline().strip()` calls give two clean fields, whatever the text. `ParseFirstTwo` and `ParseOneLine` say which fields. |
| SelectionStore.ParseFirstTwo | backend_functions.py:156-159 | The fields are the first two lines of the text, each stripped. Anything after the second line is ignored. |
| SelectionStore.LoadFirstTwo | backend_functions.py:153-159 | A readable file gives the first two lines of its text, after newline translation, each stripped. |
| SelectionStore.ParseOneLine | backend_functions.py:156-159 | A text of one line with no newline gives that line, stripped, and an empty name. |
| SelectionStore.StripLine | backend_functions.py:157-158 | Stripping a line as `readline` returns it removes its only newline. |
| SelectionStore.LoadAfterSave | backend_functions.py:149-159 | Saving and then loading gives back the two fields, stripped, when neither contains a line break. This holds for both `\n` and `\r\n` line separators. |
| SelectionStore.SelectionRoundTrip | backend_functions.py:149-159 | For fields without line breaks or edge whitespace, loading what was saved gives exactly the two fields back. |
| TextIO.ReadNewlines | backend_functions.py:156 | Reading in text mode never yields a carriage return. |
| TextIO.WriteNewlines | backend_functions.py:149-150 | Writing in text mode turns each `\n` into `os.linesep`. With `\n` as the separator the content is the text itself. `TextIO.NewlinesRoundTrip` is the inverse for either separator. |
| TextIO.NewlinesRoundTrip | backend_functions.py:149-157 | Reading back what text mode wrote gives the written text again, for either line separator, when the text has no carriage return. |
| TextIO.ReadLine | backend_functions.py:157-158 | `readline` splits the text into a line and the rest with nothing lost. The line has no newline before its end, and only the final line may lack one. |
| TextIO.ReadLineAt | backend_functions.py:157 | A line followed by `\n` is read together with its newline, and the rest starts after it. |
| TextIO.ReadLineLast | backend_functions.py:158 | Text with no newline is read whole, leaving nothing. |
| VersionResolver.SortDescending | backend_functions.py:175 | `sort(reverse=True)` returns a permutation of its input in descending string order. |
| VersionResolver.Insert | backend_functions.py:175 | Inserting into a descending list adds exactly that element and keeps the list descending. |
| VersionResolver.MajorMinor | backend_functions.py:179 | `".".join(v.split(".")[:2])`: the first two dot-separated parts, rejoined. `VersionResolver.TripleParts` gives its value on `a.b.c`. |
| VersionResolver.VersionMap | backend_functions.py:177-180 | The dictionary the loop builds: each version is stored under its `major.minor`, and a later entry overwrites an earlier one. `VersionResolver.VersionMapKeys` and `VersionResolver.VersionMapLast` pin its keys and values. |
| VersionResolver.TripleParts | backend_functions.py:174-179 | `a.b.c` of three numerals splits into `[a, b, c]`, matches `\d+\.\d+\.\d+`, and has `major.minor` equal to `a.b`. |
| VersionResolver.VersionMapKeys | backend_functions.py:177-180 | The map has a key exactly when some version has that `major.minor`. |
| VersionResolver.VersionMapLast | backend_functions.py:177-180 | The value under a key is the last version in the loop order that has that key. |
| VersionResolver.GetFullVersion | backend_functions.py:164-190 | A failed request returns the input. Otherwise the result is either the input or a fetched version whose `major.minor` is the input. |
| VersionResolver.GetFullVersionAbsent | backend_functions.py:182 | With no version of the requested `major.minor`, the input comes back unchanged. |
| VersionResolver.GetFullVersionPicksSmallest | backend_functions.py:175-182 | Otherwise the result is the fetched version of that `major.minor` that is smallest as a string. No candidate is below it. |
| VersionResolver.SmallestAmongLater | backend_functions.py:175-180 | In a descending list, the last entry with a given key is not greater than any other entry with that key. |
| VersionResolver.GetFullVersionShape | backend_functions.py:174-185 | If the index holds only `d.d.d` strings, the result is the input or a `d.d.d` string whose first two components spell the input. |
| VersionResolver.NewestPatch | backend_functions.py:165 | This is the reference for the documented intent. It returns nothing exactly when no version matches. Otherwise it returns a matching version whose patch number is at least that of every match. |
| VersionResolver.LatestPatchVersion | backend_functions.py:164-190 | The corrected resolver falls back to the input on a failed request or when nothing matches. Otherwise it returns the matching release with the numerically greatest patch. |
| VersionFindings.AsWrittenPicksOlderPatch | backend_functions.py:175-182 | For two patches `p` and `q` of one release with `p` before `q` as strings, the code as written resolves to `a.b.p`. |
| VersionFindings.IntendedPicksNewerPatch | backend_functions.py:165 | On the same index, when `q` is the larger number, the intended resolver returns `a.b.q`. |
| VersionFindings.Python311Example | backend_functions.py:165-182 | With the index `["3.11.0", "3.11.9"]`, `3.11` resolves to `3.11.0` as written and to `3.11.9` as intended. |
| VersionFindings.PatchPairFacts | backend_functions.py:174-179 | Both entries of the two-patch index are `d.d.d` strings of release `a.b`, with patch numbers `p` and `q`. |
| ProcessRunner.OutputLines | backend_functions.py:49-55 | The read loop emits at most one line per character read. It emits nothing exactly when the stream is empty. |
| ProcessRunner.StripAll | backend_functions.py:53 | Each emitted line is the corresponding raw line, stripped. |
| ProcessRunner.OutputLinesCons | backend_functions.py:50-53 | A terminated first line is emitted stripped, and reading continues after its newline. |
| ProcessRunner.OutputLinesLast | backend_functions.py:50-55 | An unterminated last line is emitted stripped. An empty read ends the loop. |
| ProcessRunner.OutputLinesOf | backend_functions.py:49-55 | For a stream of terminated lines, every line is emitted once, stripped and in order. A bare `\n` line is emitted as `""`. |
| ProcessRunner.Outputs | backend_functions.py:53 | There is one output signal per emitted line, in order. |
| ProcessRunner.Trace | backend_functions.py:44-58 | A child that cannot be spawned yields no signal. A child whose output stops decoding yields the stripped lines read before that, and nothing else. A finished signal arrives exactly when the child ran to the end: it is then `finished(exit status, env name)` and comes last, and every earlier signal is an output line. |
| ProcessRunner.TraceOfLines | backend_functions.py:46-58 | A child printing `lines` (with either line separator) and exiting with `c` yields one stripped output per line, then `finished(c, env)`. |
| ProcessRunner.TerminatedNoReturn | backend_functions.py:47-50 | Lines free of carriage returns, printed one per line, contain no carriage return. |
| ProcessRunner.FinishedOnlyLast | backend_functions.py:57-58 | A finished signal appears only for a child that ran to the end, and only as the last event. |
| Launcher.NtJoin | backend_functions.py:259 | `ntpath.join` of a relative part appends it, with or without one backslash between. |
| Launcher.PosixJoin | backend_functions.py:259 | `posixpath.join` of a relative part appends it, with or without one slash between. |
| Launcher.ActivationScript | backend_functions.py:259 | The script path is `<name>` joined with `Scripts` and then `activate.bat`, using the platform's join rules. |
| Launcher.ActivationCommand | backend_functions.py:258-267 | The command line by environment type: `call <script> && where python && python --version` for `venv`, `conda activate <name> && conda info --envs` for `conda`, and the fixed error echo otherwise. `Launcher.CondaCommandActivates`, `Launcher.VenvCommandCallsScript` and `Launcher.UnknownTypeIgnoresName` state what each command does with the name. |
| Launcher.LaunchActivatedCmd | backend_functions.py:245-279 | An empty name builds and spawns nothing, and only an empty name does. Otherwise the spawn fails exactly when `Popen` raises. On `nt` the argv is `["cmd.exe", "/K", cmd]` with `CREATE_NEW_CONSOLE`. Elsewhere it is `["/bin/bash", "-c", cmd]` with no flags. |
| Launcher.Between | backend_functions.py:261-263 | A recovered middle part, put back between prefix and suffix, rebuilds the command. |
| Launcher.BetweenOf | backend_functions.py:261-263 | The middle of `prefix + m + suffix` is recovered as `m`. |
| Launcher.CondaCommandActivates | backend_functions.py:262-265 | The conda command is `conda activate <name> && conda info --envs`. The name it activates reads back as exactly `<name>`. |
| Launcher.CondaCommandInjective | backend_functions.py:263 | Different conda environments give different commands. |
| Launcher.VenvCommandCallsScript | backend_functions.py:258-261 | The venv command is `call <script> && where python && python --version`. The script read back is the venv's `Scripts\activate.bat`, and its path starts with the venv name. |
| Launcher.NtTrailingSeparatorIgnored | backend_functions.py:259 | On Windows, `env` and `env\` call the same activation script. |
| Launcher.UnknownTypeIgnoresName | backend_functions.py:266-267 | Any environment type other than `venv` and `conda` runs the same error command, whatever the name. |
| Pages.FormatVenvName | ui_pages.py:125-132 | For ASCII text, the length is preserved position by position. Only lower-case letters, digits and `_` remain. A position becomes `_` exactly when the input character is not alphanumeric, and alphanumerics are lower-cased in place. |
| Pages.FormatVenvNameIdempotent | ui_pages.py:125-132 | Formatting a formatted name changes nothing. |
| Pages.FormatVenvNameFixedPoint | ui_pages.py:127-130 | A name is left unchanged exactly when it already consists of folder characters. |
| Pages.Fill | ui_pages.py:299-308 | A refilled picker is never empty. It is enabled exactly when there are names, and then lists them in order. Otherwise it shows only the placeholder. |
| Pages.LoadVenvs | ui_pages.py:296-308 | An unreadable directory leaves the combo empty and the buttons unchanged. Otherwise the combo and buttons are enabled exactly when some entry is a venv. The combo then lists the venvs in discovery order; if there are none, it holds only `No venvs found.` |
| Pages.LoadCondaEnvs | ui_pages.py:449-460 | The conda picker ends up empty exactly when `list_conda_envs` raises, and then the buttons keep their state. Otherwise it is enabled exactly when `list_conda_envs` lists something, and then holds those names in order. When nothing is listed, it holds only `No conda envs found.` |
| Pages.CurrentText | ui_pages.py:312 | `currentText()` after a refill is the first item of the combo, or the empty string when the combo is empty. |
| Pages.ActivateOnly | ui_pages.py:332-343 | Choosing the placeholder does nothing, and only the placeholder does. Any other entry is saved as the selected venv. |
| Pages.ShowVenvActivation | ui_pages.py:310-330 | A terminal is launched exactly when a real entry is chosen and the dialog asks for it. It is launched for that venv. |
| Pages.ShowCondaActivation | ui_pages.py:462-497 | Choosing the placeholder does nothing, and only the placeholder does. Otherwise the environment is saved first and launched only on request. |
| Pages.EmptyVenvListInert | ui_pages.py:296-336 | With no venv found, the picker is disabled, and neither "Activate Only" nor the launch button has any effect. |
| Pages.PlaceholderShadowsVenv | ui_pages.py:296-336 | A real venv named `No venvs found.` is listed but can never be selected or launched. |
| Pages.ListedVenvSelectable | ui_pages.py:296-339 | Any other listed venv is saved by "Activate Only" under its own name. |
| Pages.LoadAndDisplay | ui_pages.py:346-352 | A missing settings file shows "nothing selected". An unreadable one raises, so the label keeps its text. |
| Pages.SelectionLabel | ui_pages.py:349-352 | The label for a loaded selection: `Selected venv: <name>` or `Selected conda env: <name>` when the stored type is the page's own and the name is non-empty, and the page's "nothing selected" text otherwise (also lines 591-594). `Pages.SelectionLabelNames` is the converse. |
| Pages.SelectionLabelNames | ui_pages.py:588-594 | A page shows `Selected …: <n>` exactly when the stored type is its own and the name `<n>` is non-empty. |
| Pages.PagesExclusive | ui_pages.py:346-352 | The venv page and the conda page never both show a selection. |
| Pages.LabelAfterSave | ui_pages.py:339-352 | After a page saves a clean, non-empty name, the file loads back as that selection. That page shows the name, and the other page shows nothing selected. |
| Pages.LabelsOfSelection | ui_pages.py:588-594 | A stored selection of one page's type shows on that page and not on the other. |
| Pages.PageEnvTypeClean | backend_functions.py:150 | The type written by each page has no line break or edge whitespace, so it survives the round trip. |
| Pages.StartCondaCreation | ui_pages.py:499-522 | When `create_conda_env` raises, the handler only reports it: nothing is saved and no worker starts. Otherwise the name chosen is not listed by conda, the settings file holds `conda` and that name, and the picker is refilled from a second listing. When that refill raises, the label keeps its text and no worker starts, though the file stays saved. Otherwise the label is reloaded and the worker runs `conda create -n <name> python=<version> -y`. A name typed on one line yields a clean, non-empty name. |
| Pages.HandleCondaCompletion | ui_pages.py:524-543 | A non-zero status only reports the error: picker, label and terminal are untouched. Status 0 reloads the picker from `conda env list`, then the label from the settings file as it is by then. It launches a terminal for the environment exactly when neither reload raises, that is, when `list_conda_envs` does not raise and the settings file is not unreadable. |
| Pages.CreateConda | ui_pages.py:499-543 | No worker runs when the name search or the picker refill raises. Otherwise the worker reports on the name chosen. The completion handler runs exactly when neither listing raised and the child ran to the end. It launches the conda terminal for that name exactly when the child exited 0, the conda reload does not raise and the settings file is readable at that point. |
| Pages.CondaNameClean | ui_pages.py:501-505 | The stripped text of a one-line name field yields a clean, non-empty environment name. |
| Pages.StripKeeps | ui_pages.py:501 | Stripping introduces no character that was not there. |
| Pages.CandidateClean | backend_functions.py:142 | `base_k` of a clean, non-empty base is clean and non-empty. |
| Pages.StartCondaCreationSelects | ui_pages.py:509-511 | Once the name is chosen, it is the one saved as selected. When the refill succeeds, the label shows it too. |
| Pages.RefillRaisedLeavesSelection | ui_pages.py:505-522 | When the refill at line 510 raises after the save, the file already names the new environment. The picker is left empty, the label unchanged, and no worker starts. |
| Pages.CreateCondaLaunches | ui_pages.py:527-537 | When a terminal is launched after `conda create`, it fails exactly when `Popen` raises. It activates exactly the environment just created. |
| Pages.CreateCondaUndisturbed | ui_pages.py:509-537 | If the worker started and the settings file is left as saved at the start, a successful `conda create` shows the new environment as selected. It also launches its terminal, unless the conda reload raises. |
| Pages.CreateCondaFinishes | ui_pages.py:514-527 | Once the worker started, a child that exits 0 hands the finished handler status 0 and the created name. |
| Pages.CompletionAfterSave | ui_pages.py:531-537 | On status 0, with the settings file as saved for a clean name, the label names that environment and a terminal is launched, unless the conda reload raises. |
| InstallPage.InstallButtonLastDecision | ui_pages.py:649-700 | The button is enabled exactly when some event decided its state and the last such event enabled it. Enabling events are a version check whose `py` exited non-zero and a failed install. Successful checks, install starts and successful installs disable it. A check whose call raises decides nothing. It starts disabled. |
| InstallPage.Step | ui_pages.py:653-700 | One handler's effect. A deciding event sets the button to whether it enables it: a version check that ran sets it enabled exactly when `py` exited non-zero, a click disables it, and a finish enables it exactly on a non-zero status. A version check whose call raises leaves it as it was. |
| InstallPage.InstallButton | ui_pages.py:649-700 | The button after a sequence of events: disabled at construction, then each event applied in order. `InstallPage.InstallButtonLastDecision` characterises it. |
| InstallPage.StaysDisabled | ui_pages.py:653-700 | Events that never enable the button keep a disabled button disabled. |
| InstallPage.WorkerEvents | ui_pages.py:685 | Of the worker's signals, only finished signals reach the button handler. |
| InstallPage.WorkerEventsLast | ui_pages.py:685-689 | A worker trace ending in a finished signal delivers that signal last. |
| InstallPage.StartInstallation | ui_pages.py:671-686 | Starting an installation disables the button and produces no further event, because the worker cannot spawn a callable. |
| InstallPage.InstallLeavesButtonDisabled | ui_pages.py:671-686 | After "Install Python" is clicked, the button stays disabled until an event enables it. |
| InstallPage.RunningWorkerReports | ui_pages.py:689-700 | Had the worker run a real installer, the button would end up enabled exactly when the installer failed. |
| Decimal.NatToString | backend_functions.py:86 | The suffix `str(num)` is a non-empty string of digits, with no leading zero unless `num` is 0. |
| Decimal.NatToStringRoundTrip | backend_functions.py:86 | Reading back the numeral of `num` gives `num`. |
| Decimal.NatToStringInjective | backend_functions.py:86 | Different suffix numbers give different numerals. |
| PyStr.Strip | backend_functions.py:157 | `strip()` returns a slice of its input with only whitespace around it. The result has no whitespace at either end. |
| PyStr.LStrip | backend_functions.py:111 | `lstrip()` returns a suffix of its input. Only whitespace was dropped, and the result is empty or starts with a non-whitespace character. |
| PyStr.RStrip | backend_functions.py:157 | `rstrip()` returns a prefix of its input. Only whitespace was dropped, and the result is empty or ends with a non-whitespace character. |
| PyStr.StripEmptyIff | backend_functions.py:110 | A line is blank after stripping exactly when it is all whitespace. |
| PyStr.StripTrailingSpace | backend_functions.py:53 | A trailing newline does not change the stripped line. |
| PyStr.SplitWs | backend_functions.py:111 | `split()` yields whitespace-free, non-empty words, and none exactly for an all-whitespace line. The first word is the first maximal run of non-whitespace characters. |
| PyStr.SplitLines | backend_functions.py:109 | `splitlines()` yields lines with no line boundary inside, never more than the characters. |
| PyStr.SplitLinesTerminated | backend_functions.py:109 | `splitlines` recovers lines written one per `\n`-terminated line. |
| PyStr.SplitOn | backend_functions.py:179 | `split(".")` yields at least one part, and no part contains the separator. |
| PyStr.JoinOn | backend_functions.py:179 | `".".join(parts)`: the parts in order with one separator between neighbours. `PyStr.SplitJoin` is its inverse. |
| PyStr.SplitJoin | backend_functions.py:179 | Splitting a joined list recovers the parts when none contains the separator. |
| PyStr.LexLess | backend_functions.py:175 | Python's `<` on strings: the first differing code point decides, and a proper prefix comes first. `PyStr.LexLessTotal`, `PyStr.LexLessTransitive` and `PyStr.LexLessCommonPrefix` are its order laws. |
| PyStr.LexLessTotal | backend_functions.py:175 | String order is total: two strings are equal or one is below the other. |
| PyStr.LexLessTransitive | backend_functions.py:175 | String order is transitive. |
| PyStr.LexLessCommonPrefix | backend_functions.py:175 | A common prefix does not change the order of two strings. |

## Left out

- The Qt widgets, layouts, dialogs, status-bar messages, style sheet and the main window in `one_click_gui.py`. Only the state they show is modelled.
- Threads and signals. `InstallWorker` is modelled as the sequence of signals it emits.
- Real process spawning, `check_output`/`check_call`, file I/O and `os.listdir`. Their observable outcomes are parameters.
- The network request and the HTML regex of `get_full_version`. The fetched index is taken as the list the regex finds, and "numeral" means ASCII digits, while the regex `\d` would also match other Unicode digits.
- `download_and_install_python` and `download_progress_hook`: a network download, an installer run and float arithmetic. The version it asks for comes from `get_full_version`, which is modelled.
- Log timestamps from `log_message` (`datetime.now`) and all log output.
- `check_conda` and `CreateCondaPage.check_conda_installation`. `check_conda` reports whether `conda --version` runs and exits 0. When it does not, the page constructor disables its controls, and `check_conda_installation` disables the create button. Neither ever enables anything. Apart from that they only log and show a status message.
- `save_setting` and `load_settings`. They are never called, and they would write JSON to the same `settings.json` that the selection store uses as two plain lines.
- `CreateVenvPage.check_python_version`, `install_python` and `create_and_show_info`, and `CreateCondaPage.show_activation_info`. These are dialog flows around operations that are modelled (`Registry.CreateVirtualEnv`, `Launcher.LaunchActivatedCmd`).
- Write errors when saving the selection. `save_selected_env` is modelled as always writing the file.
- Pages.FormatVenvName: defined for ASCII text only. Unicode `str.lower` and `str.isalnum` are not modelled.
- Launcher.NtJoin: covers drive letters and trailing separators as in Python 3.12 and later. UNC paths and the drive rules of earlier Python versions are not modelled.
- Registry.CreateCondaEnv: takes one snapshot of `conda env list`. The source re-runs it on every iteration, and the model assumes the list does not change during the search.

## Findings

| source | as written | input that shows it | evidently intended | confidence | as-written member | corrected member |
|---|---|---|---|---|---|---|
| backend_functions.py:175-182 | The versions are sorted descending as strings. Each later entry then overwrites the map value, so the smallest string of each `major.minor` wins. | `get_full_version("3.11")` with the index `["3.11.0", "3.11.9"]` returns `3.11.0`. | The latest patch of `3.11`, i.e. `3.11.9`, with patches compared as numbers (line 165). | high; not executed | VersionFindings.Python311Example | VersionResolver.LatestPatchVersion |
