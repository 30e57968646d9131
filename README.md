# woctors-mod-manager, modelled in Dafny

The project has two scripts, and this is a model of their core.

`automate_updates.py` builds a Minecraft modlist from a fixed template of mods:
- For every template entry it fetches the candidate releases, from CurseForge or from Modrinth.
- It sorts them in descending string order of a key: CurseForge files by `fileDate` (newest first), Modrinth versions by `name`. Version names compare as strings, so `1.9` sorts above `1.10`.
- It lists at most `MAX_ENTRIES` (8). A listed release is marked CURRENT when its artifact `output_dir/[name]file_name` already exists.
- It reads a number from the user with `int()`. The line may carry surrounding white space, one sign and underscores between digits. It may hold at most 4300 digits, the default conversion limit of current Python releases.
- It writes the chosen release's `file_name` and `download_url` into the entry.

`mod_updater.py` installs such a manifest. `JsonSource.do_for_each` runs `update_mod` on every item in order. `update_mod` does the following:
- It creates the output directory.
- It does nothing more when the artifact `[name]file_name` is already there.
- Otherwise it downloads the artifact. If the download succeeds, it first deletes every file of the output directory whose name starts with the mod name.

Module layout:
- `Wrappers`: `Option` and `Result`.
- `Paths`: file paths and the artifact name `[name]file_name`.
- `Sorting`: Python's stable `list.sort(reverse=True)` on string keys. It is given as a reference insertion sort. The lemmas prove that the result is sorted, is a permutation, is stable, and is the only stable descending sort.
- `Input`: `get_input_num`, that is, Python's `int()` on the typed line.
- `Updates`: `automate_updates.py`.
- `ModUpdater`: `mod_updater.py`. The file system is a class `FileSystem`, whose `files` and `dirs` fields `UpdateMod` updates in place.

The network replies, the typed line, the files already present and the HTTP status of each download are all parameters.

Behaviour modelled as the code has it, where a description of the intent might say otherwise:
- With no number typed, the default is the last listed CURRENT release. When nothing is CURRENT, the default is unbound and the run fails (`UnboundDefault`). Non-numeric input is read as no number: there is no second prompt.
- A typed number indexes the whole sorted list, not only the listed window. Negative numbers count from the end, as in Python. Anything else is an `IndexOutOfRange` error.
- The check after the dispatch in `generate_modlist` tests `entry` rather than `result`. An unrecognised source tag therefore appends `None` to the output instead of raising.
- For a mod name that is not empty and does not begin with `[`, the cleanup pattern `name*` never matches an artifact `[name]...`. Older versions of a mod therefore stay in place next to the new one (`InstallKeepsArtifacts`, `StaleArtifactsStay`). An empty mod name makes the pattern `*`, which deletes every other file of the output directory, artifacts included (`InstallEmptyNameClearsDir`).
- The Modrinth game version argument is not used.
- For manifest items whose names are not empty and do not begin with `[`, the installer never deletes the artifacts of mods that are no longer in the manifest: nothing but the `name*` cleanup of a listed mod removes files (`StaleArtifactsStay`).

## Model

| member | source | states |
|---|---|---|
| Input.ParseInt | automate_updates.py:31-36 | `get_input_num`: a number exactly when the stripped line is an optional sign and a digit string of at most 4300 digits; a negative number only after a `-` |
| Input.ParseDecimal | automate_updates.py:31-36 | every integer written in decimal reads back as itself, or as no number when it has more than 4300 digits |
| Input.ParseNatDigits | automate_updates.py:31-36 | a string of decimal digits reads as the number it denotes, or as no number beyond 4300 digits |
| Input.ParseNegatedDigits | automate_updates.py:31-36 | `-` followed by digits reads as the negated number, or as no number beyond 4300 digits |
| Input.ParseSigned | automate_updates.py:31-36 | a `+` before a digit string keeps its value and a `-` negates it |
| Input.ParseLeadingZero | automate_updates.py:31-36 | a leading zero keeps the value, unless it takes the literal beyond 4300 digits |
| Input.ParseUnderscore | automate_updates.py:31-36 | an underscore between two digit strings keeps the value |
| Input.ParseIgnoresSurroundingSpace | automate_updates.py:31-36 | white space around the typed line does not change what it reads as |
| Input.StripAround | automate_updates.py:31-36 | stripping removes any white space added on both sides |
| Input.TrimStartRemovesSpace | automate_updates.py:31-36 | stripping the front drops only white space and keeps the rest in place |
| Input.TrimEndRemovesSpace | automate_updates.py:31-36 | stripping the back drops only white space and keeps the rest in place |
| Input.ParseRejectsForeign | automate_updates.py:31-36 | for code points up to U+00A0: a line holding a character that is not white space, sign, digit or `_` reads as no number (`None`) |
| Input.LettersReadAsNoNumber | automate_updates.py:31-36 | `abc` reads as no number |
| Input.SeparatorReadsAsNoNumber | automate_updates.py:31-36 | U+001C before a digit is not white space to `int()`: the line reads as no number |
| Input.NatDigitsValue | automate_updates.py:31-36 | the decimal digits of `n` denote `n` |
| Updates.Shown | automate_updates.py:62 | the menu lists `min(MAX_ENTRIES, n)` candidates: never more than either |
| Updates.FirstIdNamed | automate_updates.py:41-48 | the id of the first version type named `Minecraft <version>`, or `None` exactly when no item has that name |
| Updates.GetVersionId | automate_updates.py:41-48 | the loop returns at the first version type named `Minecraft <version>`, else `None` |
| Updates.IsCurrent | automate_updates.py:64-65 | defines CURRENT: the path `output_dir/[name]file_name` is among the existing files (also lines 97-98); `Markers` states its use |
| Updates.Markers | automate_updates.py:62-68 | one CURRENT marker per listed candidate, true exactly when its artifact exists; fails exactly when a listed candidate has no file |
| Updates.LastMarked | automate_updates.py:65-68 | the last marked position, or `None` exactly when nothing is marked |
| Updates.ScanWindow | automate_updates.py:62-69 | the display loop lists `min(8, n)` candidates, marks the current ones and keeps the last marked one as default; fails when a listed candidate has no file |
| Updates.Choose | automate_updates.py:75-78 | no number gives the default, or fails as unbound without one; a number `k` succeeds exactly when `-n <= k < n`, picking the index congruent to `k` |
| Updates.Filled | automate_updates.py:80-81 | the entry gets the chosen file name and URL; every other key is unchanged |
| Updates.Resolution | automate_updates.py:59-83 | defines the selection: sort, list, choose, fill; it has no contract of its own, and `DefaultIsLastCurrent`, `TypedIndexSelects`, `TypedIndexOutOfRange`, `ListedWithoutFileFails` and `ResolvedFromCandidate` state its behaviour |
| Updates.Resolve | automate_updates.py:59-83 | sort, list, choose and fill equal the selection `Resolution` for the parsed line |
| Updates.UpdateCurse | automate_updates.py:50-83 | queries files with the version type id found for the game version and page size 50, then selects among the files sorted by `fileDate` |
| Updates.CurseDownload | automate_updates.py:80-81 | a CurseForge file always names a download: its `fileName` and `downloadUrl` (no contract of its own) |
| Updates.ModrinthDownload | automate_updates.py:89-90 | a Modrinth version names the first element of `files`, or none when `files` is empty, where Python raises IndexError (lines 113-114 too; no contract of its own) |
| Updates.UpdateModrinth | automate_updates.py:85-116 | selects among the versions sorted by `name`, naming each by its first file |
| Updates.ResolvedFromCandidate | automate_updates.py:75-81 | a successful selection is filled from one of the fetched candidates |
| Updates.DefaultIsLastCurrent | automate_updates.py:65-76 | with no number typed, the selection is the last listed CURRENT candidate, and it fails as unbound exactly when none is CURRENT |
| Updates.TypedIndexSelects | automate_updates.py:77-78 | a typed `k` in range selects `data[k]` of the whole sorted list, from the end when negative |
| Updates.TypedIndexOutOfRange | automate_updates.py:77-78 | a typed `k` outside the sorted list fails with that index |
| Updates.ListedWithoutFileFails | automate_updates.py:95-101 | a listed Modrinth version without files makes the selection fail whatever is typed |
| Updates.EntryOutcome | automate_updates.py:156-168 | a missing source key fails; an unrecognised tag yields a `None` row; a selected row has its source removed and the file name and URL set, other keys kept |
| Updates.SelectEntry | automate_updates.py:156-168 | one loop iteration computes `EntryOutcome` |
| Updates.GenerateModlist | automate_updates.py:154-175 | the loop collects the rows of `Modlist`, stopping at the first failure |
| Updates.Modlist | automate_updates.py:154-168 | defines the rows of a run as a fold over the template; it has no contract of its own, and the four `Modlist...` lemmas state its behaviour |
| Updates.ModlistRowsInOrder | automate_updates.py:154-168 | a completed run has one row per template entry, in template order |
| Updates.ModlistCompletes | automate_updates.py:154-168 | the run completes when every entry's selection does |
| Updates.ModlistFailsAtFirstError | automate_updates.py:154-168 | a failed run fails with the error of the first failing entry, all earlier ones having succeeded |
| Updates.ModlistAbortsAtFirstError | automate_updates.py:154-168 | once a prefix of the template fails, the whole run fails with that error |
| Updates.BuiltInTemplateRowsAreEntries | automate_updates.py:119-152 | with the built-in template, every row of a completed run is an entry, never `None` |
| Sorting.SortDesc | automate_updates.py:60 | the reference for `list.sort(reverse=True)`: as long as its input (also line 93); the lemmas below prove it is sorted, a permutation, and stable |
| Sorting.Less | automate_updates.py:60 | Python's `<` on strings, lexicographic by code point; the `Less...` lemmas prove it a strict total order |
| Sorting.SortDescSorted | automate_updates.py:60 | the reference sort orders keys non-increasingly |
| Sorting.SortDescPermutes | automate_updates.py:60 | the reference sort is a permutation of its input |
| Sorting.SortDescStable | automate_updates.py:93 | elements with equal keys keep their relative order |
| Sorting.SortDescIsTheStableSort | automate_updates.py:60 | any stable descending ordering of the input is the reference sort |
| Sorting.SortedUnique | automate_updates.py:93 | two descending sequences that agree on each key's elements in order are equal |
| Sorting.InsertPermutes | automate_updates.py:60 | inserting adds exactly the one element |
| Sorting.InsertSorted | automate_updates.py:60 | inserting into a descending sequence keeps it descending |
| Sorting.InsertStable | automate_updates.py:60 | inserting places the element before the equal keys already present |
| Sorting.HeadIsGreatest | automate_updates.py:60 | the first element of a descending sequence has the greatest key |
| Sorting.LessTransitive | automate_updates.py:60 | string order is transitive |
| Sorting.LessTotal | automate_updates.py:60 | any two different strings are ordered |
| Sorting.LessAsymmetric | automate_updates.py:60 | string order is asymmetric |
| Paths.ArtifactName | mod_updater.py:41-43 | `[name]file_name`: the bracketed name and then the file name |
| Paths.ArtifactNameInjective | mod_updater.py:41-43 | for names without `]`, different mods or files give different artifact names |
| Paths.ArtifactNeverPrefixedByName | mod_updater.py:57 | an artifact name never starts with a mod name that is not empty and does not begin with `[` |
| ModUpdater.OutputDir | mod_updater.py:42 | `install_dir/output_dir` (no contract of its own) |
| ModUpdater.ArtifactPath | mod_updater.py:43 | `output_dir/[name]file_name`, the artifact's path (no contract of its own) |
| ModUpdater.Matches | mod_updater.py:57 | the glob yields exactly the files directly in the directory whose name starts with the prefix |
| ModUpdater.Install | mod_updater.py:40-65 | an existing artifact means no request and no change; otherwise a download is requested, a failed one changes nothing, and a successful one leaves the artifact in place |
| ModUpdater.InstallRemovesExactlyMatches | mod_updater.py:55-62 | apart from the artifact, a file disappears exactly when a successful download deleted it as a `name*` match |
| ModUpdater.InstallKeepsOtherDirs | mod_updater.py:40-65 | files outside the output directory are never touched |
| ModUpdater.InstallKeepsArtifacts | mod_updater.py:57-59 | for a mod name that is not empty and does not begin with `[`, every existing artifact survives the cleanup, this mod's older versions included |
| ModUpdater.InstallEmptyNameClearsDir | mod_updater.py:55-59 | with an empty mod name, a successful download deletes every other file of the output directory |
| ModUpdater.InstallIdempotent | mod_updater.py:48-49 | right after a successful install, the same item requests nothing and changes nothing |
| ModUpdater.FileSystem.UpdateMod | mod_updater.py:40-65 | the output directory now exists; the files and the request flag are those of `Install` |
| ModUpdater.ApplyAll | mod_updater.py:35-37 | `update_mod` folded over the items in order, one request flag per item; the `ApplyAll...` lemmas state its behaviour |
| ModUpdater.ApplyAllConcat | mod_updater.py:35-37 | running two manifests back to back equals running their concatenation |
| ModUpdater.ApplyAllInstallsEach | mod_updater.py:35-37 | for mod names that are not empty and do not begin with `[`: when every download succeeds, every item's artifact is present afterwards |
| ModUpdater.ApplyAllInstalledIsNoop | mod_updater.py:35-37 | a manifest whose artifacts are all present requests nothing and changes nothing |
| ModUpdater.ApplyAllIdempotent | mod_updater.py:35-37 | for mod names that are not empty and do not begin with `[`: running a fully successful manifest a second time is a no-op |
| ModUpdater.ApplyAllKeepsOtherDirs | mod_updater.py:35-37 | files outside every item's output directory are never touched |
| ModUpdater.FreshInstallScenario | mod_updater.py:40-65 | a one-item manifest installed into an empty tree with a successful download yields exactly `mods/[fabric_api]fabric-api-0.1.jar` |
| ModUpdater.StaleArtifactsStay | mod_updater.py:57-62 | in the `fabric_api` scenario: an older `[fabric_api]...` artifact of the updated mod, and the artifact of a mod no longer listed, are both still present afterwards |
| ModUpdater.JsonSource.Json | mod_updater.py:29-33 | the local manifest is used as read; the remote one only with status 200, otherwise fetching fails |
| ModUpdater.JsonSource.DoForEach | mod_updater.py:35-37 | a failed fetch changes nothing; otherwise the items are installed in order, as `ApplyAll` has it, and every output directory exists |

## Left out

- HTTP requests, JSON decoding, the CurseForge API key file and the printed menu lines are not modelled. Replies and download statuses are parameters; file contents are not modelled.
- Typed input is a parameter (`line`). `int()` is modelled for code points up to U+00A0 only. It skips space, tab, line feed, vertical tab, form feed, carriage return, U+0085 and U+00A0, and reads ASCII digits. Unicode white space and digits above U+00A0 are not modelled.
- Input.ParseInt: the digit limit is the default 4300. A limit changed with `sys.set_int_max_str_digits` or `PYTHONINTMAXSTRDIGITS` is not modelled, and neither are Python releases before the limit existed, which have no limit.
- `argparse`/`main` of both scripts, writing the modlist with `jsbeautifier`, and the commented-out `rm_patterns`/config passes are not modelled. They are I/O, or not run.
- `mod_exists` is not modelled, because nothing calls it.
- Paths are (directory, name) pairs. The model does not capture `pathlib` normalisation, absolute `output_dir` values, glob metacharacters in mod names, nested directories created by `mkdir(parents=True)`, or name clashes between files and directories.
- A manifest item missing a key (a `KeyError`) and a failing read of the local manifest file are not modelled.
- ModUpdater.Install: a `name*` match that is a subdirectory of the output directory is not modelled. `unlink` raises on it in the source, which stops the whole run after deleting some of the matches and before writing the artifact; the model only knows files there and always completes the step.
- ModUpdater.FileSystem.UpdateMod: the same failure is not modelled, since `dirs` records only the output directories created; the method never fails.
- ModUpdater.JsonSource.DoForEach: the run is not cut short by that failure either; it always goes on to the next item. It also takes `update_mod` as the callback rather than any callable, since that is the only one the program passes.
- Updates.Resolution: the entry is a value. The in-place update that makes `result` and `entry` the same dict is modelled by dropping `source` from the returned entry.
- Updates.UpdateCurse: the query parameters are returned as a value; the request itself is not modelled.
