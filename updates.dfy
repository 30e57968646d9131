/**
 * The release selection of automate_updates.py. For each template entry the script fetches the
 * candidate releases of the mod (CurseForge or Modrinth), sorts them in descending order of a
 * string key (CurseForge files by `fileDate`, Modrinth versions by `name`), lists at most
 * `MAX_ENTRIES` of them marking as CURRENT those already downloaded, reads the user's choice and
 * writes the chosen release's file name and download URL into the entry. The network replies,
 * the typed line and the set of files present are parameters.
 */
module Updates {
  import opened Wrappers
  import opened Paths
  import opened Sorting
  import opened Input

  /** How many candidates the menu lists at most. */
  const MAX_ENTRIES: nat := 8

  /** The `pageSize` parameter of the CurseForge files query. */
  const CURSE_PAGE_SIZE: nat := 50

  /** The value of an entry's `source` key: a member of the `Source` enum, or any other value. */
  datatype SourceTag = Curseforge | Modrinth | Unrecognised

  /** `mod_id` is a number for CurseForge and may be a string for Modrinth. */
  datatype ModId = NumId(num: int) | TextId(text: string)

  /**
   * A template entry, later a manifest entry: `source` is `None` once popped, `fileName` and
   * `downloadUrl` are `None` until the selection writes them.
   */
  datatype Entry = Entry(
    name: string,
    source: Option<SourceTag>,
    modId: ModId,
    outputDir: string,
    fileName: Option<string>,
    downloadUrl: Option<string>)

  /** One item of the CurseForge version-types reply. */
  datatype VersionType = VersionType(name: string, id: int)

  /** One candidate of the CurseForge files reply. */
  datatype CurseFile = CurseFile(
    fileName: string,
    displayName: string,
    downloadUrl: string,
    downloadCount: int,
    fileDate: string)

  /** One element of a Modrinth version's `files` array. */
  datatype Download = Download(fileName: string, url: string)

  /** One candidate of the Modrinth versions reply. */
  datatype ModrinthVersion = ModrinthVersion(name: string, downloads: int, files: seq<Download>)

  /** The query parameters of the CurseForge files request. */
  datatype FilesQuery = FilesQuery(modId: ModId, gameVersionTypeId: Option<int>, pageSize: nat)

  /** The exceptions the selection can raise. */
  datatype Error =
    | UnboundDefault          // no choice typed and no listed candidate is CURRENT
    | IndexOutOfRange(index: int)  // the typed index is outside the sorted list
    | MissingFiles            // a Modrinth candidate whose `files` array is empty
    | MissingSource           // a template entry without a `source` key

  function Min(a: nat, b: nat): nat
  {
    if a < b then a else b
  }

  /** How many of `n` sorted candidates the menu lists. */
  function Shown(n: nat): (k: nat)
    ensures k <= n && k <= MAX_ENTRIES
    ensures k == n || k == MAX_ENTRIES
  {
    Min(MAX_ENTRIES, n)
  }

  /*************************** get_version_id ***************************/

  /** The name of the version type of Minecraft `version`. */
  function VersionName(version: string): string
  {
    "Minecraft " + version
  }

  /** The id of the first version type named `target`, or `None` if none has that name. */
  function FirstIdNamed(target: string, items: seq<VersionType>): (r: Option<int>)
    ensures r.None? <==> forall k :: 0 <= k < |items| ==> items[k].name != target
    ensures r.Some? ==> exists k :: (0 <= k < |items| && items[k].name == target
      && items[k].id == r.value && forall j :: 0 <= j < k ==> items[j].name != target)
  {
    if items == [] then None
    else if items[0].name == target then Some(items[0].id)
    else
      var r := FirstIdNamed(target, items[1..]);
      assert forall k :: 1 <= k < |items| ==> items[k] == items[1..][k - 1];
      r
  }

  /** `get_version_id`: a search that returns at the first version type whose name matches. */
  method GetVersionId(version: string, items: seq<VersionType>) returns (r: Option<int>)
    ensures r == FirstIdNamed(VersionName(version), items)
  {
    var target := VersionName(version);
    var i := 0;
    while i < |items|
      invariant 0 <= i <= |items|
      invariant FirstIdNamed(target, items) == FirstIdNamed(target, items[i..])
    {
      if items[i].name == target {
        return Some(items[i].id);
      }
      assert items[i..][1..] == items[i + 1..];
      i := i + 1;
    }
    return None;
  }

  /*************************** the menu ***************************/

  /** The listed candidate `d` is CURRENT: `output_dir/[name]<file name>` exists. */
  predicate IsCurrent(entry: Entry, d: Download, existing: set<FilePath>)
  {
    FilePath(entry.outputDir, ArtifactName(entry.name, d.fileName)) in existing
  }

  /**
   * The CURRENT markers of the listed candidates, or `MissingFiles` when a listed candidate has
   * no file to name.
   */
  function Markers<T>(entry: Entry, data: seq<T>, fileOf: T -> Option<Download>, existing: set<FilePath>)
    : (r: Result<seq<bool>, Error>)
    ensures r.Ok? <==> forall i :: 0 <= i < Shown(|data|) ==> fileOf(data[i]).Some?
    ensures r.Err? ==> r.error == MissingFiles
    ensures r.Ok? ==> (|r.value| == Shown(|data|)
      && forall i :: 0 <= i < |r.value| ==> (r.value[i] <==> IsCurrent(entry, fileOf(data[i]).value, existing)))
  {
    var n := Shown(|data|);
    if forall i :: 0 <= i < n ==> fileOf(data[i]).Some? then
      Ok(seq(n, i requires 0 <= i < n =>
        match fileOf(data[i])
        case Some(d) => IsCurrent(entry, d, existing)
        case None => false))
    else Err(MissingFiles)
  }

  /** The index of the last marked position, or `None` when nothing is marked. */
  function LastMarked(marks: seq<bool>): (r: Option<nat>)
    ensures r.None? <==> forall j :: 0 <= j < |marks| ==> !marks[j]
    ensures r.Some? ==> (r.value < |marks| && marks[r.value]
      && forall j :: r.value < j < |marks| ==> !marks[j])
  {
    if marks == [] then None
    else if marks[|marks| - 1] then Some(|marks| - 1)
    else LastMarked(marks[..|marks| - 1])
  }

  /** What the menu shows: a CURRENT marker per listed candidate, and the default it derives. */
  datatype Menu = Menu(marks: seq<bool>, default: Option<nat>)

  /**
   * The display loop: lists the first `Shown(|data|)` candidates, marks each CURRENT whose
   * artifact exists and remembers the last one marked as the default. A listed candidate
   * without a file raises `MissingFiles`.
   */
  method ScanWindow<T>(entry: Entry, data: seq<T>, fileOf: T -> Option<Download>, existing: set<FilePath>)
    returns (r: Result<Menu, Error>)
    ensures r.Err? <==> exists i :: 0 <= i < Shown(|data|) && fileOf(data[i]).None?
    ensures r.Err? ==> r.error == MissingFiles
    ensures r.Ok? ==> |r.value.marks| == Shown(|data|)
    ensures r.Ok? ==> forall i :: 0 <= i < |r.value.marks| ==>
      (r.value.marks[i] <==> IsCurrent(entry, fileOf(data[i]).value, existing))
    ensures r.Ok? ==> r.value.default == LastMarked(r.value.marks)
  {
    var n := Shown(|data|);
    var marks: seq<bool> := [];
    var default: Option<nat> := None;
    for i := 0 to n
      invariant |marks| == i
      invariant forall j :: 0 <= j < i ==> fileOf(data[j]).Some?
      invariant forall j :: 0 <= j < i ==> (marks[j] <==> IsCurrent(entry, fileOf(data[j]).value, existing))
      invariant default == LastMarked(marks)
    {
      var d := fileOf(data[i]);
      if d.None? {
        return Err(MissingFiles);
      }
      var current := IsCurrent(entry, d.value, existing);
      marks := marks + [current];
      assert marks[..i] == marks[..|marks| - 1];
      if current {
        default := Some(i);
      }
    }
    r := Ok(Menu(marks, default));
  }

  /*************************** the choice ***************************/

  /**
   * Lines 75-78 and 108-111: no typed number takes the default (unbound when nothing is CURRENT);
   * a number `k` indexes the whole sorted list of length `n`, negative from the end as in Python.
   */
  function Choose(n: nat, default: Option<nat>, choice: Option<int>): (r: Result<nat, Error>)
    ensures choice.None? ==> (r.Ok? <==> default.Some?)
    ensures choice.None? && r.Ok? ==> r.value == default.value
    ensures choice.None? && r.Err? ==> r.error == UnboundDefault
    ensures choice.Some? ==> (r.Ok? <==> -(n as int) <= choice.value < n)
    ensures choice.Some? && r.Err? ==> r.error == IndexOutOfRange(choice.value)
    ensures choice.Some? && r.Ok? ==> r.value < n && (r.value - choice.value) % n == 0
  {
    match choice
    case None => if default.None? then Err(UnboundDefault) else Ok(default.value)
    case Some(k) => if -(n as int) <= k < n then Ok(if k < 0 then n + k else k) else Err(IndexOutOfRange(k))
  }

  /** The entry with `file_name` and `download_url` set from `d`. */
  function Filled(entry: Entry, d: Download): (e: Entry)
    ensures e.fileName == Some(d.fileName) && e.downloadUrl == Some(d.url)
    ensures e.name == entry.name && e.source == entry.source
    ensures e.modId == entry.modId && e.outputDir == entry.outputDir
  {
    entry.(fileName := Some(d.fileName), downloadUrl := Some(d.url))
  }

  /**
   * The entry `update_curse`/`update_modrinth` return for candidates `candidates` sorted by `key`,
   * files named by `fileOf`, the parsed `choice` and the files `existing`.
   */
  function Resolution<T>(entry: Entry, candidates: seq<T>, key: T -> string, fileOf: T -> Option<Download>,
                         choice: Option<int>, existing: set<FilePath>): Result<Entry, Error>
  {
    var data := SortDesc(candidates, key);
    match Markers(entry, data, fileOf, existing)
    case Err(e) => Err(e)
    case Ok(marks) =>
      match Choose(|data|, LastMarked(marks), choice)
      case Err(e) => Err(e)
      case Ok(i) =>
        match fileOf(data[i])
        case None => Err(MissingFiles)
        case Some(d) => Ok(Filled(entry, d))
  }

  /** The body common to `update_curse` and `update_modrinth`, once the candidates are fetched. */
  method Resolve<T>(entry: Entry, candidates: seq<T>, key: T -> string, fileOf: T -> Option<Download>,
                    line: string, existing: set<FilePath>)
    returns (r: Result<Entry, Error>)
    ensures r == Resolution(entry, candidates, key, fileOf, ParseInt(line), existing)
  {
    var data := candidates;
    data := SortDesc(data, key);
    var menu := ScanWindow(entry, data, fileOf, existing);
    if menu.Err? {
      return Err(menu.error);
    }
    assert menu.value.marks == Markers(entry, data, fileOf, existing).value;
    var choice := ParseInt(line);
    var picked := Choose(|data|, menu.value.default, choice);
    if picked.Err? {
      return Err(picked.error);
    }
    var d := fileOf(data[picked.value]);
    if d.None? {
      return Err(MissingFiles);
    }
    r := Ok(Filled(entry, d.value));
  }

  /*************************** the two sources ***************************/

  function FileDate(c: CurseFile): string
  {
    c.fileDate
  }

  function CurseDownload(c: CurseFile): Option<Download>
  {
    Some(Download(c.fileName, c.downloadUrl))
  }

  function ReleaseName(v: ModrinthVersion): string
  {
    v.name
  }

  /** `files[0]`, which raises IndexError when `files` is empty. */
  function ModrinthDownload(v: ModrinthVersion): Option<Download>
  {
    if v.files == [] then None else Some(v.files[0])
  }

  /**
   * `update_curse`: looks up the version type id for the files query, then selects among the
   * CurseForge candidates sorted by `fileDate`.
   */
  method UpdateCurse(gameVersion: string, entry: Entry, versionTypes: seq<VersionType>,
                     files: seq<CurseFile>, line: string, existing: set<FilePath>)
    returns (query: FilesQuery, r: Result<Entry, Error>)
    ensures query == FilesQuery(entry.modId, FirstIdNamed(VersionName(gameVersion), versionTypes), CURSE_PAGE_SIZE)
    ensures r == Resolution(entry, files, FileDate, CurseDownload, ParseInt(line), existing)
  {
    var typeId := GetVersionId(gameVersion, versionTypes);
    query := FilesQuery(entry.modId, typeId, CURSE_PAGE_SIZE);
    r := Resolve(entry, files, FileDate, CurseDownload, line, existing);
  }

  /**
   * `update_modrinth`: selects among the Modrinth versions sorted by `name`; the game version
   * is not used.
   */
  method UpdateModrinth(gameVersion: string, entry: Entry, versions: seq<ModrinthVersion>,
                        line: string, existing: set<FilePath>)
    returns (r: Result<Entry, Error>)
    ensures r == Resolution(entry, versions, ReleaseName, ModrinthDownload, ParseInt(line), existing)
  {
    r := Resolve(entry, versions, ReleaseName, ModrinthDownload, line, existing);
  }

  /*************************** properties of the selection ***************************/

  /** The selected file always belongs to one of the fetched candidates. */
  lemma ResolvedFromCandidate<T>(entry: Entry, candidates: seq<T>, key: T -> string,
                                 fileOf: T -> Option<Download>, choice: Option<int>, existing: set<FilePath>)
    requires Resolution(entry, candidates, key, fileOf, choice, existing).Ok?
    ensures exists i :: (0 <= i < |candidates| && fileOf(candidates[i]).Some?
      && Resolution(entry, candidates, key, fileOf, choice, existing).value == Filled(entry, fileOf(candidates[i]).value))
  {
    var data := SortDesc(candidates, key);
    var marks := Markers(entry, data, fileOf, existing).value;
    var j := Choose(|data|, LastMarked(marks), choice).value;
    SortDescPermutes(candidates, key);
    assert data[j] in multiset(candidates);
    var i :| 0 <= i < |candidates| && candidates[i] == data[j];
  }

  /**
   * With no number typed, the selection is the last listed candidate marked CURRENT, and it is
   * an error (the default is unbound) when no listed candidate is CURRENT.
   */
  lemma DefaultIsLastCurrent<T>(entry: Entry, candidates: seq<T>, key: T -> string,
                                fileOf: T -> Option<Download>, existing: set<FilePath>)
    requires forall i :: 0 <= i < Shown(|candidates|) ==> fileOf(SortDesc(candidates, key)[i]).Some?
    ensures var data := SortDesc(candidates, key);
      var r := Resolution(entry, candidates, key, fileOf, None, existing);
      && (r.Ok? <==> exists i :: 0 <= i < Shown(|data|) && IsCurrent(entry, fileOf(data[i]).value, existing))
      && (r.Err? ==> r.error == UnboundDefault)
      && (r.Ok? ==> exists i :: (0 <= i < Shown(|data|) && IsCurrent(entry, fileOf(data[i]).value, existing)
            && (forall j :: i < j < Shown(|data|) ==> !IsCurrent(entry, fileOf(data[j]).value, existing))
            && r.value == Filled(entry, fileOf(data[i]).value)))
  {
    var data := SortDesc(candidates, key);
    var marks := Markers(entry, data, fileOf, existing).value;
    if LastMarked(marks).None? {
      assert forall i :: 0 <= i < Shown(|data|) ==> !marks[i];
    } else {
      var i := LastMarked(marks).value;
      assert marks[i];
    }
  }

  /** A typed number outside `-|data| <= k < |data|` is an error, whatever is listed. */
  lemma TypedIndexOutOfRange<T>(entry: Entry, candidates: seq<T>, key: T -> string,
                                fileOf: T -> Option<Download>, k: int, existing: set<FilePath>)
    requires forall i :: 0 <= i < Shown(|candidates|) ==> fileOf(SortDesc(candidates, key)[i]).Some?
    requires !(-|candidates| <= k < |candidates|)
    ensures Resolution(entry, candidates, key, fileOf, Some(k), existing) == Err(IndexOutOfRange(k))
  {
    var data := SortDesc(candidates, key);
    assert Markers(entry, data, fileOf, existing).Ok?;
  }

  /**
   * A typed number `k` selects `data[k]` of the WHOLE sorted list, counting from the end when
   * negative as Python does, even beyond the listed window.
   */
  lemma TypedIndexSelects<T>(entry: Entry, candidates: seq<T>, key: T -> string,
                             fileOf: T -> Option<Download>, k: int, existing: set<FilePath>)
    requires forall i :: 0 <= i < Shown(|candidates|) ==> fileOf(SortDesc(candidates, key)[i]).Some?
    requires -|candidates| <= k < |candidates|
    ensures var data := SortDesc(candidates, key);
      var picked := data[if k < 0 then |data| + k else k];
      Resolution(entry, candidates, key, fileOf, Some(k), existing)
        == if fileOf(picked).None? then Err(MissingFiles) else Ok(Filled(entry, fileOf(picked).value))
  {
    var data := SortDesc(candidates, key);
    var n := |data|;
    var marks := Markers(entry, data, fileOf, existing);
    assert marks.Ok?;
    var j := Choose(n, LastMarked(marks.value), Some(k)).value;
    ModularIndex(j, k, n);
  }

  /** The only index in `[0, n)` congruent to `k` modulo `n`, for `-n <= k < n`. */
  lemma ModularIndex(j: int, k: int, n: int)
    requires 0 <= j < n && -n <= k < n && (j - k) % n == 0
    ensures j == if k < 0 then n + k else k
  {
    if k < 0 {
      assert 0 < j - k < 2 * n;
      assert j - k == n;
    } else {
      assert -n < j - k < n;
    }
  }

  /** A listed Modrinth candidate without files makes the selection fail whatever is typed. */
  lemma ListedWithoutFileFails<T>(entry: Entry, candidates: seq<T>, key: T -> string,
                                  fileOf: T -> Option<Download>, choice: Option<int>, existing: set<FilePath>, i: nat)
    requires i < Shown(|candidates|) && fileOf(SortDesc(candidates, key)[i]).None?
    ensures Resolution(entry, candidates, key, fileOf, choice, existing) == Err(MissingFiles)
  {
  }

  /*************************** generate_modlist ***************************/

  /** The replies and the typed line one template entry's selection consumes. */
  datatype Replies = Replies(
    versionTypes: seq<VersionType>,
    curseFiles: seq<CurseFile>,
    modrinthVersions: seq<ModrinthVersion>,
    line: string)

  /**
   * What one iteration of `generate_modlist` appends: the selected entry without its `source`
   * key, or `None` for a source tag that is neither CurseForge nor Modrinth (the check at line
   * 164 tests `entry`, never `None`, instead of `result`, so nothing is raised). The game version
   * does not appear: it only shapes the CurseForge files query, not the selection.
   */
  function EntryOutcome(entry: Entry, rep: Replies, existing: set<FilePath>)
    : (r: Result<Option<Entry>, Error>)
    ensures entry.source.None? ==> r == Err(MissingSource)
    ensures entry.source == Some(Unrecognised) ==> r == Ok(None)
    ensures r.Ok? && r.value.Some? ==>
      var e := r.value.value;
      && e.source.None? && e.fileName.Some? && e.downloadUrl.Some?
      && e.name == entry.name && e.modId == entry.modId && e.outputDir == entry.outputDir
    ensures r.Ok? ==> (r.value.None? <==> entry.source == Some(Unrecognised))
  {
    match entry.source
    case None => Err(MissingSource)
    case Some(tag) =>
      var result :=
        match tag
        case Curseforge => Resolution(entry, rep.curseFiles, FileDate, CurseDownload, ParseInt(rep.line), existing)
        case Modrinth => Resolution(entry, rep.modrinthVersions, ReleaseName, ModrinthDownload, ParseInt(rep.line), existing)
        case Unrecognised => Ok(entry);
      if result.Err? then Err(result.error)
      else if tag == Unrecognised then Ok(None)
      else Ok(Some(result.value.(source := None)))
  }

  /**
   * One iteration of the loop of `generate_modlist`: dispatch on the source tag, then drop the
   * `source` key from the result.
   */
  method SelectEntry(gameVersion: string, entry: Entry, rep: Replies, existing: set<FilePath>)
    returns (r: Result<Option<Entry>, Error>)
    ensures r == EntryOutcome(entry, rep, existing)
  {
    if entry.source.None? {
      return Err(MissingSource);
    }
    var result: Option<Entry> := None;
    if entry.source == Some(Curseforge) {
      var _, res := UpdateCurse(gameVersion, entry, rep.versionTypes, rep.curseFiles, rep.line, existing);
      if res.Err? {
        return Err(res.error);
      }
      result := Some(res.value);
    } else if entry.source == Some(Modrinth) {
      var res := UpdateModrinth(gameVersion, entry, rep.modrinthVersions, rep.line, existing);
      if res.Err? {
        return Err(res.error);
      }
      result := Some(res.value);
    }
    // `entry` is never None, so the exception for a missing result is never raised; the
    // popped `source` is removed from `result`, which is the same dict as `entry`
    if result.Some? {
      result := Some(result.value.(source := None));
    }
    r := Ok(result);
  }

  /**
   * The rows `generate_modlist` collects for `template` in order, `replies[i]` answering the
   * requests of entry `i`; the first selection that raises aborts the whole run.
   */
  function Modlist(template: seq<Entry>, replies: seq<Replies>, existing: set<FilePath>)
    : Result<seq<Option<Entry>>, Error>
    requires |replies| == |template|
  {
    if template == [] then Ok([])
    else
      var n := |template| - 1;
      match Modlist(template[..n], replies[..n], existing)
      case Err(e) => Err(e)
      case Ok(rows) =>
        match EntryOutcome(template[n], replies[n], existing)
        case Err(e) => Err(e)
        case Ok(row) => Ok(rows + [row])
  }

  /** A completed run has one row per template entry, in template order. */
  lemma {:induction false} ModlistRowsInOrder(template: seq<Entry>, replies: seq<Replies>, existing: set<FilePath>)
    requires |replies| == |template|
    requires Modlist(template, replies, existing).Ok?
    ensures var rows := Modlist(template, replies, existing).value;
      |rows| == |template| && forall i :: 0 <= i < |template| ==>
        EntryOutcome(template[i], replies[i], existing) == Ok(rows[i])
  {
    if template != [] {
      var n := |template| - 1;
      ModlistRowsInOrder(template[..n], replies[..n], existing);
      assert forall i :: 0 <= i < n ==> template[..n][i] == template[i] && replies[..n][i] == replies[i];
    }
  }

  /** The run completes when every entry's selection does. */
  lemma {:induction false} ModlistCompletes(template: seq<Entry>, replies: seq<Replies>, existing: set<FilePath>)
    requires |replies| == |template|
    requires forall i :: 0 <= i < |template| ==> EntryOutcome(template[i], replies[i], existing).Ok?
    ensures Modlist(template, replies, existing).Ok?
  {
    if template != [] {
      var n := |template| - 1;
      assert forall i :: 0 <= i < n ==> template[..n][i] == template[i] && replies[..n][i] == replies[i];
      ModlistCompletes(template[..n], replies[..n], existing);
      assert EntryOutcome(template[n], replies[n], existing).Ok?;
    }
  }

  /** A failed run fails with the error of the first entry whose selection fails. */
  lemma {:induction false} ModlistFailsAtFirstError(template: seq<Entry>, replies: seq<Replies>, existing: set<FilePath>)
    requires |replies| == |template|
    requires Modlist(template, replies, existing).Err?
    ensures exists i :: (0 <= i < |template|
      && EntryOutcome(template[i], replies[i], existing) == Err(Modlist(template, replies, existing).error)
      && forall j :: 0 <= j < i ==> EntryOutcome(template[j], replies[j], existing).Ok?)
  {
    var n := |template| - 1;
    var prefix := Modlist(template[..n], replies[..n], existing);
    assert forall i :: 0 <= i < n ==> template[..n][i] == template[i] && replies[..n][i] == replies[i];
    if prefix.Err? {
      ModlistFailsAtFirstError(template[..n], replies[..n], existing);
      var i :| 0 <= i < n
        && EntryOutcome(template[..n][i], replies[..n][i], existing) == Err(prefix.error)
        && forall j :: 0 <= j < i ==> EntryOutcome(template[..n][j], replies[..n][j], existing).Ok?;
      assert EntryOutcome(template[i], replies[i], existing) == Err(prefix.error);
    } else {
      ModlistRowsInOrder(template[..n], replies[..n], existing);
      assert EntryOutcome(template[n], replies[n], existing).Err?;
    }
  }

  /** Once a prefix of the template fails, the whole run fails with the same error. */
  lemma {:induction false} ModlistAbortsAtFirstError(template: seq<Entry>, replies: seq<Replies>, existing: set<FilePath>, k: nat)
    requires |replies| == |template| && k <= |template|
    requires Modlist(template[..k], replies[..k], existing).Err?
    ensures Modlist(template, replies, existing) == Modlist(template[..k], replies[..k], existing)
    decreases |template| - k
  {
    if k < |template| {
      assert template[..k + 1][..k] == template[..k] && replies[..k + 1][..k] == replies[..k];
      ModlistAbortsAtFirstError(template, replies, existing, k + 1);
    } else {
      assert template[..k] == template && replies[..k] == replies;
    }
  }

  /**
   * `generate_modlist`: the selection loop over the template, collecting the rows in order. The
   * script runs it with game version "1.18" and `SOURCE_TEMPLATE`.
   */
  method GenerateModlist(gameVersion: string, template: seq<Entry>, replies: seq<Replies>, existing: set<FilePath>)
    returns (r: Result<seq<Option<Entry>>, Error>)
    requires |replies| == |template|
    ensures r == Modlist(template, replies, existing)
  {
    var output: seq<Option<Entry>> := [];
    for i := 0 to |template|
      invariant Modlist(template[..i], replies[..i], existing) == Ok(output)
    {
      var result := SelectEntry(gameVersion, template[i], replies[i], existing);
      assert template[..i + 1][..i] == template[..i] && replies[..i + 1][..i] == replies[..i];
      if result.Err? {
        assert Modlist(template[..i + 1], replies[..i + 1], existing).Err?;
        ModlistAbortsAtFirstError(template, replies, existing, i + 1);
        return Err(result.error);
      }
      output := output + [result.value];
    }
    assert template[..|template|] == template && replies[..|replies|] == replies;
    r := Ok(output);
  }

  /** The template `generate_modlist` resolves. */
  const SOURCE_TEMPLATE: seq<Entry> := [
    Entry("fabric_api", Some(Curseforge), NumId(306612), "mods", None, None),
    Entry("ding", Some(Curseforge), NumId(231275), "mods", None, None),
    Entry("bears_armour_hud", Some(Curseforge), NumId(420155), "mods", None, None),
    Entry("better_taskbar", Some(Modrinth), TextId("gPEcet33"), "mods", None, None),
    Entry("cloth_config", Some(Modrinth), NumId(319057), "mods", None, None)
  ]

  /**
   * For the built-in template every tag is a `Source` member, so every row of a completed run
   * is a selected entry and never `None`.
   */
  lemma BuiltInTemplateRowsAreEntries(replies: seq<Replies>, existing: set<FilePath>, i: nat)
    requires |replies| == |SOURCE_TEMPLATE| && i < |SOURCE_TEMPLATE|
    requires EntryOutcome(SOURCE_TEMPLATE[i], replies[i], existing).Ok?
    ensures EntryOutcome(SOURCE_TEMPLATE[i], replies[i], existing).value.Some?
  {
  }
}
