/**
 * The installer of mod_updater.py. `update_mod` makes sure the output directory exists and,
 * unless the mod's artifact `install_dir/output_dir/[name]file_name` is already there, downloads
 * it; a successful download first deletes every file of the output directory whose name starts
 * with the mod name. `JsonSource.do_for_each` applies it to the manifest items in order. The
 * file system is a set of (directory, name) paths plus a set of directories; the download is
 * its HTTP status.
 */
module ModUpdater {
  import opened Wrappers
  import opened Paths

  /** The HTTP status of a successful request. */
  const HTTP_OK: int := 200

  /** The keys of a manifest item that `update_mod` reads. */
  datatype ModItem = ModItem(name: string, outputDir: string, fileName: string, downloadUrl: string)

  /** `install_dir/output_dir`. */
  function OutputDir(installDir: string, m: ModItem): string
  {
    JoinDir(installDir, m.outputDir)
  }

  /** `install_dir/output_dir/[name]file_name`, where the mod's artifact is stored. */
  function ArtifactPath(installDir: string, m: ModItem): FilePath
  {
    FilePath(OutputDir(installDir, m), ArtifactName(m.name, m.fileName))
  }

  /** The files `Path(dir).glob(prefix + "*")` yields: those directly in `dir` starting with `prefix`. */
  function Matches(files: set<FilePath>, dir: string, prefix: string): (r: set<FilePath>)
    ensures r <= files
    ensures forall p :: p in r <==> p in files && p.dir == dir && StartsWith(p.name, prefix)
  {
    set p | p in files && p.dir == dir && StartsWith(p.name, prefix)
  }

  /** The files after one step, and whether the step requested the download. */
  datatype Step = Step(files: set<FilePath>, requested: bool)

  /** What `update_mod` does to the files, given the status its download would get. */
  function Install(files: set<FilePath>, installDir: string, m: ModItem, status: int): (r: Step)
    ensures ArtifactPath(installDir, m) in files ==> r == Step(files, false)
    ensures ArtifactPath(installDir, m) !in files ==> r.requested
    ensures status != HTTP_OK ==> r.files == files
    ensures status == HTTP_OK ==> ArtifactPath(installDir, m) in r.files
  {
    var artifact := ArtifactPath(installDir, m);
    if artifact in files then Step(files, false)
    else if status != HTTP_OK then Step(files, true)
    else Step(files - Matches(files, OutputDir(installDir, m), m.name) + {artifact}, true)
  }

  /**
   * Apart from the artifact itself, a file is gone after the step exactly when the download was
   * requested and succeeded and the file lies directly in the output directory with a name
   * starting with the mod name; nothing else is added.
   */
  lemma InstallRemovesExactlyMatches(files: set<FilePath>, installDir: string, m: ModItem, status: int, p: FilePath)
    requires p != ArtifactPath(installDir, m)
    ensures var r := Install(files, installDir, m, status);
      p in r.files <==> (p in files
        && !(r.requested && status == HTTP_OK && p.dir == OutputDir(installDir, m) && StartsWith(p.name, m.name)))
  {
  }

  /** A file outside the mod's output directory is never touched. */
  lemma InstallKeepsOtherDirs(files: set<FilePath>, installDir: string, m: ModItem, status: int, p: FilePath)
    requires p.dir != OutputDir(installDir, m)
    ensures p in Install(files, installDir, m, status).files <==> p in files
  {
    InstallRemovesExactlyMatches(files, installDir, m, status, p);
  }

  /**
   * The cleanup pattern `name*` never matches an artifact `[owner]file` (for a mod name that is
   * not empty and does not begin with `[`): every artifact already present, this mod's older
   * versions included, is still present after the step.
   */
  lemma InstallKeepsArtifacts(files: set<FilePath>, installDir: string, m: ModItem, status: int,
                              owner: string, fileName: string, dir: string)
    requires m.name != [] && m.name[0] != '['
    requires FilePath(dir, ArtifactName(owner, fileName)) in files
    ensures FilePath(dir, ArtifactName(owner, fileName)) in Install(files, installDir, m, status).files
  {
    ArtifactNeverPrefixedByName(m.name, owner, fileName);
  }

  /**
   * With an empty mod name the cleanup pattern is `*`: a successful download of a missing
   * artifact deletes every other file of the output directory, artifacts included.
   */
  lemma InstallEmptyNameClearsDir(files: set<FilePath>, installDir: string, m: ModItem, status: int, p: FilePath)
    requires m.name == [] && status == HTTP_OK && ArtifactPath(installDir, m) !in files
    requires p.dir == OutputDir(installDir, m) && p != ArtifactPath(installDir, m)
    ensures p !in Install(files, installDir, m, status).files
  {
    InstallRemovesExactlyMatches(files, installDir, m, status, p);
  }

  /** A second `update_mod` of the same item right after a successful one requests nothing and changes nothing. */
  lemma InstallIdempotent(files: set<FilePath>, installDir: string, m: ModItem, status: int, again: int)
    requires status == HTTP_OK || ArtifactPath(installDir, m) in files
    ensures var once := Install(files, installDir, m, status).files;
      Install(once, installDir, m, again) == Step(once, false)
  {
  }

  /** The result of running `update_mod` over the items: the files, and which items requested a download. */
  datatype Run = Run(files: set<FilePath>, requested: seq<bool>)

  /** `update_mod` applied to `items` in order, `statuses[i]` being item `i`'s download status. */
  function ApplyAll(files: set<FilePath>, installDir: string, items: seq<ModItem>, statuses: seq<int>): (r: Run)
    requires |statuses| == |items|
    ensures |r.requested| == |items|
  {
    if items == [] then Run(files, [])
    else
      var n := |items| - 1;
      var before := ApplyAll(files, installDir, items[..n], statuses[..n]);
      var step := Install(before.files, installDir, items[n], statuses[n]);
      Run(step.files, before.requested + [step.requested])
  }

  /** Running two manifests back to back is running their concatenation: the items are taken in order, once each. */
  lemma {:induction false} ApplyAllConcat(files: set<FilePath>, installDir: string,
                                          a: seq<ModItem>, sa: seq<int>, b: seq<ModItem>, sb: seq<int>)
    requires |sa| == |a| && |sb| == |b|
    ensures var first := ApplyAll(files, installDir, a, sa);
      var second := ApplyAll(first.files, installDir, b, sb);
      ApplyAll(files, installDir, a + b, sa + sb) == Run(second.files, first.requested + second.requested)
    decreases |b|
  {
    if b == [] {
      assert a + b == a && sa + sb == sa;
    } else {
      var n := |b| - 1;
      var first := ApplyAll(files, installDir, a, sa);
      ApplyAllConcat(files, installDir, a, sa, b[..n], sb[..n]);
      var partial := ApplyAll(first.files, installDir, b[..n], sb[..n]);
      var step := Install(partial.files, installDir, b[n], sb[n]);
      assert ApplyAll(first.files, installDir, b, sb) == Run(step.files, partial.requested + [step.requested]);
      var ab, sab := a + b, sa + sb;
      var m := |ab| - 1;
      assert ab[..m] == a + b[..n] && sab[..m] == sa + sb[..n];
      assert ab[m] == b[n] && sab[m] == sb[n];
      var before := ApplyAll(files, installDir, ab[..m], sab[..m]);
      assert before == Run(partial.files, first.requested + partial.requested);
      assert ApplyAll(files, installDir, ab, sab) == Run(step.files, before.requested + [step.requested]);
      assert before.requested + [step.requested] == first.requested + (partial.requested + [step.requested]);
    }
  }

  /** Mod names the cleanup pattern cannot confuse with artifacts. */
  ghost predicate PlainNames(items: seq<ModItem>)
  {
    forall i :: 0 <= i < |items| ==> items[i].name != [] && items[i].name[0] != '['
  }

  /** Every item's artifact is present. */
  ghost predicate AllInstalled(files: set<FilePath>, installDir: string, items: seq<ModItem>)
  {
    forall i :: 0 <= i < |items| ==> ArtifactPath(installDir, items[i]) in files
  }

  /** When every download succeeds, every item's artifact is present afterwards. */
  lemma {:induction false} ApplyAllInstallsEach(files: set<FilePath>, installDir: string, items: seq<ModItem>, statuses: seq<int>)
    requires |statuses| == |items| && PlainNames(items)
    requires forall i :: 0 <= i < |statuses| ==> statuses[i] == HTTP_OK
    ensures AllInstalled(ApplyAll(files, installDir, items, statuses).files, installDir, items)
  {
    if items != [] {
      var n := |items| - 1;
      ApplyAllInstallsEach(files, installDir, items[..n], statuses[..n]);
      var before := ApplyAll(files, installDir, items[..n], statuses[..n]).files;
      forall i | 0 <= i < |items|
        ensures ArtifactPath(installDir, items[i]) in ApplyAll(files, installDir, items, statuses).files
      {
        if i < n {
          assert ArtifactPath(installDir, items[..n][i]) in before;
          InstallKeepsArtifacts(before, installDir, items[n], statuses[n], items[i].name, items[i].fileName,
                                OutputDir(installDir, items[i]));
        }
      }
    }
  }

  /** With every artifact present, a run requests nothing and changes nothing, whatever the statuses. */
  lemma {:induction false} ApplyAllInstalledIsNoop(files: set<FilePath>, installDir: string, items: seq<ModItem>, statuses: seq<int>)
    requires |statuses| == |items| && AllInstalled(files, installDir, items)
    ensures ApplyAll(files, installDir, items, statuses) == Run(files, seq(|items|, _ => false))
  {
    if items != [] {
      var n := |items| - 1;
      ApplyAllInstalledIsNoop(files, installDir, items[..n], statuses[..n]);
      assert ArtifactPath(installDir, items[n]) in files;
      assert seq(n, _ => false) + [false] == seq(|items|, _ => false);
    }
  }

  /**
   * Running the installer twice in a row over the same manifest, the first time with every
   * download succeeding, makes no request and no change the second time.
   */
  lemma ApplyAllIdempotent(files: set<FilePath>, installDir: string, items: seq<ModItem>, statuses: seq<int>, again: seq<int>)
    requires |statuses| == |items| && |again| == |items| && PlainNames(items)
    requires forall i :: 0 <= i < |statuses| ==> statuses[i] == HTTP_OK
    ensures var once := ApplyAll(files, installDir, items, statuses).files;
      ApplyAll(once, installDir, items, again) == Run(once, seq(|items|, _ => false))
  {
    ApplyAllInstallsEach(files, installDir, items, statuses);
    ApplyAllInstalledIsNoop(ApplyAll(files, installDir, items, statuses).files, installDir, items, again);
  }

  /** A file in none of the items' output directories is never touched by a run. */
  lemma {:induction false} ApplyAllKeepsOtherDirs(files: set<FilePath>, installDir: string, items: seq<ModItem>,
                                                  statuses: seq<int>, p: FilePath)
    requires |statuses| == |items|
    requires forall i :: 0 <= i < |items| ==> p.dir != OutputDir(installDir, items[i])
    ensures p in ApplyAll(files, installDir, items, statuses).files <==> p in files
  {
    if items != [] {
      var n := |items| - 1;
      ApplyAllKeepsOtherDirs(files, installDir, items[..n], statuses[..n], p);
      InstallKeepsOtherDirs(ApplyAll(files, installDir, items[..n], statuses[..n]).files, installDir, items[n], statuses[n], p);
    }
  }

  /** A one-item manifest installed into an empty directory yields exactly that item's artifact. */
  lemma FreshInstallScenario(installDir: string)
    ensures var m := ModItem("fabric_api", "mods", "fabric-api-0.1.jar", "https://x/fabric-api-0.1.jar");
      ApplyAll({}, installDir, [m], [HTTP_OK])
        == Run({FilePath(JoinDir(installDir, "mods"), "[fabric_api]fabric-api-0.1.jar")}, [true])
  {
    var m := ModItem("fabric_api", "mods", "fabric-api-0.1.jar", "https://x/fabric-api-0.1.jar");
    assert [m][..0] == [] && [HTTP_OK][..0] == [];
    assert "[" + "fabric_api" == "[fabric_api";
    assert "[fabric_api" + "]" == "[fabric_api]";
    assert "[fabric_api]" + "fabric-api-0.1.jar" == "[fabric_api]fabric-api-0.1.jar";
    assert Matches({}, OutputDir(installDir, m), m.name) == {};
    assert [] + [true] == [true];
  }

  /**
   * A file of a mod that is no longer in the manifest, and the previous version of a mod that
   * is updated, both stay: nothing removes files that match no `name*` pattern.
   */
  lemma StaleArtifactsStay(installDir: string, status: int)
    ensures var dir := JoinDir(installDir, "mods");
      var stale := FilePath(dir, ArtifactName("old_mod", "stale.jar"));
      var previous := FilePath(dir, ArtifactName("fabric_api", "fabric-api-0.0.jar"));
      var m := ModItem("fabric_api", "mods", "fabric-api-0.1.jar", "https://x/fabric-api-0.1.jar");
      var after := ApplyAll({stale, previous}, installDir, [m], [status]).files;
      stale in after && previous in after
  {
    var dir := JoinDir(installDir, "mods");
    var stale := FilePath(dir, ArtifactName("old_mod", "stale.jar"));
    var previous := FilePath(dir, ArtifactName("fabric_api", "fabric-api-0.0.jar"));
    var m := ModItem("fabric_api", "mods", "fabric-api-0.1.jar", "https://x/fabric-api-0.1.jar");
    var files := {stale, previous};
    assert [m][..0] == [] && [status][..0] == [];
    assert ApplyAll(files, installDir, [m], [status]).files == Install(files, installDir, m, status).files;
    InstallKeepsArtifacts(files, installDir, m, status, "old_mod", "stale.jar", dir);
    InstallKeepsArtifacts(files, installDir, m, status, "fabric_api", "fabric-api-0.0.jar", dir);
  }

  /** The file system the installer works on. */
  class FileSystem {
    /** The files present, as (directory, name) paths. */
    var files: set<FilePath>
    /** The directories present. */
    var dirs: set<string>

    constructor (files: set<FilePath>, dirs: set<string>)
      ensures this.files == files && this.dirs == dirs
    {
      this.files := files;
      this.dirs := dirs;
    }

    /**
     * `update_mod(mod, install_dir)`, the download answering with `status`; `requested` tells
     * whether the download was requested.
     */
    method UpdateMod(m: ModItem, installDir: string, status: int) returns (requested: bool)
      modifies this
      ensures dirs == old(dirs) + {OutputDir(installDir, m)}
      ensures files == Install(old(files), installDir, m, status).files
      ensures requested == Install(old(files), installDir, m, status).requested
    {
      var outputDir := OutputDir(installDir, m);
      var outputFile := FilePath(outputDir, ArtifactName(m.name, m.fileName));
      dirs := dirs + {outputDir};
      requested := false;
      if outputFile !in files {
        requested := true;
        if status == HTTP_OK {
          var matches := Matches(files, outputDir, m.name);
          ghost var removed := matches;
          while matches != {}
            invariant matches <= removed
            invariant files == old(files) - (removed - matches)
            invariant dirs == old(dirs) + {outputDir}
            decreases matches
          {
            var p :| p in matches;
            files := files - {p};
            matches := matches - {p};
          }
          files := files + {outputFile};
        }
      }
    }
  }

  /** A reply of the web server: its status and, on success, the manifest it holds. */
  datatype Reply = Reply(status: int, items: seq<ModItem>)

  /** What the installer can raise itself. */
  datatype Error = FetchFailed(url: string)

  /** A manifest kept both as a local file and at a remote URL. */
  datatype JsonSource = JsonSource(local: string, remote: string) {

    /**
     * `json(local)`: the local file's items (`localItems`) when `fromLocal`, otherwise the remote
     * reply's, where any status other than 200 raises.
     */
    function Json(fromLocal: bool, localItems: seq<ModItem>, reply: Reply): (r: Result<seq<ModItem>, Error>)
      ensures fromLocal ==> r == Ok(localItems)
      ensures !fromLocal ==> (r.Ok? <==> reply.status == HTTP_OK)
      ensures !fromLocal && r.Ok? ==> r.value == reply.items
      ensures r.Err? ==> r.error == FetchFailed(remote)
    {
      if fromLocal then Ok(localItems)
      else if reply.status == HTTP_OK then Ok(reply.items)
      else Err(FetchFailed(remote))
    }

    /**
     * `do_for_each(update_mod, local, install_dir)`: `update_mod` on every manifest item in
     * order, `statuses[i]` answering item `i`'s download.
     */
    method DoForEach(fs: FileSystem, fromLocal: bool, localItems: seq<ModItem>, reply: Reply,
                     installDir: string, statuses: seq<int>)
      returns (r: Result<seq<bool>, Error>)
      requires Json(fromLocal, localItems, reply).Ok? ==> |statuses| == |Json(fromLocal, localItems, reply).value|
      modifies fs
      ensures Json(fromLocal, localItems, reply).Err? ==>
        r == Err(Json(fromLocal, localItems, reply).error) && fs.files == old(fs.files) && fs.dirs == old(fs.dirs)
      ensures Json(fromLocal, localItems, reply).Ok? ==>
        var items := Json(fromLocal, localItems, reply).value;
        var run := ApplyAll(old(fs.files), installDir, items, statuses);
        && r == Ok(run.requested) && fs.files == run.files
        && fs.dirs == old(fs.dirs) + set i | 0 <= i < |items| :: OutputDir(installDir, items[i])
    {
      var json := Json(fromLocal, localItems, reply);
      if json.Err? {
        return Err(json.error);
      }
      var items := json.value;
      var requested: seq<bool> := [];
      for i := 0 to |items|
        invariant fs.files == ApplyAll(old(fs.files), installDir, items[..i], statuses[..i]).files
        invariant requested == ApplyAll(old(fs.files), installDir, items[..i], statuses[..i]).requested
        invariant fs.dirs == old(fs.dirs) + set j | 0 <= j < i :: OutputDir(installDir, items[j])
      {
        var req := fs.UpdateMod(items[i], installDir, statuses[i]);
        requested := requested + [req];
        assert items[..i + 1][..i] == items[..i] && statuses[..i + 1][..i] == statuses[..i];
        assert (set j | 0 <= j < i + 1 :: OutputDir(installDir, items[j]))
          == (set j | 0 <= j < i :: OutputDir(installDir, items[j])) + {OutputDir(installDir, items[i])};
      }
      assert items[..|items|] == items && statuses[..|statuses|] == statuses;
      r := Ok(requested);
    }
  }
}
