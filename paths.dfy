/**
 * The abstract file system shared by both scripts: a file is a (directory, name) pair, and an
 * installed mod is the file named `[<mod name>]<origin file name>`.
 */
module Paths {

  /** A file directly inside directory `dir`, with base name `name`. */
  datatype FilePath = FilePath(dir: string, name: string)

  /** The base name under which a mod's artifact is stored: `"[" + name + "]" + fileName`. */
  function ArtifactName(name: string, fileName: string): (r: string)
    ensures |r| == |name| + |fileName| + 2
    ensures r[0] == '[' && r[|name| + 1] == ']'
    ensures r[1..|name| + 1] == name && r[|name| + 2..] == fileName
  {
    "[" + name + "]" + fileName
  }

  /** The directory `pathlib.Path(base, sub)` names, for a relative `sub`. */
  function JoinDir(base: string, sub: string): string
  {
    base + "/" + sub
  }

  /** `s` begins with `prefix` (what the glob pattern `prefix*` matches, for a literal prefix). */
  predicate StartsWith(s: string, prefix: string)
  {
    |prefix| <= |s| && s[..|prefix|] == prefix
  }

  /**
   * The artifact name determines the mod name and the origin file name: two artifacts share a
   * name only when they belong to the same mod and the same origin file.
   */
  lemma ArtifactNameInjective(n1: string, f1: string, n2: string, f2: string)
    requires forall i :: 0 <= i < |n1| ==> n1[i] != ']'
    requires forall i :: 0 <= i < |n2| ==> n2[i] != ']'
    ensures ArtifactName(n1, f1) == ArtifactName(n2, f2) <==> n1 == n2 && f1 == f2
  {
  }

  /**
   * A file name that begins with a mod name can be that mod's or any other mod's artifact only
   * if the mod name is empty or itself begins with `[`: every artifact name begins with `[`.
   */
  lemma ArtifactNeverPrefixedByName(modName: string, owner: string, fileName: string)
    requires modName != [] && modName[0] != '['
    ensures !StartsWith(ArtifactName(owner, fileName), modName)
  {
  }
}
