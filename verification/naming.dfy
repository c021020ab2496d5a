/**
 * Where a downloaded export lands: the per-owner download directory, and the
 * canonical file name derived from the name shown in the export-job row.
 * For a fixed owner the canonical name depends only on the row name's prefix
 * before the first `-`, so re-running the export overwrites the same file.
 */
module Naming {

  const PathSeparator: char := '/'
  /** Separates the export type from the timestamped rest of a row name. */
  const NameSeparator: char := '-'
  /** Joins the export type to the owner in the canonical name. */
  const OwnerSeparator: char := '_'
  const Extension: string := ".xlsx"

  /** A path inside directory `dir` (a path of the form `dir/...`). */
  predicate UnderDir(dir: string, p: string) {
    dir + [PathSeparator] <= p
  }

  /** `dir/name`; the platform's joining rules are not modelled. */
  function JoinPath(dir: string, name: string): (p: string)
    ensures UnderDir(dir, p)
    ensures |p| == |dir| + 1 + |name| && p[|dir| + 1..] == name
  {
    dir + [PathSeparator] + name
  }

  /** The directory that receives one owner's downloads. */
  function UserDir(downloadPath: string, owner: string): (d: string)
    ensures UnderDir(downloadPath, d) && d[|downloadPath| + 1..] == owner
  {
    JoinPath(downloadPath, owner)
  }

  /**
   * The part of a row name before its first `-`: the whole name when it has
   * none, the empty string when it starts with one.
   */
  function BaseName(raw: string): (b: string)
    ensures b <= raw
    ensures NameSeparator !in b
    ensures |b| < |raw| ==> raw[|b|] == NameSeparator
  {
    if raw == [] || raw[0] == NameSeparator then []
    else [raw[0]] + BaseName(raw[1..])
  }

  /** The file name (without extension) the download is saved under. */
  function CanonicalName(raw: string, owner: string): string {
    BaseName(raw) + [OwnerSeparator] + owner
  }

  /** The full path of the downloaded file for the row named `raw`. */
  function TargetFile(userDir: string, raw: string, owner: string): (p: string)
    ensures UnderDir(userDir, p)
    ensures |p| >= |userDir| + 1 + |owner| + 1 + |Extension|
    ensures p[|p| - |owner| - |Extension| - 1..] == [OwnerSeparator] + owner + Extension
  {
    JoinPath(userDir, CanonicalName(raw, owner) + Extension)
  }

  /** Recovers the base name from a target path; the inverse of `TargetFile`. */
  function BaseOfTarget(userDir: string, owner: string, p: string): string {
    var lo := |userDir| + 1;
    var hi := |p| - (1 + |owner| + |Extension|);
    if lo <= hi then p[lo..hi] else []
  }

  lemma {:induction false} BaseNameOfComposite(b: string, rest: string)
    requires NameSeparator !in b
    ensures BaseName(b + [NameSeparator] + rest) == b
  {
    var raw := b + [NameSeparator] + rest;
    if b != [] {
      assert b[0] != NameSeparator;
      assert raw[1..] == b[1..] + [NameSeparator] + rest;
      BaseNameOfComposite(b[1..], rest);
    }
  }

  /** The worked example: a timestamped row name keeps only its export type. */
  lemma BaseNameExample()
    ensures BaseName("Orders-20240101-foo") == "Orders"
  {
    assert "Orders-20240101-foo" == "Orders" + [NameSeparator] + "20240101-foo";
    BaseNameOfComposite("Orders", "20240101-foo");
  }

  lemma BaseOfTargetRoundTrip(userDir: string, raw: string, owner: string)
    ensures BaseOfTarget(userDir, owner, TargetFile(userDir, raw, owner)) == BaseName(raw)
  {
  }

  /**
   * `UnderDir` is a fact about path strings only. When neither the base name
   * nor the owner holds a path separator, the target is also a single file
   * name directly inside `userDir`: one path component, never `.` or `..`
   * (it ends in the extension).
   */
  lemma TargetIsDirectChild(userDir: string, raw: string, owner: string)
    requires PathSeparator !in BaseName(raw) && PathSeparator !in owner
    ensures var name := TargetFile(userDir, raw, owner)[|userDir| + 1..];
            && PathSeparator !in name
            && name[|name| - |Extension|..] == Extension
            && name != "." && name != ".."
  {
  }

  /** For a fixed owner, two rows share a target file exactly when they share a base name. */
  lemma TargetFileInjective(userDir: string, owner: string, raw1: string, raw2: string)
    ensures TargetFile(userDir, raw1, owner) == TargetFile(userDir, raw2, owner)
            <==> BaseName(raw1) == BaseName(raw2)
  {
    BaseOfTargetRoundTrip(userDir, raw1, owner);
    BaseOfTargetRoundTrip(userDir, raw2, owner);
  }

  /**
   * Two different owners whose names hold no path separator never share a
   * target file, whatever their rows are named.
   */
  lemma OwnersDoNotCollide(downloadPath: string, owner1: string, owner2: string, raw1: string, raw2: string)
    requires PathSeparator !in owner1 && PathSeparator !in owner2
    requires owner1 != owner2
    ensures TargetFile(UserDir(downloadPath, owner1), raw1, owner1)
            != TargetFile(UserDir(downloadPath, owner2), raw2, owner2)
  {
    var p1 := TargetFile(UserDir(downloadPath, owner1), raw1, owner1);
    var p2 := TargetFile(UserDir(downloadPath, owner2), raw2, owner2);
    var k := |downloadPath| + 1;
    if |owner1| == |owner2| {
      assert p1[k..k + |owner1|] == owner1;
      assert p2[k..k + |owner2|] == owner2;
    } else if |owner1| < |owner2| {
      assert p1[k + |owner1|] == PathSeparator != p2[k + |owner1|];
    } else {
      assert p2[k + |owner2|] == PathSeparator != p1[k + |owner2|];
    }
  }
}
