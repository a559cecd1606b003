/** `_resolve_actual_file_path`: finds the recording on disk when the path the server
    reports has gone stale (the file was transcoded or remuxed under another extension). */
module Resolve {
  import opened Wrappers
  import opened Paths
  import opened FileSystem

  /** The extensions tried, in this order, after the reported path itself. */
  const AltExts: seq<string> := [".mkv", ".mp4", ".avi", ".ts", ".mpg"]

  /** The same directory and stem as `original`, with extension `ext`. */
  function AltPath(original: string, ext: string): string {
    Join(Parent(original), Stem(Name(original)) + ext)
  }

  /** The first alternative from the `k`-th extension on that names a file. */
  function FirstAlt(fs: FS, original: string, k: nat): Option<string>
    decreases |AltExts| - k
  {
    if k >= |AltExts| then None
    else if IsFile(fs, AltPath(original, AltExts[k])) then Some(AltPath(original, AltExts[k]))
    else FirstAlt(fs, original, k + 1)
  }

  /** What `_resolve_actual_file_path` returns, as a value. */
  function ResolvedPath(fs: FS, original: string): Option<string> {
    if IsFile(fs, original) then Some(original)
    else if !IsAbsolute(original) || Stem(Name(original)) == "" then None
    else FirstAlt(fs, original, 0)
  }

  /** The reported path when it is a file; otherwise, for an absolute path with a non-empty
      stem, the first alternative extension that names a file; otherwise nothing. */
  method ResolveActualFilePath(fs: FS, original: string) returns (r: Option<string>)
    ensures IsFile(fs, original) ==> r == Some(original)
    ensures !IsFile(fs, original) && (!IsAbsolute(original) || Stem(Name(original)) == "") ==> r == None
    ensures !IsFile(fs, original) && IsAbsolute(original) && Stem(Name(original)) != "" ==>
      match r
      case None => forall k :: 0 <= k < |AltExts| ==> !IsFile(fs, AltPath(original, AltExts[k]))
      case Some(p) =>
        exists k :: 0 <= k < |AltExts| && p == AltPath(original, AltExts[k])
          && forall j :: 0 <= j < k ==> !IsFile(fs, AltPath(original, AltExts[j]))
    ensures r.Some? ==> IsFile(fs, r.value)
    ensures r == ResolvedPath(fs, original)
  {
    if IsFile(fs, original) {
      return Some(original);
    }
    if !IsAbsolute(original) || Stem(Name(original)) == "" {
      return None;
    }
    var k := 0;
    while k < |AltExts|
      invariant 0 <= k <= |AltExts|
      invariant forall j :: 0 <= j < k ==> !IsFile(fs, AltPath(original, AltExts[j]))
      invariant FirstAlt(fs, original, k) == ResolvedPath(fs, original)
    {
      var candidate := AltPath(original, AltExts[k]);
      if IsFile(fs, candidate) {
        return Some(candidate);
      }
      k := k + 1;
    }
    return None;
  }

  lemma NameNoSlash(p: string)
    ensures NoSlash(Name(p))
  {
  }

  lemma StemNoSlash(p: string)
    ensures NoSlash(Stem(Name(p)))
  {
    NameNoSlash(p);
    var n := Name(p);
    var i := LastDot(n);
    if 0 < i < |n| - 1 {
      assert forall j :: 0 <= j < i ==> n[..i][j] == n[j];
    }
  }

  /** An alternative lives in the reported path's directory, keeps its stem and carries
      exactly the extension tried, so the link made for it takes that extension. */
  lemma AltPathSameDirAndStem(original: string, k: nat)
    requires k < |AltExts|
    requires Stem(Name(original)) != ""
    ensures Parent(AltPath(original, AltExts[k])) == Parent(original)
    ensures Name(AltPath(original, AltExts[k])) == Stem(Name(original)) + AltExts[k]
    ensures Stem(Name(AltPath(original, AltExts[k]))) == Stem(Name(original))
    ensures Suffix(Name(AltPath(original, AltExts[k]))) == AltExts[k]
  {
    var stem := Stem(Name(original));
    var ext := AltExts[k];
    StemNoSlash(original);
    assert NoSlash(stem + ext);
    JoinSplits(Parent(original), stem + ext);
    StemSuffixOfExt(stem, ext);
  }
}
