/** Collision resolution with memoisation: the remembered base from the previous run wins;
    otherwise the target folder is probed for a link under the default name that points at a
    different file, and the record's id is appended when one is found. */
module Collision {
  import opened Paths
  import opened FileSystem
  import opened Compare
  import opened State

  /** The extensions probed, in this order, for a link under the default name. */
  const ProbeExts: seq<string> := [".mpg", ".mkv", ".mp4", ".ts", ".avi"]

  /** `p` exists (following links), is itself a link, and its target compares different
      from the file being placed. */
  predicate Conflicts(fs: FS, pl: Platform, p: string, newComparable: string) {
    Exists(fs, p) && IsSymlink(fs, p) && Comparable(pl, fs[p].target) != newComparable
  }

  function Candidate(dir: string, base: string, k: nat): string
    requires k < |ProbeExts|
  {
    Join(dir, base + ProbeExts[k])
  }

  predicate Collides(fs: FS, pl: Platform, dir: string, base: string, newComparable: string) {
    exists k :: 0 <= k < |ProbeExts| && Conflicts(fs, pl, Candidate(dir, base, k), newComparable)
  }

  /** The probe loop of `_process_tv_show` and `_process_movie`: stops at the first
      conflicting candidate. */
  method ProbeCollision(fs: FS, pl: Platform, dir: string, base: string, newComparable: string)
    returns (collision: bool)
    ensures collision <==> Collides(fs, pl, dir, base, newComparable)
  {
    var k := 0;
    while k < |ProbeExts|
      invariant 0 <= k <= |ProbeExts|
      invariant forall j :: 0 <= j < k ==> !Conflicts(fs, pl, Candidate(dir, base, j), newComparable)
    {
      var candidate := Join(dir, base + ProbeExts[k]);
      if Exists(fs, candidate) && IsSymlink(fs, candidate) {
        var existing := Comparable(pl, fs[candidate].target);
        if existing != newComparable {
          assert Conflicts(fs, pl, Candidate(dir, base, k), newComparable);
          return true;
        }
      }
      k := k + 1;
    }
    return false;
  }

  /** The base the record's files get: the remembered one, else the default with the id
      appended on a collision, else the default. */
  function ChooseBase(previous: StateMap, id: string, default: string, collision: bool): string {
    var recalled := RecalledBase(previous, id);
    if recalled != "" then recalled
    else if collision then default + " - " + id
    else default
  }

  /** A remembered base is used as it is, whatever the disk holds: the probe result does
      not matter. */
  lemma RememberedBaseWins(previous: StateMap, id: string, default: string, c1: bool, c2: bool)
    requires id in previous && previous[id].resolvedBase != ""
    ensures ChooseBase(previous, id, default, c1) == previous[id].resolvedBase
    ensures ChooseBase(previous, id, default, c1) == ChooseBase(previous, id, default, c2)
  {
  }

  /** With nothing remembered, the default is kept exactly when no probed link conflicts. */
  lemma FreshBaseIsDefaultIffNoCollision(previous: StateMap, id: string, default: string, collision: bool)
    requires RecalledBase(previous, id) == ""
    ensures ChooseBase(previous, id, default, collision) == default <==> !collision
    ensures collision ==> ChooseBase(previous, id, default, collision) == default + " - " + id
  {
    if collision {
      assert |default + " - " + id| > |default|;
    }
  }

  /** A link made under the suffixed base never lands on one of the probed paths under the
      default base, whatever extension it takes. */
  lemma SuffixedLinkAvoidsProbes(dir: string, default: string, id: string, ext: string, k: nat)
    requires k < |ProbeExts|
    ensures Join(dir, default + " - " + id + ext) != Candidate(dir, default, k)
  {
    var a := Join(dir, default + " - " + id + ext);
    var b := Candidate(dir, default, k);
    var i := |dir| + 1 + |default|;
    if |a| > i && |b| > i {
      assert a[i] == ' ';
      assert b[i] == '.';
    }
  }
}
