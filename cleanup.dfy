/** `_cleanup_stale_files`: before processing, every record of the previous run is checked
    and a link whose target has disappeared is removed together with its NFO. Both the loop
    body as written and the corrected one are defined; the generator runs the corrected one. */
module Cleanup {
  import opened Wrappers
  import opened FileSystem
  import opened State

  /** `Path(p)` of a state field: the empty string names the current directory. */
  function PathArg(p: string): string {
    if p == "" then "." else p
  }

  /** One iteration: the disk after it, and whether `stale_count` was incremented. */
  datatype StepResult = StepResult(fs: FS, counted: bool)

  /** The shared tail of the loop body, reached for a link whose target does not exist:
      remove the link (a failure is caught), then the NFO if it exists (a failure is caught
      after the link is already gone, and the item is not counted). */
  function RemoveStale(fs: FS, denied: set<string>, link: string, nfo: string): StepResult {
    if !RemoveOk(fs, denied, link) then StepResult(fs, false)
    else
      var fs1 := fs - {link};
      if !Exists(fs1, nfo) then StepResult(fs1, true)
      else if RemoveOk(fs1, denied, nfo) then StepResult(fs1 - {nfo}, true)
      else StepResult(fs1, false)
  }

  /** The loop body as written: `link_path.exists()` first, which follows the link. */
  function CleanupStepAsWritten(fs: FS, denied: set<string>, e: StateEntry): StepResult {
    var link := PathArg(e.linkPath);
    var nfo := PathArg(e.nfoPath);
    if !Exists(fs, link) then StepResult(fs, false)
    else if !IsSymlink(fs, link) then StepResult(fs, false)
    else if Exists(fs, fs[link].target) then StepResult(fs, false)
    else RemoveStale(fs, denied, link, nfo)
  }

  /** The loop body as intended: a link is recognised by `is_symlink()` (lstat), so one whose
      target is gone reaches the target check. */
  function CleanupStep(fs: FS, denied: set<string>, e: StateEntry): StepResult {
    var link := PathArg(e.linkPath);
    var nfo := PathArg(e.nfoPath);
    if !IsSymlink(fs, link) then StepResult(fs, false)
    else if Exists(fs, fs[link].target) then StepResult(fs, false)
    else RemoveStale(fs, denied, link, nfo)
  }

  datatype Sweep = Sweep(fs: FS, staleCount: nat)

  predicate AllRecorded(previous: StateMap, order: seq<string>) {
    forall i :: 0 <= i < |order| ==> order[i] in previous
  }

  /** The whole loop over the previous state in its key order, with either loop body. */
  function CleanupFold(fs: FS, denied: set<string>, previous: StateMap, order: seq<string>, asWritten: bool): Sweep
    requires AllRecorded(previous, order)
    decreases |order|
  {
    if order == [] then Sweep(fs, 0)
    else
      var s := CleanupFold(fs, denied, previous, order[..|order| - 1], asWritten);
      var e := previous[order[|order| - 1]];
      var st := if asWritten then CleanupStepAsWritten(s.fs, denied, e) else CleanupStep(s.fs, denied, e);
      Sweep(st.fs, s.staleCount + if st.counted then 1 else 0)
  }

  /** One more record of the corrected sweep. */
  lemma CleanupFoldNext(fs: FS, denied: set<string>, previous: StateMap, order: seq<string>, i: nat)
    requires AllRecorded(previous, order) && i < |order|
    ensures AllRecorded(previous, order[..i]) && AllRecorded(previous, order[..i + 1])
    ensures var s := CleanupFold(fs, denied, previous, order[..i], false);
      var st := CleanupStep(s.fs, denied, previous[order[i]]);
      CleanupFold(fs, denied, previous, order[..i + 1], false) == Sweep(st.fs, s.staleCount + if st.counted then 1 else 0)
  {
    assert order[..i + 1][..i] == order[..i];
  }

  // ---------------------------------------------------------------------------
  // The loop as written removes nothing
  // ---------------------------------------------------------------------------

  /** As written, no entry ever passes all three checks: a link that `exists()` resolves
      has a target that exists too, so the loop body never changes the disk. */
  lemma AsWrittenStepRemovesNothing(fs: FS, denied: set<string>, e: StateEntry)
    ensures CleanupStepAsWritten(fs, denied, e) == StepResult(fs, false)
  {
    var link := PathArg(e.linkPath);
    if Exists(fs, link) && IsSymlink(fs, link) {
      ExistingLinkHasExistingTarget(fs, link);
    }
  }

  lemma {:induction false} AsWrittenSweepRemovesNothing(fs: FS, denied: set<string>, previous: StateMap, order: seq<string>)
    requires AllRecorded(previous, order)
    ensures CleanupFold(fs, denied, previous, order, true) == Sweep(fs, 0)
    decreases |order|
  {
    if order != [] {
      AsWrittenSweepRemovesNothing(fs, denied, previous, order[..|order| - 1]);
      AsWrittenStepRemovesNothing(fs, denied, previous[order[|order| - 1]]);
    }
  }

  /** A record whose link points at a recording that is gone: the corrected body removes the
      link and counts it; the body as written leaves it. */
  lemma DanglingLinkExample(fs: FS, e: StateEntry)
    requires fs == map["/media/TV Shows/A/Season 01/A - S01E01 - Episode.mpg" := Symlink("/rec/A.mpg")]
    requires e == StateEntry("/media/TV Shows/A/Season 01/A - S01E01 - Episode.mpg",
                             "/media/TV Shows/A/Season 01/A - S01E01 - Episode.nfo", "/rec/A.mpg",
                             "A - S01E01 - Episode")
    ensures CleanupStep(fs, {}, e) == StepResult(map[], true)
    ensures CleanupStepAsWritten(fs, {}, e) == StepResult(fs, false)
  {
    var link := e.linkPath;
    assert ChainEnd(fs, "/rec/A.mpg", MaxHops) == Some("/rec/A.mpg");
    assert fs - {link} == map[];
    assert ChainEnd(fs, link, MaxHops) == None || ChainEnd(fs, link, MaxHops).value !in fs by {
      assert ChainEnd(fs, link, MaxHops) == ChainEnd(fs, "/rec/A.mpg", MaxHops - 1);
    }
  }

  // ---------------------------------------------------------------------------
  // What the corrected loop may remove
  // ---------------------------------------------------------------------------

  /** `fs'` is `fs` with some entries removed and nothing else changed. */
  predicate OnlyRemoves(fs': FS, fs: FS) {
    forall p :: p in fs' ==> p in fs && fs'[p] == fs[p]
  }

  /** One corrected iteration removes at most the record's link and NFO; the link only when
      it is a link whose target does not exist; the NFO only together with the link; and the
      item is counted only when the link was removed. */
  lemma CleanupStepSafe(fs: FS, denied: set<string>, e: StateEntry)
    ensures var r := CleanupStep(fs, denied, e);
      var link := PathArg(e.linkPath);
      var nfo := PathArg(e.nfoPath);
      && OnlyRemoves(r.fs, fs)
      && (forall p :: p in fs && p !in r.fs ==> p == link || p == nfo)
      && (link in fs && link !in r.fs ==> fs[link].Symlink? && !Exists(fs, fs[link].target))
      && (nfo in fs && nfo !in r.fs ==> link in fs && link !in r.fs)
      && (r.counted <==> link in fs && link !in r.fs && (nfo in r.fs ==> nfo == link || !Exists(r.fs, nfo)))
  {
  }

  /** The loop body is skipped, leaving the disk alone, for anything at the link path that is
      not a link and for a link whose target still exists. */
  lemma CleanupStepSkips(fs: FS, denied: set<string>, e: StateEntry)
    requires var link := PathArg(e.linkPath);
      !IsSymlink(fs, link) || Exists(fs, fs[link].target)
    ensures CleanupStep(fs, denied, e) == StepResult(fs, false)
  {
  }

  /** `p` went from `fs` to `fs'` as the stale link of record `e`: it is the recorded link or
      the NFO recorded beside it, where the link was a symbolic link in `fs` and is gone from
      `fs'`. */
  predicate StaleOf(fs: FS, fs': FS, e: StateEntry, p: string) {
    var link := PathArg(e.linkPath);
    && link in fs && fs[link].Symlink? && link !in fs'
    && (p == link || p == PathArg(e.nfoPath))
  }

  /** `p` went from `fs` to `fs'` as the stale link of some record in `order`. */
  predicate RemovedAsStale(fs: FS, fs': FS, previous: StateMap, order: seq<string>, p: string)
    requires AllRecorded(previous, order)
  {
    exists i :: 0 <= i < |order| && StaleOf(fs, fs', previous[order[i]], p)
  }

  /** An entry removed before the last record is still removed as stale after it. */
  lemma RemovedAsStaleGrows(fs: FS, s: FS, r: FS, previous: StateMap, order: seq<string>, p: string)
    requires AllRecorded(previous, order) && order != []
    requires OnlyRemoves(r, s)
    requires RemovedAsStale(fs, s, previous, order[..|order| - 1], p)
    ensures RemovedAsStale(fs, r, previous, order, p)
  {
    var init := order[..|order| - 1];
    var i :| 0 <= i < |init| && StaleOf(fs, s, previous[init[i]], p);
    assert init[i] == order[i];
    assert StaleOf(fs, r, previous[order[i]], p);
  }

  /** An entry removed by the last record's step is that record's stale link or NFO. */
  lemma RemovedByLast(fs: FS, denied: set<string>, s: FS, e: StateEntry, p: string)
    requires OnlyRemoves(s, fs)
    requires p in s && p !in CleanupStep(s, denied, e).fs
    ensures StaleOf(fs, CleanupStep(s, denied, e).fs, e, p)
  {
    CleanupStepSafe(s, denied, e);
  }

  /** The corrected sweep only removes entries, and each removed entry is the recorded link
      of a record, which was a symbolic link and is gone, or the NFO recorded beside it. */
  lemma {:induction false} CleanupSweepRemovesRecorded(fs: FS, denied: set<string>, previous: StateMap, order: seq<string>)
    requires AllRecorded(previous, order)
    ensures var s := CleanupFold(fs, denied, previous, order, false);
      && OnlyRemoves(s.fs, fs)
      && (forall p :: p in fs && p !in s.fs ==> RemovedAsStale(fs, s.fs, previous, order, p))
    decreases |order|
  {
    if order != [] {
      var init := order[..|order| - 1];
      CleanupSweepRemovesRecorded(fs, denied, previous, init);
      var s := CleanupFold(fs, denied, previous, init, false);
      var n := |order| - 1;
      var e := previous[order[n]];
      CleanupStepSafe(s.fs, denied, e);
      var r := CleanupStep(s.fs, denied, e);
      forall p | p in fs && p !in r.fs ensures RemovedAsStale(fs, r.fs, previous, order, p) {
        if p in s.fs {
          RemovedByLast(fs, denied, s.fs, e, p);
        } else {
          RemovedAsStaleGrows(fs, s.fs, r.fs, previous, order, p);
        }
      }
    }
  }

  lemma {:induction false} SubsetCard(a: set<string>, b: set<string>)
    requires a <= b
    ensures |a| <= |b|
    decreases |a|
  {
    if a != {} {
      var x :| x in a;
      SubsetCard(a - {x}, b - {x});
    }
  }

  /** Removing more from a set leaves at least as much removed relative to `all`. */
  lemma RemovedGrows(all: set<string>, mid: set<string>, last: set<string>)
    requires last <= mid
    ensures |all - mid| <= |all - last|
  {
    SubsetCard(all - mid, all - last);
  }

  /** ... and strictly more when one more element of `all` is removed. */
  lemma RemovedGrowsBy(all: set<string>, mid: set<string>, last: set<string>, x: string)
    requires last <= mid <= all && x in mid && x !in last
    ensures |all - mid| < |all - last|
  {
    SubsetCard((all - mid) + {x}, all - last);
  }

  /** Each counted item is a distinct entry gone from the disk, so the count is bounded by
      both the number of records and the number of entries removed. */
  lemma {:induction false} CleanupSweepCount(fs: FS, denied: set<string>, previous: StateMap, order: seq<string>)
    requires AllRecorded(previous, order)
    ensures var s := CleanupFold(fs, denied, previous, order, false);
      && s.staleCount <= |order|
      && s.staleCount <= |fs.Keys - s.fs.Keys|
    decreases |order|
  {
    if order != [] {
      var init := order[..|order| - 1];
      CleanupSweepCount(fs, denied, previous, init);
      CleanupSweepRemovesRecorded(fs, denied, previous, init);
      var s := CleanupFold(fs, denied, previous, init, false);
      var e := previous[order[|order| - 1]];
      CleanupStepSafe(s.fs, denied, e);
      var r := CleanupStep(s.fs, denied, e);
      if r.counted {
        RemovedGrowsBy(fs.Keys, s.fs.Keys, r.fs.Keys, PathArg(e.linkPath));
      } else {
        RemovedGrows(fs.Keys, s.fs.Keys, r.fs.Keys);
      }
    }
  }

  /** The corrected sweep only removes entries; each removed entry is the recorded link of a
      record, which was a symbolic link and is gone, or the NFO recorded beside it; and the
      count is at most the number of records and the number of entries removed. */
  lemma CleanupSweepSafe(fs: FS, denied: set<string>, previous: StateMap, order: seq<string>)
    requires AllRecorded(previous, order)
    ensures var s := CleanupFold(fs, denied, previous, order, false);
      && OnlyRemoves(s.fs, fs)
      && (forall p :: p in fs && p !in s.fs ==> RemovedAsStale(fs, s.fs, previous, order, p))
      && s.staleCount <= |order|
      && s.staleCount <= |fs.Keys - s.fs.Keys|
  {
    CleanupSweepRemovesRecorded(fs, denied, previous, order);
    CleanupSweepCount(fs, denied, previous, order);
  }
}
