/** `NFOGeneratorUtility`: the object that holds the run's state (`current_state`,
    `previous_state`, `processed_tv_shows`) and reconciles the media library on disk with the
    records the server reports. */
module NfoGenerator {
  import opened Wrappers
  import opened Paths
  import opened FileSystem
  import opened Compare
  import opened State
  import opened Episode
  import opened Layout
  import opened Resolve
  import opened Collision
  import opened Writer
  import opened Cleanup

  /** One media file as `_extract_data` returns it, with the text of its NFO and of its show's
      `tvshow.nfo` already rendered (the text itself is not modelled). */
  datatype Record = Record(
    id: string,
    isMovie: bool,
    title: string,
    year: string,
    episodeName: string,
    episodeNumber: string,
    seasonNumber: string,
    filePath: string,
    nfoContent: string,
    seriesNfoContent: string)

  /** `order` lists the keys of `m` once each, in insertion order. */
  predicate OrderOf(order: seq<string>, m: StateMap) {
    && (forall i :: 0 <= i < |order| ==> order[i] in m)
    && (forall k :: k in m ==> k in order)
    && (forall i, j :: 0 <= i < j < |order| ==> order[i] != order[j])
  }

  /** The state entry `_create_media_files` records. */
  function EntryFor(dir: string, base: string, resolved: string): StateEntry {
    StateEntry(LinkPath(dir, base, resolved), NfoPath(dir, base), resolved, base)
  }

  /** `current_state[id] = entry`, when the writer got that far. */
  function Commit(state: StateMap, id: string, outcome: Outcome, entry: StateEntry): StateMap {
    if outcome == Written then state[id := entry] else state
  }

  /** A new key goes to the end of the dictionary's order; an existing one keeps its place. */
  function CommitOrder(order: seq<string>, state: StateMap, id: string, outcome: Outcome): seq<string> {
    if outcome == Written && id !in state then order + [id] else order
  }

  /** The series NFO step of `_process_tv_show`: done once per cleaned show name. */
  function SeriesStep(fs: FS, denied: set<string>, processed: set<string>, root: string, rec: Record): FS {
    if ShowName(rec.title) in processed then fs
    else SeriesNfoFs(fs, denied, ShowDir(root, rec.title), rec.seriesNfoContent)
  }

  /** Season and episode of a TV record, from its fields or its resolved file name. */
  function TvNumbers(rec: Record, resolved: string): (int, int) {
    ChooseSeasonEpisode(rec.seasonNumber, rec.episodeNumber, Name(resolved))
  }

  /** The folder and the base name `_process_tv_show` hands to the writer. */
  function TvTarget(root: string, previous: StateMap, pl: Platform, fs: FS, rec: Record, resolved: string): (string, string) {
    var numbers := TvNumbers(rec, resolved);
    var dir := SeasonDir(root, rec.title, numbers.0);
    var default := TvDefaultBase(rec.title, numbers.0, numbers.1, rec.episodeName);
    (dir, ChooseBase(previous, rec.id, default, Collides(fs, pl, dir, default, Comparable(pl, resolved))))
  }

  /** The folder and the base name `_process_movie` hands to the writer. */
  function MovieTarget(root: string, flat: bool, previous: StateMap, pl: Platform, fs: FS, rec: Record,
                       resolved: string): (string, string)
  {
    var dir := MovieDir(root, flat, rec.title, rec.year);
    var default := MovieName(rec.title, rec.year);
    (dir, ChooseBase(previous, rec.id, default, Collides(fs, pl, dir, default, Comparable(pl, resolved))))
  }

  /** `rec` is one of the records of the pages, with a file path. */
  predicate InPages(pages: seq<Option<seq<Record>>>, id: string) {
    exists k, j :: 0 <= k < |pages| && pages[k].Some? && 0 <= j < |pages[k].value|
      && pages[k].value[j].id == id && pages[k].value[j].filePath != ""
  }

  /** A record of `page` with a file path has identifier `id`. */
  predicate InPage(page: seq<Record>, id: string) {
    exists j :: 0 <= j < |page| && page[j].id == id && page[j].filePath != ""
  }

  function PathCountOf(page: seq<Record>): nat {
    if page == [] then 0
    else PathCountOf(page[..|page| - 1]) + if page[|page| - 1].filePath != "" then 1 else 0
  }

  /** How many records of all the pages report a file path. */
  function PathCount(pages: seq<Option<seq<Record>>>): nat {
    if pages == [] then 0
    else (if pages[0].Some? then PathCountOf(pages[0].value) else 0) + PathCount(pages[1..])
  }

  /** What processing records changes: the disk, `current_state` with its key order, and
      `processed_tv_shows`. */
  datatype World = World(fs: FS, state: StateMap, order: seq<string>, shows: set<string>)

  /** What stays fixed while records are processed. */
  datatype Config = Config(root: string, flatMovies: bool, previous: StateMap, platform: Platform,
                           denied: set<string>)

  /** `_process_tv_show` on a world; the flag is true when an OS error escaped the writer. */
  function TvStep(c: Config, w: World, rec: Record, resolved: string): (World, bool) {
    if rec.title == "" then (w, false)
    else
      var fs1 := SeriesStep(w.fs, c.denied, w.shows, c.root, rec);
      var t := TvTarget(c.root, c.previous, c.platform, fs1, rec, resolved);
      var r := WriteArtifacts(fs1, c.denied, c.platform, resolved, t.0, t.1, rec.nfoContent);
      (World(r.fs, Commit(w.state, rec.id, r.outcome, EntryFor(t.0, t.1, resolved)),
             CommitOrder(w.order, w.state, rec.id, r.outcome), w.shows + {ShowName(rec.title)}),
       r.outcome == Raised)
  }

  /** `_process_movie` on a world; the flag is true when an OS error escaped the writer. */
  function MovieStep(c: Config, w: World, rec: Record, resolved: string): (World, bool) {
    if rec.title == "" then (w, false)
    else
      var t := MovieTarget(c.root, c.flatMovies, c.previous, c.platform, w.fs, rec, resolved);
      var r := WriteArtifacts(w.fs, c.denied, c.platform, resolved, t.0, t.1, rec.nfoContent);
      (World(r.fs, Commit(w.state, rec.id, r.outcome, EntryFor(t.0, t.1, resolved)),
             CommitOrder(w.order, w.state, rec.id, r.outcome), w.shows),
       r.outcome == Raised)
  }

  /** One pass of the inner loop's body: a record without a file path, or whose recording
      cannot be found, leaves the world alone and is not counted; any other record is
      processed as a movie or a TV episode and counted unless that raised. The new state
      has at most one new key, the record's own. */
  function RecordStep(c: Config, w: World, rec: Record): (r: (World, bool))
    ensures r.1 ==> rec.filePath != "" && ResolvedPath(w.fs, rec.filePath).Some?
    ensures forall id :: id in r.0.state ==> id in w.state || (id == rec.id && rec.filePath != "")
  {
    if rec.filePath == "" then (w, false)
    else match ResolvedPath(w.fs, rec.filePath)
      case None => (w, false)
      case Some(resolved) =>
        var s := if rec.isMovie then MovieStep(c, w, rec, resolved) else TvStep(c, w, rec, resolved);
        (s.0, !s.1)
  }

  /** One pass of the inner loop's body as a value: the new world and whether the record
      was counted. */
  type Step = (World, Record) -> (World, bool)

  /** `RecordStep` for a fixed configuration. */
  function RecordStepOf(c: Config): Step {
    (w, rec) => RecordStep(c, w, rec)
  }

  /** What the loops rely on of a step: it counts only a record with a file path, and the
      only key it may add to the state is that record's own. */
  ghost predicate StepKeepsIds(step: Step) {
    forall w: World, rec: Record ::
      && (step(w, rec).1 ==> rec.filePath != "")
      && (forall id :: id in step(w, rec).0.state ==> id in w.state || (id == rec.id && rec.filePath != ""))
  }

  lemma RecordStepKeepsIds(c: Config)
    ensures StepKeepsIds(RecordStepOf(c))
  {
    forall w: World, rec: Record
      ensures && (RecordStepOf(c)(w, rec).1 ==> rec.filePath != "")
              && (forall id :: id in RecordStepOf(c)(w, rec).0.state ==> id in w.state || (id == rec.id && rec.filePath != ""))
    {
      var s := RecordStep(c, w, rec);
      assert RecordStepOf(c)(w, rec) == s;
    }
  }

  /** The world and `total_generated` as the loops go. */
  datatype Progress = Progress(world: World, total: nat)

  /** `max_files > 0 and total_generated >= max_files`. */
  predicate LimitReached(maxFiles: int, total: int) {
    maxFiles > 0 && total >= maxFiles
  }

  /** The inner loop over `records` from `p`: each record is processed in turn until the
      limit is reached. */
  function PageFold(step: Step, maxFiles: int, p: Progress, records: seq<Record>): Progress
    decreases |records|
  {
    if records == [] then p
    else
      var q := PageFold(step, maxFiles, p, records[..|records| - 1]);
      if LimitReached(maxFiles, q.total) then q
      else
        var s := step(q.world, records[|records| - 1]);
        Progress(s.0, q.total + if s.1 then 1 else 0)
  }

  /** The page loop from page `k` on with progress `p`, as `run_generator` runs it: it stops
      when the limit is reached, at a failed fetch (or past the last page), at an empty page,
      and after a page that reached the limit or was short. Returns the progress and how many
      pages were processed in all. */
  function PageLoopRun(step: Step, maxFiles: int, pageSize: int, p: Progress,
                       pages: seq<Option<seq<Record>>>, k: nat): (Progress, nat)
    requires k <= |pages|
    decreases |pages| - k
  {
    if LimitReached(maxFiles, p.total) || k == |pages| || pages[k].None? || pages[k].value == [] then (p, k)
    else
      var q := PageFold(step, maxFiles, p, pages[k].value);
      if LimitReached(maxFiles, q.total) || |pages[k].value| < pageSize then (q, k + 1)
      else PageLoopRun(step, maxFiles, pageSize, q, pages, k + 1)
  }

  class NfoGeneratorUtility {
    const root: string
    const flatMovies: bool
    const pageSize: int
    /** `MAX_FILES_TO_PROCESS`; zero or less means no limit. */
    const maxFiles: int
    const platform: Platform
    const disk: Disk
    /** `previous_state`, as loaded at start-up, with its key order. */
    const previousState: StateMap
    const previousOrder: seq<string>
    var currentState: StateMap
    var currentOrder: seq<string>
    var processedTvShows: set<string>

    ghost predicate Valid()
      reads this
    {
      pageSize > 0 && OrderOf(previousOrder, previousState) && OrderOf(currentOrder, currentState)
    }

    /** The part of the object and the disk that processing changes. */
    ghost function Snapshot(): World
      reads this, disk
    {
      World(disk.entries, currentState, currentOrder, processedTvShows)
    }

    /** The part that stays fixed. */
    function Cfg(): Config {
      Config(root, flatMovies, previousState, platform, disk.denied)
    }

    constructor (root: string, flatMovies: bool, pageSize: int, maxFiles: int, platform: Platform, disk: Disk,
                 previousState: StateMap, previousOrder: seq<string>)
      requires pageSize > 0
      requires OrderOf(previousOrder, previousState)
      ensures Valid()
      ensures this.root == root && this.flatMovies == flatMovies && this.pageSize == pageSize
      ensures this.maxFiles == maxFiles && this.platform == platform && this.disk == disk
      ensures this.previousState == previousState && this.previousOrder == previousOrder
      ensures currentState == map[] && currentOrder == [] && processedTvShows == {}
    {
      this.root := root;
      this.flatMovies := flatMovies;
      this.pageSize := pageSize;
      this.maxFiles := maxFiles;
      this.platform := platform;
      this.disk := disk;
      this.previousState := previousState;
      this.previousOrder := previousOrder;
      currentState := map[];
      currentOrder := [];
      processedTvShows := {};
    }

    /** `_create_media_files`: folder, link, NFO, then the state entry. */
    method CreateMediaFiles(id: string, resolved: string, dir: string, base: string, content: string)
      returns (outcome: Outcome)
      requires Valid()
      modifies disk, this`currentState, this`currentOrder
      ensures Valid()
      ensures var w := WriteArtifacts(old(disk.entries), disk.denied, platform, resolved, dir, base, content);
        && disk.entries == w.fs && outcome == w.outcome
        && currentState == Commit(old(currentState), id, w.outcome, EntryFor(dir, base, resolved))
        && currentOrder == CommitOrder(old(currentOrder), old(currentState), id, w.outcome)
    {
      outcome := WriteLinkAndNfo(resolved, dir, base, content);
      if outcome == Written {
        if id !in currentState {
          currentOrder := currentOrder + [id];
        }
        currentState := currentState[id := EntryFor(dir, base, resolved)];
      }
    }

    /** The disk part of `_create_media_files`: the folder, then the link (kept when it
        already points at the recording, re-pointed when it points elsewhere, never put in
        place of a file or folder), then the NFO when there is none. */
    method WriteLinkAndNfo(resolved: string, dir: string, base: string, content: string)
      returns (outcome: Outcome)
      modifies disk
      ensures var w := WriteArtifacts(old(disk.entries), disk.denied, platform, resolved, dir, base, content);
        disk.entries == w.fs && outcome == w.outcome
    {
      var link := LinkPath(dir, base, resolved);
      var nfo := NfoPath(dir, base);
      var made := disk.MakeDirs(dir);
      if !made {
        return Raised;
      }
      if Exists(disk.entries, link) {
        if IsSymlink(disk.entries, link) {
          var current := Comparable(platform, disk.entries[link].target);
          var wanted := Comparable(platform, resolved);
          if current != wanted {
            var removed := disk.Remove(link);
            if !removed {
              return Raised;
            }
            var created := disk.CreateSymlink(link, resolved);
            if !created {
              return Skipped;
            }
          }
        } else {
          return Skipped;
        }
      } else {
        var created := disk.CreateSymlink(link, resolved);
        if !created {
          return Skipped;
        }
      }
      if !Exists(disk.entries, nfo) {
        var written := disk.WriteText(nfo, content);
      }
      return Written;
    }

    /** `_create_series_nfo`: only the existence check and the file; the text is given. */
    method CreateSeriesNfo(showDir: string, content: string)
      modifies disk
      ensures disk.entries == SeriesNfoFs(old(disk.entries), disk.denied, showDir, content)
    {
      var nfo := SeriesNfoPath(showDir);
      if Exists(disk.entries, nfo) {
        return;
      }
      var made := disk.MakeDirs(showDir);
      if made {
        var written := disk.WriteText(nfo, content);
      }
    }

    /** `_get_resolved_filename_base` followed by the probe loop: the remembered base, or the
        default with the id appended when a conflicting link is found. */
    method ResolveFilenameBase(id: string, dir: string, default: string, resolved: string)
      returns (base: string)
      ensures base == ChooseBase(previousState, id, default,
                                 Collides(disk.entries, platform, dir, default, Comparable(platform, resolved)))
    {
      var recalled := RecalledBase(previousState, id);
      if recalled != "" {
        return recalled;
      }
      var collision := ProbeCollision(disk.entries, platform, dir, default, Comparable(platform, resolved));
      if collision {
        base := default + " - " + id;
      } else {
        base := default;
      }
    }

    /** The series NFO step of `_process_tv_show`: `tvshow.nfo` is attempted the first time
        a cleaned show name is seen in this run, and the name is remembered either way. */
    method SeriesNfoOnce(show: string, showDir: string, content: string)
      requires Valid()
      modifies disk, this`processedTvShows
      ensures Valid()
      ensures disk.entries == if show in old(processedTvShows) then old(disk.entries)
                              else SeriesNfoFs(old(disk.entries), disk.denied, showDir, content)
      ensures processedTvShows == old(processedTvShows) + {show}
    {
      var seen := processedTvShows;
      if show !in seen {
        CreateSeriesNfo(showDir, content);
      }
      processedTvShows := seen + {show};
    }

    /** The folder and base name of a TV record on the current disk: the three-tier season and
        episode choice, the season folder, the default base and then the collision check. */
    method TvPlacement(rec: Record, resolved: string) returns (dir: string, base: string)
      ensures (dir, base) == TvTarget(root, previousState, platform, disk.entries, rec, resolved)
    {
      var numbers := TvNumbers(rec, resolved);
      var season, episode := numbers.0, numbers.1;
      dir := SeasonDir(root, rec.title, season);
      var default := TvDefaultBase(rec.title, season, episode, rec.episodeName);
      base := ResolveFilenameBase(rec.id, dir, default, resolved);
    }

    /** `_process_tv_show`. `raised` is true when an OS error escaped the writer. */
    method ProcessTvShow(rec: Record, resolved: string) returns (raised: bool)
      requires Valid()
      modifies disk, this`currentState, this`currentOrder, this`processedTvShows
      ensures Valid()
      ensures rec.title == "" ==>
        && disk.entries == old(disk.entries) && !raised
        && currentState == old(currentState) && currentOrder == old(currentOrder)
        && processedTvShows == old(processedTvShows)
      ensures rec.title != "" ==>
        var fs1 := SeriesStep(old(disk.entries), disk.denied, old(processedTvShows), root, rec);
        var t := TvTarget(root, previousState, platform, fs1, rec, resolved);
        var w := WriteArtifacts(fs1, disk.denied, platform, resolved, t.0, t.1, rec.nfoContent);
        && processedTvShows == old(processedTvShows) + {ShowName(rec.title)}
        && disk.entries == w.fs && raised == (w.outcome == Raised)
        && currentState == Commit(old(currentState), rec.id, w.outcome, EntryFor(t.0, t.1, resolved))
        && currentOrder == CommitOrder(old(currentOrder), old(currentState), rec.id, w.outcome)
    {
      if rec.title == "" {
        return false;
      }
      ghost var fs0, shows0 := disk.entries, processedTvShows;
      SeriesNfoOnce(ShowName(rec.title), ShowDir(root, rec.title), rec.seriesNfoContent);
      raised := CreateEpisodeFiles(rec, resolved, SeriesStep(fs0, disk.denied, shows0, root, rec));
    }

    /** The episode part of `_process_tv_show`, after the series NFO step: the base is
        chosen on the disk as it is now and the writer runs. */
    method CreateEpisodeFiles(rec: Record, resolved: string, ghost fs: FS) returns (raised: bool)
      requires Valid() && disk.entries == fs
      modifies disk, this`currentState, this`currentOrder
      ensures Valid()
      ensures var t := TvTarget(root, previousState, platform, fs, rec, resolved);
        var w := WriteArtifacts(fs, disk.denied, platform, resolved, t.0, t.1, rec.nfoContent);
        && disk.entries == w.fs && raised == (w.outcome == Raised)
        && currentState == Commit(old(currentState), rec.id, w.outcome, EntryFor(t.0, t.1, resolved))
        && currentOrder == CommitOrder(old(currentOrder), old(currentState), rec.id, w.outcome)
    {
      var dir, base := TvPlacement(rec, resolved);
      var outcome := CreateMediaFiles(rec.id, resolved, dir, base, rec.nfoContent);
      raised := outcome == Raised;
    }

    /** `_process_movie`. `raised` is true when an OS error escaped the writer. */
    method ProcessMovie(rec: Record, resolved: string) returns (raised: bool)
      requires Valid()
      modifies disk, this`currentState, this`currentOrder
      ensures Valid()
      ensures rec.title == "" ==>
        && disk.entries == old(disk.entries) && !raised
        && currentState == old(currentState) && currentOrder == old(currentOrder)
      ensures rec.title != "" ==>
        var t := MovieTarget(root, flatMovies, previousState, platform, old(disk.entries), rec, resolved);
        var w := WriteArtifacts(old(disk.entries), disk.denied, platform, resolved, t.0, t.1, rec.nfoContent);
        && disk.entries == w.fs && raised == (w.outcome == Raised)
        && currentState == Commit(old(currentState), rec.id, w.outcome, EntryFor(t.0, t.1, resolved))
        && currentOrder == CommitOrder(old(currentOrder), old(currentState), rec.id, w.outcome)
    {
      if rec.title == "" {
        return false;
      }
      var dir := MovieDir(root, flatMovies, rec.title, rec.year);
      var default := MovieName(rec.title, rec.year);
      var base := ResolveFilenameBase(rec.id, dir, default, resolved);
      var outcome := CreateMediaFiles(rec.id, resolved, dir, base, rec.nfoContent);
      raised := outcome == Raised;
    }

    /** One iteration of the stale-file loop: a link whose target is gone is removed, then
        its NFO; the item counts when both removals that were attempted succeeded. */
    method CleanupEntry(e: StateEntry) returns (counted: bool)
      requires Valid()
      modifies disk
      ensures var r := CleanupStep(old(disk.entries), disk.denied, e);
        disk.entries == r.fs && counted == r.counted
    {
      counted := false;
      var link := PathArg(e.linkPath);
      var nfo := PathArg(e.nfoPath);
      if IsSymlink(disk.entries, link) {
        var target := disk.entries[link].target;
        if !Exists(disk.entries, target) {
          var removed := disk.Remove(link);
          if removed {
            counted := true;
            if Exists(disk.entries, nfo) {
              counted := disk.Remove(nfo);
            }
          }
        }
      }
    }

    /** `_cleanup_stale_files`, with the corrected loop body. */
    method CleanupStaleFiles() returns (staleCount: nat)
      requires Valid()
      modifies disk
      ensures var s := CleanupFold(old(disk.entries), disk.denied, previousState, previousOrder, false);
        disk.entries == s.fs && staleCount == s.staleCount
    {
      staleCount := 0;
      var i := 0;
      while i < |previousOrder|
        invariant 0 <= i <= |previousOrder|
        invariant AllRecorded(previousState, previousOrder[..i])
        invariant var s := CleanupFold(old(disk.entries), disk.denied, previousState, previousOrder[..i], false);
          disk.entries == s.fs && staleCount == s.staleCount
      {
        CleanupFoldNext(old(disk.entries), disk.denied, previousState, previousOrder, i);
        var counted := CleanupEntry(previousState[previousOrder[i]]);
        if counted {
          staleCount := staleCount + 1;
        }
        i := i + 1;
      }
      assert previousOrder[..i] == previousOrder;
    }

    /** The body of the inner loop of `run_generator` for one record. */
    method ProcessRecord(rec: Record) returns (counted: bool)
      requires Valid()
      modifies disk, this`currentState, this`currentOrder, this`processedTvShows
      ensures Valid()
      ensures var s := RecordStep(Cfg(), old(Snapshot()), rec);
        && disk.entries == s.0.fs && currentState == s.0.state && currentOrder == s.0.order
        && processedTvShows == s.0.shows && counted == s.1
    {
      if rec.filePath == "" {
        return false;
      }
      var resolved := ResolveActualFilePath(disk.entries, rec.filePath);
      if resolved.None? {
        return false;
      }
      var raised: bool;
      if rec.isMovie {
        raised := ProcessMovie(rec, resolved.value);
      } else {
        raised := ProcessTvShow(rec, resolved.value);
      }
      counted := !raised;
    }

    /** The inner loop of `run_generator` over one page: records are processed in order
        until `max_files` is reached. Returns the running total after the page. */
    method ProcessPage(records: seq<Record>, totalBefore: nat) returns (total: nat)
      requires Valid()
      requires maxFiles > 0 ==> totalBefore <= maxFiles
      modifies disk, this`currentState, this`currentOrder, this`processedTvShows
      ensures Valid()
      ensures var q := PageFold(RecordStepOf(Cfg()), maxFiles, Progress(old(Snapshot()), totalBefore), records);
        && disk.entries == q.world.fs && currentState == q.world.state && currentOrder == q.world.order
        && processedTvShows == q.world.shows && total == q.total
      ensures maxFiles > 0 ==> total <= maxFiles
      ensures totalBefore <= total <= totalBefore + PathCountOf(records)
      ensures forall id :: id in currentState ==> id in old(currentState) || InPage(records, id)
    {
      ghost var p0 := Progress(Snapshot(), totalBefore);
      var j := 0;
      total := totalBefore;
      while j < |records|
        invariant 0 <= j <= |records|
        invariant Valid()
        invariant var q := PageFold(RecordStepOf(Cfg()), maxFiles, p0, records[..j]);
          && disk.entries == q.world.fs && currentState == q.world.state && currentOrder == q.world.order
          && processedTvShows == q.world.shows && total == q.total
      {
        if maxFiles > 0 && total >= maxFiles {
          PageFoldLimitStops(RecordStepOf(Cfg()), maxFiles, p0, records, j);
          break;
        }
        ghost var before := Snapshot();
        ghost var q := PageFold(RecordStepOf(Cfg()), maxFiles, p0, records[..j]);
        assert before == q.world;
        PageFoldNext(RecordStepOf(Cfg()), maxFiles, p0, records, j);
        ghost var s := RecordStep(Cfg(), before, records[j]);
        assert RecordStepOf(Cfg())(before, records[j]) == s;
        assert PageFold(RecordStepOf(Cfg()), maxFiles, p0, records[..j + 1]) == Progress(s.0, q.total + if s.1 then 1 else 0);
        var counted := ProcessRecord(records[j]);
        if counted {
          total := total + 1;
        }
        j := j + 1;
      }
      if j == |records| {
        assert records[..j] == records;
      }
      RecordStepKeepsIds(Cfg());
      PageFoldBounds(RecordStepOf(Cfg()), maxFiles, p0, records);
      PageFoldIds(RecordStepOf(Cfg()), maxFiles, p0, records);
    }

    /** The page loop of `run_generator` (`pages[k]` is the answer for `start = k * page_size`;
        None is a failed fetch, and asking past the end reads as one). It stops once the
        limit is reached, at a failed fetch or an empty page, or after a short page. Returns
        `total_generated` and, as a ghost, how many pages were processed. */
    method PageLoop(pages: seq<Option<seq<Record>>>) returns (total: nat, ghost processedPages: nat)
      requires Valid()
      modifies disk, this`currentState, this`currentOrder, this`processedTvShows
      ensures Valid()
      ensures (Progress(Snapshot(), total), processedPages)
        == PageLoopRun(RecordStepOf(Cfg()), maxFiles, pageSize, Progress(old(Snapshot()), 0), pages, 0)
    {
      ghost var p0 := Progress(Snapshot(), 0);
      var start := 0;
      var k := 0;
      total := 0;
      while true
        invariant 0 <= k <= |pages|
        invariant start == k * pageSize
        invariant Valid()
        invariant maxFiles > 0 ==> total <= maxFiles
        invariant PageLoopRun(RecordStepOf(Cfg()), maxFiles, pageSize, p0, pages, 0)
          == PageLoopRun(RecordStepOf(Cfg()), maxFiles, pageSize, Progress(Snapshot(), total), pages, k)
        decreases |pages| - k
      {
        if maxFiles > 0 && total >= maxFiles {
          break;
        }
        var page := if k < |pages| then pages[k] else None;
        if page.None? {
          break;
        }
        var records := page.value;
        if records == [] {
          break;
        }
        ghost var before := Progress(Snapshot(), total);
        PageLoopRunNext(RecordStepOf(Cfg()), maxFiles, pageSize, before, pages, k);
        total := ProcessPage(records, total);
        assert Progress(Snapshot(), total) == PageFold(RecordStepOf(Cfg()), maxFiles, before, records);
        k := k + 1;
        if maxFiles > 0 && total >= maxFiles {
          break;
        }
        if |records| < pageSize {
          break;
        }
        NextOffset(k - 1, pageSize);
        start := start + pageSize;
      }
      processedPages := k;
    }

    /** `run_generator`: the cleanup pass, then the page loop. Returns `total_generated` and
        the state saved for the next run. */
    method RunGenerator(pages: seq<Option<seq<Record>>>) returns (total: nat, saved: StateMap, ghost processedPages: nat)
      requires Valid()
      modifies disk, this`currentState, this`currentOrder, this`processedTvShows
      ensures Valid()
      ensures var swept := CleanupFold(old(disk.entries), disk.denied, previousState, previousOrder, false).fs;
        var start := World(swept, old(currentState), old(currentOrder), old(processedTvShows));
        (Progress(Snapshot(), total), processedPages) == PageLoopRun(RecordStepOf(Cfg()), maxFiles, pageSize, Progress(start, 0), pages, 0)
      ensures maxFiles > 0 ==> total <= maxFiles
      ensures total <= PathCount(pages)
      ensures saved == currentState
      ensures forall id :: id in saved ==> id in old(currentState) || InPages(pages, id)
      ensures processedPages == 0 ==>
        && disk.entries == CleanupFold(old(disk.entries), disk.denied, previousState, previousOrder, false).fs
        && total == 0 && currentState == old(currentState)
      ensures (pages == [] || pages[0].None? || pages[0] == Some([])) ==> processedPages == 0
      ensures processedPages <= |pages|
      ensures forall i :: 0 <= i < processedPages ==> pages[i].Some? && pages[i].value != []
      ensures forall i :: 0 <= i < processedPages - 1 ==> |pages[i].value| >= pageSize
      ensures || processedPages == |pages|
              || (maxFiles > 0 && total >= maxFiles)
              || pages[processedPages].None? || pages[processedPages] == Some([])
              || (processedPages > 0 && |pages[processedPages - 1].value| < pageSize)
    {
      var staleCount := CleanupStaleFiles();
      ghost var start := Snapshot();
      total, processedPages := PageLoop(pages);
      saved := currentState;
      RecordStepKeepsIds(Cfg());
      PageLoopRunFacts(RecordStepOf(Cfg()), maxFiles, pageSize, Progress(start, 0), pages, Progress(Snapshot(), total), processedPages);
    }
  }

  /** Once the limit is reached the inner loop changes nothing more, so breaking out of it
      and running it to the end agree. */
  lemma {:induction false} PageFoldLimitStops(step: Step, maxFiles: int, p: Progress, records: seq<Record>, j: nat)
    requires j <= |records|
    requires LimitReached(maxFiles, PageFold(step, maxFiles, p, records[..j]).total)
    ensures PageFold(step, maxFiles, p, records) == PageFold(step, maxFiles, p, records[..j])
    decreases |records| - j
  {
    if j < |records| {
      assert records[..j + 1][..j] == records[..j];
      PageFoldLimitStops(step, maxFiles, p, records, j + 1);
    } else {
      assert records[..j] == records;
    }
  }

  /** One more record of the inner loop. */
  lemma PageFoldNext(step: Step, maxFiles: int, p: Progress, records: seq<Record>, j: nat)
    requires j < |records|
    ensures var q := PageFold(step, maxFiles, p, records[..j]);
      PageFold(step, maxFiles, p, records[..j + 1])
        == if LimitReached(maxFiles, q.total) then q
           else var s := step(q.world, records[j]); Progress(s.0, q.total + if s.1 then 1 else 0)
  {
    assert records[..j + 1][..j] == records[..j];
  }

  /** Each record adds at most one to the total, and only one with a file path; the total
      never passes a positive limit it started within. */
  lemma {:induction false} PageFoldBounds(step: Step, maxFiles: int, p: Progress, records: seq<Record>)
    requires StepKeepsIds(step)
    ensures var r := PageFold(step, maxFiles, p, records);
      && p.total <= r.total <= p.total + PathCountOf(records)
      && (maxFiles > 0 && p.total <= maxFiles ==> r.total <= maxFiles)
    decreases |records|
  {
    if records != [] {
      PageFoldBounds(step, maxFiles, p, records[..|records| - 1]);
    }
  }

  /** A key the inner loop adds to the state is the identifier of one of the page's records
      with a file path. */
  lemma {:induction false} PageFoldIds(step: Step, maxFiles: int, p: Progress, records: seq<Record>)
    requires StepKeepsIds(step)
    ensures forall id :: id in PageFold(step, maxFiles, p, records).world.state ==>
      id in p.world.state || InPage(records, id)
    decreases |records|
  {
    if records != [] {
      var init := records[..|records| - 1];
      PageFoldIds(step, maxFiles, p, init);
      forall id | InPage(init, id) ensures InPage(records, id) {
        var j :| 0 <= j < |init| && init[j].id == id && init[j].filePath != "";
        assert records[j] == init[j];
      }
      assert InPage(records, records[|records| - 1].id) || records[|records| - 1].filePath == "";
    }
  }

  /** The page loop keeps the total within a positive limit it started within, and adds at
      most one per record with a file path on the pages it reads. */
  lemma {:induction false} PageLoopRunBounds(step: Step, maxFiles: int, pageSize: int, p: Progress,
                                             pages: seq<Option<seq<Record>>>, k: nat)
    requires StepKeepsIds(step)
    requires k <= |pages|
    ensures var r := PageLoopRun(step, maxFiles, pageSize, p, pages, k).0;
      && p.total <= r.total <= p.total + PathCount(pages[k..])
      && (maxFiles > 0 && p.total <= maxFiles ==> r.total <= maxFiles)
    decreases |pages| - k
  {
    if !(LimitReached(maxFiles, p.total) || k == |pages| || pages[k].None? || pages[k].value == []) {
      var q := PageFold(step, maxFiles, p, pages[k].value);
      PageFoldBounds(step, maxFiles, p, pages[k].value);
      assert pages[k..][1..] == pages[k + 1..];
      if !(LimitReached(maxFiles, q.total) || |pages[k].value| < pageSize) {
        PageLoopRunBounds(step, maxFiles, pageSize, q, pages, k + 1);
      }
    }
  }

  /** A key the page loop adds to the state is the identifier of a record with a file path
      on one of the pages. */
  lemma {:induction false} PageLoopRunIds(step: Step, maxFiles: int, pageSize: int, p: Progress,
                                          pages: seq<Option<seq<Record>>>, k: nat)
    requires StepKeepsIds(step)
    requires k <= |pages|
    ensures forall id :: id in PageLoopRun(step, maxFiles, pageSize, p, pages, k).0.world.state ==>
      id in p.world.state || InPages(pages, id)
    decreases |pages| - k
  {
    if !(LimitReached(maxFiles, p.total) || k == |pages| || pages[k].None? || pages[k].value == []) {
      var q := PageFold(step, maxFiles, p, pages[k].value);
      PageFoldIds(step, maxFiles, p, pages[k].value);
      forall id | InPage(pages[k].value, id) ensures InPages(pages, id) {
        var j :| 0 <= j < |pages[k].value| && pages[k].value[j].id == id && pages[k].value[j].filePath != "";
      }
      if !(LimitReached(maxFiles, q.total) || |pages[k].value| < pageSize) {
        PageLoopRunIds(step, maxFiles, pageSize, q, pages, k + 1);
      }
    }
  }

  /** The pages the loop processes are present and non-empty, all of them full but the last,
      and it stops for one of the four reasons of `run_generator`. */
  lemma {:induction false} PageLoopRunShape(step: Step, maxFiles: int, pageSize: int, p: Progress,
                                            pages: seq<Option<seq<Record>>>, k: nat)
    requires k <= |pages|
    ensures var (r, n) := PageLoopRun(step, maxFiles, pageSize, p, pages, k);
      && k <= n <= |pages|
      && (n == k ==> r == p)
      && (forall i :: k <= i < n ==> pages[i].Some? && pages[i].value != [])
      && (forall i :: k <= i < n - 1 ==> |pages[i].value| >= pageSize)
      && (|| n == |pages|
          || LimitReached(maxFiles, r.total)
          || pages[n].None? || pages[n] == Some([])
          || (n > k && |pages[n - 1].value| < pageSize))
    decreases |pages| - k
  {
    if !(LimitReached(maxFiles, p.total) || k == |pages| || pages[k].None? || pages[k].value == []) {
      var q := PageFold(step, maxFiles, p, pages[k].value);
      if !(LimitReached(maxFiles, q.total) || |pages[k].value| < pageSize) {
        PageLoopRunShape(step, maxFiles, pageSize, q, pages, k + 1);
      }
    }
  }

  /** The properties of a whole run of the page loop from the first page with nothing
      counted yet, gathered from the three lemmas above. */
  lemma PageLoopRunFacts(step: Step, maxFiles: int, pageSize: int, p: Progress,
                         pages: seq<Option<seq<Record>>>, r: Progress, n: nat)
    requires StepKeepsIds(step)
    requires p.total == 0
    requires (r, n) == PageLoopRun(step, maxFiles, pageSize, p, pages, 0)
    ensures maxFiles > 0 ==> r.total <= maxFiles
    ensures r.total <= PathCount(pages)
    ensures forall id :: id in r.world.state ==> id in p.world.state || InPages(pages, id)
    ensures n == 0 ==> r == p
    ensures (pages == [] || pages[0].None? || pages[0] == Some([])) ==> n == 0
    ensures n <= |pages|
    ensures forall i :: 0 <= i < n ==> pages[i].Some? && pages[i].value != []
    ensures forall i :: 0 <= i < n - 1 ==> |pages[i].value| >= pageSize
    ensures || n == |pages|
            || (maxFiles > 0 && r.total >= maxFiles)
            || pages[n].None? || pages[n] == Some([])
            || (n > 0 && |pages[n - 1].value| < pageSize)
  {
    PageLoopRunBounds(step, maxFiles, pageSize, p, pages, 0);
    assert pages[0..] == pages;
    PageLoopRunIds(step, maxFiles, pageSize, p, pages, 0);
    PageLoopRunShape(step, maxFiles, pageSize, p, pages, 0);
  }

  /** The offset of the next page. */
  lemma NextOffset(k: int, pageSize: int)
    ensures (k + 1) * pageSize == k * pageSize + pageSize
  {
  }

  /** One round of the page loop from a page it processes. */
  lemma PageLoopRunNext(step: Step, maxFiles: int, pageSize: int, p: Progress,
                        pages: seq<Option<seq<Record>>>, k: nat)
    requires k < |pages| && pages[k].Some? && pages[k].value != [] && !LimitReached(maxFiles, p.total)
    ensures var q := PageFold(step, maxFiles, p, pages[k].value);
      PageLoopRun(step, maxFiles, pageSize, p, pages, k)
        == if LimitReached(maxFiles, q.total) || |pages[k].value| < pageSize then (q, k + 1)
           else PageLoopRun(step, maxFiles, pageSize, q, pages, k + 1)
  {
  }

  lemma {:induction false} PathCountMonotone(page: seq<Record>, j: nat)
    requires j <= |page|
    ensures PathCountOf(page[..j]) <= PathCountOf(page)
    decreases |page| - j
  {
    if j < |page| {
      assert page[..j + 1][..j] == page[..j];
      PathCountMonotone(page, j + 1);
    } else {
      assert page[..j] == page;
    }
  }
}

/** Properties that connect the generator's steps with each other and with the next run. */
module Reconciliation {
  import opened Wrappers
  import opened Paths
  import opened FileSystem
  import opened Compare
  import opened State
  import opened Sanitize
  import opened Layout
  import opened Collision
  import opened Writer
  import opened NfoGenerator

  lemma TvDefaultBaseNonEmpty(title: string, season: int, episode: int, episodeName: string)
    ensures TvDefaultBase(title, season, episode, episodeName) != ""
  {
  }

  /** The base recorded for a TV record is remembered by the next run, which then uses it
      without looking at the disk: once a collision is resolved, the record keeps its name. */
  lemma TvNameStable(root: string, previous: StateMap, pl: Platform, fs: FS, fs': FS, rec: Record,
                     resolved: string, state: StateMap)
    ensures var t := TvTarget(root, previous, pl, fs, rec, resolved);
      var next := Commit(state, rec.id, Written, EntryFor(t.0, t.1, resolved));
      && RecalledBase(next, rec.id) == t.1
      && TvTarget(root, next, pl, fs', rec, resolved) == t
  {
    var numbers := TvNumbers(rec, resolved);
    TvDefaultBaseNonEmpty(rec.title, numbers.0, numbers.1, rec.episodeName);
  }

  /** The same for a movie. */
  lemma MovieNameStable(root: string, flat: bool, previous: StateMap, pl: Platform, fs: FS, fs': FS,
                        rec: Record, resolved: string, state: StateMap)
    ensures var t := MovieTarget(root, flat, previous, pl, fs, rec, resolved);
      var next := Commit(state, rec.id, Written, EntryFor(t.0, t.1, resolved));
      && RecalledBase(next, rec.id) == t.1
      && MovieTarget(root, flat, next, pl, fs', rec, resolved) == t
  {
  }

  /** When the probe finds no conflict under the default name and the link takes one of the
      probed extensions, whatever already sits at the link path survives the writer: another
      record's link is never re-pointed. */
  lemma ProbedLinkNeverReplaced(fs: FS, denied: set<string>, pl: Platform, resolved: string, dir: string,
                                base: string, content: string)
    requires IsDir(fs, dir)
    requires Suffix(Name(resolved)) in ProbeExts
    requires !Collides(fs, pl, dir, base, Comparable(pl, resolved))
    requires LinkPath(dir, base, resolved) in fs
    ensures var link := LinkPath(dir, base, resolved);
      var r := WriteArtifacts(fs, denied, pl, resolved, dir, base, content);
      link in r.fs && r.fs[link] == fs[link]
  {
    var link := LinkPath(dir, base, resolved);
    var k :| 0 <= k < |ProbeExts| && ProbeExts[k] == Suffix(Name(resolved));
    assert Candidate(dir, base, k) == link;
    assert MkDirFs(fs, dir) == fs;
    if fs[link].Symlink? {
      if Exists(fs, link) {
        assert Comparable(pl, fs[link].target) == Comparable(pl, resolved);
        NfoStepOnlyAdds(fs, denied, NfoPath(dir, base), content);
      }
    } else {
      NonLinkUntouched(fs, denied, pl, resolved, dir, base, content);
    }
  }

  /** The tie-break between two sources that want the same default name: once the first
      source `a` has been written under default base `d`, with one of the probed extensions,
      the probe for a second source `b` that compares different finds a conflict. */
  lemma SecondSourceCollides(fs: FS, denied: set<string>, pl: Platform, a: string, b: string,
                             dir: string, d: string, content: string)
    requires a in fs && fs[a].File?
    requires Suffix(Name(a)) in ProbeExts
    requires WriteArtifacts(fs, denied, pl, a, dir, d, content).outcome == Written
    requires Comparable(pl, a) != Comparable(pl, b)
    ensures Collides(WriteArtifacts(fs, denied, pl, a, dir, d, content).fs, pl, dir, d, Comparable(pl, b))
  {
    var r := WriteArtifacts(fs, denied, pl, a, dir, d, content);
    var link := LinkPath(dir, d, a);
    var nfo := NfoPath(dir, d);
    var k :| 0 <= k < |ProbeExts| && ProbeExts[k] == Suffix(Name(a));
    assert Candidate(dir, d, k) == link;
    WrittenLinkPointsAtSource(fs, denied, pl, a, dir, d, content);
    var fs1 := MkDirFs(fs, dir);
    if Exists(fs1, link) && IsSymlink(fs1, link) && Comparable(pl, fs1[link].target) == Comparable(pl, a) {
      // The first source's link was already in place: the NFO step only adds.
      NfoStepOnlyAdds(fs1, denied, nfo, content);
      ExistsExtends(fs1, r.fs, link);
    } else {
      // A new link to the first source was written; the source itself is untouched.
      WriteFrame(fs, denied, pl, a, dir, d, content);
      LinkToFileExists(r.fs, link);
    }
    assert Conflicts(r.fs, pl, Candidate(dir, d, k), Comparable(pl, b));
  }

  /** ... so a second source with nothing remembered for its id gets the default base with
      ` - <id>` appended, while the first keeps the default. */
  lemma SecondSourceGetsSuffix(fs: FS, denied: set<string>, pl: Platform, previous: StateMap,
                               a: string, b: string, id: string, dir: string, d: string, content: string)
    requires a in fs && fs[a].File?
    requires Suffix(Name(a)) in ProbeExts
    requires WriteArtifacts(fs, denied, pl, a, dir, d, content).outcome == Written
    requires Comparable(pl, a) != Comparable(pl, b)
    requires RecalledBase(previous, id) == ""
    ensures var fs' := WriteArtifacts(fs, denied, pl, a, dir, d, content).fs;
      ChooseBase(previous, id, d, Collides(fs', pl, dir, d, Comparable(pl, b))) == d + " - " + id
  {
    SecondSourceCollides(fs, denied, pl, a, b, dir, d, content);
  }

  lemma M4vNames(resolved: string)
    requires resolved == "/rec/b.m4v"
    ensures Suffix(Name(resolved)) == ".m4v"
    ensures LinkPath("/lib", "X", resolved) == "/lib/X.m4v" && NfoPath("/lib", "X") == "/lib/X.nfo"
  {
    assert resolved == Join("/rec", "b" + ".m4v");
    JoinSplits("/rec", "b" + ".m4v");
    StemSuffixOfExt("b", ".m4v");
  }

  /** In the example below, none of the probed names exists. */
  lemma ExampleProbeFindsNothing(fs: FS, pl: Platform, resolved: string)
    requires resolved == "/rec/b.m4v"
    requires fs == map["/lib" := Dir, "/rec/a.m4v" := File(""), resolved := File(""),
                       "/lib/X.m4v" := Symlink("/rec/a.m4v")]
    ensures !Collides(fs, pl, "/lib", "X", Comparable(pl, resolved))
  {
    forall k | 0 <= k < |ProbeExts| ensures Candidate("/lib", "X", k) !in fs {
      assert Candidate("/lib", "X", k)[7..] == ProbeExts[k][1..];
    }
  }

  /** Both recordings of the example compare as their own paths. */
  lemma ExampleComparable(pl: Platform, resolved: string)
    requires resolved == "/rec/b.m4v"
    requires pl.canon("/rec/a.m4v") == Some("/rec/a.m4v") && pl.canon(resolved) == Some(resolved)
    requires !pl.caseInsensitive
    ensures Comparable(pl, "/rec/a.m4v") == "/rec/a.m4v" && Comparable(pl, resolved) == resolved
  {
    assert DropLongPrefix("/rec/a.m4v") == "/rec/a.m4v" by {
      assert "/rec/a.m4v"[..4][1] == 'r';
    }
    assert DropLongPrefix(resolved) == resolved by {
      assert resolved[..4][1] == 'r';
    }
  }

  /** The other side: a link whose extension is not probed (here `.m4v`) escapes the probe,
      so the writer re-points another record's link at the new file. */
  lemma UnprobedSuffixRepointsLink(fs: FS, pl: Platform, resolved: string)
    requires resolved == "/rec/b.m4v"
    requires pl.canon("/rec/a.m4v") == Some("/rec/a.m4v") && pl.canon(resolved) == Some(resolved)
    requires !pl.caseInsensitive
    requires fs == map["/lib" := Dir, "/rec/a.m4v" := File(""), resolved := File(""),
                       "/lib/X.m4v" := Symlink("/rec/a.m4v")]
    ensures !Collides(fs, pl, "/lib", "X", Comparable(pl, resolved))
    ensures WriteArtifacts(fs, {}, pl, resolved, "/lib", "X", "") ==
      WriteResult(fs["/lib/X.m4v" := Symlink(resolved)]["/lib/X.nfo" := File("")], Written)
  {
    M4vNames(resolved);
    ExampleProbeFindsNothing(fs, pl, resolved);
    ExampleComparable(pl, resolved);
    var link := "/lib/X.m4v";
    var nfo := "/lib/X.nfo";
    assert ChainEnd(fs, "/lib", MaxHops) == Some("/lib");
    assert MkDirOk(fs, {}, "/lib") && MkDirFs(fs, "/lib") == fs;
    assert ChainEnd(fs, "/rec/a.m4v", MaxHops - 1) == Some("/rec/a.m4v");
    assert Exists(fs, link) && IsSymlink(fs, link);
    assert RemoveOk(fs, {}, link) && SymlinkOk(fs - {link}, {}, link);
    var fs2 := (fs - {link})[link := Symlink(resolved)];
    assert fs2 == fs[link := Symlink(resolved)];
    assert nfo !in fs2;
    assert ChainEnd(fs2, nfo, MaxHops) == Some(nfo);
    assert NfoStep(fs2, {}, nfo, "") == fs2[nfo := File("")];
  }
}
