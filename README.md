# SageTV NFO generator — reconciliation core in Dafny

`sagetv_nfo_generator.py` keeps a Jellyfin-style media library in step with the recordings a
SageTV server reports. For every recording it creates:

- a folder layout (`TV Shows/<show>/Season NN`, or `Movies/<title (year)>`);
- a symbolic link to the recording file, with the file's own extension;
- an `.nfo` metadata file beside the link.

For each show it also creates one `tvshow.nfo`.

The generator remembers, per media file id, what it wrote and which file-name base it chose
(`sagex_state.json`). The next run uses this memory twice:

- it is meant to remove links whose recording has disappeared (as written it removes nothing, see "Findings");
- it keeps a collision-resolved name stable.

This project models the class `NFOGeneratorUtility` and the pure helpers it calls:

- name sanitising;
- `SxxEyy` detection;
- stale-path resolution;
- path comparison;
- collision resolution and its memory;
- link and NFO writing;
- the stale-link cleanup;
- the page loop of `run_generator`.

The disk is a finite map from path to entry (`File`, `Dir`, `Symlink(target)`).

- Link-following queries are modelled as pathlib defines them. `exists`, `is_file` and `is_dir` follow links, with the Linux limit of 40 hops. `is_symlink` looks at the entry itself.
- Each OS call the generator makes (`mkdir`, `os.symlink`, `os.remove`, `write_text`) is a method of a `Disk` class. For the cases the generator reaches, the method states exactly when the call succeeds and what the new disk is (see "Left out" for `write_text`).
- OS failures are made deterministic by a set of paths the system refuses to modify.
- The object's dictionaries `current_state` and `previous_state` and its set `processed_tv_shows` are fields of the Dafny class, together with the insertion order of the two state dictionaries.

Modules, in dependency order:

| module | models |
|---|---|
| `Text` | `str.strip`, `rstrip('. ')`, `int()` on a string, `f"{n:02d}"` |
| `Paths` | `name`, `parent`, `suffix`, `stem` and `/` on normalised POSIX paths |
| `FileSystem` | the disk, link following, the OS calls |
| `Sanitize` | `_clean_directory_name` |
| `Episode` | `_parse_sxxeyy` (matcher plus a declarative statement of the regular expression) and the three-tier season/episode choice |
| `Compare` | `_get_comparable_path` |
| `Layout` | folder and default file-name composition of `_process_tv_show` / `_process_movie` |
| `State` | state entries and `_get_resolved_filename_base` |
| `Resolve` | `_resolve_actual_file_path` |
| `Collision` | the probe loop and the choice of base name |
| `Writer` | `_create_media_files` and `_create_series_nfo` as functions of the disk |
| `Cleanup` | `_cleanup_stale_files`, as written and corrected |
| `NfoGenerator` | the class `NfoGeneratorUtility` and its methods |
| `Reconciliation` | properties that span several operations |

## Model

| member | source | states |
|---|---|---|
| Text.StripSpec | sagetv_nfo_generator.py:140 | `strip()` returns the piece of its input between a whitespace-only prefix and a whitespace-only suffix, and that piece neither starts nor ends with whitespace; these facts fix the result |
| Text.LStripIsSuffix | sagetv_nfo_generator.py:140 | `lstrip()` keeps a suffix of its input |
| Text.RStripIsPrefix | sagetv_nfo_generator.py:140 | `rstrip()` keeps a prefix of its input |
| Text.RStripDotSpaceIsPrefix | sagetv_nfo_generator.py:142 | `rstrip('. ')` keeps a prefix of its input |
| Text.RStripDotSpaceDrops | sagetv_nfo_generator.py:142 | `rstrip('. ')` removes only dots and spaces |
| Text.StripKeepsChars | sagetv_nfo_generator.py:140 | `strip()` only removes characters: the result is no longer than its input, and every character in it occurs in the input |
| Text.StripOfStripped | sagetv_nfo_generator.py:140 | `strip()` returns a string unchanged when neither end is whitespace |
| Text.ParseInt | sagetv_nfo_generator.py:415-416 | `int(s)` succeeds only on a string that is not blank once stripped |
| Text.ParseIntOfDigits | sagetv_nfo_generator.py:415-416 | `int()` of a decimal digit string is its value |
| Text.ParseIntOfNegatedDigits | sagetv_nfo_generator.py:415-416 | `int()` of `-` followed by digits is the negated value |
| Text.ParseIntOfIntToString | sagetv_nfo_generator.py:415-416 | `int(str(n)) == n` for every integer |
| Text.DigitsValueOfNatToString | sagetv_nfo_generator.py:435 | the decimal rendering of a natural number has that value |
| Text.ParseIntOfPad2 | sagetv_nfo_generator.py:435 | `int(f"{n:02d}") == n` for every integer, negatives and numbers of three or more digits included |
| Text.Pad2Injective | sagetv_nfo_generator.py:446 | two numbers with the same `:02d` rendering are equal |
| Text.Pad2Shape | sagetv_nfo_generator.py:446 | the `:02d` field has at least two characters and contains neither `/` nor `E` |
| Paths.StemSuffixSplit | sagetv_nfo_generator.py:275 | `stem + suffix == name`, and a non-empty suffix starts with a dot |
| Paths.JoinSplits | sagetv_nfo_generator.py:278 | `(dir / name).name == name` and `.parent == dir` for a name without `/` |
| Paths.StemSuffixOfExt | sagetv_nfo_generator.py:221-225 | for a non-empty stem and an extension with exactly one dot, `stem` and `suffix` of `stem + ext` are those two parts |
| FileSystem.ChainEnd | sagetv_nfo_generator.py:286 | following links ends on a path that is absent or is not a link; it gives up after 40 hops |
| FileSystem.ExistsExtends | sagetv_nfo_generator.py:328 | `exists`, `is_file` and `is_dir` stay true when entries are only added |
| FileSystem.ExistingLinkHasExistingTarget | sagetv_nfo_generator.py:562-578 | a link that `exists()` has a target that `exists()` |
| FileSystem.LinkToFileExists | sagetv_nfo_generator.py:286 | a link straight to a plain file exists and is a file |
| FileSystem.Disk.CreateSymlink | sagetv_nfo_generator.py:303-317 | `os.symlink` succeeds exactly when nothing is at the path, a dangling link included, and the path is not refused; on success it adds the link |
| FileSystem.Disk.Remove | sagetv_nfo_generator.py:298 | `os.remove` succeeds exactly on a file or a link that is not refused, and removes only that entry |
| FileSystem.Disk.MakeDirs | sagetv_nfo_generator.py:283 | `mkdir(parents=True, exist_ok=True)` succeeds on an existing directory (also one whose last component is a link) or on an absent path; it adds a directory only when nothing was there |
| FileSystem.Disk.WriteText | sagetv_nfo_generator.py:330 | `write_text` succeeds on a path with no entry that is not refused, and adds that one file |
| Sanitize.ReplaceIllegal | sagetv_nfo_generator.py:138-139 | each of `<>:"/\|?*` becomes `-` and every other character stays in place; no illegal character remains |
| Sanitize.TrimTail | sagetv_nfo_generator.py:141-142 | the trimming loop ends with a stripped string that ends in neither `.` nor space, and is no longer than its input |
| Sanitize.TrimTailIsPrefix | sagetv_nfo_generator.py:141-142 | the trimming loop keeps a prefix of its input |
| Sanitize.TrimTailRemovesTrimmable | sagetv_nfo_generator.py:141-142 | the trimming loop removes only dots and whitespace |
| Sanitize.StripTrimSpec | sagetv_nfo_generator.py:139-142 | strip-then-trim is empty exactly when every character is a dot or whitespace; otherwise it is the slice of its input after a whitespace prefix and before a suffix of dots and whitespace |
| Sanitize.Clean | sagetv_nfo_generator.py:136-143 | the cleaned name is non-empty and has no illegal character; it neither starts nor ends with whitespace, and it does not end with `.` or space |
| Sanitize.CleanSpec | sagetv_nfo_generator.py:136-143 | the cleaned name is `UnknownMedia` exactly when the title, illegal characters replaced, is all dots and whitespace; otherwise it is the slice of that replaced title after its leading whitespace and before its trailing dots and whitespace |
| Sanitize.CleanFixesCleanNames | sagetv_nfo_generator.py:136-143 | a name that already has those properties is returned unchanged |
| Sanitize.CleanIdempotent | sagetv_nfo_generator.py:136-143 | cleaning a cleaned name changes nothing |
| Sanitize.CleanHasNoSlash | sagetv_nfo_generator.py:137-138 | a cleaned name is a single path component |
| Episode.MatchAtExact | sagetv_nfo_generator.py:147 | the hand-written matcher succeeds at a position with given groups exactly when the regular expression `[sS][.-]?(\d+)\s*[eE][.-]?(\d+)` matches there with those groups |
| Episode.ParseSxxEyyIsLeftmostMatch | sagetv_nfo_generator.py:145-153 | `_parse_sxxeyy` returns `(s, e)` exactly when the leftmost match of the pattern has those groups |
| Episode.ParseSxxEyyNoneIsNoMatch | sagetv_nfo_generator.py:145-153 | `_parse_sxxeyy` returns None exactly when the pattern matches nowhere |
| Episode.ParseExampleName | sagetv_nfo_generator.py:145-153 | `_parse_sxxeyy("Show.S02E05.mkv")` is `(2, 5)` |
| Episode.ChooseSeasonEpisode | sagetv_nfo_generator.py:414-430 | the record's numbers are used unless both are 0. Then the file name's `SxxEyy` is used, and failing that (0, 1) |
| Episode.NonNumericFieldFallsBack | sagetv_nfo_generator.py:414-419 | a field `int()` rejects discards both numbers, so the file name decides |
| Episode.FilenameTierIsLeftmostMatch | sagetv_nfo_generator.py:424-427 | the filename tier takes the groups of the leftmost match |
| Episode.NoMatchGivesDefault | sagetv_nfo_generator.py:428-430 | no usable numbers and no match gives season 0, episode 1 |
| Episode.ExampleFromFilename | sagetv_nfo_generator.py:414-430 | numbers "0"/"0" and file `Show.S02E05.mkv` give season 2, episode 5 |
| Episode.ExampleOneNonZeroHint | sagetv_nfo_generator.py:424 | numbers "0"/"4" keep the record's pair (0, 4), whatever the file name |
| Compare.Lower | sagetv_nfo_generator.py:257 | ASCII lower-casing keeps the length and lowers each letter in place |
| Compare.Comparable | sagetv_nfo_generator.py:234-258 | the empty path compares as ""; on case-insensitive platforms the result holds no upper-case letter; where resolving fails on a case-sensitive platform the path itself is the result |
| Compare.LowerIdempotent | sagetv_nfo_generator.py:257 | lower-casing twice is lower-casing once |
| Compare.LowerDropCommute | sagetv_nfo_generator.py:248-257 | stripping `//?/` and lower-casing commute |
| Compare.ComparableIgnoresCase | sagetv_nfo_generator.py:254-255 | on Windows two paths whose resolved forms differ only in letter case compare equal |
| Compare.ComparableOfSameCanon | sagetv_nfo_generator.py:244-257 | two paths that resolve to the same form compare equal on every platform; on a case-sensitive platform they compare as that form without `//?/` |
| Layout.ShowDirSplits | sagetv_nfo_generator.py:433-434 | the show folder sits directly in `TV Shows` and is named by the cleaned title |
| Layout.SeasonDirSplits | sagetv_nfo_generator.py:435 | the season folder sits directly in the show folder and is named `Season NN` |
| Layout.SeasonFolderDecodes | sagetv_nfo_generator.py:435 | the season folder's name starts with `Season ` and `int()` of the rest gives the season back |
| Layout.MovieLayout | sagetv_nfo_generator.py:495-501 | flat layout puts movies in `Movies`; otherwise each movie gets a folder in `Movies` named exactly like its default base |
| Layout.TvDefaultBaseInjective | sagetv_nfo_generator.py:446 | two episodes of one show with the same episode title get the same default name only when season and episode agree |
| Layout.ExampleTvBase | sagetv_nfo_generator.py:442-446 | title "Show", no episode title, season 1 and episode 2 give `Show - S01E02 - Episode` |
| Resolve.ResolveActualFilePath | sagetv_nfo_generator.py:204-232 | the reported path when it is a file. A relative path or an empty stem gives nothing. Otherwise the first of `.mkv .mp4 .avi .ts .mpg` under the same stem that is a file, or nothing when none is. A result is always a file |
| Resolve.AltPathSameDirAndStem | sagetv_nfo_generator.py:218-224 | an alternative stays in the same folder, keeps the stem and has exactly the extension tried |
| Collision.ProbeCollision | sagetv_nfo_generator.py:457-470 | true exactly when one of the five probed `<default><ext>` paths exists, is a link, and points at a file that compares different |
| Collision.RememberedBaseWins | sagetv_nfo_generator.py:449-454 | a remembered base is used as it is, whatever the probe finds |
| Collision.FreshBaseIsDefaultIffNoCollision | sagetv_nfo_generator.py:455-477 | with nothing remembered, the default is kept exactly when there is no collision; otherwise ` - <id>` is appended |
| Collision.SuffixedLinkAvoidsProbes | sagetv_nfo_generator.py:462-477 | a link under the suffixed base never lands on a probed default path |
| Writer.NfoStepOnlyAdds | sagetv_nfo_generator.py:325-330 | the NFO step keeps every existing entry and adds at most the NFO |
| Writer.NfoStepIdempotent | sagetv_nfo_generator.py:325-330 | the NFO step a second time changes nothing |
| Writer.WriteFrame | sagetv_nfo_generator.py:271-341 | the writer changes no entry other than the link. The only entries it adds are the folder, the link and the NFO |
| Writer.NonLinkUntouched | sagetv_nfo_generator.py:311-313 | a file or folder at the link path is never replaced, and no state entry is written |
| Writer.WrittenLinkPointsAtSource | sagetv_nfo_generator.py:286-320 | after a successful call the link points at the resolved file, as the platform compares paths. It is either the old, equal link or a new link to the file |
| Writer.DanglingLinkBlocksWrite | sagetv_nfo_generator.py:286-326 | a dangling link at the link path makes `os.symlink` fail: no state entry, disk unchanged |
| Writer.WriteIdempotent | sagetv_nfo_generator.py:271-341 | after a successful call, an identical second call changes nothing |
| Writer.SeriesNfoNeverOverwritten | sagetv_nfo_generator.py:382-384 | an existing `tvshow.nfo` leaves the disk alone; otherwise only the show folder and the file can be added |
| Writer.SeriesNfoIdempotent | sagetv_nfo_generator.py:379-405 | a second series NFO call changes nothing |
| Cleanup.AsWrittenStepRemovesNothing | sagetv_nfo_generator.py:562-578 | one iteration of the loop as written leaves the disk alone and counts nothing, whatever the entry |
| Cleanup.AsWrittenSweepRemovesNothing | sagetv_nfo_generator.py:549-591 | the cleanup loop as written never changes the disk and counts nothing |
| Cleanup.DanglingLinkExample | sagetv_nfo_generator.py:562-591 | for a link to a deleted recording, the corrected step removes it and counts it; the step as written leaves it |
| Cleanup.CleanupStepSafe | sagetv_nfo_generator.py:562-591 | one corrected iteration removes at most the record's link and NFO. The link is removed only when it is a link whose target is gone; the NFO only together with the link. The item is counted only when the link went and no NFO remains |
| Cleanup.CleanupStepSkips | sagetv_nfo_generator.py:567-593 | anything at the link path that is not a link, and a link whose target exists, are left alone |
| Cleanup.CleanupSweepRemovesRecorded | sagetv_nfo_generator.py:547-603 | the corrected sweep only removes entries; each removed entry is the recorded link of a record, which was a symbolic link and is gone, or the NFO recorded beside it |
| Cleanup.CleanupSweepCount | sagetv_nfo_generator.py:547-603 | `stale_count` is at most the number of records and at most the number of entries the sweep removed |
| Cleanup.CleanupSweepSafe | sagetv_nfo_generator.py:547-603 | the two lemmas above together: only recorded stale links and their NFOs are removed, and `stale_count` is at most the number of records and the number of entries removed |
| NfoGenerator.NfoGeneratorUtility.constructor | sagetv_nfo_generator.py:79-105 | the configuration and loaded state are kept; the run starts with an empty current state and no processed shows |
| NfoGenerator.NfoGeneratorUtility.CreateMediaFiles | sagetv_nfo_generator.py:271-341 | the disk ends as `WriteArtifacts` computes. The state entry (link, NFO, resolved file, base) is recorded exactly when the call gets past the link step; a new id goes to the end of the key order |
| NfoGenerator.NfoGeneratorUtility.WriteLinkAndNfo | sagetv_nfo_generator.py:277-331 | the folder, link and NFO calls leave the disk, and give the outcome, that `WriteArtifacts` computes |
| NfoGenerator.NfoGeneratorUtility.CreateSeriesNfo | sagetv_nfo_generator.py:379-405 | the disk ends as `SeriesNfoFs` computes |
| NfoGenerator.NfoGeneratorUtility.ResolveFilenameBase | sagetv_nfo_generator.py:449-477 | the base is the remembered one; otherwise the default, with ` - <id>` when a probed link conflicts |
| NfoGenerator.NfoGeneratorUtility.TvPlacement | sagetv_nfo_generator.py:414-477 | the season folder and base of a TV record are those `TvTarget` derives from the chosen numbers, the layout and the collision rule, on the current disk |
| NfoGenerator.NfoGeneratorUtility.SeriesNfoOnce | sagetv_nfo_generator.py:437-440 | `tvshow.nfo` is attempted only the first time a cleaned show name is seen, and the name is then remembered |
| NfoGenerator.NfoGeneratorUtility.ProcessTvShow | sagetv_nfo_generator.py:407-480 | an empty title does nothing. Otherwise the numbers are chosen, the series NFO step runs, then the base is chosen on the disk after it and the writer runs. The record is committed exactly when the writer succeeds |
| NfoGenerator.NfoGeneratorUtility.CreateEpisodeFiles | sagetv_nfo_generator.py:441-480 | on the disk after the series NFO step, the folder and base are `TvTarget`'s, the disk ends as `WriteArtifacts` computes, and the record is committed exactly when the writer succeeds |
| NfoGenerator.NfoGeneratorUtility.ProcessMovie | sagetv_nfo_generator.py:483-535 | an empty title does nothing. Otherwise the folder and base come from title, year and flat layout, the writer runs, and the record is committed exactly when the writer succeeds |
| NfoGenerator.NfoGeneratorUtility.CleanupEntry | sagetv_nfo_generator.py:562-591 | one iteration of the cleanup loop leaves the disk and the count as the corrected step `Cleanup.CleanupStep` computes |
| NfoGenerator.NfoGeneratorUtility.CleanupStaleFiles | sagetv_nfo_generator.py:541-603 | the disk ends as the corrected sweep over the previous state, in its key order, computes; it returns that sweep's count |
| NfoGenerator.NfoGeneratorUtility.ProcessRecord | sagetv_nfo_generator.py:642-667 | a record without a file path, or whose recording is not found, changes nothing and is not counted; otherwise it is processed as a movie or an episode and counted unless an OS error escaped; the new world is `RecordStep`'s |
| NfoGenerator.NfoGeneratorUtility.ProcessPage | sagetv_nfo_generator.py:635-667 | the disk, the state with its key order, the processed shows and the total end as `PageFold` of `RecordStep` over the page computes. The total never passes `max_files` and grows by at most the number of records with a file path. Every id added to the state comes from the page |
| NfoGenerator.NfoGeneratorUtility.PageLoop | sagetv_nfo_generator.py:613-679 | the world, the total and the number of processed pages end as `PageLoopRun` computes: the limit check before each fetch, the stop on a failed fetch or an empty page, and the stop after a page that reached the limit or was short |
| NfoGenerator.NfoGeneratorUtility.RunGenerator | sagetv_nfo_generator.py:606-683 | the world and total end as `PageLoopRun` computes, started from the disk the corrected cleanup sweep leaves; see "RunGenerator" below the table for the consequences it states |
| NfoGenerator.RecordStep | sagetv_nfo_generator.py:642-667 | a record is counted only when it has a file path and its recording is found, and the only key it can add to the state is its own id |
| NfoGenerator.RecordStepKeepsIds | sagetv_nfo_generator.py:642-667 | the same for the step as a value, as the loop lemmas use it |
| NfoGenerator.PageFoldLimitStops | sagetv_nfo_generator.py:637-640 | once the limit is reached, breaking out of the inner loop and running it to the end agree |
| NfoGenerator.PageFoldBounds | sagetv_nfo_generator.py:635-667 | the inner loop adds at most one per record with a file path and never passes a positive limit it started within |
| NfoGenerator.PageFoldIds | sagetv_nfo_generator.py:635-667 | a key the inner loop adds to the state is the id of one of the page's records with a file path |
| NfoGenerator.PageLoopRunBounds | sagetv_nfo_generator.py:613-679 | the page loop keeps the total within a positive limit and adds at most one per record with a file path on the pages |
| NfoGenerator.PageLoopRunIds | sagetv_nfo_generator.py:613-679 | a key the page loop adds to the state is the id of a record with a file path on one of the pages |
| NfoGenerator.PageLoopRunShape | sagetv_nfo_generator.py:618-676 | the pages processed are present and non-empty, all full but the last, and the loop stops for one of the four reasons listed below the table |
| NfoGenerator.PageLoopRunFacts | sagetv_nfo_generator.py:613-679 | the three properties above for a whole run from the first page |
| NfoGenerator.PathCountMonotone | sagetv_nfo_generator.py:645-647 | a prefix of a page has no more records with a file path than the page |
| Reconciliation.TvNameStable | sagetv_nfo_generator.py:449-454 | the base recorded for a TV record is recalled next run, which then gives the same folder and base whatever the disk holds |
| Reconciliation.MovieNameStable | sagetv_nfo_generator.py:505-510 | the same for a movie |
| Reconciliation.ProbedLinkNeverReplaced | sagetv_nfo_generator.py:457-470 | when the probe finds no conflict and the link's extension is probed, the entry at the link path survives the writer |
| Reconciliation.SecondSourceCollides | sagetv_nfo_generator.py:457-470 | once a first recording has been written under the default base with a probed extension, the probe for a second recording that compares different finds a conflict |
| Reconciliation.SecondSourceGetsSuffix | sagetv_nfo_generator.py:455-477 | the first recording keeps the default base; a second one that compares different, with nothing remembered, gets the default with ` - <id>` appended |
| Reconciliation.ExampleProbeFindsNothing | sagetv_nfo_generator.py:457-470 | in the `.m4v` example no probed name exists, so the probe reports no collision |
| Reconciliation.UnprobedSuffixRepointsLink | sagetv_nfo_generator.py:274-320 | a `.m4v` link of another record escapes the probe, and the writer re-points it at the new file |

RunGenerator's contract states:

- the total never passes `max_files` when a limit is set, and it counts at most the records that report a file path;
- the saved state is the current state;
- every id in it was there before or comes from a page;
- when the first page is missing or empty, only the cleanup has happened;
- the pages processed were all present and non-empty, and every processed page but the last was full;
- the loop stopped because of one of these:
  - the pages ran out;
  - the limit was reached;
  - the next page was missing or empty;
  - the last page was short.

## Left out

- Paths are already normalised POSIX strings with absolute link targets. Relative link targets, `..`, and Windows separators are not modelled.
- Links are followed only at the last component of a path. A link in the middle of a path is never followed: the contents of a linked folder are looked up under the link's own path. So when a show or season folder is a link, the checks at `sagetv_nfo_generator.py:286`, `:328`, `:383` and `:462` can see nothing where the real system sees the linked folder's files. In particular, a second `tvshow.nfo` is written under the link's path. For the same reason `mkdir` under a plain file is not refused.
- `write_text` is modelled only for a path with no entry. On an existing file, or a working link to one, the real call truncates and succeeds, where the model fails. The generator never reaches that case, because both call sites test `exists()` first (`sagetv_nfo_generator.py:328`, `:383`).
- Character handling is limited to ASCII:
  - `\d` and `int()` accept ASCII digits only;
  - `str.lower()` folds ASCII letters only.
- `Path.resolve()` is an abstract parameter of `Compare.Platform`. So is the platform check.
- OS failures are modelled as a set of refused paths. Other exceptions are not modelled: I/O errors, ELOOP on `os.symlink`, and a failing `os.readlink`.
- Writing through a dangling link is modelled as a failed write. The real `open()` would create the link's target.
- `mkdir(parents=True)` adds only the last folder, not the missing parents.
- The HTTP request, the XML parsing (`_get_media_files_page`, `_extract_data`), the NFO text (`_generate_nfo_content`, the series NFO text), logging and `time.sleep` are left out. Pages arrive as a parameter; a missing page, or one past the end, reads as a failed fetch.
- The content of an NFO is an opaque string.
- `_load_state` and `_save_state` (JSON) are left out. The state is a map of string fields, and a missing field reads as "". A JSON entry that is not an object is not modelled.
- `_ensure_root_directories`, `load_config`, `setup_logging` and the `__main__` block are not part of this model, and neither is the `jellyfin_update` folder.
- Writer.WriteIdempotent: requires the resolved recording to be a plain file and the folder to be absent or a plain folder. A recording reached through links can stop resolving once the call adds a link (a chain past 40 hops, or a cycle), and a folder reached through a link is not covered.
- NfoGenerator.NfoGeneratorUtility.constructor: requires a positive page size. With `PAGE_SIZE` zero or less (`sagetv_nfo_generator.py:86`), a full page is never short (line 673) and `start` never advances (line 676), so the source fetches the same page forever; that non-terminating run is not modelled.
- NfoGenerator.NfoGeneratorUtility.CleanupStaleFiles: models the corrected loop body. The loop as written is `Cleanup.CleanupStepAsWritten`.

## Findings

| source | as written | input that shows it | evidently intended | confidence | as-written member | corrected member |
|---|---|---|---|---|---|---|
| sagetv_nfo_generator.py:562 | `link_path.exists()` follows the link, so a link whose recording was deleted fails the check and is skipped. The target check at line 578 can then never be false, and cleanup never removes anything | state entry for `/media/TV Shows/A/Season 01/A - S01E01 - Episode.mpg`, a link to `/rec/A.mpg` that is gone | test the link itself (`is_symlink()` / `os.path.lexists`) and remove links whose target is gone | high; not executed | Cleanup.CleanupStepAsWritten (Cleanup.AsWrittenSweepRemovesNothing, Cleanup.DanglingLinkExample) | Cleanup.CleanupStep (Cleanup.CleanupSweepSafe, NfoGenerator.NfoGeneratorUtility.CleanupStaleFiles) |
