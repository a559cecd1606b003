/** What `_create_media_files` and `_create_series_nfo` do to the disk, as functions of the
    disk before the call. The generator's methods perform these steps one OS call at a time
    and are proved to end in exactly the state computed here. */
module Writer {
  import opened Wrappers
  import opened Paths
  import opened FileSystem
  import opened Compare

  /** How a call of `_create_media_files` ends: the record was written to the state, the call
      returned early without a state entry, or an OS error escaped it. */
  datatype Outcome = Written | Skipped | Raised

  datatype WriteResult = WriteResult(fs: FS, outcome: Outcome)

  /** `target_dir / f"{base}{resolved.suffix}"`: the link takes the resolved file's suffix. */
  function LinkPath(dir: string, base: string, resolved: string): string {
    Join(dir, base + Suffix(Name(resolved)))
  }

  /** `target_dir / f"{base}.nfo"`. */
  function NfoPath(dir: string, base: string): string {
    Join(dir, base + ".nfo")
  }

  /** The NFO step: written only where nothing exists (following links); a failed write is
      caught and logged. */
  function NfoStep(fs: FS, denied: set<string>, nfo: string, content: string): FS {
    if !Exists(fs, nfo) && WriteOk(fs, denied, nfo) then fs[nfo := File(content)] else fs
  }

  /** `_create_media_files(data, resolved, dir, base)`, on the disk only. */
  function WriteArtifacts(fs: FS, denied: set<string>, pl: Platform, resolved: string, dir: string,
                          base: string, content: string): WriteResult
  {
    var link := LinkPath(dir, base, resolved);
    var nfo := NfoPath(dir, base);
    if !MkDirOk(fs, denied, dir) then WriteResult(fs, Raised)
    else
      var fs1 := MkDirFs(fs, dir);
      if Exists(fs1, link) then
        if !IsSymlink(fs1, link) then WriteResult(fs1, Skipped)
        else if Comparable(pl, fs1[link].target) == Comparable(pl, resolved) then
          WriteResult(NfoStep(fs1, denied, nfo, content), Written)
        else if !RemoveOk(fs1, denied, link) then WriteResult(fs1, Raised)
        else
          var fs2 := fs1 - {link};
          if !SymlinkOk(fs2, denied, link) then WriteResult(fs2, Skipped)
          else WriteResult(NfoStep(fs2[link := Symlink(resolved)], denied, nfo, content), Written)
      else if !SymlinkOk(fs1, denied, link) then WriteResult(fs1, Skipped)
      else WriteResult(NfoStep(fs1[link := Symlink(resolved)], denied, nfo, content), Written)
  }

  /** `show_path / "tvshow.nfo"`. */
  function SeriesNfoPath(showDir: string): string {
    Join(showDir, "tvshow.nfo")
  }

  /** `_create_series_nfo(data, show_path)`, on the disk only: nothing when the file exists;
      otherwise the folder and the file, each failure caught and logged. */
  function SeriesNfoFs(fs: FS, denied: set<string>, showDir: string, content: string): FS {
    var nfo := SeriesNfoPath(showDir);
    if Exists(fs, nfo) || !MkDirOk(fs, denied, showDir) then fs
    else
      var fs1 := MkDirFs(fs, showDir);
      if WriteOk(fs1, denied, nfo) then fs1[nfo := File(content)] else fs1
  }

  // ---------------------------------------------------------------------------
  // What the writer may and may not touch
  // ---------------------------------------------------------------------------

  /** Only adds entries: everything already on the disk stays as it was. */
  predicate OnlyAdds(fs': FS, fs: FS, added: set<string>) {
    && (forall p :: p in fs ==> p in fs' && fs'[p] == fs[p])
    && (forall p :: p in fs' && p !in fs ==> p in added)
  }

  lemma NfoStepOnlyAdds(fs: FS, denied: set<string>, nfo: string, content: string)
    ensures OnlyAdds(NfoStep(fs, denied, nfo, content), fs, {nfo})
  {
  }

  /** Writing the NFO a second time changes nothing: once written, it exists. */
  lemma NfoStepIdempotent(fs: FS, denied: set<string>, nfo: string, content: string)
    ensures NfoStep(NfoStep(fs, denied, nfo, content), denied, nfo, content)
         == NfoStep(fs, denied, nfo, content)
  {
    var f := NfoStep(fs, denied, nfo, content);
    if f != fs {
      assert ChainEnd(f, nfo, MaxHops) == Some(nfo);
    }
  }

  lemma JoinLonger(dir: string, name: string)
    ensures |Join(dir, name)| > |dir|
    ensures Join(dir, name) != dir
  {
  }

  /** The writer changes no entry but the link itself, and adds none but the folder, the
      link and the NFO. */
  lemma WriteFrame(fs: FS, denied: set<string>, pl: Platform, resolved: string, dir: string,
                   base: string, content: string)
    ensures var r := WriteArtifacts(fs, denied, pl, resolved, dir, base, content);
      var link := LinkPath(dir, base, resolved);
      && (forall p :: p in fs && p != link ==> p in r.fs && r.fs[p] == fs[p])
      && (forall p :: p in r.fs && p !in fs ==> p == dir || p == link || p == NfoPath(dir, base))
  {
    var r := WriteArtifacts(fs, denied, pl, resolved, dir, base, content);
    var link := LinkPath(dir, base, resolved);
    var nfo := NfoPath(dir, base);
    if MkDirOk(fs, denied, dir) {
      var fs1 := MkDirFs(fs, dir);
      assert OnlyAdds(fs1, fs, {dir});
      if Exists(fs1, link) && IsSymlink(fs1, link) {
        if Comparable(pl, fs1[link].target) == Comparable(pl, resolved) {
          NfoStepOnlyAdds(fs1, denied, nfo, content);
        } else if RemoveOk(fs1, denied, link) {
          var fsY := (fs1 - {link})[link := Symlink(resolved)];
          assert r.fs == NfoStep(fsY, denied, nfo, content) || r.fs == fs1 - {link};
          NfoStepOnlyAdds(fsY, denied, nfo, content);
        }
      } else if !Exists(fs1, link) && SymlinkOk(fs1, denied, link) {
        var fsY := fs1[link := Symlink(resolved)];
        assert r.fs == NfoStep(fsY, denied, nfo, content);
        NfoStepOnlyAdds(fsY, denied, nfo, content);
      }
    }
  }

  /** A file or a folder at the link path is never replaced, and the call writes no state
      entry: at most the target folder is created. */
  lemma NonLinkUntouched(fs: FS, denied: set<string>, pl: Platform, resolved: string, dir: string,
                         base: string, content: string)
    requires LinkPath(dir, base, resolved) in fs && !fs[LinkPath(dir, base, resolved)].Symlink?
    ensures var r := WriteArtifacts(fs, denied, pl, resolved, dir, base, content);
      && r.outcome != Written
      && OnlyAdds(r.fs, fs, {dir})
  {
    var link := LinkPath(dir, base, resolved);
    JoinLonger(dir, base + Suffix(Name(resolved)));
    if MkDirOk(fs, denied, dir) {
      var fs1 := MkDirFs(fs, dir);
      assert fs1[link] == fs[link];
      assert ChainEnd(fs1, link, MaxHops) == Some(link);
    }
  }

  /** After a successful call the link points at the resolved file as the platform compares
      paths: it is either the link that already compared equal, or a new link to it. */
  lemma WrittenLinkPointsAtSource(fs: FS, denied: set<string>, pl: Platform, resolved: string,
                                  dir: string, base: string, content: string)
    ensures var r := WriteArtifacts(fs, denied, pl, resolved, dir, base, content);
      var link := LinkPath(dir, base, resolved);
      r.outcome == Written ==>
        && IsSymlink(r.fs, link)
        && Comparable(pl, r.fs[link].target) == Comparable(pl, resolved)
        && (r.fs[link] == Symlink(resolved) || (link in fs && r.fs[link] == fs[link]))
  {
    var link := LinkPath(dir, base, resolved);
    var nfo := NfoPath(dir, base);
    JoinLonger(dir, base + Suffix(Name(resolved)));
    if MkDirOk(fs, denied, dir) {
      var fs1 := MkDirFs(fs, dir);
      NfoStepOnlyAdds(fs1, denied, nfo, content);
      NfoStepOnlyAdds((fs1 - {link})[link := Symlink(resolved)], denied, nfo, content);
      NfoStepOnlyAdds(fs1[link := Symlink(resolved)], denied, nfo, content);
    }
  }

  /** A link that no longer leads anywhere (its target is gone) sits at the link path: the
      new link cannot be created over it (EEXIST), so the call returns without a state entry
      and the disk is unchanged. */
  lemma DanglingLinkBlocksWrite(fs: FS, denied: set<string>, pl: Platform, resolved: string,
                                dir: string, base: string, content: string)
    requires IsDir(fs, dir)
    requires IsSymlink(fs, LinkPath(dir, base, resolved)) && !Exists(fs, LinkPath(dir, base, resolved))
    ensures WriteArtifacts(fs, denied, pl, resolved, dir, base, content) == WriteResult(fs, Skipped)
  {
  }

  /** A second identical call after a successful one finds everything in place and changes
      nothing (for a source that is a plain file and a target folder that is a plain folder
      or not yet there). */
  lemma WriteIdempotent(fs: FS, denied: set<string>, pl: Platform, resolved: string, dir: string,
                        base: string, content: string)
    requires resolved in fs && fs[resolved].File?
    requires dir !in fs || fs[dir] == Dir
    requires WriteArtifacts(fs, denied, pl, resolved, dir, base, content).outcome == Written
    ensures var r := WriteArtifacts(fs, denied, pl, resolved, dir, base, content);
      WriteArtifacts(r.fs, denied, pl, resolved, dir, base, content) == r
  {
    var r := WriteArtifacts(fs, denied, pl, resolved, dir, base, content);
    var link := LinkPath(dir, base, resolved);
    var nfo := NfoPath(dir, base);
    JoinLonger(dir, base + Suffix(Name(resolved)));
    JoinLonger(dir, base + ".nfo");
    var fs1 := MkDirFs(fs, dir);
    assert fs1[dir] == Dir;
    assert fs1[resolved] == File(fs[resolved].content);
    // the state just before the NFO step, and its link
    var fsY: FS;
    if Exists(fs1, link) && IsSymlink(fs1, link) && Comparable(pl, fs1[link].target) == Comparable(pl, resolved) {
      fsY := fs1;
    } else {
      var fsX := if Exists(fs1, link) then fs1 - {link} else fs1;
      assert resolved != link;
      fsY := fsX[link := Symlink(resolved)];
      assert fsY[resolved] == File(fs[resolved].content);
      LinkToFileExists(fsY, link);
      assert r.fs == NfoStep(fsY, denied, nfo, content);
    }
    assert r.fs == NfoStep(fsY, denied, nfo, content);
    assert Exists(fsY, link) && IsSymlink(fsY, link);
    NfoStepOnlyAdds(fsY, denied, nfo, content);
    ExistsExtends(fsY, r.fs, link);
    assert r.fs[dir] == Dir;
    assert ChainEnd(r.fs, dir, MaxHops) == Some(dir);
    assert MkDirFs(r.fs, dir) == r.fs;
    NfoStepIdempotent(fsY, denied, nfo, content);
  }

  /** The series NFO is never overwritten: an existing one leaves the disk as it was, and
      otherwise only the show folder and the file can be added. */
  lemma SeriesNfoNeverOverwritten(fs: FS, denied: set<string>, showDir: string, content: string)
    ensures Exists(fs, SeriesNfoPath(showDir)) ==> SeriesNfoFs(fs, denied, showDir, content) == fs
    ensures OnlyAdds(SeriesNfoFs(fs, denied, showDir, content), fs, {showDir, SeriesNfoPath(showDir)})
  {
  }

  /** After one series NFO call, a second one changes nothing. */
  lemma SeriesNfoIdempotent(fs: FS, denied: set<string>, showDir: string, content: string)
    ensures var f := SeriesNfoFs(fs, denied, showDir, content);
      SeriesNfoFs(f, denied, showDir, content) == f
  {
    var nfo := SeriesNfoPath(showDir);
    var f := SeriesNfoFs(fs, denied, showDir, content);
    JoinLonger(showDir, "tvshow.nfo");
    if f != fs && nfo in f && f[nfo] == File(content) {
      assert ChainEnd(f, nfo, MaxHops) == Some(nfo);
    } else if f != fs {
      assert f[showDir] == Dir;
      assert ChainEnd(f, showDir, MaxHops) == Some(showDir);
    }
  }
}
