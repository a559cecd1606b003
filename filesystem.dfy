/** The disk as the generator sees it: a finite map from path to entry, the two existence
    queries pathlib offers (with and without following links), and the handful of OS calls
    the generator makes, each of which may fail on a path it has no permission for. */
module FileSystem {
  import opened Wrappers

  datatype Entry = File(content: string) | Dir | Symlink(target: string)

  type FS = map<string, Entry>

  /** Linux gives up resolving a path after 40 links (ELOOP). */
  const MaxHops: nat := 40

  /** Follow links from `p` for at most `hops` hops: the first path that is not a link
      (possibly absent), or None when the hop budget runs out (a cycle or a chain too long). */
  function ChainEnd(fs: FS, p: string, hops: nat): (r: Option<string>)
    ensures r.Some? ==> r.value !in fs || !fs[r.value].Symlink?
    decreases hops
  {
    if p in fs && fs[p].Symlink? then
      if hops == 0 then None else ChainEnd(fs, fs[p].target, hops - 1)
    else Some(p)
  }

  /** `os.path.lexists`: there is an entry at `p` itself. */
  predicate Present(fs: FS, p: string) {
    p in fs
  }

  /** `Path.exists()`: the entry exists after following links; a dangling link is not there. */
  predicate Exists(fs: FS, p: string) {
    var e := ChainEnd(fs, p, MaxHops);
    e.Some? && e.value in fs
  }

  /** `Path.is_file()`: follows links. */
  predicate IsFile(fs: FS, p: string) {
    var e := ChainEnd(fs, p, MaxHops);
    e.Some? && e.value in fs && fs[e.value].File?
  }

  /** `Path.is_dir()`: follows links. */
  predicate IsDir(fs: FS, p: string) {
    var e := ChainEnd(fs, p, MaxHops);
    e.Some? && e.value in fs && fs[e.value].Dir?
  }

  /** `Path.is_symlink()`: looks at the entry itself. */
  predicate IsSymlink(fs: FS, p: string) {
    p in fs && fs[p].Symlink?
  }

  /** `fs` still holds every entry of `old` unchanged (entries may have been added). */
  predicate Extends(fs: FS, old_: FS) {
    forall p :: p in old_ ==> p in fs && fs[p] == old_[p]
  }

  // ---------------------------------------------------------------------------
  // When each OS call succeeds
  // ---------------------------------------------------------------------------

  /** `os.symlink(target, p)`: fails with EEXIST on any entry, dangling links included. */
  predicate SymlinkOk(fs: FS, denied: set<string>, p: string) {
    !Present(fs, p) && p !in denied
  }

  /** `os.remove(p)`: removes a file or a link itself, never a directory. */
  predicate RemoveOk(fs: FS, denied: set<string>, p: string) {
    Present(fs, p) && !fs[p].Dir? && p !in denied
  }

  /** `Path(p).mkdir(parents=True, exist_ok=True)`: succeeds on a directory (also through a
      link); raises on any other entry, dangling links included. */
  predicate MkDirOk(fs: FS, denied: set<string>, p: string) {
    IsDir(fs, p) || (!Present(fs, p) && p !in denied)
  }

  function MkDirFs(fs: FS, p: string): FS {
    if Present(fs, p) then fs else fs[p := Dir]
  }

  /** `Path(p).write_text(...)`: only on a path with no entry at all. */
  predicate WriteOk(fs: FS, denied: set<string>, p: string) {
    !Present(fs, p) && p !in denied
  }

  // ---------------------------------------------------------------------------
  // Facts about following links
  // ---------------------------------------------------------------------------

  /** A resolution that ends on an entry survives a larger hop budget. */
  lemma {:induction false} ChainEndMoreHops(fs: FS, p: string, hops: nat)
    requires ChainEnd(fs, p, hops).Some? && ChainEnd(fs, p, hops).value in fs
    ensures ChainEnd(fs, p, hops + 1) == ChainEnd(fs, p, hops)
    decreases hops
  {
    if p in fs && fs[p].Symlink? {
      ChainEndMoreHops(fs, fs[p].target, hops - 1);
    }
  }

  /** Adding entries never breaks a resolution that ended on an entry. */
  lemma {:induction false} ChainEndExtends(fs: FS, fs': FS, p: string, hops: nat)
    requires Extends(fs', fs)
    requires ChainEnd(fs, p, hops).Some? && ChainEnd(fs, p, hops).value in fs
    ensures ChainEnd(fs', p, hops) == ChainEnd(fs, p, hops)
    decreases hops
  {
    if p in fs && fs[p].Symlink? {
      ChainEndExtends(fs, fs', fs[p].target, hops - 1);
    }
  }

  /** The queries that hold of a path keep holding when entries are only added. */
  lemma ExistsExtends(fs: FS, fs': FS, p: string)
    requires Extends(fs', fs)
    requires Exists(fs, p)
    ensures Exists(fs', p)
    ensures IsFile(fs, p) ==> IsFile(fs', p)
    ensures IsDir(fs, p) ==> IsDir(fs', p)
  {
    ChainEndExtends(fs, fs', p, MaxHops);
  }

  /** A link whose own resolution reaches an entry has a target that exists. */
  lemma ExistingLinkHasExistingTarget(fs: FS, p: string)
    requires IsSymlink(fs, p) && Exists(fs, p)
    ensures Exists(fs, fs[p].target)
  {
    ChainEndMoreHops(fs, fs[p].target, MaxHops - 1);
  }

  /** A link to a plain file exists (one hop). */
  lemma LinkToFileExists(fs: FS, p: string)
    requires IsSymlink(fs, p)
    requires fs[p].target in fs && fs[fs[p].target].File?
    ensures Exists(fs, p) && IsFile(fs, p)
  {
    assert ChainEnd(fs, fs[p].target, MaxHops - 1) == Some(fs[p].target);
  }

  // ---------------------------------------------------------------------------
  // The disk itself
  // ---------------------------------------------------------------------------

  /** The live filesystem. `denied` holds the paths whose creation, removal or writing the
      operating system refuses (permissions, read-only mounts). */
  class Disk {
    var entries: FS
    const denied: set<string>

    constructor (entries: FS, denied: set<string>)
      ensures this.entries == entries && this.denied == denied
    {
      this.entries := entries;
      this.denied := denied;
    }

    method CreateSymlink(path: string, target: string) returns (ok: bool)
      modifies this
      ensures ok == SymlinkOk(old(entries), denied, path)
      ensures entries == if ok then old(entries)[path := Symlink(target)] else old(entries)
    {
      ok := SymlinkOk(entries, denied, path);
      if ok {
        entries := entries[path := Symlink(target)];
      }
    }

    method Remove(path: string) returns (ok: bool)
      modifies this
      ensures ok == RemoveOk(old(entries), denied, path)
      ensures entries == if ok then old(entries) - {path} else old(entries)
    {
      ok := RemoveOk(entries, denied, path);
      if ok {
        entries := entries - {path};
      }
    }

    method MakeDirs(path: string) returns (ok: bool)
      modifies this
      ensures ok == MkDirOk(old(entries), denied, path)
      ensures entries == if ok then MkDirFs(old(entries), path) else old(entries)
    {
      ok := MkDirOk(entries, denied, path);
      if ok {
        entries := MkDirFs(entries, path);
      }
    }

    method WriteText(path: string, content: string) returns (ok: bool)
      modifies this
      ensures ok == WriteOk(old(entries), denied, path)
      ensures entries == if ok then old(entries)[path := File(content)] else old(entries)
    {
      ok := WriteOk(entries, denied, path);
      if ok {
        entries := entries[path := File(content)];
      }
    }
  }
}
