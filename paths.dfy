/** POSIX path strings, as pathlib's `PurePosixPath` sees an already normalised path:
    the last component (`name`), the directory part, `suffix`, `stem` and `/` joining. */
module Paths {

  /** Index just past the last '/' of `p` (0 when there is none): where the name starts. */
  function NameStart(p: string): (k: nat)
    ensures k <= |p|
    ensures k == 0 || p[k - 1] == '/'
    ensures forall i :: k <= i < |p| ==> p[i] != '/'
  {
    if p == [] then 0
    else if p[|p| - 1] == '/' then |p|
    else NameStart(p[..|p| - 1])
  }

  /** `Path(p).name`: the last component. */
  function Name(p: string): string {
    p[NameStart(p)..]
  }

  /** Everything up to and including the last '/': `Path(p).parent` followed by the separator. */
  function DirPart(p: string): string {
    p[..NameStart(p)]
  }

  /** `Path(p).parent` for a path that has a separator. */
  function Parent(p: string): string {
    if NameStart(p) == 0 then "" else p[..NameStart(p) - 1]
  }

  /** `Path(dir) / name`. */
  function Join(dir: string, name: string): string {
    dir + "/" + name
  }

  predicate IsAbsolute(p: string) {
    |p| > 0 && p[0] == '/'
  }

  predicate NoSlash(s: string) {
    forall i :: 0 <= i < |s| ==> s[i] != '/'
  }

  /** `name.rfind('.')`: the index of the last dot, or -1. */
  function LastDot(name: string): (i: int)
    ensures -1 <= i < |name|
    ensures i >= 0 ==> name[i] == '.'
    ensures forall j :: i < j < |name| ==> name[j] != '.'
  {
    if name == [] then -1
    else if name[|name| - 1] == '.' then |name| - 1
    else LastDot(name[..|name| - 1])
  }

  /** `PurePath.suffix`: from the last dot, unless the dot leads or ends the name. */
  function Suffix(name: string): string {
    var i := LastDot(name);
    if 0 < i < |name| - 1 then name[i..] else ""
  }

  /** `PurePath.stem`: the name without its suffix. */
  function Stem(name: string): string {
    var i := LastDot(name);
    if 0 < i < |name| - 1 then name[..i] else name
  }

  /** A suffix is the stem's complement: the name splits into exactly the two. */
  lemma StemSuffixSplit(name: string)
    ensures Stem(name) + Suffix(name) == name
    ensures Suffix(name) == [] || Suffix(name)[0] == '.'
  {
  }

  lemma {:induction false} NameStartAfterSlash(a: string, name: string)
    requires NoSlash(name)
    ensures NameStart(a + "/" + name) == |a| + 1
    decreases |name|
  {
    var p := a + "/" + name;
    if name == [] {
      assert p[|p| - 1] == '/';
    } else {
      var name' := name[..|name| - 1];
      assert p[..|p| - 1] == a + "/" + name';
      assert p[|p| - 1] == name[|name| - 1];
      NameStartAfterSlash(a, name');
    }
  }

  /** Joining a slash-free name onto a directory: the name and the parent come back out. */
  lemma {:induction false} JoinSplits(dir: string, name: string)
    requires NoSlash(name)
    ensures Name(Join(dir, name)) == name
    ensures Parent(Join(dir, name)) == dir
    ensures DirPart(Join(dir, name)) == dir + "/"
  {
    NameStartAfterSlash(dir, name);
    var p := Join(dir, name);
    assert p[|dir| + 1..] == name;
    assert p[..|dir|] == dir;
  }

  lemma {:induction false} LastDotOfExt(stem: string, ext: string)
    requires |ext| >= 2 && ext[0] == '.'
    requires forall j :: 0 < j < |ext| ==> ext[j] != '.'
    ensures LastDot(stem + ext) == |stem|
    decreases |ext|
  {
    var n := stem + ext;
    if |ext| == 2 {
      assert n[|n| - 1] == ext[1];
      assert n[..|n| - 1] == stem + ".";
    } else {
      assert n[|n| - 1] == ext[|ext| - 1];
      assert n[..|n| - 1] == stem + ext[..|ext| - 1];
      LastDotOfExt(stem, ext[..|ext| - 1]);
    }
  }

  /** Appending an extension to a non-empty stem: `stem` and `suffix` give the two parts back. */
  lemma {:induction false} StemSuffixOfExt(stem: string, ext: string)
    requires stem != []
    requires |ext| >= 2 && ext[0] == '.'
    requires forall j :: 0 < j < |ext| ==> ext[j] != '.'
    ensures Stem(stem + ext) == stem
    ensures Suffix(stem + ext) == ext
  {
    LastDotOfExt(stem, ext);
    assert (stem + ext)[..|stem|] == stem;
    assert (stem + ext)[|stem|..] == ext;
  }
}
