/** `_get_comparable_path`: the form in which two link targets are compared. Resolving a
    path against the live system (`Path.resolve()`) is a parameter of the model, as is
    whether the platform compares names without regard to case. */
module Compare {
  import opened Wrappers

  /** `canon(p)` is what `Path(p).resolve().as_posix()` returns, or None where it raises;
      `caseInsensitive` is true on win32, cygwin and msys. */
  datatype Platform = Platform(canon: string -> Option<string>, caseInsensitive: bool)

  predicate IsUpper(c: char) {
    'A' <= c <= 'Z'
  }

  function LowerChar(c: char): char {
    if IsUpper(c) then (c as int + 32) as char else c
  }

  /** `str.lower()` on the ASCII letters. */
  function Lower(s: string): (r: string)
    ensures |r| == |s|
    ensures forall i :: 0 <= i < |s| ==> r[i] == LowerChar(s[i])
  {
    if s == [] then [] else Lower(s[..|s| - 1]) + [LowerChar(s[|s| - 1])]
  }

  /** The Windows extended-length prefix `\\?\` as it reads after `as_posix()`. */
  const LongPrefix: string := "//?/"

  function DropLongPrefix(s: string): (r: string)
    ensures |s| >= 4 && s[..4] == LongPrefix ==> s == LongPrefix + r
    ensures !(|s| >= 4 && s[..4] == LongPrefix) ==> r == s
  {
    if |s| >= 4 && s[..4] == LongPrefix then s[4..] else s
  }

  /** `_get_comparable_path(p)`: the empty path compares as the empty string; otherwise the
      resolved form without the extended-length prefix (the path itself where resolving
      raises), folded to lower case on case-insensitive platforms. */
  function Comparable(pl: Platform, p: string): (r: string)
    ensures p == "" ==> r == ""
    ensures pl.caseInsensitive ==> forall i :: 0 <= i < |r| ==> !IsUpper(r[i])
    ensures pl.canon(p).None? && !pl.caseInsensitive ==> r == p
  {
    if p == "" then ""
    else
      var n := match pl.canon(p)
        case Some(c) => DropLongPrefix(c)
        case None => p;
      if pl.caseInsensitive then Lower(n) else n
  }

  /** Folding case twice is folding it once. */
  lemma LowerIdempotent(s: string)
    ensures Lower(Lower(s)) == Lower(s)
  {
    assert forall i :: 0 <= i < |s| ==> LowerChar(LowerChar(s[i])) == LowerChar(s[i]);
  }

  /** Dropping the prefix and folding case can be done in either order (the prefix has no
      letters). */
  lemma LowerDropCommute(s: string)
    ensures Lower(DropLongPrefix(s)) == DropLongPrefix(Lower(s))
  {
    if |s| >= 4 {
      assert Lower(s)[..4] == Lower(s[..4]);
      assert Lower(s)[4..] == Lower(s[4..]);
      if s[..4] != LongPrefix {
        var k :| 0 <= k < 4 && s[k] != LongPrefix[k];
        assert Lower(s)[k] != LongPrefix[k];
      }
    }
  }

  /** Two paths that resolve to the same canonical form compare equal on every platform; on
      a case-sensitive platform they compare as that form without the extended-length
      prefix. */
  lemma ComparableOfSameCanon(pl: Platform, p: string, q: string)
    requires p != "" && q != ""
    requires pl.canon(p).Some? && pl.canon(p) == pl.canon(q)
    ensures Comparable(pl, p) == Comparable(pl, q)
    ensures !pl.caseInsensitive ==> Comparable(pl, p) == DropLongPrefix(pl.canon(p).value)
  {
  }

  /** On a case-insensitive platform two paths whose resolved forms differ only in the case
      of ASCII letters compare equal. */
  lemma ComparableIgnoresCase(pl: Platform, p: string, q: string)
    requires pl.caseInsensitive && p != "" && q != ""
    requires pl.canon(p).Some? && pl.canon(q).Some?
    requires Lower(pl.canon(p).value) == Lower(pl.canon(q).value)
    ensures Comparable(pl, p) == Comparable(pl, q)
  {
    LowerDropCommute(pl.canon(p).value);
    LowerDropCommute(pl.canon(q).value);
  }
}
