/** `_clean_directory_name`: turns a free-text title into a fragment that is safe as a
    directory or file name. */
module Sanitize {
  import opened Text

  /** The characters Windows refuses in a file name. */
  predicate IsIllegal(c: char) {
    c == '<' || c == '>' || c == ':' || c == '"' || c == '/' || c == '\\' || c == '|' || c == '?' || c == '*'
  }

  predicate NoIllegal(s: string) {
    forall c :: c in s ==> !IsIllegal(c)
  }

  /** The name used when nothing is left of the title. */
  const Fallback: string := "UnknownMedia"

  /** Every illegal character becomes '-', every other one stays where it is. */
  function ReplaceIllegal(s: string): (r: string)
    ensures |r| == |s|
    ensures forall i {:trigger r[i]} :: 0 <= i < |s| ==> r[i] == (if IsIllegal(s[i]) then '-' else s[i])
    ensures NoIllegal(r)
  {
    if s == [] then []
    else ReplaceIllegal(s[..|s| - 1]) + [if IsIllegal(s[|s| - 1]) then '-' else s[|s| - 1]]
  }

  /** What the trimming steps may remove: a dot or any whitespace. */
  predicate IsTrimmable(c: char) {
    c == '.' || IsSpace(c)
  }

  predicate AllTrimmable(s: string) {
    forall i :: 0 <= i < |s| ==> IsTrimmable(s[i])
  }

  /** The loop that strips trailing dots and spaces, then whitespace, until neither is left
      at the end (one pass can expose more). It keeps a prefix of its input. */
  function TrimTail(s: string): (r: string)
    requires Stripped(s)
    ensures Stripped(r)
    ensures r == [] || !IsDotOrSpace(r[|r| - 1])
    ensures |r| <= |s|
    decreases |s|
  {
    if s != [] && IsDotOrSpace(s[|s| - 1]) then
      var d := RStripDotSpace(s);
      RStripDotSpaceIsPrefix(s);
      assert d == [] || d[0] == s[0];
      StripOfNonSpaceStart(d);
      TrimTail(RStrip(d))
    else s
  }

  /** The trimming loop keeps a prefix of its input. */
  lemma {:induction false} TrimTailIsPrefix(s: string)
    requires Stripped(s)
    ensures TrimTail(s) == s[..|TrimTail(s)|]
    decreases |s|
  {
    if s != [] && IsDotOrSpace(s[|s| - 1]) {
      var d := RStripDotSpace(s);
      RStripDotSpaceIsPrefix(s);
      assert d == [] || d[0] == s[0];
      StripOfNonSpaceStart(d);
      var e := RStrip(d);
      RStripIsPrefix(d);
      TrimTailIsPrefix(e);
      var r := TrimTail(e);
      assert r == s[..|r|] by {
        assert r == e[..|r|] && e == d[..|e|] && d == s[..|d|];
      }
    }
  }

  /** The trimming loop removes only dots and whitespace. */
  lemma {:induction false} TrimTailRemovesTrimmable(s: string)
    requires Stripped(s)
    ensures forall k :: |TrimTail(s)| <= k < |s| ==> IsTrimmable(s[k])
    decreases |s|
  {
    if s != [] && IsDotOrSpace(s[|s| - 1]) {
      var d := RStripDotSpace(s);
      RStripDotSpaceIsPrefix(s);
      assert d == [] || d[0] == s[0];
      StripOfNonSpaceStart(d);
      RStripIsPrefix(d);
      RStripDotSpaceDrops(s);
      RStripDropsSpace(d);
      var e := RStrip(d);
      TrimTailRemovesTrimmable(e);
      var r := TrimTail(s);
      assert r == TrimTail(e);
      forall k | |r| <= k < |s| ensures IsTrimmable(s[k]) {
        if k < |e| {
          assert s[k] == e[k];
        } else if k < |d| {
          assert s[k] == d[|e|..][k - |e|];
        }
      }
    }
  }

  lemma FallbackIsClean()
    ensures Fallback != [] && NoIllegal(Fallback) && Stripped(Fallback)
    ensures !IsDotOrSpace(Fallback[|Fallback| - 1])
  {
    assert forall c :: c in Fallback ==> 'A' <= c <= 'z';
  }

  lemma PrefixKeepsChars(s: string, n: nat)
    requires n <= |s|
    ensures forall c :: c in s[..n] ==> c in s
  {
    forall c | c in s[..n] ensures c in s {
      var i :| 0 <= i < n && s[..n][i] == c;
      assert s[i] == c;
    }
  }

  /** `_clean_directory_name(name)`. */
  function Clean(name: string): (r: string)
    ensures r != []
    ensures NoIllegal(r)
    ensures Stripped(r)
    ensures !IsDotOrSpace(r[|r| - 1])
  {
    var replaced := ReplaceIllegal(name);
    StripSpec(replaced);
    StripKeepsChars(replaced);
    var t := TrimTail(Strip(replaced));
    TrimTailIsPrefix(Strip(replaced));
    PrefixKeepsChars(Strip(replaced), |t|);
    FallbackIsClean();
    if t == [] then Fallback else t
  }

  /** Strip then trim, over plain sequences: a prefix `t` of a piece `s0` of `x` that sits
      between a whitespace prefix and a whitespace suffix, where `s0` continues after `t`
      with dots and whitespace only, is a slice of `x` followed by dots and whitespace. */
  lemma TrimmedPieces(x: string, r: string, s0: string, t: string)
    requires |r| <= |x| && r == x[..|r|] && AllSpace(x[|r|..])
    requires |s0| <= |r| && s0 == r[|r| - |s0|..] && AllSpace(r[..|r| - |s0|])
    requires |t| <= |s0| && t == s0[..|t|]
    requires forall k :: |t| <= k < |s0| ==> IsTrimmable(s0[k])
    ensures var a := |r| - |s0|;
      && t == x[a..a + |t|]
      && AllSpace(x[..a])
      && forall k :: a + |t| <= k < |x| ==> IsTrimmable(x[k])
  {
    var a := |r| - |s0|;
    forall i | 0 <= i < |t| ensures t[i] == x[a + i] {
      assert t[i] == s0[i] == r[a + i];
    }
    assert x[..a] == r[..a];
    forall k | a + |t| <= k < |x| ensures IsTrimmable(x[k]) {
      if k < |r| {
        assert x[k] == r[k] == s0[k - a];
      } else {
        assert x[k] == x[|r|..][k - |r|];
      }
    }
  }

  lemma CleanUnfold(name: string)
    ensures var t := TrimTail(Strip(ReplaceIllegal(name)));
      Clean(name) == if t == [] then Fallback else t
  {
  }

  /** A string made of a whitespace prefix, a middle piece and a trimmable suffix has a
      trimmable suffix, and is all trimmable when the middle piece is empty. */
  lemma EndsTrimmable(x: string, a: int, b: int)
    requires 0 <= a <= b <= |x| && AllSpace(x[..a])
    requires forall k :: b <= k < |x| ==> IsTrimmable(x[k])
    ensures AllTrimmable(x[b..])
    ensures a == b ==> AllTrimmable(x)
  {
    forall k | 0 <= k < |x| - b ensures IsTrimmable(x[b..][k]) {
      assert x[b..][k] == x[b + k];
    }
    if a == b {
      forall k | 0 <= k < |x| ensures IsTrimmable(x[k]) {
        if k < a {
          assert x[k] == x[..a][k];
        }
      }
    }
  }

  /** A trimmed result does not end in a dot or in any whitespace. */
  lemma TrimTailEndsUntrimmable(s: string)
    requires Stripped(s)
    ensures var t := TrimTail(s); t == [] || !IsTrimmable(t[|t| - 1])
  {
  }

  /** Strip then trim, stated over plain sequences: the result is empty exactly when every
      character is a dot or whitespace, and otherwise it is a non-empty slice of `x` after a
      whitespace prefix and before a suffix of dots and whitespace. */
  lemma TrimmedPiecesSpec(x: string, r: string, s0: string, t: string)
    requires |r| <= |x| && r == x[..|r|] && AllSpace(x[|r|..])
    requires |s0| <= |r| && s0 == r[|r| - |s0|..] && AllSpace(r[..|r| - |s0|])
    requires |t| <= |s0| && t == s0[..|t|]
    requires forall k :: |t| <= k < |s0| ==> IsTrimmable(s0[k])
    requires t == [] || !IsTrimmable(t[|t| - 1])
    ensures AllTrimmable(x) <==> t == []
    ensures t != [] ==>
      exists a, b :: 0 <= a < b <= |x| && t == x[a..b] && AllSpace(x[..a]) && AllTrimmable(x[b..])
  {
    TrimmedPieces(x, r, s0, t);
    var a := |r| - |s0|;
    var b := a + |t|;
    EndsTrimmable(x, a, b);
    if t != [] {
      assert t[|t| - 1] == x[b - 1];
      assert !AllTrimmable(x);
    }
  }

  /** `TrimTail(Strip(x))` is empty exactly when every character of `x` is a dot or
      whitespace, and otherwise the slice of `x` between a whitespace prefix and a suffix of
      dots and whitespace. */
  lemma StripTrimSpec(x: string)
    ensures AllTrimmable(x) <==> TrimTail(Strip(x)) == []
    ensures TrimTail(Strip(x)) != [] ==>
      exists a, b :: 0 <= a < b <= |x| && TrimTail(Strip(x)) == x[a..b]
        && AllSpace(x[..a]) && AllTrimmable(x[b..])
  {
    var r := RStrip(x);
    var s0 := LStrip(r);
    RStripIsPrefix(x);
    LStripIsSuffix(r);
    RStripDropsSpace(x);
    LStripDropsSpace(r);
    StripSpec(x);
    TrimTailRemovesTrimmable(s0);
    TrimTailEndsUntrimmable(s0);
    TrimTailIsPrefix(s0);
    var t := TrimTail(s0);
    // The facts `TrimmedPiecesSpec` needs, one at a time.
    assert |r| <= |x| && r == x[..|r|] && AllSpace(x[|r|..]);
    assert |s0| <= |r| && s0 == r[|r| - |s0|..];
    assert AllSpace(r[..|r| - |s0|]);
    assert |t| <= |s0| && t == s0[..|t|];
    assert forall k :: |t| <= k < |s0| ==> IsTrimmable(s0[k]);
    assert t == [] || !IsTrimmable(t[|t| - 1]);
    TrimmedPiecesSpec(x, r, s0, t);
    assert TrimTail(Strip(x)) == t;
  }

  /** The result in terms of the input: the fallback name when the replaced title is all
      dots and whitespace; otherwise the piece of it left after removing leading whitespace
      and trailing dots and whitespace. */
  lemma CleanSpec(name: string)
    ensures var x := ReplaceIllegal(name);
      && (AllTrimmable(x) ==> Clean(name) == Fallback)
      && (!AllTrimmable(x) ==>
            exists a, b :: 0 <= a < b <= |x| && Clean(name) == x[a..b]
              && AllSpace(x[..a]) && AllTrimmable(x[b..]))
  {
    StripTrimSpec(ReplaceIllegal(name));
    CleanUnfold(name);
  }

  /** What `Clean` promises of every result, as one predicate. */
  predicate IsCleanName(s: string) {
    s != [] && NoIllegal(s) && Stripped(s) && !IsDotOrSpace(s[|s| - 1])
  }

  /** A name that already has every property of a cleaned name passes through unchanged. */
  lemma CleanFixesCleanNames(s: string)
    requires IsCleanName(s)
    ensures Clean(s) == s
  {
    forall i | 0 <= i < |s| ensures !IsIllegal(s[i]) {
      assert s[i] in s;
    }
    assert ReplaceIllegal(s) == s;
    StripOfStripped(s);
    assert TrimTail(s) == s;
  }

  /** Cleaning twice is cleaning once. */
  lemma CleanIdempotent(name: string)
    ensures Clean(Clean(name)) == Clean(name)
  {
    CleanFixesCleanNames(Clean(name));
  }

  /** A cleaned name holds no path separator, so it is exactly one path component. */
  lemma CleanHasNoSlash(name: string)
    ensures forall i :: 0 <= i < |Clean(name)| ==> Clean(name)[i] != '/'
  {
    var r := Clean(name);
    forall i | 0 <= i < |r| ensures r[i] != '/' {
      assert r[i] in r;
    }
  }
}
