/** Episode identification: `_parse_sxxeyy`, which searches a file name for the pattern
    `[sS][.-]?(\d+)\s*[eE][.-]?(\d+)`, and the three-tier season/episode choice of
    `_process_tv_show`. */
module Episode {
  import opened Wrappers
  import opened Text

  predicate IsS(c: char) { c == 's' || c == 'S' }
  predicate IsE(c: char) { c == 'e' || c == 'E' }
  predicate IsSep(c: char) { c == '.' || c == '-' }

  /** End of the longest run of digits starting at `j` (greedy `\d+` / `\d*`). */
  function DigitRunEnd(s: string, j: nat): (k: nat)
    requires j <= |s|
    ensures j <= k <= |s| && AllDigits(s[j..k])
    ensures k == |s| || !IsDigit(s[k])
    decreases |s| - j
  {
    if j < |s| && IsDigit(s[j]) then
      var k := DigitRunEnd(s, j + 1);
      assert s[j..k] == [s[j]] + s[j + 1..k];
      k
    else j
  }

  /** End of the longest run of whitespace starting at `j` (greedy `\s*`). */
  function SpaceRunEnd(s: string, j: nat): (k: nat)
    requires j <= |s|
    ensures j <= k <= |s| && AllSpace(s[j..k])
    ensures k == |s| || !IsSpace(s[k])
    decreases |s| - j
  {
    if j < |s| && IsSpace(s[j]) then
      var k := SpaceRunEnd(s, j + 1);
      assert s[j..k] == [s[j]] + s[j + 1..k];
      k
    else j
  }

  /** One attempt of the pattern anchored at `i`. Each part of the pattern has only one way
      to succeed here: an optional separator taken wrongly leaves a non-digit where `\d+`
      must start, and a shorter digit or space run leaves a digit or space where the next
      part must start, so backtracking never changes the outcome. */
  function MatchAt(s: string, i: nat): Option<(nat, nat)> {
    if i >= |s| || !IsS(s[i]) then None
    else
      var j := if i + 1 < |s| && IsSep(s[i + 1]) then i + 2 else i + 1;
      var k := DigitRunEnd(s, j);
      if k == j then None
      else
        var l := SpaceRunEnd(s, k);
        if l == |s| || !IsE(s[l]) then None
        else
          var m := if l + 1 < |s| && IsSep(s[l + 1]) then l + 2 else l + 1;
          var n := DigitRunEnd(s, m);
          if n == m then None
          else Some((DigitsValue(s[j..k]), DigitsValue(s[m..n])))
  }

  /** `re.search` tries every start position from the left. */
  function SearchFrom(s: string, i: nat): Option<(nat, nat)>
    decreases |s| - i
  {
    if i >= |s| then None
    else match MatchAt(s, i)
      case Some(p) => Some(p)
      case None => SearchFrom(s, i + 1)
  }

  /** `_parse_sxxeyy(filename)`. The `ValueError` branch is unreachable: every run of
      decimal digits converts. */
  function ParseSxxEyy(filename: string): Option<(nat, nat)> {
    SearchFrom(filename, 0)
  }

  // ---------------------------------------------------------------------------
  // The regular expression, stated declaratively
  // ---------------------------------------------------------------------------

  /** The pattern matches `s` at `i` with groups `s[j..k]` and `s[m..n]`, the last group
      running as far as the digits go (it is greedy and nothing follows it). */
  ghost predicate Shape(s: string, i: int, j: int, k: int, l: int, m: int, n: int) {
    && 0 <= i < j < k <= l < m < n <= |s|
    && IsS(s[i])
    && (j == i + 1 || (j == i + 2 && IsSep(s[i + 1])))
    && AllDigits(s[j..k])
    && AllSpace(s[k..l])
    && IsE(s[l])
    && (m == l + 1 || (m == l + 2 && IsSep(s[l + 1])))
    && AllDigits(s[m..n])
    && (n == |s| || !IsDigit(s[n]))
  }

  ghost predicate RegexMatchAt(s: string, i: int, season: nat, episode: nat) {
    exists j, k, l, m, n :: Shape(s, i, j, k, l, m, n)
      && season == DigitsValue(s[j..k]) && episode == DigitsValue(s[m..n])
  }

  /** `re.search` returns the match whose start is leftmost. */
  ghost predicate LeftmostMatch(s: string, season: nat, episode: nat) {
    exists i :: RegexMatchAt(s, i, season, episode)
      && forall x, a, b :: 0 <= x < i ==> !RegexMatchAt(s, x, a, b)
  }

  lemma {:induction false} DigitRunEndIs(s: string, j: nat, k: nat)
    requires j <= k <= |s| && AllDigits(s[j..k])
    requires k == |s| || !IsDigit(s[k])
    ensures DigitRunEnd(s, j) == k
    decreases k - j
  {
    if j < k {
      assert s[j] == s[j..k][0];
      assert s[j + 1..k] == s[j..k][1..];
      DigitRunEndIs(s, j + 1, k);
    }
  }

  lemma {:induction false} SpaceRunEndIs(s: string, j: nat, k: nat)
    requires j <= k <= |s| && AllSpace(s[j..k])
    requires k == |s| || !IsSpace(s[k])
    ensures SpaceRunEnd(s, j) == k
    decreases k - j
  {
    if j < k {
      assert s[j] == s[j..k][0];
      assert s[j + 1..k] == s[j..k][1..];
      SpaceRunEndIs(s, j + 1, k);
    }
  }

  /** Every result of the matcher is a match of the pattern. */
  lemma MatchAtSound(s: string, i: nat)
    requires MatchAt(s, i).Some?
    ensures RegexMatchAt(s, i, MatchAt(s, i).value.0, MatchAt(s, i).value.1)
  {
    var j := if i + 1 < |s| && IsSep(s[i + 1]) then i + 2 else i + 1;
    var k := DigitRunEnd(s, j);
    var l := SpaceRunEnd(s, k);
    var m := if l + 1 < |s| && IsSep(s[l + 1]) then l + 2 else l + 1;
    var n := DigitRunEnd(s, m);
    assert Shape(s, i, j, k, l, m, n);
  }

  /** `MatchAt` once each position it computes is known. */
  lemma MatchAtAt(s: string, i: nat, j: nat, k: nat, l: nat, m: nat, n: nat)
    requires i < |s| && IsS(s[i])
    requires j == (if i + 1 < |s| && IsSep(s[i + 1]) then i + 2 else i + 1) && j <= |s|
    requires k == DigitRunEnd(s, j) && k != j
    requires l == SpaceRunEnd(s, k) && l < |s| && IsE(s[l])
    requires m == (if l + 1 < |s| && IsSep(s[l + 1]) then l + 2 else l + 1) && m <= |s|
    requires n == DigitRunEnd(s, m) && n != m
    ensures MatchAt(s, i) == Some((DigitsValue(s[j..k]), DigitsValue(s[m..n])))
  {
  }

  /** Every match of the pattern is found by the matcher, with the same groups. */
  lemma MatchAtComplete(s: string, i: int, j: int, k: int, l: int, m: int, n: int)
    requires Shape(s, i, j, k, l, m, n)
    ensures MatchAt(s, i) == Some((DigitsValue(s[j..k]), DigitsValue(s[m..n])))
  {
    assert IsDigit(s[j]) by { assert s[j] == s[j..k][0]; }
    assert IsDigit(s[m]) by { assert s[m] == s[m..n][0]; }
    assert j == (if i + 1 < |s| && IsSep(s[i + 1]) then i + 2 else i + 1);
    assert m == (if l + 1 < |s| && IsSep(s[l + 1]) then l + 2 else l + 1);
    assert !IsDigit(s[k]) by {
      if k < l {
        assert s[k] == s[k..l][0];
      }
    }
    DigitRunEndIs(s, j, k);
    SpaceRunEndIs(s, k, l);
    DigitRunEndIs(s, m, n);
    MatchAtAt(s, i, j, k, l, m, n);
  }

  lemma MatchAtExact(s: string, i: nat, season: nat, episode: nat)
    ensures MatchAt(s, i) == Some((season, episode)) <==> RegexMatchAt(s, i, season, episode)
  {
    if MatchAt(s, i) == Some((season, episode)) {
      MatchAtSound(s, i);
    }
    if RegexMatchAt(s, i, season, episode) {
      var j, k, l, m, n :| Shape(s, i, j, k, l, m, n)
        && season == DigitsValue(s[j..k]) && episode == DigitsValue(s[m..n]);
      MatchAtComplete(s, i, j, k, l, m, n);
    }
  }

  lemma {:induction false} SearchFromFinds(s: string, i: nat, x: nat)
    requires i <= x < |s| && MatchAt(s, x).Some?
    requires forall y :: i <= y < x ==> MatchAt(s, y).None?
    ensures SearchFrom(s, i) == MatchAt(s, x)
    decreases x - i
  {
    if i < x {
      SearchFromFinds(s, i + 1, x);
    }
  }

  /** `x` is the first start position at or after `i` where the matcher succeeds. */
  ghost predicate FirstMatchFrom(s: string, i: nat, x: nat) {
    i <= x < |s| && MatchAt(s, x).Some? && forall y :: i <= y < x ==> MatchAt(s, y).None?
  }

  lemma {:induction false} SearchFromSome(s: string, i: nat)
    requires SearchFrom(s, i).Some?
    ensures exists x :: FirstMatchFrom(s, i, x) && MatchAt(s, x) == SearchFrom(s, i)
    decreases |s| - i
  {
    if MatchAt(s, i).Some? {
      assert FirstMatchFrom(s, i, i);
    } else {
      SearchFromSome(s, i + 1);
      var x :| FirstMatchFrom(s, i + 1, x) && MatchAt(s, x) == SearchFrom(s, i + 1);
      assert FirstMatchFrom(s, i, x);
    }
  }

  lemma {:induction false} SearchFromNone(s: string, i: nat)
    requires SearchFrom(s, i).None?
    ensures forall x :: i <= x < |s| ==> MatchAt(s, x).None?
    decreases |s| - i
  {
    if i < |s| {
      assert MatchAt(s, i).None?;
      SearchFromNone(s, i + 1);
    }
  }

  lemma RegexMatchAtInRange(s: string, x: int, season: nat, episode: nat)
    ensures RegexMatchAt(s, x, season, episode) ==> 0 <= x < |s|
  {
    if RegexMatchAt(s, x, season, episode) {
      var j, k, l, m, n :| Shape(s, x, j, k, l, m, n);
    }
  }

  /** `_parse_sxxeyy` returns exactly the groups of the leftmost match of the pattern. */
  lemma ParseSxxEyyIsLeftmostMatch(s: string, season: nat, episode: nat)
    ensures ParseSxxEyy(s) == Some((season, episode)) <==> LeftmostMatch(s, season, episode)
  {
    if ParseSxxEyy(s) == Some((season, episode)) {
      SearchFromSome(s, 0);
      var x: nat :| FirstMatchFrom(s, 0, x) && MatchAt(s, x) == Some((season, episode));
      MatchAtExact(s, x, season, episode);
      forall y, a, b | 0 <= y < x ensures !RegexMatchAt(s, y, a, b) {
        MatchAtExact(s, y, a, b);
      }
    }
    if LeftmostMatch(s, season, episode) {
      var x :| RegexMatchAt(s, x, season, episode)
        && forall y, a, b :: 0 <= y < x ==> !RegexMatchAt(s, y, a, b);
      var j, k, l, m, n :| Shape(s, x, j, k, l, m, n)
        && season == DigitsValue(s[j..k]) && episode == DigitsValue(s[m..n]);
      MatchAtExact(s, x, season, episode);
      forall y | 0 <= y < x ensures MatchAt(s, y).None? {
        if MatchAt(s, y).Some? {
          MatchAtSound(s, y);
        }
      }
      SearchFromFinds(s, 0, x);
    }
  }

  /** `_parse_sxxeyy` returns None exactly when the pattern matches nowhere. */
  lemma ParseSxxEyyNoneIsNoMatch(s: string)
    ensures ParseSxxEyy(s).None? <==> forall x, a, b :: !RegexMatchAt(s, x, a, b)
  {
    if ParseSxxEyy(s).None? {
      SearchFromNone(s, 0);
      forall x, a, b ensures !RegexMatchAt(s, x, a, b) {
        RegexMatchAtInRange(s, x, a, b);
        if 0 <= x < |s| {
          MatchAtExact(s, x, a, b);
        }
      }
    } else {
      SearchFromSome(s, 0);
      var x: nat :| FirstMatchFrom(s, 0, x) && MatchAt(s, x) == ParseSxxEyy(s);
      MatchAtSound(s, x);
    }
  }

  // ---------------------------------------------------------------------------
  // The three tiers of _process_tv_show
  // ---------------------------------------------------------------------------

  /** `int(field or 0)`: an empty field reads as 0; None where `int` raises. */
  function FieldNumber(field: string): Option<int> {
    if field == "" then Some(0) else ParseInt(field)
  }

  /** The record's own numbers; both become 0 when either field is not a number. */
  function HintedPair(seasonField: string, episodeField: string): (int, int) {
    var s := FieldNumber(seasonField);
    var e := FieldNumber(episodeField);
    if s.Some? && e.Some? then (s.value, e.value) else (0, 0)
  }

  /** Season and episode for a TV record: the record's numbers unless both are 0, then the
      first `SxxEyy` in the resolved file name, then the (0, 1) bucket. */
  function ChooseSeasonEpisode(seasonField: string, episodeField: string, filename: string): (r: (int, int))
    ensures HintedPair(seasonField, episodeField) != (0, 0) ==> r == HintedPair(seasonField, episodeField)
    ensures HintedPair(seasonField, episodeField) == (0, 0) ==>
      match ParseSxxEyy(filename)
      case Some(p) => r == (p.0 as int, p.1 as int)
      case None => r == (0, 1)
  {
    var h := HintedPair(seasonField, episodeField);
    if h.0 == 0 && h.1 == 0 then
      match ParseSxxEyy(filename)
      case Some(p) => (p.0 as int, p.1 as int)
      case None => (0, 1)
    else h
  }

  /** A field `int` rejects discards both numbers, so the file name decides. */
  lemma NonNumericFieldFallsBack(seasonField: string, episodeField: string, filename: string)
    requires FieldNumber(seasonField).None? || FieldNumber(episodeField).None?
    ensures ChooseSeasonEpisode(seasonField, episodeField, filename)
         == ChooseSeasonEpisode("", "", filename)
  {
  }

  /** The filename tier, when reached, takes the groups of the leftmost match. */
  lemma FilenameTierIsLeftmostMatch(filename: string, season: nat, episode: nat)
    requires LeftmostMatch(filename, season, episode)
    ensures ChooseSeasonEpisode("", "", filename) == (season, episode)
  {
    ParseSxxEyyIsLeftmostMatch(filename, season, episode);
  }

  /** With no usable numbers and no match anywhere in the name, the (0, 1) bucket. */
  lemma NoMatchGivesDefault(filename: string)
    requires forall x, a, b :: !RegexMatchAt(filename, x, a, b)
    ensures ChooseSeasonEpisode("", "", filename) == (0, 1)
  {
    ParseSxxEyyNoneIsNoMatch(filename);
  }

  /** No match starts on a character other than `s`/`S`, nor on one followed by a character
      that can neither be a separator nor start the digits. */
  lemma NoMatchAt(s: string, y: nat)
    requires y + 1 < |s|
    requires !IsS(s[y]) || (!IsSep(s[y + 1]) && !IsDigit(s[y + 1]))
    ensures MatchAt(s, y).None?
  {
    if IsS(s[y]) {
      assert DigitRunEnd(s, y + 1) == y + 1;
    }
  }

  lemma TwoDigitsValue(d: string)
    requires |d| == 2 && AllDigits(d)
    ensures DigitsValue(d) == (d[0] as int - '0' as int) * 10 + (d[1] as int - '0' as int)
  {
    assert d[..1][..0] == [];
    assert d[..1][0] == d[0];
    assert DigitsValue(d[..1]) == d[0] as int - '0' as int;
    assert d[..|d| - 1] == d[..1];
  }

  /** In `Show.S02E05.mkv` the pattern matches at index 5 with groups `02` and `05`. */
  lemma ExampleMatchAtFive(s: string)
    requires s == "Show.S02E05.mkv"
    ensures MatchAt(s, 5) == Some((2, 5))
  {
    assert s[5] == 'S' && s[8] == 'E' && s[11] == '.';
    assert AllDigits(s[6..8]) && DigitsValue(s[6..8]) == 2 by {
      assert s[6..8] == "02";
      TwoDigitsValue(s[6..8]);
    }
    assert AllDigits(s[9..11]) && DigitsValue(s[9..11]) == 5 by {
      assert s[9..11] == "05";
      TwoDigitsValue(s[9..11]);
    }
    assert AllSpace(s[8..8]);
    assert Shape(s, 5, 6, 8, 8, 9, 11);
    MatchAtComplete(s, 5, 6, 8, 8, 9, 11);
  }

  /** No match of the pattern starts inside `Show.`. */
  lemma ExampleNoEarlierMatch(s: string)
    requires s == "Show.S02E05.mkv"
    ensures forall y :: 0 <= y < 5 ==> MatchAt(s, y).None?
  {
    assert s[0] == 'S' && s[1] == 'h' && s[2] == 'o' && s[3] == 'w' && s[4] == '.';
    NoMatchAt(s, 0);
    NoMatchAt(s, 1);
    NoMatchAt(s, 2);
    NoMatchAt(s, 3);
    NoMatchAt(s, 4);
  }

  lemma ParseExampleName(s: string)
    requires s == "Show.S02E05.mkv"
    ensures ParseSxxEyy(s) == Some((2, 5))
  {
    ExampleMatchAtFive(s);
    ExampleNoEarlierMatch(s);
    SearchFromFinds(s, 0, 5);
  }

  /** A one-digit field reads as its digit. */
  lemma FieldNumberOfDigit(field: string, d: nat)
    requires d < 10 && field == [DigitChar(d)]
    ensures FieldNumber(field) == Some(d)
  {
    ParseIntOfDigits(field);
  }

  /** Record numbers (0, 0) with `Show.S02E05.mkv` give season 2, episode 5. */
  lemma ExampleFromFilename(seasonField: string, episodeField: string, filename: string)
    requires seasonField == "0" && episodeField == "0" && filename == "Show.S02E05.mkv"
    ensures ChooseSeasonEpisode(seasonField, episodeField, filename) == (2, 5)
  {
    FieldNumberOfDigit(seasonField, 0);
    FieldNumberOfDigit(episodeField, 0);
    ParseExampleName(filename);
  }

  /** Only one non-zero record number is still used as it is, whatever the file name says. */
  lemma ExampleOneNonZeroHint(seasonField: string, episodeField: string, filename: string)
    requires seasonField == "0" && episodeField == "4"
    ensures ChooseSeasonEpisode(seasonField, episodeField, filename) == (0, 4)
  {
    FieldNumberOfDigit(seasonField, 0);
    FieldNumberOfDigit(episodeField, 4);
  }
}
