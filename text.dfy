/** Character classes and number conversions as Python's `str` methods and `int()` see them:
    `str.isspace`, `strip`, `rstrip(chars)`, decimal digits, `int(s)` and `f"{n:02d}"`. */
module Text {
  import opened Wrappers

  /** `str.isspace()` (also what `\s` matches in a `str` regular expression). */
  predicate IsSpace(c: char) {
    c == ' ' || '\t' <= c <= '\r' || '\U{1C}' <= c <= '\U{1F}' || c == '\U{85}' || c == '\U{A0}'
    || c == '\U{1680}' || '\U{2000}' <= c <= '\U{200A}' || c == '\U{2028}' || c == '\U{2029}'
    || c == '\U{202F}' || c == '\U{205F}' || c == '\U{3000}'
  }

  predicate IsDotOrSpace(c: char) {
    c == '.' || c == ' '
  }

  predicate AllSpace(s: string) {
    forall i :: 0 <= i < |s| ==> IsSpace(s[i])
  }

  /** `s.lstrip()`. */
  function LStrip(s: string): (r: string)
    ensures |r| <= |s|
    ensures r == [] || !IsSpace(r[0])
  {
    if s != [] && IsSpace(s[0]) then LStrip(s[1..]) else s
  }

  /** `s.rstrip()`. */
  function RStrip(s: string): (r: string)
    ensures |r| <= |s|
    ensures r == [] || !IsSpace(r[|r| - 1])
  {
    if s != [] && IsSpace(s[|s| - 1]) then RStrip(s[..|s| - 1]) else s
  }

  /** `s.rstrip('. ')`. */
  function RStripDotSpace(s: string): (r: string)
    ensures |r| <= |s|
    ensures r == [] || !IsDotOrSpace(r[|r| - 1])
  {
    if s != [] && IsDotOrSpace(s[|s| - 1]) then RStripDotSpace(s[..|s| - 1]) else s
  }

  /** `lstrip()` keeps a suffix of its input. */
  lemma {:induction false} LStripIsSuffix(s: string)
    ensures LStrip(s) == s[|s| - |LStrip(s)|..]
    decreases |s|
  {
    if s != [] && IsSpace(s[0]) {
      LStripIsSuffix(s[1..]);
    }
  }

  /** `rstrip()` keeps a prefix of its input. */
  lemma {:induction false} RStripIsPrefix(s: string)
    ensures RStrip(s) == s[..|RStrip(s)|]
    decreases |s|
  {
    if s != [] && IsSpace(s[|s| - 1]) {
      RStripIsPrefix(s[..|s| - 1]);
    }
  }

  /** `rstrip('. ')` keeps a prefix of its input. */
  lemma {:induction false} RStripDotSpaceIsPrefix(s: string)
    ensures RStripDotSpace(s) == s[..|RStripDotSpace(s)|]
    decreases |s|
  {
    if s != [] && IsDotOrSpace(s[|s| - 1]) {
      RStripDotSpaceIsPrefix(s[..|s| - 1]);
    }
  }

  /** `lstrip()` removes whitespace only. */
  lemma {:induction false} LStripDropsSpace(s: string)
    ensures AllSpace(s[..|s| - |LStrip(s)|])
    decreases |s|
  {
    if s != [] && IsSpace(s[0]) {
      var r := LStrip(s[1..]);
      LStripDropsSpace(s[1..]);
      assert s[..|s| - |r|] == [s[0]] + s[1..][..|s| - 1 - |r|];
    }
  }

  /** `rstrip()` removes whitespace only. */
  lemma {:induction false} RStripDropsSpace(s: string)
    ensures AllSpace(s[|RStrip(s)|..])
    decreases |s|
  {
    if s != [] && IsSpace(s[|s| - 1]) {
      var r := RStrip(s[..|s| - 1]);
      RStripDropsSpace(s[..|s| - 1]);
      assert s[|r|..] == s[..|s| - 1][|r|..] + [s[|s| - 1]];
    }
  }

  /** `rstrip('. ')` removes dots and spaces only. */
  lemma {:induction false} RStripDotSpaceDrops(s: string)
    ensures forall k :: |RStripDotSpace(s)| <= k < |s| ==> IsDotOrSpace(s[k])
    decreases |s|
  {
    if s != [] && IsDotOrSpace(s[|s| - 1]) {
      RStripDotSpaceDrops(s[..|s| - 1]);
    }
  }

  /** `s.strip()`. */
  function Strip(s: string): (r: string)
    ensures Stripped(r)
  {
    var t := LStrip(RStrip(s));
    LStripIsSuffix(RStrip(s));
    assert t != [] ==> t[|t| - 1] == RStrip(s)[|RStrip(s)| - 1];
    t
  }

  predicate Stripped(s: string) {
    s == [] || (!IsSpace(s[0]) && !IsSpace(s[|s| - 1]))
  }

  /** `strip()` returns the piece of its input between the leading and the trailing
      whitespace. */
  lemma StripIsSlice(s: string)
    ensures |Strip(s)| <= |RStrip(s)| <= |s|
    ensures Strip(s) == s[|RStrip(s)| - |Strip(s)|..|RStrip(s)|]
  {
    var r := RStrip(s);
    var t := LStrip(r);
    RStripIsPrefix(s);
    LStripIsSuffix(r);
  }

  /** A suffix `t` of a prefix `r` of `s`, each cut off at whitespace, is a slice of `s`
      after a whitespace prefix. */
  lemma PieceBetween(s: string, r: string, t: string)
    requires |r| <= |s| && r == s[..|r|]
    requires |t| <= |r| && t == r[|r| - |t|..] && AllSpace(r[..|r| - |t|])
    ensures t == s[|r| - |t|..|r|] && AllSpace(s[..|r| - |t|])
  {
    assert s[..|r| - |t|] == r[..|r| - |t|];
  }

  /** `strip()` keeps the piece of its input between a whitespace prefix and a whitespace
      suffix, and that piece neither starts nor ends with whitespace; these two facts
      determine the result. */
  lemma StripSpec(s: string)
    ensures Stripped(Strip(s))
    ensures var b := |RStrip(s)|; var a := b - |Strip(s)|;
      && 0 <= a <= b <= |s|
      && Strip(s) == s[a..b] && AllSpace(s[..a]) && AllSpace(s[b..])
  {
    var r := RStrip(s);
    var t := LStrip(r);
    RStripIsPrefix(s);
    LStripIsSuffix(r);
    RStripDropsSpace(s);
    LStripDropsSpace(r);
    PieceBetween(s, r, t);
    if t != [] {
      assert t[|t| - 1] == r[|r| - 1];
    }
  }

  /** Stripping a string that does not start with whitespace only trims its end. */
  lemma StripOfNonSpaceStart(s: string)
    requires s == [] || !IsSpace(s[0])
    ensures Strip(s) == RStrip(s)
  {
    RStripIsPrefix(s);
  }

  /** `strip()` only removes characters. */
  lemma StripKeepsChars(s: string)
    ensures |Strip(s)| <= |s|
    ensures forall c :: c in Strip(s) ==> c in s
  {
    StripIsSlice(s);
    var t := Strip(s);
    var b := |RStrip(s)|;
    var a := b - |t|;
    assert s == s[..a] + t + s[b..];
  }

  /** `strip()` changes nothing that is already stripped. */
  lemma StripOfStripped(s: string)
    requires Stripped(s)
    ensures Strip(s) == s
  {
  }

  // ---------------------------------------------------------------------------
  // Digits and integers
  // ---------------------------------------------------------------------------

  predicate IsDigit(c: char) {
    '0' <= c <= '9'
  }

  predicate AllDigits(s: string) {
    forall i :: 0 <= i < |s| ==> IsDigit(s[i])
  }

  function DigitChar(d: nat): char
    requires d < 10
  {
    ('0' as int + d) as char
  }

  /** The value of a string of decimal digits (leading zeros allowed, as in `int()`). */
  function DigitsValue(s: string): nat
    requires AllDigits(s)
  {
    if s == [] then 0
    else DigitsValue(s[..|s| - 1]) * 10 + (s[|s| - 1] as int - '0' as int)
  }

  /** `str(n)` for a natural number. */
  function NatToString(n: nat): (r: string)
    ensures r != [] && AllDigits(r)
  {
    if n < 10 then [DigitChar(n)] else NatToString(n / 10) + [DigitChar(n % 10)]
  }

  /** `str(n)`. */
  function IntToString(n: int): string {
    if n < 0 then "-" + NatToString(-n) else NatToString(n)
  }

  /** `f"{n:02d}"`: zero-padded to width two; wider numbers and negatives unpadded. */
  function Pad2(n: int): string {
    if 0 <= n < 10 then "0" + NatToString(n) else IntToString(n)
  }

  predicate DigitsOrUnderscores(b: string) {
    forall i :: 0 <= i < |b| ==> IsDigit(b[i]) || b[i] == '_'
  }

  /** The digit body `int()` accepts: digits, with single underscores between digits. */
  predicate WellFormedDigits(b: string) {
    && b != []
    && DigitsOrUnderscores(b)
    && IsDigit(b[0])
    && IsDigit(b[|b| - 1])
    && forall i, j :: 0 <= i < |b| && i < j < |b| && j == i + 1 && b[i] == '_' ==> IsDigit(b[j])
  }

  function RemoveUnderscores(b: string): (r: string)
    requires DigitsOrUnderscores(b)
    ensures AllDigits(r)
  {
    if b == [] then []
    else if b[|b| - 1] == '_' then RemoveUnderscores(b[..|b| - 1])
    else RemoveUnderscores(b[..|b| - 1]) + [b[|b| - 1]]
  }

  /** `int()` once the surrounding whitespace is gone: an optional sign, then the digits. */
  function ParseStripped(t: string): (r: Option<int>)
    ensures r.Some? ==> t != []
  {
    if t == [] then None
    else
      var body := if t[0] == '-' || t[0] == '+' then t[1..] else t;
      if !WellFormedDigits(body) then None
      else
        var v: int := DigitsValue(RemoveUnderscores(body));
        Some(if t[0] == '-' then -v else v)
  }

  /** Python's `int(s)` on a string: surrounding whitespace, an optional sign, then decimal
      digits with optional single underscores between them; None where `int` raises
      `ValueError`. */
  function ParseInt(s: string): (r: Option<int>)
    ensures r.Some? ==> Strip(s) != []
  {
    ParseStripped(Strip(s))
  }

  // ---------------------------------------------------------------------------
  // Round trips
  // ---------------------------------------------------------------------------

  lemma {:induction false} DigitsValueOfNatToString(n: nat)
    ensures DigitsValue(NatToString(n)) == n
  {
    if n >= 10 {
      var s := NatToString(n);
      assert s[..|s| - 1] == NatToString(n / 10);
      DigitsValueOfNatToString(n / 10);
    }
  }

  lemma {:induction false} RemoveUnderscoresOfDigits(s: string)
    requires AllDigits(s)
    ensures RemoveUnderscores(s) == s
  {
    if s != [] {
      RemoveUnderscoresOfDigits(s[..|s| - 1]);
    }
  }

  lemma DigitsParse(s: string)
    requires AllDigits(s) && s != []
    ensures WellFormedDigits(s) && DigitsValue(RemoveUnderscores(s)) == DigitsValue(s)
  {
    RemoveUnderscoresOfDigits(s);
  }

  lemma {:induction false} DigitsValueLeadingZero(s: string)
    requires AllDigits(s)
    ensures AllDigits("0" + s) && DigitsValue("0" + s) == DigitsValue(s)
    decreases |s|
  {
    if s != [] {
      var z := "0" + s;
      assert z[..|z| - 1] == "0" + s[..|s| - 1];
      DigitsValueLeadingZero(s[..|s| - 1]);
    }
  }

  /** `int()` of an unsigned digit string. */
  lemma ParseIntOfDigits(s: string)
    requires AllDigits(s) && s != []
    ensures ParseInt(s) == Some(DigitsValue(s) as int)
  {
    assert IsDigit(s[0]) && IsDigit(s[|s| - 1]);
    StripOfStripped(s);
    DigitsParse(s);
    assert ParseStripped(s) == Some(DigitsValue(s) as int);
  }

  lemma StripOfNegatedDigits(s: string)
    requires AllDigits(s) && s != []
    ensures Strip("-" + s) == "-" + s
  {
    var t := "-" + s;
    assert t[|t| - 1] == s[|s| - 1] && IsDigit(s[|s| - 1]);
    StripOfStripped(t);
  }

  lemma ParseStrippedOfNegatedDigits(s: string)
    requires AllDigits(s) && s != []
    ensures ParseStripped("-" + s) == Some(-(DigitsValue(s) as int))
  {
    DigitsParse(s);
  }

  /** `int()` of a digit string after a minus sign. */
  lemma ParseIntOfNegatedDigits(s: string)
    requires AllDigits(s) && s != []
    ensures ParseInt("-" + s) == Some(-(DigitsValue(s) as int))
  {
    StripOfNegatedDigits(s);
    ParseStrippedOfNegatedDigits(s);
  }

  /** Python's `int()` reads back every number `str()` writes. */
  lemma ParseIntOfIntToString(n: int)
    ensures ParseInt(IntToString(n)) == Some(n)
  {
    var t := IntToString(n);
    if n < 0 {
      var m: nat := -n;
      var s := NatToString(m);
      assert t == "-" + s;
      DigitsValueOfNatToString(m);
      ParseIntOfNegatedDigits(s);
      assert ParseInt(t) == Some(n);
    } else {
      var s := NatToString(n);
      assert t == s;
      DigitsValueOfNatToString(n);
      ParseIntOfDigits(s);
    }
  }

  /** The zero-padded `{n:02d}` field also reads back as `n`, so the season folder name
      determines the season number. */
  lemma ParseIntOfPad2(n: int)
    ensures ParseInt(Pad2(n)) == Some(n)
  {
    if 0 <= n < 10 {
      DigitsValueOfNatToString(n);
      DigitsValueLeadingZero(NatToString(n));
      ParseIntOfDigits(Pad2(n));
    } else {
      ParseIntOfIntToString(n);
    }
  }

  lemma Pad2Injective(a: int, b: int)
    requires Pad2(a) == Pad2(b)
    ensures a == b
  {
    ParseIntOfPad2(a);
    ParseIntOfPad2(b);
  }

  /** The padded field is never empty, never shorter than two characters and holds no
      path separator. */
  lemma Pad2Shape(n: int)
    ensures |Pad2(n)| >= 2
    ensures forall i :: 0 <= i < |Pad2(n)| ==> Pad2(n)[i] != '/' && Pad2(n)[i] != 'E'
  {
    var s := Pad2(n);
    if n >= 10 {
      assert NatToString(n) == NatToString(n / 10) + [DigitChar(n % 10)];
    }
  }
}
