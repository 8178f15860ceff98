/** The handful of Python `str` operations the dashboard relies on:
    substring search (`in`), `split`, `strip`, `upper`, `capitalize`,
    and the decimal rendering and parsing of integers. */
module Strings {
  import opened Wrappers

  // ---------------------------------------------------------------------
  // Substring search
  // ---------------------------------------------------------------------

  /** `pat` occurs in `s` starting at position `j`. */
  predicate MatchAt(s: string, pat: string, j: nat)
  {
    j + |pat| <= |s| && s[j..j + |pat|] == pat
  }

  /** The first occurrence of `pat` in `s` at or after position `i`. */
  function IndexFrom(s: string, pat: string, i: nat): (r: Option<nat>)
    decreases |s| - i
    ensures r.Some? ==> i <= r.value && MatchAt(s, pat, r.value)
    ensures r.Some? ==> forall j :: i <= j < r.value ==> !MatchAt(s, pat, j)
    ensures r.None? ==> forall j :: i <= j ==> !MatchAt(s, pat, j)
  {
    if i + |pat| > |s| then None
    else if s[i..i + |pat|] == pat then Some(i)
    else IndexFrom(s, pat, i + 1)
  }

  /** Python's `s.find(pat)`, with `None` for -1. */
  function IndexOf(s: string, pat: string): (r: Option<nat>)
  {
    IndexFrom(s, pat, 0)
  }

  /** Python's `pat in s`. */
  predicate Contains(s: string, pat: string)
  {
    IndexOf(s, pat).Some?
  }

  /** `Contains` holds exactly when some position matches. */
  lemma ContainsIff(s: string, pat: string)
    ensures Contains(s, pat) <==> exists j :: MatchAt(s, pat, j)
  {
  }

  /** The first-occurrence index is determined by a match with no earlier match. */
  lemma IndexOfIsFirst(s: string, pat: string, k: nat)
    requires MatchAt(s, pat, k)
    requires forall j: nat :: j < k ==> !MatchAt(s, pat, j)
    ensures IndexOf(s, pat) == Some(k)
  {
  }

  // ---------------------------------------------------------------------
  // Python's str.split(sep)
  // ---------------------------------------------------------------------

  /** Python's `s.split(sep)` for a non-empty separator: cut at every
      non-overlapping occurrence, scanning left to right. */
  function Split(s: string, sep: string): (parts: seq<string>)
    requires |sep| > 0
    decreases |s|
    ensures |parts| >= 1
    ensures IndexOf(s, sep).None? ==> parts == [s]
    ensures IndexOf(s, sep).Some? ==> |parts| >= 2 && parts[0] == s[..IndexOf(s, sep).value]
  {
    match IndexOf(s, sep)
    case None => [s]
    case Some(k) => [s[..k]] + Split(s[k + |sep|..], sep)
  }

  /** The second piece of a split is the first piece of what follows the
      first separator. */
  lemma SplitSecond(s: string, sep: string)
    requires |sep| > 0 && Contains(s, sep)
    ensures var k := IndexOf(s, sep).value;
            Split(s, sep)[1] == Split(s[k + |sep|..], sep)[0]
  {
  }

  /** No piece of a split holds the separator. */
  lemma {:induction false} SplitPiecesFree(s: string, sep: string)
    requires |sep| > 0
    ensures forall n :: 0 <= n < |Split(s, sep)| ==> !Contains(Split(s, sep)[n], sep)
    decreases |s|
  {
    match IndexOf(s, sep)
    case None =>
    case Some(k) =>
      var rest := s[k + |sep|..];
      var parts := Split(s, sep);
      var tail := Split(rest, sep);
      assert parts == [s[..k]] + tail;
      SplitPiecesFree(rest, sep);
      SplitHeadFree(s, sep, k);
      forall n | 0 <= n < |parts|
        ensures !Contains(parts[n], sep)
      {
        if n > 0 {
          assert parts[n] == tail[n - 1];
        }
      }
  }

  /** The text before the first separator holds no separator. */
  lemma SplitHeadFree(s: string, sep: string, k: nat)
    requires |sep| > 0 && IndexOf(s, sep) == Some(k)
    ensures !Contains(s[..k], sep)
  {
    var head := s[..k];
    forall j: nat | MatchAt(head, sep, j)
      ensures false
    {
      assert head[j..j + |sep|] == s[j..j + |sep|];
      assert MatchAt(s, sep, j);
    }
    ContainsIff(head, sep);
  }

  /** Where piece `n` starts in the text the pieces were cut from: after
      every earlier piece and the separator that follows it. */
  function PieceStart(parts: seq<string>, sep: string, n: nat): nat
    requires n <= |parts|
  {
    if n == 0 then 0 else PieceStart(parts, sep, n - 1) + |parts[n - 1]| + |sep|
  }

  /** Position `j` of the text lies inside piece `n`. */
  predicate InPiece(parts: seq<string>, sep: string, n: nat, j: nat)
  {
    n < |parts| && PieceStart(parts, sep, n) <= j < PieceStart(parts, sep, n) + |parts[n]|
  }

  /** Putting a piece in front moves every later piece right by that piece
      and one separator. */
  lemma {:induction false} PieceStartShift(head: string, tail: seq<string>, sep: string, n: nat)
    requires 1 <= n <= |tail| + 1
    ensures PieceStart([head] + tail, sep, n) == |head| + |sep| + PieceStart(tail, sep, n - 1)
  {
    if n > 1 {
      PieceStartShift(head, tail, sep, n - 1);
      assert ([head] + tail)[n - 1] == tail[n - 2];
    }
  }

  /** A match at `j` is a match at `j - d` of the text from `d` on. */
  lemma MatchAtShift(s: string, sep: string, d: nat, j: nat)
    requires d <= j && d <= |s|
    ensures MatchAt(s, sep, j) <==> MatchAt(s[d..], sep, j - d)
  {
    if j + |sep| <= |s| {
      assert s[j..j + |sep|] == s[d..][j - d..j - d + |sep|];
    }
  }

  /** `split` cuts at the leftmost match each time: no match of the
      separator starts inside a piece. With `SplitJoin` this determines the
      pieces, also for a separator such as `/d/` that can overlap itself. */
  lemma {:induction false} SplitCutsLeftmost(s: string, sep: string)
    requires |sep| > 0
    ensures forall n: nat, j: nat :: InPiece(Split(s, sep), sep, n, j) ==> !MatchAt(s, sep, j)
    decreases |s|
  {
    match IndexOf(s, sep)
    case None =>
    case Some(k) =>
      var d := k + |sep|;
      var rest := s[d..];
      var parts := Split(s, sep);
      var tail := Split(rest, sep);
      assert parts == [s[..k]] + tail;
      SplitCutsLeftmost(rest, sep);
      forall n: nat, j: nat | InPiece(parts, sep, n, j)
        ensures !MatchAt(s, sep, j)
      {
        if n > 0 {
          PieceStartShift(s[..k], tail, sep, n);
          assert parts[n] == tail[n - 1];
          assert InPiece(tail, sep, n - 1, j - d);
          MatchAtShift(s, sep, d, j);
        }
      }
  }

  /** Python's `sep.join(parts)`. */
  function Join(parts: seq<string>, sep: string): string
    requires |parts| >= 1
    decreases |parts|
  {
    if |parts| == 1 then parts[0] else parts[0] + sep + Join(parts[1..], sep)
  }

  /** Splitting and joining back with the same separator gives the text
      back: no character is lost or invented by `split`. */
  lemma {:induction false} SplitJoin(s: string, sep: string)
    requires |sep| > 0
    ensures Join(Split(s, sep), sep) == s
    decreases |s|
  {
    match IndexOf(s, sep)
    case None =>
    case Some(k) =>
      var rest := s[k + |sep|..];
      SplitJoin(rest, sep);
      var parts := Split(s, sep);
      assert parts == [s[..k]] + Split(rest, sep);
      assert parts[1..] == Split(rest, sep);
      assert s[k..k + |sep|] == sep;
      assert s == s[..k] + s[k..k + |sep|] + rest;
  }

  // ---------------------------------------------------------------------
  // Python's str.strip(), str.upper(), str.lower(), str.capitalize()
  // ---------------------------------------------------------------------

  /** The code-point ranges Python's `str.isspace` accepts, low to high. */
  const SpaceRanges: seq<(int, int)> :=
    [(0x09, 0x0D), (0x1C, 0x20), (0x85, 0x85), (0xA0, 0xA0), (0x1680, 0x1680),
     (0x2000, 0x200A), (0x2028, 0x2029), (0x202F, 0x202F), (0x205F, 0x205F), (0x3000, 0x3000)]

  /** Code point `n` lies in one of `ranges[k..]`. */
  predicate InRanges(n: int, ranges: seq<(int, int)>, k: nat)
    decreases |ranges| - k
  {
    k < |ranges| && ((ranges[k].0 <= n <= ranges[k].1) || InRanges(n, ranges, k + 1))
  }

  /** Python's `str.isspace` for a single character. */
  predicate IsSpace(c: char)
  {
    InRanges(c as int, SpaceRanges, 0)
  }

  /** Code points below U+0085 lie in none of the ranges from the third on. */
  lemma {:induction false} BelowLaterRanges(n: int, k: nat)
    requires 2 <= k <= |SpaceRanges| && n < 0x85
    ensures !InRanges(n, SpaceRanges, k)
    decreases |SpaceRanges| - k
  {
    if k < |SpaceRanges| {
      BelowLaterRanges(n, k + 1);
    }
  }

  /** Printable ASCII characters other than the space are not whitespace. */
  lemma PrintableNotSpace(c: char)
    requires '!' <= c <= '~'
    ensures !IsSpace(c)
  {
    BelowLaterRanges(c as int, 2);
  }

  /** Code points below U+1680 lie in none of the ranges from the fifth on. */
  lemma {:induction false} BelowOghamRanges(n: int, k: nat)
    requires 4 <= k <= |SpaceRanges| && n < 0x1680
    ensures !InRanges(n, SpaceRanges, k)
    decreases |SpaceRanges| - k
  {
    if k < |SpaceRanges| {
      BelowOghamRanges(n, k + 1);
    }
  }

  /** Letters, of either case, are not whitespace. */
  lemma LetterNotSpace(c: char)
    requires IsLowerLetter(c) || IsUpperLetter(c)
    ensures !IsSpace(c)
  {
    if c <= 'z' {
      PrintableNotSpace(c);
    } else {
      BelowOghamRanges(c as int, 4);
    }
  }

  /** The first position at or after `i` that is not whitespace. */
  function SkipSpaces(s: string, i: nat): (a: nat)
    requires i <= |s|
    decreases |s| - i
    ensures i <= a <= |s|
  {
    if i < |s| && IsSpace(s[i]) then SkipSpaces(s, i + 1) else i
  }

  /** The end of `s[..j]` once trailing whitespace down to `a` is dropped. */
  function TrimEnd(s: string, a: nat, j: nat): (b: nat)
    requires a <= j <= |s|
    decreases j
    ensures a <= b <= j
  {
    if j > a && IsSpace(s[j - 1]) then TrimEnd(s, a, j - 1) else j
  }

  /** Python's `s.strip()` with no argument. */
  function Strip(s: string): string
  {
    var a := SkipSpaces(s, 0);
    s[a..TrimEnd(s, a, |s|)]
  }

  lemma {:induction false} SkipSpacesMeaning(s: string, i: nat)
    requires i <= |s|
    ensures forall j :: i <= j < SkipSpaces(s, i) ==> IsSpace(s[j])
    ensures SkipSpaces(s, i) < |s| ==> !IsSpace(s[SkipSpaces(s, i)])
    decreases |s| - i
  {
    if i < |s| && IsSpace(s[i]) {
      SkipSpacesMeaning(s, i + 1);
    }
  }

  lemma {:induction false} TrimEndMeaning(s: string, a: nat, j: nat)
    requires a <= j <= |s|
    ensures forall k :: TrimEnd(s, a, j) <= k < j ==> IsSpace(s[k])
    ensures TrimEnd(s, a, j) > a ==> !IsSpace(s[TrimEnd(s, a, j) - 1])
    decreases j
  {
    if j > a && IsSpace(s[j - 1]) {
      TrimEndMeaning(s, a, j - 1);
    }
  }

  /** `Strip` removes exactly the leading and trailing whitespace: the result
      is a slice of the input, it neither starts nor ends with whitespace,
      and everything cut away is whitespace. */
  lemma StripMeaning(s: string)
    ensures exists a, b :: 0 <= a <= b <= |s| && Strip(s) == s[a..b]
              && (forall j :: 0 <= j < a ==> IsSpace(s[j]))
              && (forall j :: b <= j < |s| ==> IsSpace(s[j]))
    ensures |Strip(s)| > 0 ==> !IsSpace(Strip(s)[0]) && !IsSpace(Strip(s)[|Strip(s)| - 1])
  {
    var a := SkipSpaces(s, 0);
    var b := TrimEnd(s, a, |s|);
    SkipSpacesMeaning(s, 0);
    TrimEndMeaning(s, a, |s|);
    if a == |s| {
      assert b == a;
    }
    assert Strip(s) == s[a..b];
  }

  /** A text that neither starts nor ends with whitespace is its own strip. */
  lemma StripUnchanged(s: string)
    requires |s| > 0 ==> !IsSpace(s[0]) && !IsSpace(s[|s| - 1])
    ensures Strip(s) == s
  {
    assert SkipSpaces(s, 0) == 0;
    assert TrimEnd(s, 0, |s|) == |s|;
  }

  /** Lower-case letters that upper-case to a single character: ASCII
      `a`-`z` and the Latin-1 letters `à`-`þ` except `÷`. */
  predicate IsLowerLetter(c: char)
  {
    ('a' <= c <= 'z') || ('\U{E0}' <= c <= '\U{FE}' && c != '\U{F7}')
  }

  /** Upper-case counterparts of `IsLowerLetter`. */
  predicate IsUpperLetter(c: char)
  {
    ('A' <= c <= 'Z') || ('\U{C0}' <= c <= '\U{DE}' && c != '\U{D7}')
  }

  function UpperChar(c: char): (u: char)
    ensures IsLowerLetter(c) ==> IsUpperLetter(u)
    ensures !IsLowerLetter(c) ==> u == c
  {
    if IsLowerLetter(c) then (c as int - 32) as char else c
  }

  function LowerChar(c: char): (l: char)
    ensures IsUpperLetter(c) ==> IsLowerLetter(l) && UpperChar(l) == c
    ensures !IsUpperLetter(c) ==> l == c
  {
    if IsUpperLetter(c) then (c as int + 32) as char else c
  }

  /** Python's `s.upper()` (restricted to the letters above). */
  function Upper(s: string): string
  {
    seq(|s|, j requires 0 <= j < |s| => UpperChar(s[j]))
  }

  /** Upper-casing turns each lower-case letter into the upper-case letter
      it is the lower-case form of and leaves every other character alone.
      So it leaves no lower-case letter, doing it twice is doing it once,
      and it turns no character into whitespace or out of it. */
  lemma UpperMeaning(s: string)
    ensures |Upper(s)| == |s|
    ensures forall j :: 0 <= j < |s| && IsLowerLetter(s[j]) ==>
              IsUpperLetter(Upper(s)[j]) && LowerChar(Upper(s)[j]) == s[j]
    ensures forall j :: 0 <= j < |s| && !IsLowerLetter(s[j]) ==> Upper(s)[j] == s[j]
    ensures forall j :: 0 <= j < |s| ==> !IsLowerLetter(Upper(s)[j])
    ensures forall j :: 0 <= j < |s| ==> (IsSpace(Upper(s)[j]) <==> IsSpace(s[j]))
    ensures Upper(Upper(s)) == Upper(s)
  {
    forall j | 0 <= j < |s|
      ensures !IsLowerLetter(Upper(s)[j])
      ensures IsSpace(Upper(s)[j]) <==> IsSpace(s[j])
    {
      UpperCharMeaning(s[j]);
    }
  }

  /** `UpperChar` on one character: see `UpperMeaning`. */
  lemma UpperCharMeaning(c: char)
    ensures !IsLowerLetter(UpperChar(c))
    ensures IsSpace(UpperChar(c)) <==> IsSpace(c)
  {
    if IsLowerLetter(c) {
      LetterNotSpace(c);
      LetterNotSpace(UpperChar(c));
    }
  }

  /** Python's `s.lower()` (restricted to the letters above). */
  function Lower(s: string): string
  {
    seq(|s|, j requires 0 <= j < |s| => LowerChar(s[j]))
  }

  /** Python's `s.capitalize()`: first character upper-cased, the rest lower-cased. */
  function Capitalize(s: string): string
  {
    if |s| == 0 then [] else [UpperChar(s[0])] + Lower(s[1..])
  }

  // ---------------------------------------------------------------------
  // Decimal integers: Python's str(n) and an integer literal parser
  // ---------------------------------------------------------------------

  predicate IsDigit(c: char)
  {
    '0' <= c <= '9'
  }

  predicate AllDigits(s: string)
  {
    forall j :: 0 <= j < |s| ==> IsDigit(s[j])
  }

  function DigitChar(d: nat): (c: char)
    requires d < 10
    ensures IsDigit(c)
  {
    ('0' as int + d) as char
  }

  function DigitValue(c: char): (d: nat)
    requires IsDigit(c)
    ensures d < 10
  {
    c as int - '0' as int
  }

  /** Decimal rendering of a natural number, without leading zeros. */
  function NatToDecimal(n: nat): (s: string)
    decreases n
  {
    if n < 10 then [DigitChar(n)] else NatToDecimal(n / 10) + [DigitChar(n % 10)]
  }

  /** Python's `str(n)` for an integer. */
  function IntToDecimal(n: int): string
  {
    if n < 0 then "-" + NatToDecimal(-n) else NatToDecimal(n)
  }

  /** The value of a string of decimal digits (most significant first). */
  function DigitsValue(s: string): nat
    requires AllDigits(s)
  {
    if |s| == 0 then 0 else DigitsValue(s[..|s| - 1]) * 10 + DigitValue(s[|s| - 1])
  }

  /** An integer literal: an optional sign followed by at least one digit. */
  function ParseInt(s: string): Option<int>
  {
    if |s| > 1 && s[0] == '-' && AllDigits(s[1..]) then Some(0 - DigitsValue(s[1..]) as int)
    else if |s| > 1 && s[0] == '+' && AllDigits(s[1..]) then Some(DigitsValue(s[1..]))
    else if |s| > 0 && AllDigits(s) then Some(DigitsValue(s))
    else None
  }

  lemma {:induction false} NatToDecimalDigits(n: nat)
    ensures |NatToDecimal(n)| > 0 && AllDigits(NatToDecimal(n))
    ensures DigitsValue(NatToDecimal(n)) == n
    decreases n
  {
    if n >= 10 {
      NatToDecimalDigits(n / 10);
      var s := NatToDecimal(n);
      assert s[..|s| - 1] == NatToDecimal(n / 10);
    }
  }

  /** Parsing the decimal rendering of an integer gives the integer back. */
  lemma IntToDecimalRoundTrip(n: int)
    ensures ParseInt(IntToDecimal(n)) == Some(n)
  {
    NatToDecimalDigits(if n < 0 then -n else n);
    if n < 0 {
      assert IntToDecimal(n)[1..] == NatToDecimal(-n);
    }
  }
}
