/** The untyped cells of the raw spreadsheet grid and the two ways the
    extractor looks at them: `str(x).strip().upper()` and
    `pd.to_numeric(x, errors='coerce')`. */
module Cells {
  import opened Wrappers
  import opened Strings

  /** A cell of the frame `pd.read_csv(..., header=None)` returns: a number,
      a piece of text, or a missing value (NaN). */
  datatype Cell = Num(n: int) | Text(s: string) | Empty

  /** Python's `str(x)` of a cell; a missing value prints as `nan`. */
  function Str(c: Cell): string
  {
    match c
    case Num(n) => IntToDecimal(n)
    case Text(s) => s
    case Empty => "nan"
  }

  /** `str(x).strip().upper()`: the normalised text of a cell. */
  function Norm(c: Cell): string
  {
    Upper(Strip(Str(c)))
  }

  /** The normalised text is the upper-cased form of a slice of `str(x)`
      that drops only whitespace at either end; it holds no lower-case
      letter and neither starts nor ends with whitespace. */
  lemma NormMeaning(c: Cell)
    ensures exists a, b :: 0 <= a <= b <= |Str(c)| && Norm(c) == Upper(Str(c)[a..b])
              && (forall j :: 0 <= j < a ==> IsSpace(Str(c)[j]))
              && (forall j :: b <= j < |Str(c)| ==> IsSpace(Str(c)[j]))
    ensures forall j :: 0 <= j < |Norm(c)| ==> !IsLowerLetter(Norm(c)[j])
    ensures |Norm(c)| > 0 ==> !IsSpace(Norm(c)[0]) && !IsSpace(Norm(c)[|Norm(c)| - 1])
  {
    var s := Str(c);
    var t := Strip(s);
    StripMeaning(s);
    forall j | 0 <= j < |t|
      ensures !IsLowerLetter(Norm(c)[j])
    {
      UpperCharMeaning(t[j]);
    }
    if |t| > 0 {
      UpperCharMeaning(t[0]);
      UpperCharMeaning(t[|t| - 1]);
    }
  }

  /** `pd.to_numeric(x, errors='coerce')`, with `None` for NaN. */
  function ToNumeric(c: Cell): Option<int>
  {
    match c
    case Num(n) => Some(n)
    case Text(s) => ParseInt(s)
    case Empty => None
  }

  /** A number written out by `str` and read back by `to_numeric` is unchanged. */
  lemma StrThenToNumeric(n: int)
    ensures ToNumeric(Text(Str(Num(n)))) == Some(n)
  {
    IntToDecimalRoundTrip(n);
  }
}
