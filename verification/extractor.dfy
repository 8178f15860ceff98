/** `extrair_dados_pat`: a single top-to-bottom scan of column 0 of the raw
    grid. A "current month" register is set by month-name rows; a row whose
    text contains QUINZENA, once a month is known, looks at most five rows
    further down for the first row whose column 0 is numeric and emits one
    record from it. The scan never skips ahead after a match.

    The scan looks only at column 0 of each row: at its normalised text and
    at its coerced number. `Probe` holds what it learns from them, and the
    scan (`Hits`, which decides WHICH rows are used) runs over one probe per
    row.
    Reading the record's fields out of the frame (`Extract`) is separate,
    because only it touches columns 1 and 4. */
module Extractor {
  import opened Wrappers
  import opened Strings
  import opened Cells

  // ---------------------------------------------------------------------
  // Months and fortnights
  // ---------------------------------------------------------------------

  datatype Month = Agosto | Setembro | Outubro | Novembro | Dezembro

  /** `lista_meses`, in the order the source lists them. */
  const MonthNames: seq<string> := ["AGOSTO", "SETEMBRO", "OUTUBRO", "NOVEMBRO", "DEZEMBRO"]

  /** The upper-case name of a month as it appears in `lista_meses`. */
  function MonthName(m: Month): string
  {
    match m
    case Agosto => "AGOSTO"
    case Setembro => "SETEMBRO"
    case Outubro => "OUTUBRO"
    case Novembro => "NOVEMBRO"
    case Dezembro => "DEZEMBRO"
  }

  /** The months, in the order of `lista_meses`. */
  const Months: seq<Month> := [Agosto, Setembro, Outubro, Novembro, Dezembro]

  /** The linear search of `celula_texto in lista_meses` from position `k`,
      returning the month matched. */
  function ParseMonthFrom(t: string, k: nat): (r: Option<Month>)
    requires k <= |Months|
    decreases |Months| - k
    ensures r.Some? <==> exists j :: k <= j < |Months| && MonthName(Months[j]) == t
    ensures r.Some? ==> MonthName(r.value) == t
  {
    if k == |Months| then None
    else if t == MonthName(Months[k]) then Some(Months[k])
    else ParseMonthFrom(t, k + 1)
  }

  /** `celula_texto in lista_meses`, returning the month matched. */
  function ParseMonth(t: string): (r: Option<Month>)
    ensures r.Some? <==> t in MonthNames
    ensures r.Some? ==> MonthName(r.value) == t
  {
    var r := ParseMonthFrom(t, 0);
    assert forall j :: 0 <= j < |Months| ==> MonthName(Months[j]) == MonthNames[j];
    r
  }

  /** Every month is recognised by its own name and by no other. */
  lemma MonthNameRoundTrip(m: Month, t: string)
    ensures ParseMonth(MonthName(m)) == Some(m)
    ensures ParseMonth(t) == Some(m) <==> t == MonthName(m)
  {
  }

  /** `mes_atual.capitalize()`: the month as shown in the output table. */
  function Display(m: Month): string
  {
    Capitalize(MonthName(m))
  }

  /** The display forms are the ordinary Portuguese month names. */
  lemma DisplayForms(m: Month)
    ensures Display(m) == match m
                          case Agosto => "Agosto"
                          case Setembro => "Setembro"
                          case Outubro => "Outubro"
                          case Novembro => "Novembro"
                          case Dezembro => "Dezembro"
  {
    var u := MonthName(m);
    var d := match m
             case Agosto => "Agosto"
             case Setembro => "Setembro"
             case Outubro => "Outubro"
             case Novembro => "Novembro"
             case Dezembro => "Dezembro";
    assert forall j :: 0 <= j < |u| ==> 'A' <= u[j] <= 'Z';
    assert d[0] == u[0];
    assert forall j :: 1 <= j < |u| ==> d[j] as int == u[j] as int + 32;
    CapitalizeName(u, d);
  }

  /** Capitalising an upper-case ASCII word keeps its first letter and
      lower-cases the rest. */
  lemma CapitalizeName(u: string, d: string)
    requires |u| == |d| > 0 && 'A' <= u[0] <= 'Z' && d[0] == u[0]
    requires forall j :: 1 <= j < |u| ==> 'A' <= u[j] <= 'Z' && d[j] as int == u[j] as int + 32
    ensures Capitalize(u) == d
  {
    LowerWord(u[1..], d[1..]);
    assert Capitalize(u) == [d[0]] + d[1..];
  }

  /** Lower-casing an upper-case ASCII word shifts every letter by 32. */
  lemma LowerWord(w: string, e: string)
    requires |w| == |e|
    requires forall j :: 0 <= j < |w| ==> 'A' <= w[j] <= 'Z' && e[j] as int == w[j] as int + 32
    ensures Lower(w) == e
  {
    forall j | 0 <= j < |w|
      ensures Lower(w)[j] == e[j]
    {
      assert IsUpperLetter(w[j]);
    }
  }

  datatype Fortnight = First | Second

  /** The text that marks a fortnight header row. */
  const QuinzenaMarker: string := "QUINZENA"

  /** The text that marks the first fortnight. */
  const FirstMarker: string := "PRIMEIRA"

  /** The fortnight a header row announces: the first one when it says so,
      the second one otherwise. */
  function FortnightOf(t: string): (q: Fortnight)
    ensures q == First <==> exists j :: MatchAt(t, FirstMarker, j)
  {
    ContainsIff(t, FirstMarker);
    if Contains(t, FirstMarker) then First else Second
  }

  /** `label_q`: `1ª` or `2ª`. */
  function Label(q: Fortnight): string
  {
    match q
    case First => "1\U{AA}"
    case Second => "2\U{AA}"
  }

  /** `label_q` of a header text: `1ª` exactly when PRIMEIRA occurs in it,
      `2ª` otherwise, and the two labels differ. */
  lemma LabelOfHeader(t: string)
    ensures Label(FortnightOf(t)) == (if exists j :: MatchAt(t, FirstMarker, j) then "1\U{AA}" else "2\U{AA}")
    ensures Label(First) != Label(Second)
  {
    assert Label(First)[0] != Label(Second)[0];
  }

  // ---------------------------------------------------------------------
  // The scan of column 0
  // ---------------------------------------------------------------------

  /** How many rows below a header are searched for its numbers. */
  const Lookahead: nat := 5

  /** What the loop learns from column 0 of a row: whether `celula_texto`
      is a month name (and which), whether it contains QUINZENA, which
      fortnight it would announce, and `pd.to_numeric(linha[0], errors='coerce')`. */
  datatype Probe = Probe(month: Option<Month>, header: bool, fortnight: Fortnight, num: Option<int>)

  /** The probe of a cell, read off its normalised text `celula_texto`. */
  function ProbeOf(c: Cell): (p: Probe)
    ensures p.month.Some? <==> Norm(c) in MonthNames
    ensures p.month.Some? ==> Norm(c) == MonthName(p.month.value)
    ensures p.header <==> Contains(Norm(c), QuinzenaMarker)
    ensures p.fortnight == First <==> Contains(Norm(c), FirstMarker)
  {
    var t := Norm(c);
    ContainsIff(t, FirstMarker);
    Probe(ParseMonth(t), Contains(t, QuinzenaMarker), FortnightOf(t), ToNumeric(c))
  }

  /** Row `p` exists and its column-0 value coerces to a number. */
  predicate NumericAt(ps: seq<Probe>, p: nat)
  {
    p < |ps| && ps[p].num.Some?
  }

  /** The month register after reading a row: overwritten by a month
      name, kept otherwise. */
  function Step(cur: Option<Month>, p: Probe): Option<Month>
  {
    if p.month.Some? then p.month else cur
  }

  /** The inner `for offset in range(k, 6)` loop: the first offset whose row
      exists and is numeric. */
  function FindAnchor(ps: seq<Probe>, i: nat, k: nat): (r: Option<nat>)
    requires 1 <= k
    decreases Lookahead + 1 - k
    ensures r.Some? ==> k <= r.value <= Lookahead && NumericAt(ps, i + r.value)
    ensures r.Some? ==> forall p :: i + k <= p < i + r.value ==> !NumericAt(ps, p)
    ensures r.None? ==> forall p :: i + k <= p <= i + Lookahead ==> !NumericAt(ps, p)
  {
    if k > Lookahead then None
    else if NumericAt(ps, i + k) then Some(k)
    else FindAnchor(ps, i, k + 1)
  }

  /** What one header row found: the header's row, the row the numbers come
      from, and the month and fortnight of the record. */
  datatype Hit = Hit(header: nat, data: nat, month: Month, fortnight: Fortnight)

  /** The body of the outer loop at row `i`, given the month register
      already updated for that row. */
  function HitAt(ps: seq<Probe>, i: nat, cur: Option<Month>): seq<Hit>
    requires i < |ps|
  {
    if ps[i].header && cur.Some? then
      match FindAnchor(ps, i, 1)
      case None => []
      case Some(k) => [Hit(i, i + k, cur.value, ps[i].fortnight)]
    else []
  }

  /** The outer loop from row `i` on, with month register `cur`. */
  function HitsFrom(ps: seq<Probe>, i: nat, cur: Option<Month>): seq<Hit>
    requires i <= |ps|
    decreases |ps| - i
  {
    if i == |ps| then []
    else
      var cur' := Step(cur, ps[i]);
      HitAt(ps, i, cur') + HitsFrom(ps, i + 1, cur')
  }

  /** The whole scan: every record the extractor emits, in order. */
  function Hits(ps: seq<Probe>): seq<Hit>
  {
    HitsFrom(ps, 0, None)
  }

  /** The outer loop as it runs: rows `i..` scanned with month register
      `cur`, each row's hits appended to those already in `acc`. */
  function ScanFrom(ps: seq<Probe>, i: nat, cur: Option<Month>, acc: seq<Hit>): seq<Hit>
    requires i <= |ps|
    decreases |ps| - i
  {
    if i == |ps| then acc
    else
      var cur' := Step(cur, ps[i]);
      ScanFrom(ps, i + 1, cur', acc + HitAt(ps, i, cur'))
  }

  /** Appending as the loop goes yields what was already emitted followed
      by the hits of the remaining rows. */
  lemma {:induction false} ScanFromAppends(ps: seq<Probe>, i: nat, cur: Option<Month>, acc: seq<Hit>)
    requires i <= |ps|
    ensures ScanFrom(ps, i, cur, acc) == acc + HitsFrom(ps, i, cur)
    decreases |ps| - i
  {
    if i < |ps| {
      var cur' := Step(cur, ps[i]);
      var here := HitAt(ps, i, cur');
      ScanFromAppends(ps, i + 1, cur', acc + here);
      assert (acc + here) + HitsFrom(ps, i + 1, cur') == acc + (here + HitsFrom(ps, i + 1, cur'));
    } else {
      assert acc + [] == acc;
    }
  }

  /** The loop started on the first row with no month known and nothing
      emitted yields the hits of the scan. */
  lemma ScanIsHits(ps: seq<Probe>)
    ensures ScanFrom(ps, 0, None, []) == Hits(ps)
  {
    ScanFromAppends(ps, 0, None, []);
    assert [] + Hits(ps) == Hits(ps);
  }

  /** A header row whose window holds a numeric row emits exactly one hit. */
  lemma HitAtFound(ps: seq<Probe>, i: nat, cur: Option<Month>, k: nat)
    requires i < |ps| && ps[i].header && cur.Some?
    requires FindAnchor(ps, i, 1) == Some(k)
    ensures HitAt(ps, i, cur) == [Hit(i, i + k, cur.value, ps[i].fortnight)]
  {
  }

  /** Any other row emits nothing. */
  lemma HitAtNone(ps: seq<Probe>, i: nat, cur: Option<Month>)
    requires i < |ps|
    requires !(ps[i].header && cur.Some?) || FindAnchor(ps, i, 1).None?
    ensures HitAt(ps, i, cur) == []
  {
  }

  // ---------------------------------------------------------------------
  // Reference definitions
  // ---------------------------------------------------------------------

  /** Row `j` is a month row. */
  predicate IsMonthRow(ps: seq<Probe>, j: nat)
    requires j < |ps|
  {
    ps[j].month.Some?
  }

  /** The month named by the nearest month row at or above row `i`,
      looking upward. */
  function MonthAt(ps: seq<Probe>, i: nat): Option<Month>
    requires i < |ps|
    decreases i
  {
    if IsMonthRow(ps, i) then ps[i].month
    else if i == 0 then None
    else MonthAt(ps, i - 1)
  }

  /** Row `i` is a header that can emit: it says QUINZENA and some month row
      is at or above it. */
  predicate Qualifies(ps: seq<Probe>, i: nat)
    requires i < |ps|
  {
    ps[i].header && MonthAt(ps, i).Some?
  }

  /** Some row among the five below row `i` is numeric. */
  ghost predicate WindowHasNumeric(ps: seq<Probe>, i: nat)
  {
    exists p :: i < p <= i + Lookahead && NumericAt(ps, p)
  }

  /** Everything a hit should be: a qualifying header, the month and
      fortnight it announces, and the first numeric row of its window. */
  ghost predicate HitOk(ps: seq<Probe>, h: Hit)
  {
    && h.header < h.data <= h.header + Lookahead
    && h.data < |ps|
    && Qualifies(ps, h.header)
    && MonthAt(ps, h.header) == Some(h.month)
    && h.fortnight == ps[h.header].fortnight
    && NumericAt(ps, h.data)
    && forall p :: h.header < p < h.data ==> !NumericAt(ps, p)
  }

  /** Header rows strictly increase along the output. */
  ghost predicate Ordered(hs: seq<Hit>)
  {
    forall a, b :: 0 <= a < b < |hs| ==> hs[a].header < hs[b].header
  }

  /** The register holds the month of the rows already read. */
  ghost predicate CurOk(ps: seq<Probe>, i: nat, cur: Option<Month>)
    requires i <= |ps|
  {
    if i == 0 then cur == None else cur == MonthAt(ps, i - 1)
  }

  /** The number of qualifying header rows at or below row `i`. */
  function CountHeaders(ps: seq<Probe>, i: nat): nat
    requires i <= |ps|
    decreases |ps| - i
  {
    if i == |ps| then 0
    else (if Qualifies(ps, i) then 1 else 0) + CountHeaders(ps, i + 1)
  }

  // ---------------------------------------------------------------------
  // The month register
  // ---------------------------------------------------------------------

  /** `MonthAt` is the month of the LAST month row at or above `i`, and is
      absent exactly when there is none. */
  lemma {:induction false} MonthAtMeaning(ps: seq<Probe>, i: nat)
    requires i < |ps|
    ensures MonthAt(ps, i).None? <==> forall j :: 0 <= j <= i ==> !IsMonthRow(ps, j)
    ensures MonthAt(ps, i).Some? ==>
              exists j :: 0 <= j <= i && ps[j].month == MonthAt(ps, i) &&
                          forall j' :: j < j' <= i ==> !IsMonthRow(ps, j')
    decreases i
  {
    if !IsMonthRow(ps, i) && i > 0 {
      MonthAtMeaning(ps, i - 1);
      if MonthAt(ps, i).Some? {
        var j :| 0 <= j <= i - 1 && ps[j].month == MonthAt(ps, i - 1) &&
                 forall j' :: j < j' <= i - 1 ==> !IsMonthRow(ps, j');
        assert forall j' :: j < j' <= i ==> !IsMonthRow(ps, j');
      }
    }
  }

  /** A month row decides the month of every row below it up to the next
      month row: a later month row overwrites an earlier one. */
  lemma {:induction false} LaterMonthOverrides(ps: seq<Probe>, j: nat, i: nat)
    requires j <= i < |ps|
    requires IsMonthRow(ps, j)
    requires forall j' :: j < j' <= i ==> !IsMonthRow(ps, j')
    ensures MonthAt(ps, i) == ps[j].month
    decreases i
  {
    if i > j {
      LaterMonthOverrides(ps, j, i - 1);
    }
  }

  /** One step of the forward register agrees with the backward reference. */
  lemma StepTracksMonth(ps: seq<Probe>, i: nat, cur: Option<Month>)
    requires i < |ps| && CurOk(ps, i, cur)
    ensures Step(cur, ps[i]) == MonthAt(ps, i)
    ensures CurOk(ps, i + 1, Step(cur, ps[i]))
  {
  }

  // ---------------------------------------------------------------------
  // Soundness, order, completeness and count of the scan
  // ---------------------------------------------------------------------

  lemma {:induction false} HitsFromSound(ps: seq<Probe>, i: nat, cur: Option<Month>)
    requires i <= |ps| && CurOk(ps, i, cur)
    ensures forall n :: 0 <= n < |HitsFrom(ps, i, cur)| ==>
              HitOk(ps, HitsFrom(ps, i, cur)[n]) && i <= HitsFrom(ps, i, cur)[n].header
    ensures Ordered(HitsFrom(ps, i, cur))
    decreases |ps| - i
  {
    if i < |ps| {
      var cur' := Step(cur, ps[i]);
      StepTracksMonth(ps, i, cur);
      HitsFromSound(ps, i + 1, cur');
      var here := HitAt(ps, i, cur');
      var rest := HitsFrom(ps, i + 1, cur');
      assert HitsFrom(ps, i, cur) == here + rest;
      assert |here| <= 1;
      if |here| == 1 {
        var k := FindAnchor(ps, i, 1).value;
        assert here[0] == Hit(i, i + k, cur'.value, ps[i].fortnight);
        assert HitOk(ps, here[0]);
      }
    }
  }

  lemma {:induction false} HitsFromComplete(ps: seq<Probe>, i: nat, cur: Option<Month>, p: nat)
    requires i <= p < |ps| && CurOk(ps, i, cur)
    requires Qualifies(ps, p) && WindowHasNumeric(ps, p)
    ensures exists n :: 0 <= n < |HitsFrom(ps, i, cur)| && HitsFrom(ps, i, cur)[n].header == p
    decreases |ps| - i
  {
    var cur' := Step(cur, ps[i]);
    StepTracksMonth(ps, i, cur);
    var here := HitAt(ps, i, cur');
    var rest := HitsFrom(ps, i + 1, cur');
    assert HitsFrom(ps, i, cur) == here + rest;
    if p == i {
      var q :| i < q <= i + Lookahead && NumericAt(ps, q);
      assert FindAnchor(ps, i, 1).Some?;
      assert (here + rest)[0] == here[0];
    } else {
      HitsFromComplete(ps, i + 1, cur', p);
      var n :| 0 <= n < |rest| && rest[n].header == p;
      assert (here + rest)[|here| + n] == rest[n];
    }
  }

  lemma {:induction false} HitsFromCount(ps: seq<Probe>, i: nat, cur: Option<Month>)
    requires i <= |ps| && CurOk(ps, i, cur)
    ensures |HitsFrom(ps, i, cur)| <= CountHeaders(ps, i)
    decreases |ps| - i
  {
    if i < |ps| {
      StepTracksMonth(ps, i, cur);
      HitsFromCount(ps, i + 1, Step(cur, ps[i]));
    }
  }

  /** The scan emits exactly the qualifying headers whose window holds a
      numeric row, in grid order, each from the first numeric row of its
      window, with the month of the last month row above it. */
  lemma HitsSpec(ps: seq<Probe>)
    ensures forall n :: 0 <= n < |Hits(ps)| ==> HitOk(ps, Hits(ps)[n])
    ensures Ordered(Hits(ps))
    ensures forall p :: 0 <= p < |ps| && Qualifies(ps, p) && WindowHasNumeric(ps, p) ==>
              exists n :: 0 <= n < |Hits(ps)| && Hits(ps)[n].header == p
    ensures |Hits(ps)| <= CountHeaders(ps, 0)
  {
    HitsFromSound(ps, 0, None);
    HitsFromCount(ps, 0, None);
    forall p | 0 <= p < |ps| && Qualifies(ps, p) && WindowHasNumeric(ps, p)
      ensures exists n :: 0 <= n < |Hits(ps)| && Hits(ps)[n].header == p
    {
      HitsFromComplete(ps, 0, None, p);
      assert Hits(ps) == HitsFrom(ps, 0, None);
    }
  }

  /** A header with no numeric row in its window emits nothing. */
  lemma EmptyWindowEmitsNothing(ps: seq<Probe>, i: nat)
    requires !WindowHasNumeric(ps, i)
    ensures forall n :: 0 <= n < |Hits(ps)| ==> Hits(ps)[n].header != i
  {
    HitsSpec(ps);
  }

  /** A header with no month row at or above it emits nothing. */
  lemma HeaderBeforeMonthEmitsNothing(ps: seq<Probe>, i: nat)
    requires i < |ps|
    requires forall j :: 0 <= j <= i ==> !IsMonthRow(ps, j)
    ensures forall n :: 0 <= n < |Hits(ps)| ==> Hits(ps)[n].header != i
  {
    HitsSpec(ps);
    MonthAtMeaning(ps, i);
  }

  /** A grid without any month row yields no record at all. */
  lemma NoMonthRowNoHits(ps: seq<Probe>)
    requires forall j :: 0 <= j < |ps| ==> !IsMonthRow(ps, j)
    ensures Hits(ps) == []
  {
    HitsSpec(ps);
    if |Hits(ps)| > 0 {
      var h := Hits(ps)[0];
      MonthAtMeaning(ps, h.header);
      assert false;
    }
  }
}
