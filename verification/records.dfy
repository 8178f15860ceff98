/** The output side of `extrair_dados_pat`: the raw frame, the records it
    yields, and the error raised when the frame lacks a column the loop
    indexes. `Extract` is the function; `ExtrairDadosPat` is the same
    computation written as the source's nested loops. */
module Records {
  import opened Wrappers
  import opened Strings
  import opened Cells
  import opened Extractor

  /** The frame `pd.read_csv(..., header=None)` returns: rows of cells, all
      of the same width (missing trailing fields are NaN). */
  datatype Frame = Frame(width: nat, rows: seq<seq<Cell>>)
  {
    predicate Valid()
    {
      forall i :: 0 <= i < |rows| ==> |rows[i]| == width
    }
  }

  /** One output row: `Mês`, `Quinzena`, `Vagas`, `PCD`, `Contratados`.
      `Vagas` is never missing, the other two may be. */
  datatype Record = Record(mes: string, quinzena: string, vagas: int,
                           pcd: Option<int>, contratados: Option<int>)

  /** The exception that escapes the extractor: `iloc[i, 0]` on a frame
      with no column, or `linha_futura[1]` / `linha_futura[4]` on a frame
      narrower than that. */
  datatype ExtractError = ColumnMissing(column: nat)

  /** The column of PCD. */
  const PcdColumn: nat := 1

  /** The column of Contratados. */
  const ContratadosColumn: nat := 4

  /** `g` applied to every element of `s`, in order. The recursion goes
      through `MapCons`, so unfolding `Map` once does not yet apply `g`. */
  function Map<A, B>(g: A -> B, s: seq<A>): (r: seq<B>)
    ensures |r| == |s|
    decreases |s|, 1
  {
    if |s| == 0 then [] else MapCons(g, s)
  }

  /** `Map` of a non-empty sequence: `g` of its head, then the rest. */
  function MapCons<A, B>(g: A -> B, s: seq<A>): (r: seq<B>)
    requires |s| > 0
    ensures |r| == |s|
    decreases |s|, 0
  {
    [g(s[0])] + Map(g, s[1..])
  }

  /** Element `j` of a `Map` is `g` of element `j`. */
  lemma {:induction false} MapAt<A, B>(g: A -> B, s: seq<A>, j: nat)
    requires j < |s|
    ensures Map(g, s)[j] == g(s[j])
    decreases |s|
  {
    assert Map(g, s) == MapCons(g, s);
    if j > 0 {
      MapAt(g, s[1..], j - 1);
    }
  }

  /** Column 0 of the frame, top to bottom. */
  function Column0(f: Frame): (col: seq<Cell>)
    requires f.Valid() && f.width >= 1
    ensures |col| == |f.rows|
  {
    seq(|f.rows|, j requires 0 <= j < |f.rows| => f.rows[j][0])
  }

  /** The probes of column 0, one per row. */
  function Probes(f: Frame): (ps: seq<Probe>)
    requires f.Valid() && f.width >= 1
    ensures |ps| == |f.rows|
  {
    Map(ProbeOf, Column0(f))
  }

  /** The probe of row `j`, field by field, in terms of the normalised text
      of its column 0. */
  lemma ProbeAt(f: Frame, j: nat)
    requires f.Valid() && f.width >= 1 && j < |f.rows|
    ensures var c := f.rows[j][0];
            && Probes(f)[j].month == ParseMonth(Norm(c))
            && Probes(f)[j].header == Contains(Norm(c), QuinzenaMarker)
            && Probes(f)[j].fortnight == FortnightOf(Norm(c))
            && Probes(f)[j].num == ToNumeric(c)
  {
    MapAt(ProbeOf, Column0(f), j);
  }

  /** The number of row `j`'s probe. */
  lemma ProbeNumAt(f: Frame, j: nat)
    requires f.Valid() && f.width >= 1 && j < |f.rows|
    ensures Probes(f)[j].num == ToNumeric(f.rows[j][0])
  {
    MapAt(ProbeOf, Column0(f), j);
  }

  /** The numbers of all probes at once. */
  lemma ProbeNums(f: Frame)
    requires f.Valid() && f.width >= 1
    ensures forall j :: 0 <= j < |f.rows| ==> Probes(f)[j].num == ToNumeric(f.rows[j][0])
  {
    forall j | 0 <= j < |f.rows|
      ensures Probes(f)[j].num == ToNumeric(f.rows[j][0])
    {
      ProbeNumAt(f, j);
    }
  }

  /** The dictionary appended for a hit. */
  function BuildRecord(f: Frame, h: Hit): Record
    requires f.Valid() && f.width > ContratadosColumn
    requires h.data < |f.rows| && ToNumeric(f.rows[h.data][0]).Some?
  {
    var row := f.rows[h.data];
    Record(Display(h.month), Label(h.fortnight), ToNumeric(row[0]).value,
           ToNumeric(row[PcdColumn]), ToNumeric(row[ContratadosColumn]))
  }

  /** The first column a record reads that a frame of this width lacks:
      the dictionary literal reads column 1 before column 4. */
  function FirstMissing(width: nat): nat
  {
    if width <= PcdColumn then PcdColumn else ContratadosColumn
  }

  /** `extrair_dados_pat(df_raw)`. */
  function Extract(f: Frame): Result<seq<Record>, ExtractError>
    requires f.Valid()
  {
    if |f.rows| == 0 then Success([])
    else if f.width == 0 then Failure(ColumnMissing(0))
    else
      var ps := Probes(f);
      var hs := Hits(ps);
      if |hs| == 0 then Success([])
      else if f.width <= ContratadosColumn then Failure(ColumnMissing(FirstMissing(f.width)))
      else
        HitsSpec(ps);
        ProbeNums(f);
        Success(seq(|hs|, n requires 0 <= n < |hs| => BuildRecord(f, hs[n])))
  }

  /** Record `r` holds what the source reads for hit `h`: the month shown
      capitalised, `1ª`/`2ª`, and columns 0, 1 and 4 of the data row. */
  ghost predicate RecordOf(f: Frame, h: Hit, r: Record)
    requires f.Valid()
  {
    && h.data < |f.rows| && f.width >= 1
    && r.mes == Display(h.month)
    && r.quinzena == (if h.fortnight == First then "1\U{AA}" else "2\U{AA}")
    && Some(r.vagas) == ToNumeric(f.rows[h.data][0])
    && (f.width > ContratadosColumn ==>
          r.pcd == ToNumeric(f.rows[h.data][PcdColumn]) &&
          r.contratados == ToNumeric(f.rows[h.data][ContratadosColumn]))
  }

  /** When extraction fails, and what it yields when it does not: one
      record per hit of the scan, in order, each read from the hit's data
      row. */
  lemma ExtractMeaning(f: Frame)
    requires f.Valid()
    ensures Extract(f).Failure? <==>
              |f.rows| > 0 && (f.width == 0 || (f.width <= ContratadosColumn && |Hits(Probes(f))| > 0))
    ensures Extract(f).Failure? ==>
              Extract(f).error.column == (if f.width == 0 then 0 else FirstMissing(f.width))
    ensures |f.rows| == 0 ==> Extract(f) == Success([])
    ensures Extract(f).Success? && |f.rows| > 0 ==>
              var ps := Probes(f);
              && |Extract(f).value| == |Hits(ps)|
              && forall n :: 0 <= n < |Hits(ps)| ==>
                   HitOk(ps, Hits(ps)[n]) && RecordOf(f, Hits(ps)[n], Extract(f).value[n])
  {
    if |f.rows| > 0 && f.width > 0 {
      var ps := Probes(f);
      var hs := Hits(ps);
      HitsSpec(ps);
      if |hs| > 0 && f.width > ContratadosColumn {
        var rs := Extract(f).value;
        forall n | 0 <= n < |hs|
          ensures HitOk(ps, hs[n]) && RecordOf(f, hs[n], rs[n])
        {
          ProbeNumAt(f, hs[n].data);
          assert rs[n] == BuildRecord(f, hs[n]);
          BuildRecordOf(f, hs[n]);
        }
      }
    }
  }

  /** A record built for a hit reads what `RecordOf` says. */
  lemma BuildRecordOf(f: Frame, h: Hit)
    requires f.Valid() && f.width > ContratadosColumn
    requires h.data < |f.rows| && ToNumeric(f.rows[h.data][0]).Some?
    ensures RecordOf(f, h, BuildRecord(f, h))
  {
  }

  /** Record `r` is the dictionary the source appends for hit `h`. */
  ghost predicate Built(f: Frame, h: Hit, r: Record)
    requires f.Valid()
  {
    && f.width > ContratadosColumn
    && h.data < |f.rows|
    && ToNumeric(f.rows[h.data][0]).Some?
    && r == BuildRecord(f, h)
  }

  /** Records `rs` are the dictionaries appended for hits `hs`, in order. */
  ghost predicate BuiltFrom(f: Frame, hs: seq<Hit>, rs: seq<Record>)
    requires f.Valid()
  {
    |rs| == |hs| && forall n :: 0 <= n < |hs| ==> Built(f, hs[n], rs[n])
  }

  lemma BuiltFromAppend(f: Frame, hs: seq<Hit>, rs: seq<Record>, h: Hit, r: Record)
    requires f.Valid() && BuiltFrom(f, hs, rs) && Built(f, h, r)
    ensures BuiltFrom(f, hs + [h], rs + [r])
  {
    assert forall n :: 0 <= n < |hs| ==> (hs + [h])[n] == hs[n] && (rs + [r])[n] == rs[n];
  }

  /** `Extract` succeeds with the records built from the scan's hits, one
      by one, whenever the frame is wide enough for them. */
  lemma ExtractOfHits(f: Frame, dados: seq<Record>)
    requires f.Valid() && |f.rows| > 0 && f.width >= 1
    requires BuiltFrom(f, Hits(Probes(f)), dados)
    ensures Extract(f) == Success(dados)
  {
    var hs := Hits(Probes(f));
    if |hs| > 0 {
      assert Built(f, hs[0], dados[0]);
      HitsSpec(Probes(f));
      var built := seq(|hs|, n requires 0 <= n < |hs| => BuildRecord(f, hs[n]));
      assert Extract(f) == Success(built);
      assert forall n :: 0 <= n < |hs| ==> built[n] == dados[n] by {
        forall n | 0 <= n < |hs| ensures built[n] == dados[n] {
          assert Built(f, hs[n], dados[n]);
        }
      }
      assert built == dados;
    }
  }

  /** What the loop reads from column 0 of row `i`: `texto`, normalised,
      then the month it names, whether it is a fortnight header, and which
      fortnight. */
  method ReadRow(f: Frame, i: nat) returns (m: Option<Month>, header: bool, q: Fortnight)
    requires f.Valid() && f.width >= 1 && i < |f.rows|
    ensures m == Probes(f)[i].month
    ensures header == Probes(f)[i].header
    ensures q == Probes(f)[i].fortnight
  {
    var texto := Norm(f.rows[i][0]);
    m := ParseMonth(texto);
    header := Contains(texto, QuinzenaMarker);
    q := FortnightOf(texto);
    ProbeAt(f, i);
  }

  /** Probes `ps` carry, row by row, the number column 0 of the frame
      coerces to. */
  ghost predicate NumbersOf(f: Frame, ps: seq<Probe>)
    requires f.Valid() && f.width >= 1
  {
    |ps| == |f.rows| && forall j :: 0 <= j < |ps| ==> ps[j].num == ToNumeric(f.rows[j][0])
  }

  /** The inner `for offset in range(1, 6)` loop of the source, which
      breaks at the first row below `i` whose column 0 is numeric. */
  method FindDataRow(f: Frame, i: nat, ghost ps: seq<Probe>) returns (found: Option<nat>)
    requires f.Valid() && f.width >= 1 && i < |f.rows| && NumbersOf(f, ps)
    ensures found == FindAnchor(ps, i, 1)
  {
    var offset := 1;
    while offset <= Lookahead
      invariant 1 <= offset <= Lookahead + 1
      invariant FindAnchor(ps, i, offset) == FindAnchor(ps, i, 1)
    {
      if i + offset < |f.rows| {
        var vagas := ToNumeric(f.rows[i + offset][0]);
        if vagas.Some? {
          return Some(offset);
        }
      }
      offset := offset + 1;
    }
    return None;
  }

  /** One pass of the outer loop's body over row `i`: update the month
      register from the row's text and, under a fortnight header with a
      month known, look below it for the data row. */
  method VisitRow(f: Frame, i: nat, mes: Option<Month>, ghost ps: seq<Probe>)
    returns (mes': Option<Month>, hit: Option<Hit>)
    requires f.Valid() && f.width >= 1 && i < |f.rows| && ps == Probes(f)
    ensures mes' == Step(mes, ps[i])
    ensures HitAt(ps, i, mes') == (if hit.Some? then [hit.value] else [])
    ensures hit.Some? ==> hit.value.data < |f.rows| && ToNumeric(f.rows[hit.value.data][0]).Some?
  {
    var m, isHeader, q := ReadRow(f, i);
    mes' := if m.Some? then m else mes;
    hit := None;
    if isHeader && mes'.Some? {
      ProbeNums(f);
      var found := FindDataRow(f, i, ps);
      if found.Some? {
        hit := Some(Hit(i, i + found.value, mes'.value, q));
        HitAtFound(ps, i, mes', found.value);
        ProbeNumAt(f, i + found.value);
        return;
      }
    }
    HitAtNone(ps, i, mes');
  }

  /** The outer `for i in range(len(df_raw))` loop: the records of the
      scan's hits, in order, or the error of the first record a narrow
      frame cannot supply. */
  method ScanRows(f: Frame, ghost ps: seq<Probe>) returns (r: Result<seq<Record>, ExtractError>)
    requires f.Valid() && f.width >= 1 && ps == Probes(f)
    ensures r.Success? ==> BuiltFrom(f, Hits(ps), r.value)
    ensures r.Failure? ==> |Hits(ps)| > 0 && f.width <= ContratadosColumn &&
                           r.error == ColumnMissing(FirstMissing(f.width))
  {
    ghost var emitted: seq<Hit> := [];
    var dados: seq<Record> := [];
    var mes: Option<Month> := None;
    var i := 0;
    ScanIsHits(ps);
    while i < |f.rows|
      invariant 0 <= i <= |f.rows| == |ps|
      invariant Hits(ps) == ScanFrom(ps, i, mes, emitted)
      invariant BuiltFrom(f, emitted, dados)
    {
      ghost var mes0 := mes;
      var hit;
      mes, hit := VisitRow(f, i, mes, ps);
      assert ScanFrom(ps, i, mes0, emitted) == ScanFrom(ps, i + 1, mes, emitted + HitAt(ps, i, mes));
      if hit.Some? {
        if f.width <= ContratadosColumn {
          ScanFromAppends(ps, i + 1, mes, emitted + [hit.value]);
          return Failure(ColumnMissing(FirstMissing(f.width)));
        }
        var registro := BuildRecord(f, hit.value);
        BuiltFromAppend(f, emitted, dados, hit.value, registro);
        dados := dados + [registro];
        emitted := emitted + [hit.value];
      } else {
        assert emitted + HitAt(ps, i, mes) == emitted;
      }
      i := i + 1;
    }
    return Success(dados);
  }

  /** `extrair_dados_pat(df_raw)` as the source writes it: `iloc[i, 0]`
      raises on a frame with rows but no column, and the loop does the
      rest. */
  method ExtrairDadosPat(f: Frame) returns (r: Result<seq<Record>, ExtractError>)
    requires f.Valid()
    ensures r == Extract(f)
  {
    if |f.rows| == 0 {
      return Success([]);
    }
    if f.width == 0 {
      return Failure(ColumnMissing(0));
    }
    r := ScanRows(f, Probes(f));
    if r.Success? {
      ExtractOfHits(f, r.value);
    }
  }
}
