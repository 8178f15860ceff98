/** Small grids worked through the extractor. */
module Examples {
  import opened Wrappers
  import opened Strings
  import opened Cells
  import opened Extractor
  import opened Records

  /** A probe of a row that is neither a month, a header nor numeric. */
  const Blank: Probe := Probe(None, false, Second, None)

  /** The outer loop always advances by one row, so two headers a row apart
      both take their numbers from the same row below them. */
  lemma SharedDataRow()
    ensures var ps := [Probe(Some(Agosto), false, Second, None),
                       Probe(None, true, First, None),
                       Probe(None, true, Second, None),
                       Probe(None, false, Second, Some(12))];
            Hits(ps) == [Hit(1, 3, Agosto, First), Hit(2, 3, Agosto, Second)]
  {
    var ps := [Probe(Some(Agosto), false, Second, None),
               Probe(None, true, First, None),
               Probe(None, true, Second, None),
               Probe(None, false, Second, Some(12))];
    assert FindAnchor(ps, 1, 1) == Some(2);
    assert FindAnchor(ps, 2, 1) == Some(1);
    assert HitsFrom(ps, 3, Some(Agosto)) == [];
    assert HitsFrom(ps, 2, Some(Agosto)) == [Hit(2, 3, Agosto, Second)];
  }

  /** A numeric row six rows below a header is out of its window. */
  lemma BeyondWindow()
    ensures var ps := [Probe(Some(Outubro), false, Second, None),
                       Probe(None, true, First, None),
                       Blank, Blank, Blank, Blank, Blank,
                       Probe(None, false, Second, Some(7))];
            Hits(ps) == []
  {
    var ps := [Probe(Some(Outubro), false, Second, None),
               Probe(None, true, First, None),
               Blank, Blank, Blank, Blank, Blank,
               Probe(None, false, Second, Some(7))];
    assert FindAnchor(ps, 1, 1) == None;
    assert HitsFrom(ps, 8, Some(Outubro)) == [];
    assert HitsFrom(ps, 7, Some(Outubro)) == [];
    assert HitsFrom(ps, 6, Some(Outubro)) == [];
    assert HitsFrom(ps, 5, Some(Outubro)) == [];
    assert HitsFrom(ps, 4, Some(Outubro)) == [];
    assert HitsFrom(ps, 3, Some(Outubro)) == [];
    assert HitsFrom(ps, 2, Some(Outubro)) == [];
    assert HitsFrom(ps, 1, Some(Outubro)) == [];
    assert Hits(ps) == HitsFrom(ps, 1, Some(Outubro));
  }

  /** The text of a cell holding "Primeira Quinzena". */
  lemma NormPrimeiraQuinzena()
    ensures Norm(Text("Primeira Quinzena")) == "PRIMEIRA QUINZENA"
  {
    var s := "Primeira Quinzena";
    PrintableNotSpace(s[0]);
    PrintableNotSpace(s[|s| - 1]);
    StripUnchanged(s);
  }

  /** Column 0 of the sample sheet, probe by probe. */
  lemma ProbeOfAgosto()
    ensures ProbeOf(Text("AGOSTO")) == Probe(Some(Agosto), false, Second, None)
  {
    var s := "AGOSTO";
    PrintableNotSpace(s[0]);
    PrintableNotSpace(s[|s| - 1]);
    StripUnchanged(s);
    assert Norm(Text(s)) == s;
    MonthNameRoundTrip(Agosto, s);
  }

  lemma ProbeOfPrimeiraQuinzena()
    ensures ProbeOf(Text("Primeira Quinzena")) == Probe(None, true, First, None)
  {
    var t := "PRIMEIRA QUINZENA";
    NormPrimeiraQuinzena();
    assert t[9..17] == QuinzenaMarker;
    assert MatchAt(t, QuinzenaMarker, 9);
    assert t[0..8] == FirstMarker;
    assert MatchAt(t, FirstMarker, 0);
    assert t !in MonthNames;
  }

  lemma ProbeOfEmpty()
    ensures ProbeOf(Empty) == Probe(None, false, Second, None)
  {
    var s := "nan";
    PrintableNotSpace(s[0]);
    PrintableNotSpace(s[|s| - 1]);
    StripUnchanged(s);
    assert Norm(Empty) == "NAN";
  }

  lemma ProbeOfTwelve()
    ensures ProbeOf(Num(12)) == Probe(None, false, Second, Some(12))
  {
    var s := Str(Num(12));
    assert s == "12";
    PrintableNotSpace(s[0]);
    PrintableNotSpace(s[|s| - 1]);
    StripUnchanged(s);
    assert Norm(Num(12)) == "12";
  }

  /** The frame read from a sheet with a month row, a first-fortnight
      header, a blank row and a row of numbers. */
  const Sample: Frame :=
    Frame(5, [[Text("AGOSTO"), Empty, Empty, Empty, Empty],
              [Text("Primeira Quinzena"), Empty, Empty, Empty, Empty],
              [Empty, Empty, Empty, Empty, Empty],
              [Num(12), Num(1), Num(5), Num(30), Num(10)]])

  /** The probes of the sample's column 0. */
  const SampleProbes: seq<Probe> :=
    [Probe(Some(Agosto), false, Second, None),
     Probe(None, true, First, None),
     Probe(None, false, Second, None),
     Probe(None, false, Second, Some(12))]

  lemma SampleProbesAre()
    ensures Sample.Valid() && Probes(Sample) == SampleProbes
  {
    var f := Sample;
    assert f.Valid();
    forall j | 0 <= j < 4 ensures Probes(f)[j] == SampleProbes[j] {
      MapAt(ProbeOf, Column0(f), j);
      if j == 0 {
        ProbeOfAgosto();
      } else if j == 1 {
        ProbeOfPrimeiraQuinzena();
      } else if j == 2 {
        ProbeOfEmpty();
      } else {
        ProbeOfTwelve();
      }
    }
  }

  /** The scan of the sample finds the first-fortnight header and the
      numbers two rows below it. */
  lemma SampleHits()
    ensures Hits(SampleProbes) == [Hit(1, 3, Agosto, First)]
  {
    var ps := SampleProbes;
    assert FindAnchor(ps, 1, 1) == Some(2);
    assert HitsFrom(ps, 2, Some(Agosto)) == [];
  }

  /** The record built from the sample's data row. */
  lemma SampleRecord()
    ensures Sample.Valid() && ToNumeric(Sample.rows[3][0]).Some?
    ensures BuildRecord(Sample, Hit(1, 3, Agosto, First)) ==
              Record("Agosto", "1\U{AA}", 12, Some(1), Some(10))
  {
    assert Sample.Valid();
    DisplayForms(Agosto);
  }

  /** The record the sample's one hit yields. */
  const SampleRecordValue: Record := Record("Agosto", "1\U{AA}", 12, Some(1), Some(10))

  /** The sample's hits and the records built for them match up. */
  lemma SampleBuilt()
    ensures Sample.Valid() && |Sample.rows| > 0 && Sample.width >= 1
    ensures BuiltFrom(Sample, Hits(Probes(Sample)), [SampleRecordValue])
  {
    SampleProbesAre();
    SampleHits();
    SampleRecord();
    assert Built(Sample, Hit(1, 3, Agosto, First), SampleRecordValue);
  }

  /** The sample sheet: one record, August, first fortnight, 12 openings,
      1 PCD and 10 hired (column 4, not column 3). */
  lemma SampleExtract()
    ensures Extract(Sample) == Success([Record("Agosto", "1\U{AA}", 12, Some(1), Some(10))])
  {
    SampleBuilt();
    ExtractOfHits(Sample, [SampleRecordValue]);
  }
}
