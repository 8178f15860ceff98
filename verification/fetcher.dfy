/** The string handling of `ler_planilha_google`: the spreadsheet ID taken
    from a sharing link, and the CSV export address built from it. The
    download itself is not modelled. */
module Fetcher {
  import opened Wrappers
  import opened Strings

  /** The marker that precedes the ID in a sharing link. */
  const IdMarker: string := "/d/"

  /** The path separator that ends the ID. */
  const Slash: string := "/"

  /** The export address up to the ID. */
  const ExportPrefix: string := "https://docs.google.com/spreadsheets/d/"

  /** The export address after the ID. */
  const ExportSuffix: string := "/export?format=csv"

  /** `/` does not occur in `s`. */
  predicate NoSlash(s: string)
  {
    forall j :: 0 <= j < |s| ==> s[j] != '/'
  }

  /** A one-character pattern matches exactly where that character is. */
  lemma MatchAtSlash(s: string, j: nat)
    ensures MatchAt(s, Slash, j) <==> j < |s| && s[j] == '/'
  {
    if j < |s| {
      assert s[j..j + 1] == [s[j]];
    }
  }

  /** The first piece of `split("/")` is the text up to the first `/`: it
      is a prefix holding no `/`, and it is the whole text or is followed
      by a `/`. */
  lemma FirstSlashPiece(p: string)
    ensures var id := Split(p, Slash)[0];
            && id <= p && NoSlash(id)
            && (|id| == |p| || p[|id|] == '/')
  {
    var id := Split(p, Slash)[0];
    match IndexOf(p, Slash)
    case None =>
      forall j | 0 <= j < |p| ensures p[j] != '/' {
        MatchAtSlash(p, j);
      }
    case Some(k) =>
      MatchAtSlash(p, k);
      forall j | 0 <= j < k ensures p[j] != '/' {
        MatchAtSlash(p, j);
      }
  }

  /** The first piece of `split("/d/")` is a prefix that is the whole text
      or is followed by a `/` (the one that starts the next `/d/`). */
  lemma FirstMarkerPiece(t: string)
    ensures var p := Split(t, IdMarker)[0];
            p <= t && (|p| == |t| || t[|p|] == '/')
  {
    match IndexOf(t, IdMarker)
    case None =>
    case Some(k) =>
      assert t[k..k + 3] == IdMarker;
      assert t[k] == t[k..k + 3][0];
  }

  /** `id_planilha`: for a link holding `/d/`, with `t` the text after
      the first `/d/`, the prefix of `t` before its first `/` (all of `t`
      when it has none); otherwise the whole link. Both indexings are
      safe: a text holding the separator splits into at least two pieces. */
  function SheetId(link: string): (id: string)
    ensures !Contains(link, IdMarker) ==> id == link
    ensures Contains(link, IdMarker) ==>
              var t := link[IndexOf(link, IdMarker).value + |IdMarker|..];
              && id <= t && NoSlash(id)
              && (|id| == |t| || t[|id|] == '/')
  {
    if Contains(link, IdMarker) then
      var parts := Split(link, IdMarker);
      var k := IndexOf(link, IdMarker).value;
      var t := link[k + |IdMarker|..];
      SplitSecond(link, IdMarker);
      FirstMarkerPiece(t);
      FirstSlashPiece(parts[1]);
      Split(parts[1], Slash)[0]
    else
      link
  }

  /** `url_csv`: the fixed prefix, the ID and the fixed suffix. Reading
      the ID back from the address gives the same ID whenever that ID is
      free of `/`, which it always is for a link holding `/d/`. */
  function ExportUrl(link: string): (url: string)
    ensures |url| == |ExportPrefix| + |SheetId(link)| + |ExportSuffix|
    ensures url[..|ExportPrefix|] == ExportPrefix
    ensures url[|ExportPrefix|..] == SheetId(link) + ExportSuffix
    ensures NoSlash(SheetId(link)) ==> SheetId(url) == SheetId(link)
  {
    var id := SheetId(link);
    ExportLayout(id);
    ExportPrefix + id + ExportSuffix
  }

  /** A prefix of `t` free of `/` and ended by a `/` or by the end of `t`
      is the text before the first `/` of `t`: there is only one. */
  lemma PrefixBeforeSlashUnique(t: string, a: string, b: string)
    requires a <= t && NoSlash(a) && (|a| == |t| || t[|a|] == '/')
    requires b <= t && NoSlash(b) && (|b| == |t| || t[|b|] == '/')
    ensures a == b
  {
  }

  /** A match of `/d/` is a `/`, a `d` and a `/` in a row. */
  lemma MarkerChars(s: string, j: nat)
    ensures MatchAt(s, IdMarker, j) ==> s[j] == '/' && s[j + 1] == 'd' && s[j + 2] == '/'
  {
    if MatchAt(s, IdMarker, j) {
      assert s[j..j + 3][1] == s[j + 1];
      assert s[j..j + 3][2] == s[j + 2];
    }
  }

  /** The first `/d/` of an export address is the one that ends its
      fixed prefix. */
  lemma ExportMarker(id: string)
    ensures IndexOf(ExportPrefix + id + ExportSuffix, IdMarker) == Some(36)
  {
    var url := ExportPrefix + id + ExportSuffix;
    assert url[36..39] == IdMarker;
    forall j: nat | j < 36 ensures !MatchAt(url, IdMarker, j) {
      MarkerChars(url, j);
    }
    IndexOfIsFirst(url, IdMarker, 36);
  }

  /** Reading the ID back from an export address gives the ID it was built
      from, for every ID free of `/`. */
  lemma SheetIdOfExport(id: string)
    requires NoSlash(id)
    ensures SheetId(ExportPrefix + id + ExportSuffix) == id
  {
    var url := ExportPrefix + id + ExportSuffix;
    ExportMarker(id);
    var t := url[39..];
    assert t == id + ExportSuffix;
    assert t[|id|] == '/';
    PrefixBeforeSlashUnique(t, SheetId(url), id);
  }

  /** The parts of an export address, and the ID read back from it. */
  lemma ExportLayout(id: string)
    ensures var url := ExportPrefix + id + ExportSuffix;
            && |url| == |ExportPrefix| + |id| + |ExportSuffix|
            && url[..|ExportPrefix|] == ExportPrefix
            && url[|ExportPrefix|..] == id + ExportSuffix
            && (NoSlash(id) ==> SheetId(url) == id)
  {
    if NoSlash(id) {
      SheetIdOfExport(id);
    }
  }

  /** An ID read from a link holding `/d/` is free of `/`, so the export
      address is a fixed point: reading the ID back and rebuilding the
      address changes nothing. */
  lemma ExportUrlStable(link: string)
    requires Contains(link, IdMarker) || NoSlash(link)
    ensures SheetId(ExportUrl(link)) == SheetId(link)
    ensures ExportUrl(ExportUrl(link)) == ExportUrl(link)
  {
  }
}
