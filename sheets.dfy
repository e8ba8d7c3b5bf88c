/** What the scripts hand to Google Drive and Google Sheets: the URL of a copied spreadsheet, the
    line printed for it, and a positional write of one-cell rows into a column range. The calls
    themselves are not modelled; a copied file's id arrives as a value. */
module Sheets {
  import opened Wrappers

  /** A range of one column, such as B2:B7, from `firstRow` to `lastRow` inclusive. */
  datatype ColumnRange = ColumnRange(column: char, firstRow: nat, lastRow: nat)

  /** Number of rows the range covers. */
  function Height(r: ColumnRange): nat {
    if r.lastRow < r.firstRow then 0 else r.lastRow - r.firstRow + 1
  }

  /** `worksheet.update(range, rows)`: the rows are written from the top of the range down. */
  datatype Update = Update(range: ColumnRange, rows: seq<seq<string>>)

  /** The update fills its range exactly, with one cell per row. */
  predicate Fits(u: Update) {
    |u.rows| == Height(u.range) && forall i :: 0 <= i < |u.rows| ==> |u.rows[i]| == 1
  }

  const UrlPrefix: string := "https://docs.google.com/spreadsheets/d/"
  const UrlSuffix: string := "/edit"

  /** The URL of the spreadsheet with the given file id. */
  function FileUrl(id: string): string {
    UrlPrefix + id + UrlSuffix
  }

  /** The file id a spreadsheet URL carries, if it has the shape `FileUrl` produces. */
  function IdOfUrl(url: string): Option<string> {
    if |url| >= |UrlPrefix| + |UrlSuffix|
       && url[..|UrlPrefix|] == UrlPrefix
       && url[|url| - |UrlSuffix|..] == UrlSuffix
    then Some(url[|UrlPrefix|..|url| - |UrlSuffix|])
    else None
  }

  /** A file id can be read back from its URL. */
  lemma IdOfFileUrl(id: string)
    ensures IdOfUrl(FileUrl(id)) == Some(id)
  {
    var url := FileUrl(id);
    assert url[..|UrlPrefix|] == UrlPrefix;
    assert url[|url| - |UrlSuffix|..] == UrlSuffix;
    assert url[|UrlPrefix|..|url| - |UrlSuffix|] == id;
  }

  /** A URL whose id can be read is the URL of that id. */
  lemma FileUrlOfId(url: string)
    requires IdOfUrl(url).Some?
    ensures FileUrl(IdOfUrl(url).value) == url
  {
    var id := IdOfUrl(url).value;
    assert url == url[..|UrlPrefix|] + id + url[|url| - |UrlSuffix|..];
  }

  /** The line printed for a generated file: its name, a colon and its URL. */
  function OutputLine(filename: string, url: string): string {
    filename + ": " + url
  }
}
