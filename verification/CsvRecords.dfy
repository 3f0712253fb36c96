/**
 * Reading CSV text into rows of fields (RFC 4180, section 2), as the import does it.
 */
module CsvRecords {

  type Row = seq<string>

  const BOM: char := '\U{FEFF}'
  const QUOTE: char := '"'

  /** What trimming a JavaScript string removes. */
  predicate IsSpace(c: char) {
    || '\t' <= c <= '\r' || c == ' ' || c == '\U{A0}' || c == '\U{1680}'
    || '\U{2000}' <= c <= '\U{200A}' || c == '\U{2028}' || c == '\U{2029}'
    || c == '\U{202F}' || c == '\U{205F}' || c == '\U{3000}' || c == BOM
  }

  predicate Blank(s: string) {
    forall i :: 0 <= i < |s| ==> IsSpace(s[i])
  }

  /** Letters, digits and punctuation are content; blanks, tabs and line ends are not. */
  lemma WhatIsBlank(c: char)
    ensures '!' <= c <= '~' ==> !Blank([c])
    ensures c == ' ' || c == '\t' || c == '\r' || c == '\n' ==> Blank([c])
  {
    assert [c][0] == c;
  }

  predicate HasContent(row: Row) {
    exists i :: 0 <= i < |row| && !Blank(row[i])
  }

  function Count(s: string, c: char): nat {
    if s == "" then 0 else (if s[0] == c then 1 else 0) + Count(s[1..], c)
  }

  function FirstLine(s: string): string {
    if s == "" || s[0] == '\r' || s[0] == '\n' then "" else [s[0]] + FirstLine(s[1..])
  }

  /** The commonest of the three on the first line; a comma unless one is strictly ahead. */
  function Detect(text: string): char {
    var line := FirstLine(text);
    var commas, semis, tabs := Count(line, ','), Count(line, ';'), Count(line, '\t');
    if semis > commas && semis > tabs then ';'
    else if tabs > commas && tabs > semis then '\t'
    else ','
  }

  /** The scanner: rows done, the row and field under way, and whether a quote is open. */
  datatype Scan = Scan(rows: seq<Row>, row: Row, field: string, quoted: bool)

  const START := Scan([], [], "", false)

  function EndField(s: Scan): Scan {
    s.(row := s.row + [s.field], field := "")
  }

  /** Ends the row under way; a row of blank fields is dropped. */
  function EndRow(s: Scan): Scan {
    var row := s.row + [s.field];
    Scan(if HasContent(row) then s.rows + [row] else s.rows, [], "", s.quoted)
  }

  function Read(d: char, text: string, s: Scan): Scan
    decreases |text|
  {
    if text == "" then s
    else
      var c, next := text[0], if |text| > 1 then text[1] else '\0';
      if s.quoted then
        if c == QUOTE then
          if |text| > 1 && next == QUOTE then Read(d, text[2..], s.(field := s.field + [QUOTE]))
          else Read(d, text[1..], s.(quoted := false))
        else Read(d, text[1..], s.(field := s.field + [c]))
      else if c == QUOTE then Read(d, text[1..], s.(quoted := true))
      else if c == d then Read(d, text[1..], EndField(s))
      else if c == '\r' then
        if |text| > 1 && next == '\n' then Read(d, text[2..], EndRow(s)) else Read(d, text[1..], EndRow(s))
      else if c == '\n' then Read(d, text[1..], EndRow(s))
      else Read(d, text[1..], s.(field := s.field + [c]))
  }

  /** Whatever is under way at the end of the text is a last row. */
  function Finish(s: Scan): seq<Row> {
    if s.field != "" || s.row != [] then EndRow(s).rows else s.rows
  }

  function Records(text: string): seq<Row> {
    var clean := if text != "" && text[0] == BOM then text[1..] else text;
    if Blank(clean) then [] else Finish(Read(Detect(clean), clean, START))
  }

  method CountOf(s: string, c: char) returns (n: nat)
    ensures n == Count(s, c)
  {
    n := 0;
    for i := 0 to |s|
      invariant Count(s, c) == n + Count(s[i..], c)
    {
      assert s[i..][1..] == s[i + 1..];
      if s[i] == c {
        n := n + 1;
      }
    }
  }

  method SomeContent(row: Row) returns (found: bool)
    ensures found == HasContent(row)
  {
    for i := 0 to |row|
      invariant forall j :: 0 <= j < i ==> Blank(row[j])
    {
      if !Blank(row[i]) {
        return true;
      }
    }
    return false;
  }

  /** A complete row is kept if it has content. */
  method Pushed(rows: seq<Row>, row: Row) returns (kept: seq<Row>)
    ensures kept == if HasContent(row) then rows + [row] else rows
  {
    var content := SomeContent(row);
    kept := if content then rows + [row] else rows;
  }

  lemma ReadHere(d: char, text: string, i: nat, s: Scan)
    requires i < |text|
    ensures text[i..] != "" && text[i..][0] == text[i]
    ensures text[i..][1..] == text[i + 1..]
    ensures i + 1 < |text| ==> text[i..][1] == text[i + 1] && text[i..][2..] == text[i + 2..]
  {
  }

  method DelimiterOf(text: string) returns (delimiter: char)
    ensures delimiter == Detect(text)
  {
    var firstLine := FirstLine(text);
    delimiter := ',';
    var commaCount := CountOf(firstLine, ',');
    var semiCount := CountOf(firstLine, ';');
    var tabCount := CountOf(firstLine, '\t');
    if semiCount > commaCount && semiCount > tabCount {
      delimiter := ';';
    } else if tabCount > commaCount && tabCount > semiCount {
      delimiter := '\t';
    }
  }

  method ParseCsvRecords(csvText: string) returns (rows: seq<Row>)
    ensures rows == Records(csvText)
  {
    if csvText == "" {
      return [];
    }
    var text := if csvText[0] == BOM then csvText[1..] else csvText;
    if Blank(text) {
      return [];
    }

    var delimiter := DelimiterOf(text);
    rows := [];
    var row: Row, field, inQuotes := [], "", false;
    var i := 0;
    assert text[0..] == text;
    while i < |text|
      invariant 0 <= i <= |text|
      invariant Read(delimiter, text, START) == Read(delimiter, text[i..], Scan(rows, row, field, inQuotes))
      decreases |text| - i
    {
      var c := text[i];
      ReadHere(delimiter, text, i, Scan(rows, row, field, inQuotes));
      if inQuotes {
        if c == QUOTE {
          if i + 1 < |text| && text[i + 1] == QUOTE {
            field := field + [QUOTE];
            i := i + 1;
          } else {
            inQuotes := false;
          }
        } else {
          field := field + [c];
        }
      } else if c == QUOTE {
        inQuotes := true;
      } else if c == delimiter {
        row, field := row + [field], "";
      } else if c == '\r' || c == '\n' {
        if c == '\r' && i + 1 < |text| && text[i + 1] == '\n' {
          i := i + 1;
        }
        rows := Pushed(rows, row + [field]);
        row, field := [], "";
      } else {
        field := field + [c];
      }
      i := i + 1;
    }
    if |field| > 0 || |row| > 0 {
      rows := Pushed(rows, row + [field]);
    }
  }
}
