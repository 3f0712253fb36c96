/**
 * The reader inverts a printer that quotes only what must be quoted, whatever mixture of line
 * terminators it ends rows with.
 */
module CsvRoundTrip {
  import opened CsvRecords
  import opened Collections

  datatype Eol = Lf | CrLf | Cr

  function EolText(e: Eol): string {
    match e
    case Lf => "\n"
    case CrLf => "\r\n"
    case Cr => "\r"
  }

  predicate IsDelimiter(d: char) {
    d == ',' || d == ';' || d == '\t'
  }

  predicate Special(c: char, d: char) {
    c == d || c == QUOTE || c == '\r' || c == '\n'
  }

  predicate Plain(f: string, d: char) {
    forall i :: 0 <= i < |f| ==> !Special(f[i], d)
  }

  function Escaped(f: string): string {
    if f == "" then "" else (if f[0] == QUOTE then [QUOTE, QUOTE] else [f[0]]) + Escaped(f[1..])
  }

  function PrintField(f: string, d: char): string {
    if Plain(f, d) then f else [QUOTE] + Escaped(f) + [QUOTE]
  }

  function PrintRow(row: Row, d: char): string
    requires row != []
  {
    if |row| == 1 then PrintField(row[0], d) else PrintField(row[0], d) + ([d] + PrintRow(row[1..], d))
  }

  /** One terminator for each row; the last row may go without. */
  predicate Terminates(eols: seq<Eol>, rows: seq<Row>) {
    |eols| == |rows| || |eols| + 1 == |rows|
  }

  function PrintRows(rows: seq<Row>, eols: seq<Eol>, d: char): string
    requires Terminates(eols, rows) && forall i :: 0 <= i < |rows| ==> rows[i] != []
    decreases |rows|
  {
    if rows == [] then ""
    else if eols == [] then PrintRow(rows[0], d)
    else PrintRow(rows[0], d) + (EolText(eols[0]) + PrintRows(rows[1..], eols[1..], d))
  }

  predicate Rows(rows: seq<Row>) {
    forall i :: 0 <= i < |rows| ==> rows[i] != []
  }

  /** The rows a reader keeps: those with a field that is not blank. */
  function Contentful(rows: seq<Row>): seq<Row> {
    if rows == [] then [] else (if HasContent(rows[0]) then [rows[0]] else []) + Contentful(rows[1..])
  }

  predicate Table(rows: seq<Row>) {
    forall i :: 0 <= i < |rows| ==> HasContent(rows[i])
  }

  lemma {:induction false} TableIsContentful(rows: seq<Row>)
    requires Table(rows)
    ensures Contentful(rows) == rows
    decreases |rows|
  {
    if rows != [] {
      TableIsContentful(rows[1..]);
      assert rows == [rows[0]] + rows[1..];
    }
  }

  // ---------------------------------------------------------------- one field

  /** A text the reader takes as ending the field before it. */
  predicate EndsField(rest: string, d: char) {
    rest == "" || rest[0] == d || rest[0] == '\r' || rest[0] == '\n'
  }

  lemma {:induction false} ReadPlain(d: char, f: string, rest: string, s: Scan)
    requires Plain(f, d) && !s.quoted
    ensures Read(d, f + rest, s) == Read(d, rest, s.(field := s.field + f))
    decreases |f|
  {
    if f == "" {
      assert f + rest == rest && s.field + f == s.field;
    } else {
      var t := s.(field := s.field + [f[0]]);
      assert !Special(f[0], d);
      assert (f + rest)[0] == f[0] && (f + rest)[1..] == f[1..] + rest;
      ReadPlain(d, f[1..], rest, t);
      assert t.field + f[1..] == s.field + f;
    }
  }

  /** Inside quotes a doubled quote is one, and any other character is itself. */
  lemma ReadQuoted(d: char, c: char, rest: string, s: Scan)
    requires s.quoted
    ensures Read(d, (if c == QUOTE then [QUOTE, QUOTE] else [c]) + rest, s) == Read(d, rest, s.(field := s.field + [c]))
  {
    var text := (if c == QUOTE then [QUOTE, QUOTE] else [c]) + rest;
    if c == QUOTE {
      assert text[0] == QUOTE && text[1] == QUOTE && text[2..] == rest;
    } else {
      assert text[0] == c && text[1..] == rest;
    }
  }

  lemma ReadClosing(d: char, rest: string, s: Scan)
    requires s.quoted && (rest == "" || rest[0] != QUOTE)
    ensures Read(d, [QUOTE] + rest, s) == Read(d, rest, s.(quoted := false))
  {
    var text := [QUOTE] + rest;
    assert text[1..] == rest && (rest != "" ==> text[1] == rest[0]);
  }

  lemma {:induction false} ReadEscaped(d: char, f: string, rest: string, s: Scan)
    requires s.quoted && (rest == "" || rest[0] != QUOTE)
    ensures Read(d, Escaped(f) + ([QUOTE] + rest), s) == Read(d, rest, s.(field := s.field + f, quoted := false))
    decreases |f|
  {
    var tail := [QUOTE] + rest;
    if f == "" {
      assert Escaped(f) + tail == tail && s.field + f == s.field;
      ReadClosing(d, rest, s);
    } else {
      var t := s.(field := s.field + [f[0]]);
      var head := if f[0] == QUOTE then [QUOTE, QUOTE] else [f[0]];
      Assoc(head, Escaped(f[1..]), tail);
      ReadQuoted(d, f[0], Escaped(f[1..]) + tail, s);
      ReadEscaped(d, f[1..], rest, t);
      Assoc(s.field, [f[0]], f[1..]);
      assert [f[0]] + f[1..] == f;
    }
  }

  lemma ReadField(d: char, f: string, rest: string, s: Scan)
    requires IsDelimiter(d) && EndsField(rest, d) && !s.quoted && s.field == ""
    ensures Read(d, PrintField(f, d) + rest, s) == Read(d, rest, s.(field := f))
  {
    assert s.field + f == f;
    if Plain(f, d) {
      ReadPlain(d, f, rest, s);
    } else {
      var text := PrintField(f, d) + rest;
      Assoc([QUOTE] + Escaped(f), [QUOTE], rest);
      Assoc([QUOTE], Escaped(f), [QUOTE] + rest);
      assert text[0] == QUOTE && text[1..] == Escaped(f) + ([QUOTE] + rest);
      ReadEscaped(d, f, rest, s.(quoted := true));
    }
  }

  /** A quote may open anywhere in a field: what it encloses joins what stands around it. */
  lemma ReadMixed(d: char, before: string, quoted: string, after: string, rest: string, s: Scan)
    requires IsDelimiter(d) && !s.quoted && s.field == "" && Plain(before, d) && Plain(after, d)
    requires EndsField(rest, d)
    ensures Read(d, before + ([QUOTE] + (Escaped(quoted) + ([QUOTE] + (after + rest)))), s) ==
            Read(d, rest, s.(field := before + quoted + after))
  {
    var tail := Escaped(quoted) + ([QUOTE] + (after + rest));
    var begun := s.(field := before);
    ReadPlain(d, before, [QUOTE] + tail, s);
    assert "" + before == before && ([QUOTE] + tail)[1..] == tail;
    assert after + rest == "" || (after + rest)[0] != QUOTE by {
      assert after != "" ==> !Special(after[0], d);
    }
    ReadEscaped(d, quoted, after + rest, begun.(quoted := true));
    ReadPlain(d, after, rest, s.(field := before + quoted));
  }

  // ---------------------------------------------------------------- one row

  lemma {:induction false} ReadRow(d: char, row: Row, rest: string, s: Scan)
    requires IsDelimiter(d) && row != [] && !s.quoted && s.field == ""
    requires rest == "" || rest[0] == '\r' || rest[0] == '\n'
    ensures Read(d, PrintRow(row, d) + rest, s) ==
            Read(d, rest, s.(row := s.row + row[..|row| - 1], field := row[|row| - 1]))
    decreases |row|
  {
    if |row| == 1 {
      ReadField(d, row[0], rest, s);
      assert s.row + row[..0] == s.row;
    } else {
      var more := PrintRow(row[1..], d);
      Assoc(PrintField(row[0], d), [d] + more, rest);
      Assoc([d], more, rest);
      ReadFirstField(d, row[0], more + rest, s);
      ReadRow(d, row[1..], rest, EndField(s.(field := row[0])));
      RowSplit(s.row, row);
    }
  }

  lemma ReadFirstField(d: char, f: string, rest: string, s: Scan)
    requires IsDelimiter(d) && !s.quoted && s.field == ""
    ensures Read(d, PrintField(f, d) + ([d] + rest), s) == Read(d, rest, EndField(s.(field := f)))
  {
    ReadField(d, f, [d] + rest, s);
    ReadDelimiter(d, rest, s.(field := f));
  }

  lemma ReadDelimiter(d: char, rest: string, s: Scan)
    requires IsDelimiter(d) && !s.quoted
    ensures Read(d, [d] + rest, s) == Read(d, rest, EndField(s))
  {
    assert ([d] + rest)[1..] == rest;
  }

  lemma RowSplit(done: Row, row: Row)
    requires |row| > 1
    ensures done + [row[0]] + row[1..][..|row| - 2] == done + row[..|row| - 1]
  {
  }

  lemma ReadEol(d: char, e: Eol, rest: string, s: Scan)
    requires IsDelimiter(d) && !s.quoted && (rest == "" || rest[0] != '\n' || e != Cr)
    ensures Read(d, EolText(e) + rest, s) == Read(d, rest, EndRow(s))
  {
    var text := EolText(e) + rest;
    if e == CrLf {
      assert text[2..] == rest;
    } else {
      assert text[1..] == rest;
    }
  }

  // ---------------------------------------------------------------- any rows at all

  /** Only a row of one empty field prints as nothing; no other starts with half a line terminator. */
  lemma RowStart(row: Row, d: char)
    requires IsDelimiter(d) && row != []
    ensures PrintRow(row, d) == "" <==> row == [""]
    ensures row != [""] ==> PrintRow(row, d)[0] != '\n' && PrintRow(row, d)[0] != '\r'
  {
    if row[0] != "" && Plain(row[0], d) {
      assert !Special(row[0][0], d);
    }
  }

  /** A full row under way is what ending it adds, if it has content. */
  lemma RowComplete(done: seq<Row>, row: Row)
    requires row != []
    ensures
      var full := Scan(done, [] + row[..|row| - 1], row[|row| - 1], false);
      && EndRow(full) == Scan(done + Contentful([row]), [], "", false)
      && Finish(full) == done + Contentful([row])
  {
    assert [] + row[..|row| - 1] + [row[|row| - 1]] == row;
    assert [row][1..] == [];
    assert !HasContent(row) ==> done + Contentful([row]) == done;
    if |row| == 1 && HasContent(row) {
      assert !Blank(row[0]);
    }
  }

  lemma ReadLastRow(d: char, row: Row, done: seq<Row>)
    requires IsDelimiter(d) && row != []
    ensures Finish(Read(d, PrintRow(row, d), Scan(done, [], "", false))) == done + Contentful([row])
  {
    RowComplete(done, row);
    ReadRow(d, row, "", Scan(done, [], "", false));
    assert PrintRow(row, d) + "" == PrintRow(row, d);
  }

  /** Rows start with a line feed only if the first of them is one empty field that ends with one. */
  lemma RowsStart(rows: seq<Row>, eols: seq<Eol>, d: char)
    requires IsDelimiter(d) && Rows(rows) && Terminates(eols, rows)
    ensures
      var text := PrintRows(rows, eols, d);
      text != "" && text[0] == '\n' ==>
        && rows != [] && rows[0] == [""] && eols != []
        && text == "\n" + PrintRows(rows[1..], eols[1..], d)
  {
    if rows != [] {
      RowStart(rows[0], d);
    }
  }

  lemma ContentfulStep(rows: seq<Row>, done: seq<Row>)
    requires rows != []
    ensures done + Contentful(rows) == done + Contentful([rows[0]]) + Contentful(rows[1..])
  {
    ContentfulOne(rows[0]);
    Assoc(done, Contentful([rows[0]]), Contentful(rows[1..]));
  }

  lemma ContentfulOne(row: Row)
    ensures Contentful([row]) == if HasContent(row) then [row] else []
  {
    assert [row][1..] == [];
  }

  /**
   * Whatever non-empty rows are printed, what is read back is those with content, in order: blank
   * lines and rows of blank fields, anywhere and any number of them, change nothing else. A row
   * ended by a carriage return alone swallows the line feed of an empty row behind it.
   */
  lemma {:induction false} ReadRows(d: char, rows: seq<Row>, eols: seq<Eol>, done: seq<Row>)
    requires IsDelimiter(d) && Rows(rows) && Terminates(eols, rows)
    ensures Finish(Read(d, PrintRows(rows, eols, d), Scan(done, [], "", false))) == done + Contentful(rows)
    decreases |rows|
  {
    if rows == [] {
      assert done + Contentful(rows) == done;
    } else if eols == [] {
      ReadLastRow(d, rows[0], done);
      assert rows == [rows[0]];
    } else {
      var later, ends, next := rows[1..], eols[1..], done + Contentful([rows[0]]);
      var after := PrintRows(later, ends, d);
      ContentfulStep(rows, done);
      RowsStart(later, ends, d);
      if after != "" && after[0] == '\n' && eols[0] == Cr {
        SwallowedRow(d, rows[0], PrintRows(later[1..], ends[1..], d), done);
        ContentfulStep(later, next);
        assert Contentful([later[0]]) == [] && next + [] == next;
        ReadRows(d, later[1..], ends[1..], next);
      } else {
        ReadRowLine(d, rows[0], eols[0], after, done);
        ReadRows(d, later, ends, next);
      }
    }
  }

  lemma SwallowedRow(d: char, row: Row, after: string, done: seq<Row>)
    requires IsDelimiter(d) && row != []
    ensures Read(d, PrintRow(row, d) + ("\r" + ("\n" + after)), Scan(done, [], "", false)) ==
            Read(d, after, Scan(done + Contentful([row]), [], "", false))
  {
    var rest := "\r" + ("\n" + after);
    RowComplete(done, row);
    ReadRow(d, row, rest, Scan(done, [], "", false));
    assert rest[2..] == after;
  }

  lemma ReadRowLine(d: char, row: Row, e: Eol, after: string, done: seq<Row>)
    requires IsDelimiter(d) && row != [] && (after == "" || after[0] != '\n' || e != Cr)
    ensures Read(d, PrintRow(row, d) + (EolText(e) + after), Scan(done, [], "", false)) ==
            Read(d, after, Scan(done + Contentful([row]), [], "", false))
  {
    RowComplete(done, row);
    EolStart(e, after);
    ReadRow(d, row, EolText(e) + after, Scan(done, [], "", false));
    ReadEol(d, e, after, Scan(done, [] + row[..|row| - 1], row[|row| - 1], false));
  }

  lemma EolStart(e: Eol, rest: string)
    ensures var text := EolText(e) + rest; text[0] == '\r' || text[0] == '\n'
  {
  }

  lemma {:induction false} EscapedContent(f: string, i: nat)
    requires i < |f|
    ensures f[i] in Escaped(f)
    decreases |f|
  {
    if i > 0 {
      EscapedContent(f[1..], i - 1);
    }
  }

  /** Printing keeps a character that is not blank. */
  lemma {:induction false} RowContent(row: Row, d: char)
    requires HasContent(row)
    ensures !Blank(PrintRow(row, d))
    decreases |row|
  {
    var rest := if |row| > 1 then [d] + PrintRow(row[1..], d) else "";
    assert PrintRow(row, d) == PrintField(row[0], d) + rest;
    JoinedContent(PrintField(row[0], d), rest);
    if Blank(row[0]) {
      var i :| 0 <= i < |row| && !Blank(row[i]);
      assert row[1..][i - 1] == row[i];
      RowContent(row[1..], d);
      JoinedContent([d], PrintRow(row[1..], d));
    } else {
      FieldContent(row[0], d);
    }
  }

  lemma JoinedContent(a: string, b: string)
    ensures Blank(a + b) <==> Blank(a) && Blank(b)
  {
    if Blank(a + b) {
      forall i | 0 <= i < |a|
        ensures IsSpace(a[i])
      {
        assert (a + b)[i] == a[i];
      }
      forall i | 0 <= i < |b|
        ensures IsSpace(b[i])
      {
        assert (a + b)[|a| + i] == b[i];
      }
    }
  }

  lemma FieldContent(f: string, d: char)
    requires !Blank(f)
    ensures !Blank(PrintField(f, d))
  {
    if !Plain(f, d) {
      assert PrintField(f, d)[0] == QUOTE;
    }
  }

  /** A text with a row of content in it is not blank. */
  lemma {:induction false} RowsContent(rows: seq<Row>, eols: seq<Eol>, d: char)
    requires Rows(rows) && Terminates(eols, rows) && Contentful(rows) != []
    ensures !Blank(PrintRows(rows, eols, d))
    decreases |rows|
  {
    var rest := if eols == [] then "" else EolText(eols[0]) + PrintRows(rows[1..], eols[1..], d);
    assert PrintRows(rows, eols, d) == PrintRow(rows[0], d) + rest;
    JoinedContent(PrintRow(rows[0], d), rest);
    assert eols == [] ==> rows[1..] == [];
    if HasContent(rows[0]) {
      RowContent(rows[0], d);
    } else if eols != [] {
      RowsContent(rows[1..], eols[1..], d);
      JoinedContent(EolText(eols[0]), PrintRows(rows[1..], eols[1..], d));
    }
  }

  /** Past the file's own mark, the reader returns the rows with content. */
  lemma PrintedReads(rows: seq<Row>, eols: seq<Eol>, d: char)
    requires IsDelimiter(d) && Rows(rows) && Terminates(eols, rows)
    requires Detect(PrintRows(rows, eols, d)) == d
    ensures
      var text := PrintRows(rows, eols, d);
      Contentful(rows) == if Blank(text) then [] else Finish(Read(Detect(text), text, START))
  {
    if Contentful(rows) != [] {
      RowsContent(rows, eols, d);
    }
    ReadRows(d, rows, eols, []);
    assert [] + Contentful(rows) == Contentful(rows);
  }

  // ---------------------------------------------------------------- the leading mark

  lemma {:induction false} CountJoin(a: string, b: string, c: char)
    ensures Count(a + b, c) == Count(a, c) + Count(b, c)
    decreases |a|
  {
    if a == "" {
      assert a + b == b;
    } else {
      assert (a + b)[1..] == a[1..] + b;
      CountJoin(a[1..], b, c);
    }
  }

  lemma DetectIgnoresMark(text: string)
    requires text != "" && text[0] == BOM
    ensures Detect(text[1..]) == Detect(text)
  {
    var line := FirstLine(text[1..]);
    assert FirstLine(text) == [BOM] + line;
    CountJoin([BOM], line, ',');
    CountJoin([BOM], line, ';');
    CountJoin([BOM], line, '\t');
  }

  /** The table whose very first field has lost its first character. */
  function Beheaded(rows: seq<Row>): seq<Row>
    requires rows != [] && rows[0] != [] && rows[0][0] != ""
  {
    rows[0 := rows[0][0 := rows[0][0][1..]]]
  }

  lemma MarkInFirstField(rows: seq<Row>, eols: seq<Eol>, d: char)
    requires IsDelimiter(d) && Rows(rows) && Terminates(eols, rows)
    requires var text := PrintRows(rows, eols, d); text != "" && text[0] == BOM
    ensures rows != [] && rows[0] != [] && rows[0][0] != ""
    ensures rows[0][0][0] == BOM && Plain(rows[0][0], d)
  {
    RowStart(rows[0], d);
    if eols != [] {
      EolStart(eols[0], PrintRows(rows[1..], eols[1..], d));
    }
    assert PrintRow(rows[0], d) != "" && PrintRow(rows[0], d)[0] == BOM;
  }

  lemma BeheadedContent(rows: seq<Row>)
    requires Rows(rows) && rows != [] && rows[0][0] != "" && rows[0][0][0] == BOM
    ensures HasContent(Beheaded(rows)[0]) <==> HasContent(rows[0])
  {
    var f, short := rows[0][0], Beheaded(rows)[0];
    assert f == [BOM] + f[1..];
    JoinedContent([BOM], f[1..]);
    assert Blank(f[1..]) <==> Blank(f);
    if HasContent(rows[0]) {
      var i :| 0 <= i < |rows[0]| && !Blank(rows[0][i]);
      assert !Blank(short[i]);
    }
    if HasContent(short) {
      var i :| 0 <= i < |short| && !Blank(short[i]);
      assert !Blank(rows[0][i]);
    }
  }

  /** The mark taken away changes what is read exactly when it stood in a row that counts. */
  lemma BeheadedReads(rows: seq<Row>)
    requires Rows(rows) && rows != [] && rows[0][0] != "" && rows[0][0][0] == BOM
    ensures Contentful(Beheaded(rows)) == Contentful(rows) <==> !HasContent(rows[0])
  {
    var short := Beheaded(rows);
    BeheadedContent(rows);
    assert short[1..] == rows[1..] && |short[0][0]| < |rows[0][0]|;
    if HasContent(rows[0]) {
      assert Contentful(short)[0] == short[0] && Contentful(rows)[0] == rows[0];
    }
  }

  lemma BeheadedPrints(rows: seq<Row>, eols: seq<Eol>, d: char)
    requires Rows(rows) && Terminates(eols, rows) && rows != [] && rows[0][0] != ""
    requires Plain(rows[0][0], d)
    ensures Rows(Beheaded(rows)) && PrintRows(Beheaded(rows), eols, d) == PrintRows(rows, eols, d)[1..]
  {
    var short := Beheaded(rows);
    var f := rows[0][0];
    assert Plain(f[1..], d);
    var row, cut := rows[0], short[0];
    assert PrintRow(cut, d) == PrintRow(row, d)[1..] by {
      if |row| > 1 {
        assert cut[1..] == row[1..];
        TailOfJoin(f, [d] + PrintRow(row[1..], d));
      }
    }
    if eols != [] {
      assert short[1..] == rows[1..];
      assert PrintRow(row, d) != "";
      TailOfJoin(PrintRow(row, d), EolText(eols[0]) + PrintRows(rows[1..], eols[1..], d));
    }
  }

  lemma TailOfJoin(a: string, b: string)
    requires a != ""
    ensures (a + b)[1..] == a[1..] + b
  {
  }

  /**
   * Round trip: rows of any fields, printed with the delimiter the reader will detect and read back,
   * are the rows that have some content, in order - exactly when the text does not start with a
   * byte order mark in such a row, which the reader takes for one of the file's own.
   */
  lemma RoundTrip(rows: seq<Row>, eols: seq<Eol>, d: char)
    requires IsDelimiter(d) && Rows(rows) && Terminates(eols, rows)
    requires Detect(PrintRows(rows, eols, d)) == d
    ensures
      var text := PrintRows(rows, eols, d);
      Records(text) == Contentful(rows) <==> !(text != "" && text[0] == BOM && HasContent(rows[0]))
  {
    var text := PrintRows(rows, eols, d);
    if text != "" && text[0] == BOM {
      MarkInFirstField(rows, eols, d);
      BeheadedPrints(rows, eols, d);
      BeheadedReads(rows);
      DetectIgnoresMark(text);
      PrintedReads(Beheaded(rows), eols, d);
    } else {
      PrintedReads(rows, eols, d);
    }
  }

  /** With the file's own mark in front, the text behind it may start with anything. */
  lemma RoundTripWithMark(rows: seq<Row>, eols: seq<Eol>, d: char)
    requires IsDelimiter(d) && Rows(rows) && Terminates(eols, rows)
    requires Detect(PrintRows(rows, eols, d)) == d
    ensures Records([BOM] + PrintRows(rows, eols, d)) == Contentful(rows)
  {
    var text := PrintRows(rows, eols, d);
    assert ([BOM] + text)[1..] == text;
    PrintedReads(rows, eols, d);
  }

  // ---------------------------------------------------------------- the delimiter

  /** No delimiter of any kind, no quote and no line break. */
  predicate Bare(f: string) {
    Plain(f, ',') && Plain(f, ';') && Plain(f, '\t')
  }

  lemma {:induction false} BareLine(f: string, rest: string)
    requires Bare(f)
    ensures FirstLine(f + rest) == f + FirstLine(rest)
    decreases |f|
  {
    if f == "" {
      assert f + rest == rest;
    } else {
      assert !Special(f[0], ',');
      BareTail(f);
      TailOfJoin(f, rest);
      BareLine(f[1..], rest);
    }
  }

  lemma BareTail(f: string)
    requires Bare(f) && f != ""
    ensures Bare(f[1..])
  {
  }

  lemma {:induction false} BareCounts(f: string, d: char)
    requires Bare(f) && IsDelimiter(d)
    ensures Count(f, d) == 0
    decreases |f|
  {
    if f != "" {
      assert !Special(f[0], ',') && !Special(f[0], ';') && !Special(f[0], '\t');
      BareTail(f);
      BareCounts(f[1..], d);
    }
  }

  lemma {:induction false} HeaderLine(row: Row, rest: string, d: char)
    requires IsDelimiter(d) && row != [] && forall i :: 0 <= i < |row| ==> Bare(row[i])
    requires rest == "" || rest[0] == '\r' || rest[0] == '\n'
    ensures FirstLine(PrintRow(row, d) + rest) == PrintRow(row, d)
    ensures forall c :: IsDelimiter(c) ==> Count(PrintRow(row, d), c) == if c == d then |row| - 1 else 0
    decreases |row|
  {
    assert Bare(row[0]) && Plain(row[0], d);
    forall c | IsDelimiter(c)
      ensures Count(row[0], c) == 0
    {
      BareCounts(row[0], c);
    }
    if |row| == 1 {
      BareLine(row[0], rest);
      assert FirstLine(rest) == "";
    } else {
      var more := PrintRow(row[1..], d);
      HeaderLine(row[1..], rest, d);
      Assoc(row[0], [d] + more, rest);
      Assoc([d], more, rest);
      BareLine(row[0], [d] + (more + rest));
      assert ([d] + (more + rest))[1..] == more + rest;
      forall c | IsDelimiter(c)
        ensures Count(PrintRow(row, d), c) == if c == d then |row| - 1 else 0
      {
        CountJoin(row[0], [d] + more, c);
        CountJoin([d], more, c);
      }
    }
  }

  /** A header of two bare fields or more makes the reader detect the printer's delimiter. */
  lemma HeaderDecidesDelimiter(rows: seq<Row>, eols: seq<Eol>, d: char)
    requires IsDelimiter(d) && Rows(rows) && Terminates(eols, rows)
    requires rows != [] && |rows[0]| >= 2 && forall i :: 0 <= i < |rows[0]| ==> Bare(rows[0][i])
    ensures Detect(PrintRows(rows, eols, d)) == d
  {
    if eols == [] {
      HeaderLine(rows[0], "", d);
      assert PrintRow(rows[0], d) + "" == PrintRow(rows[0], d);
    } else {
      var rest := EolText(eols[0]) + PrintRows(rows[1..], eols[1..], d);
      EolStart(eols[0], PrintRows(rows[1..], eols[1..], d));
      HeaderLine(rows[0], rest, d);
    }
  }

  // ---------------------------------------------------------------- reading what was read

  lemma {:induction false} ReadKeepsContent(d: char, text: string, s: Scan)
    requires Table(s.rows)
    ensures Table(Read(d, text, s).rows)
    decreases |text|
  {
    if text != "" {
      var c := text[0];
      if s.quoted {
        if c != QUOTE {
          ReadKeepsContent(d, text[1..], s.(field := s.field + [c]));
        } else if |text| > 1 && text[1] == QUOTE {
          ReadKeepsContent(d, text[2..], s.(field := s.field + [QUOTE]));
        } else {
          ReadKeepsContent(d, text[1..], s.(quoted := false));
        }
      } else if c == QUOTE {
        ReadKeepsContent(d, text[1..], s.(quoted := true));
      } else if c == d {
        ReadKeepsContent(d, text[1..], EndField(s));
      } else if c == '\r' && |text| > 1 && text[1] == '\n' {
        ReadKeepsContent(d, text[2..], EndRow(s));
      } else if c == '\r' || c == '\n' {
        ReadKeepsContent(d, text[1..], EndRow(s));
      } else {
        ReadKeepsContent(d, text[1..], s.(field := s.field + [c]));
      }
    }
  }

  lemma RecordsAreATable(text: string)
    ensures Table(Records(text))
  {
    var clean := if text != "" && text[0] == BOM then text[1..] else text;
    ReadKeepsContent(Detect(clean), clean, START);
  }

  /** Whatever text was read, printing its rows behind a mark and reading again changes nothing. */
  lemma ReadingIsStable(text: string, eols: seq<Eol>, d: char)
    requires IsDelimiter(d) && Terminates(eols, Records(text))
    ensures Table(Records(text))
    ensures Detect(PrintRows(Records(text), eols, d)) == d ==>
              Records([BOM] + PrintRows(Records(text), eols, d)) == Records(text)
  {
    var rows := Records(text);
    RecordsAreATable(text);
    TableIsContentful(rows);
    TableHasRows(rows);
    if Detect(PrintRows(rows, eols, d)) == d {
      RoundTripWithMark(rows, eols, d);
    }
  }

  lemma TableHasRows(rows: seq<Row>)
    requires Table(rows)
    ensures Rows(rows)
  {
    forall i | 0 <= i < |rows|
      ensures rows[i] != []
    {
      assert HasContent(rows[i]);
    }
  }
}
