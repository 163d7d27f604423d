/**
 Printing a table as CSV, and a reader written to section 2 of RFC 4180 to say what was printed.
 */
module Csv {
  import opened Options

  /** A cell of text, the printed form of a number, or nothing. */
  datatype Cell = Text(text: string) | Number(printed: string) | Missing

  /* ---------- the printer ---------- */

  predicate OpensFormula(c: char) {
    c == '=' || c == '+' || c == '-' || c == '@' || c == '\t' || c == '\r'
  }

  /** What a cell says: text that a spreadsheet would take for a formula gets an apostrophe in front. */
  function Content(c: Cell): string {
    match c
    case Missing => ""
    case Number(s) => s
    case Text(s) => if s != "" && OpensFormula(s[0]) then "'" + s else s
  }

  predicate Special(c: char) {
    c == '\"' || c == ',' || c == '\r' || c == '\n'
  }

  predicate NeedsQuotes(s: string) {
    exists i | 0 <= i < |s| :: Special(s[i])
  }

  function Doubled(s: string): string {
    if s == "" then "" else (if s[0] == '\"' then "\"\"" else [s[0]]) + Doubled(s[1..])
  }

  function Printed(s: string): string {
    if NeedsQuotes(s) then "\"" + Doubled(s) + "\"" else s
  }

  function Field(c: Cell): string {
    Printed(Content(c))
  }

  function Line(cells: seq<Cell>): string {
    if cells == [] then ""
    else if |cells| == 1 then Field(cells[0])
    else Field(cells[0]) + "," + Line(cells[1..])
  }

  function Lines(rows: seq<seq<Cell>>): string {
    if rows == [] then "" else Line(rows[0]) + "\r\n" + Lines(rows[1..])
  }

  function TextCells(s: seq<string>): (cells: seq<Cell>)
    ensures |cells| == |s|
  {
    seq(|s|, i requires 0 <= i < |s| => Text(s[i]))
  }

  /** The header row and one row per record, each ended by CRLF. */
  function ToCsv(headers: seq<string>, rows: seq<seq<Cell>>): string {
    Lines([TextCells(headers)] + rows)
  }

  /* ---------- a reader ---------- */

  /** What an unquoted field ends at: RFC 4180 allows it no comma, quote, CR or LF. */
  predicate EndsPlain(c: char) {
    c == ',' || c == '\"' || c as int == 13 || c as int == 10
  }

  /** The rest of a quoted field, after its opening quote: a doubled quote is a quote, a single one ends it. */
  function ReadQuoted(s: string): (r: Option<(string, string)>)
    ensures r.Some? ==> |r.value.1| < |s|
  {
    if s == "" then None
    else if s[0] != '\"' then
      var r := ReadQuoted(s[1..]);
      if r.None? then None else Some(([s[0]] + r.value.0, r.value.1))
    else if |s| > 1 && s[1] == '\"' then
      var r := ReadQuoted(s[2..]);
      if r.None? then None else Some(("\"" + r.value.0, r.value.1))
    else Some(("", s[1..]))
  }

  function ReadPlain(s: string): (r: (string, string))
    ensures |r.1| <= |s|
    ensures s != "" && !EndsPlain(s[0]) ==> |r.1| < |s|
    ensures r.1 == "" || EndsPlain(r.1[0])
  {
    if s == "" || EndsPlain(s[0]) then ("", s)
    else
      var r := ReadPlain(s[1..]);
      ([s[0]] + r.0, r.1)
  }

  function ReadField(s: string): (r: Option<(string, string)>)
    ensures r.Some? ==> |r.value.1| <= |s|
  {
    if s != "" && s[0] == '\"' then ReadQuoted(s[1..]) else Some(ReadPlain(s))
  }

  /** One record and what follows its line break; None when the text is malformed. */
  function ReadRecord(s: string): (r: Option<(seq<string>, string)>)
    ensures r.Some? && s != "" ==> |r.value.1| < |s|
    ensures r.Some? ==> |r.value.1| <= |s|
    decreases |s|
  {
    var f := ReadField(s);
    if f.None? then None
    else
      var rest := f.value.1;
      if rest == "" then Some(([f.value.0], ""))
      else if rest[0] == ',' then
        var r := ReadRecord(rest[1..]);
        if r.None? then None else Some(([f.value.0] + r.value.0, r.value.1))
      else if |rest| >= 2 && rest[0] == '\r' && rest[1] == '\n' then Some(([f.value.0], rest[2..]))
      else None
  }

  function ReadCsv(s: string): Option<seq<seq<string>>>
    decreases |s|
  {
    if s == "" then Some([])
    else
      var r := ReadRecord(s);
      if r.None? then None
      else
        var others := ReadCsv(r.value.1);
        if others.None? then None else Some([r.value.0] + others.value)
  }

  /* ---------- reading what was printed ---------- */

  predicate EndsField(rest: string) {
    rest != "" && (rest[0] == ',' || rest[0] == '\r')
  }

  /** A quoted field after its opening quote, and what follows it. */
  function Closing(s: string, rest: string): string {
    Doubled(s) + ("\"" + rest)
  }

  lemma ClosingStarts(s: string, rest: string)
    requires s != ""
    ensures Closing(s, rest) == (if s[0] == '\"' then "\"\"" else [s[0]]) + Closing(s[1..], rest)
  {
  }

  lemma CharacterRead(c: char, tail: string)
    ensures var r := ReadQuoted(tail);
            ReadQuoted((if c == '\"' then "\"\"" else [c]) + tail)
            == if r.None? then None else Some(([c] + r.value.0, r.value.1))
  {
    if c == '\"' {
      assert ("\"\"" + tail)[2..] == tail;
    } else {
      assert ([c] + tail)[1..] == tail;
    }
  }

  lemma {:induction false} ClosingReadsBack(s: string, rest: string)
    requires EndsField(rest)
    ensures ReadQuoted(Closing(s, rest)) == Some((s, rest))
  {
    if s == "" {
      assert Closing(s, rest) == "\"" + rest;
    } else {
      ClosingReadsBack(s[1..], rest);
      ClosingStarts(s, rest);
      CharacterRead(s[0], Closing(s[1..], rest));
      assert [s[0]] + s[1..] == s;
    }
  }

  lemma {:induction false} PlainReadsBack(s: string, rest: string)
    requires EndsField(rest) && !NeedsQuotes(s)
    ensures ReadPlain(s + rest) == (s, rest)
  {
    if s == "" {
      assert s + rest == rest;
    } else {
      assert !Special(s[0]);
      forall i | 0 <= i < |s[1..]|
        ensures !Special(s[1..][i])
      {
        assert s[1..][i] == s[i + 1];
      }
      PlainReadsBack(s[1..], rest);
      assert (s + rest)[1..] == s[1..] + rest;
      assert [s[0]] + s[1..] == s;
    }
  }

  lemma QuotedIs(s: string, rest: string)
    requires NeedsQuotes(s)
    ensures Printed(s) + rest != "" && (Printed(s) + rest)[0] == '\"' && (Printed(s) + rest)[1..] == Closing(s, rest)
  {
  }

  lemma PlainStart(s: string, rest: string)
    requires EndsField(rest) && !NeedsQuotes(s)
    ensures Printed(s) + rest == s + rest != "" && (s + rest)[0] != '\"'
  {
    if s != "" {
      assert !Special(s[0]);
    }
  }

  lemma PrintedReadsBack(s: string, rest: string)
    requires EndsField(rest)
    ensures ReadField(Printed(s) + rest) == Some((s, rest))
  {
    if NeedsQuotes(s) {
      QuotedIs(s, rest);
      ClosingReadsBack(s, rest);
    } else {
      PlainStart(s, rest);
      PlainReadsBack(s, rest);
    }
  }

  lemma FieldReadsBack(c: Cell, rest: string)
    requires EndsField(rest)
    ensures ReadField(Field(c) + rest) == Some((Content(c), rest))
  {
    PrintedReadsBack(Content(c), rest);
  }

  function Contents(cells: seq<Cell>): (out: seq<string>)
    ensures |out| == |cells|
  {
    seq(|cells|, i requires 0 <= i < |cells| => Content(cells[i]))
  }

  /** What a row says: a row without cells prints an empty line, which is one empty field. */
  function RowSays(cells: seq<Cell>): seq<string> {
    if cells == [] then [""] else Contents(cells)
  }

  lemma LastFieldReadsBack(field: string, content: string, rest: string)
    requires ReadField(field + ("\r\n" + rest)) == Some((content, "\r\n" + rest))
    ensures ReadRecord(field + "\r\n" + rest) == Some(([content], rest))
  {
    var end := "\r\n" + rest;
    assert field + "\r\n" + rest == field + end;
    assert end[2..] == rest;
  }

  lemma NextFieldReadsBack(field: string, content: string, line: string, contents: seq<string>, rest: string)
    requires ReadField(field + ("," + line)) == Some((content, "," + line))
    requires ReadRecord(line) == Some((contents, rest))
    ensures ReadRecord(field + ("," + line)) == Some(([content] + contents, rest))
  {
    assert ("," + line)[1..] == line;
  }

  /** A spreadsheet evaluates what opens with one of these. */
  predicate IsEvaluated(s: string) {
    s != "" && s[0] in "=+-@\t\r"
  }

  /**
   What a cell is read back as: a number as it was printed, and text as it was, with an apostrophe
   in front exactly when it would be evaluated otherwise. No text is evaluated.
   */
  lemma NoTextIsEvaluated(c: Cell, rest: string)
    requires EndsField(rest)
    ensures ReadField(Field(c) + rest).Some?
    ensures var read := ReadField(Field(c) + rest).value.0;
            match c
            case Missing => read == ""
            case Number(printed) => read == printed
            case Text(text) =>
              !IsEvaluated(read) && read == if IsEvaluated(text) then "'" + text else text
  {
    FieldReadsBack(c, rest);
  }

  lemma OneCellReadsBack(c: Cell, rest: string)
    ensures ReadRecord(Line([c]) + "\r\n" + rest) == Some(([Content(c)], rest))
  {
    FieldReadsBack(c, "\r\n" + rest);
    LastFieldReadsBack(Field(c), Content(c), rest);
  }

  lemma NextCellReadsBack(c: Cell, line: string, contents: seq<string>, rest: string)
    requires ReadRecord(line) == Some((contents, rest))
    ensures ReadRecord(Field(c) + ("," + line)) == Some(([Content(c)] + contents, rest))
  {
    assert EndsField("," + line);
    FieldReadsBack(c, "," + line);
    NextFieldReadsBack(Field(c), Content(c), line, contents, rest);
  }

  lemma LineIs(cells: seq<Cell>, rest: string)
    requires |cells| > 1
    ensures Line(cells) + "\r\n" + rest == Field(cells[0]) + ("," + (Line(cells[1..]) + "\r\n" + rest))
  {
    Regroup(Field(cells[0]), ",", Line(cells[1..]), "\r\n", rest);
  }

  lemma Regroup(a: string, b: string, c: string, d: string, e: string)
    ensures (a + b + c) + d + e == a + (b + (c + d + e))
  {
  }

  lemma EmptyLineReadsBack(rest: string)
    ensures ReadRecord("" + "\r\n" + rest) == Some(([""], rest))
  {
    var end := "\r\n" + rest;
    assert "" + "\r\n" + rest == end;
    assert end[2..] == rest;
  }

  lemma {:induction false} LineReadsBack(cells: seq<Cell>, rest: string)
    ensures ReadRecord(Line(cells) + "\r\n" + rest) == Some((RowSays(cells), rest))
    decreases |cells|
  {
    if cells == [] {
      EmptyLineReadsBack(rest);
    } else if |cells| == 1 {
      assert cells == [cells[0]];
      OneCellReadsBack(cells[0], rest);
      assert Contents(cells) == [Content(cells[0])];
    } else {
      LineReadsBack(cells[1..], rest);
      NextCellReadsBack(cells[0], Line(cells[1..]) + "\r\n" + rest, RowSays(cells[1..]), rest);
      LineIs(cells, rest);
      assert [Content(cells[0])] + Contents(cells[1..]) == Contents(cells);
    }
  }

  function TableSays(rows: seq<seq<Cell>>): (out: seq<seq<string>>)
    ensures |out| == |rows|
  {
    seq(|rows|, i requires 0 <= i < |rows| => RowSays(rows[i]))
  }

  lemma {:induction false} LinesReadBack(rows: seq<seq<Cell>>)
    ensures ReadCsv(Lines(rows)) == Some(TableSays(rows))
    decreases |rows|
  {
    if rows != [] {
      LinesReadBack(rows[1..]);
      LineReadsBack(rows[0], Lines(rows[1..]));
      assert Lines(rows) == Line(rows[0]) + "\r\n" + Lines(rows[1..]);
      assert [RowSays(rows[0])] + TableSays(rows[1..]) == TableSays(rows);
    }
  }

  /** Reading a printed table gives back the header row and every row, cell by cell. */
  lemma CsvRoundTrip(headers: seq<string>, rows: seq<seq<Cell>>)
    ensures ReadCsv(ToCsv(headers, rows)) == Some([RowSays(TextCells(headers))] + TableSays(rows))
  {
    LinesReadBack([TextCells(headers)] + rows);
    assert TableSays([TextCells(headers)] + rows) == [RowSays(TextCells(headers))] + TableSays(rows);
  }

  function AllContents(rows: seq<seq<Cell>>): (out: seq<seq<string>>)
    ensures |out| == |rows|
  {
    seq(|rows|, i requires 0 <= i < |rows| => Contents(rows[i]))
  }

  lemma RowSaysItsContents(cells: seq<Cell>)
    ensures RowSays(cells) == Contents(cells) <==> cells != []
  {
    assert |RowSays(cells)| == if cells == [] then 1 else |cells|;
  }

  lemma TableSaysItsContents(rows: seq<seq<Cell>>)
    ensures TableSays(rows) == AllContents(rows) <==> forall i | 0 <= i < |rows| :: rows[i] != []
  {
    forall i | 0 <= i < |rows|
      ensures TableSays(rows)[i] == AllContents(rows)[i] <==> rows[i] != []
    {
      RowSaysItsContents(rows[i]);
    }
    if TableSays(rows) == AllContents(rows) {
      forall i | 0 <= i < |rows|
        ensures rows[i] != []
      {
        assert TableSays(rows)[i] == AllContents(rows)[i];
      }
    }
  }

  /** The contents come back exactly as they are when, and only when, no row is without cells. */
  lemma RowsComeBackExactlyWhen(headers: seq<string>, rows: seq<seq<Cell>>)
    ensures ReadCsv(ToCsv(headers, rows)) == Some([Contents(TextCells(headers))] + AllContents(rows))
            <==> headers != [] && forall i | 0 <= i < |rows| :: rows[i] != []
  {
    CsvRoundTrip(headers, rows);
    RowSaysItsContents(TextCells(headers));
    TableSaysItsContents(rows);
    SameHeadAndTail(RowSays(TextCells(headers)), TableSays(rows), Contents(TextCells(headers)), AllContents(rows));
  }

  lemma SameHeadAndTail(a: seq<string>, s: seq<seq<string>>, b: seq<string>, t: seq<seq<string>>)
    ensures [a] + s == [b] + t <==> a == b && s == t
  {
    assert ([a] + s)[0] == a && ([a] + s)[1..] == s;
    assert ([b] + t)[0] == b && ([b] + t)[1..] == t;
  }
}
