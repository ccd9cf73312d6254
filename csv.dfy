/** The CSV text that the SQL console offers for download, and a reader that
    honours double quotes as section 2 of RFC 4180 describes, used to state what
    the export preserves and what it does not. */
module Csv {
  import opened Common
  import opened Text

  /** A value of a result row as the console receives it: a string, SQL NULL,
      a column the row does not have, or any other value (number, boolean,
      date, array, object) together with the text `String(value)` gives it. */
  datatype Cell = Str(s: string) | Null | Undefined | Shown(text: string)

  /** A result row, keyed by column name. */
  type Row = map<string, Cell>

  /** `row[col]`; a missing key reads as `undefined`. */
  function Lookup(row: Row, column: string): (c: Cell)
    ensures column in row ==> c == row[column]
    ensures column !in row ==> c == Undefined
  {
    if column in row then row[column] else Undefined
  }

  /** The text `Array.prototype.join` writes for an element: `null` and
      `undefined` become the empty string, every other value its string form. */
  function Display(c: Cell): string
  {
    match c
    case Str(s) => s
    case Null => ""
    case Undefined => ""
    case Shown(t) => t
  }

  /** `value.replace(/"/g, '""')`. */
  function DoubleQuotes(s: string): (r: string)
    ensures |r| == |s| + Count(s, '"')
  {
    if s == [] then []
    else if s[0] == '"' then "\"\"" + DoubleQuotes(s[1..])
    else [s[0]] + DoubleQuotes(s[1..])
  }

  /** Reading direction of `DoubleQuotes`: every `""` becomes `"`. */
  function CollapseQuotes(s: string): string
  {
    if s == [] then []
    else if |s| >= 2 && s[0] == '"' && s[1] == '"' then "\"" + CollapseQuotes(s[2..])
    else [s[0]] + CollapseQuotes(s[1..])
  }

  /** Collapsing doubled quotes gives back the original text. */
  lemma {:induction false} CollapseUndoesDouble(s: string)
    ensures CollapseQuotes(DoubleQuotes(s)) == s
  {
    if s != [] {
      CollapseUndoesDouble(s[1..]);
      if s[0] == '"' {
        assert DoubleQuotes(s) == "\"\"" + DoubleQuotes(s[1..]);
      } else {
        assert DoubleQuotes(s) == [s[0]] + DoubleQuotes(s[1..]);
      }
    }
  }

  /** Only a string containing a comma is quoted; `value.includes(",")`. */
  predicate NeedsQuotes(c: Cell)
  {
    c.Str? && ',' in c.s
  }

  /** The text written for one cell. */
  function Field(c: Cell): (r: string)
    ensures NeedsQuotes(c) ==>
      |r| >= 2 && r[0] == '"' && r[|r| - 1] == '"' && CollapseQuotes(r[1..|r| - 1]) == c.s
    ensures !NeedsQuotes(c) ==> r == Display(c)
  {
    if NeedsQuotes(c) then
      var inner := DoubleQuotes(c.s);
      CollapseUndoesDouble(c.s);
      var r := "\"" + inner + "\"";
      assert r[1..|r| - 1] == inner;
      r
    else Display(c)
  }

  /** The cells of one row, one per column, in column order. */
  function Cells(columns: seq<string>, row: Row): (r: seq<string>)
    ensures |r| == |columns|
    ensures forall j :: 0 <= j < |columns| ==> r[j] == Field(Lookup(row, columns[j]))
  {
    seq(|columns|, j requires 0 <= j < |columns| => Field(Lookup(row, columns[j])))
  }

  /** One data line: the row's cells joined by commas. */
  function Line(columns: seq<string>, row: Row): (r: string)
    ensures columns == [] ==> r == ""
    ensures |columns| == 1 ==> r == Field(Lookup(row, columns[0]))
  {
    Join(Cells(columns, row), ",")
  }

  /** The lines of the document: the header (column names joined by commas,
      not escaped) followed by one line per row. */
  function Lines(columns: seq<string>, rows: seq<Row>): (r: seq<string>)
    ensures |r| == |rows| + 1
    ensures r[0] == Join(columns, ",")
    ensures forall i :: 0 <= i < |rows| ==> r[i + 1] == Line(columns, rows[i])
  {
    [Join(columns, ",")] + seq(|rows|, i requires 0 <= i < |rows| => Line(columns, rows[i]))
  }

  /** The whole document: its lines joined by line feeds. */
  function Document(columns: seq<string>, rows: seq<Row>): (r: string)
    ensures Join(columns, ",") <= r
    ensures rows == [] ==> r == Join(columns, ",")
  {
    Join(Lines(columns, rows), "\n")
  }

  // ---------------------------------------------------------------------
  // A reader that honours double quotes.

  /** Length of the first field (or record) of `s` for a reader that starts in
      the given quoting state: the position of the first `sep` met outside
      quotes, or `|s|` if there is none. Each `"` switches the quoting state. */
  function FieldEnd(s: string, quoted: bool, sep: char): (n: nat)
    ensures n <= |s|
    ensures n < |s| ==> s[n] == sep
  {
    if s == [] then 0
    else if s[0] == sep && !quoted then 0
    else 1 + FieldEnd(s[1..], if s[0] == '"' then !quoted else quoted, sep)
  }

  /** Splits `s` at every `sep` that stands outside quotes. */
  function Split(s: string, sep: char): (parts: seq<string>)
    ensures |parts| >= 1
    decreases |s|
  {
    var n := FieldEnd(s, false, sep);
    if n == |s| then [s] else [s[..n]] + Split(s[n + 1..], sep)
  }

  /** Reading `s` from the given quoting state never meets `sep` outside
      quotes and ends outside quotes. */
  predicate Closed(s: string, quoted: bool, sep: char)
  {
    if s == [] then !quoted
    else if s[0] == sep && !quoted then false
    else Closed(s[1..], if s[0] == '"' then !quoted else quoted, sep)
  }

  /** The value of a field: a field enclosed in `"` loses them and has its
      `""` collapsed; any other field is taken as it stands. */
  function Unquote(f: string): string
  {
    if |f| >= 2 && f[0] == '"' && f[|f| - 1] == '"' then CollapseQuotes(f[1..|f| - 1]) else f
  }

  /** Records split at line feeds, fields split at commas, then unquoted. */
  function Read(doc: string): seq<seq<string>>
  {
    var records := Split(doc, '\n');
    seq(|records|, i requires 0 <= i < |records| => ReadRecord(records[i]))
  }

  function ReadRecord(record: string): (r: seq<string>)
  {
    var fields := Split(record, ',');
    seq(|fields|, j requires 0 <= j < |fields| => Unquote(fields[j]))
  }

  // ---------------------------------------------------------------------
  // What the reader gets back.

  /** A closed prefix is read to its end and leaves the reader outside quotes. */
  lemma {:induction false} ClosedPrefix(a: string, b: string, quoted: bool, sep: char)
    requires Closed(a, quoted, sep)
    ensures FieldEnd(a + b, quoted, sep) == |a| + FieldEnd(b, false, sep)
    ensures Closed(a + b, quoted, sep) == Closed(b, false, sep)
    decreases |a|
  {
    if a == [] {
      assert a + b == b;
    } else {
      var q := if a[0] == '"' then !quoted else quoted;
      assert (a + b)[0] == a[0] && (a + b)[1..] == a[1..] + b;
      ClosedPrefix(a[1..], b, q, sep);
    }
  }

  /** A closed field followed by `sep` is split off as the first part. */
  lemma SplitFirst(head: string, rest: string, sep: char)
    requires Closed(head, false, sep)
    ensures Split(head + ([sep] + rest), sep) == [head] + Split(rest, sep)
  {
    var s := head + ([sep] + rest);
    ClosedPrefix(head, [sep] + rest, false, sep);
    assert FieldEnd(s, false, sep) == |head|;
    assert s[..|head|] == head && s[|head| + 1..] == rest;
  }

  /** Joining closed parts with `sep` and splitting at `sep` gives the parts back. */
  lemma {:induction false} SplitJoin(parts: seq<string>, sep: char)
    requires |parts| >= 1
    requires forall i :: 0 <= i < |parts| ==> Closed(parts[i], false, sep)
    ensures Split(Join(parts, [sep]), sep) == parts
    decreases |parts|
  {
    if |parts| == 1 {
      ClosedPrefix(parts[0], [], false, sep);
      assert parts[0] + [] == parts[0];
    } else {
      var head, tail := parts[0], parts[1..];
      assert Join(parts, [sep]) == head + ([sep] + Join(tail, [sep]));
      SplitFirst(head, Join(tail, [sep]), sep);
      forall i | 0 <= i < |tail| ensures Closed(tail[i], false, sep) {
        assert tail[i] == parts[i + 1];
      }
      SplitJoin(tail, sep);
      assert [head] + tail == parts;
    }
  }

  /** Parts that are closed stay closed when glued with a closed separator. */
  lemma {:induction false} ClosedJoin(parts: seq<string>, glue: string, sep: char)
    requires forall i :: 0 <= i < |parts| ==> Closed(parts[i], false, sep)
    requires Closed(glue, false, sep)
    ensures Closed(Join(parts, glue), false, sep)
    decreases |parts|
  {
    if |parts| >= 2 {
      var rest := Join(parts[1..], glue);
      ClosedJoin(parts[1..], glue, sep);
      assert Join(parts, glue) == parts[0] + (glue + rest);
      ClosedPrefix(parts[0], glue + rest, false, sep);
      ClosedPrefix(glue, rest, false, sep);
    }
  }

  /** Text with no `"` and no `sep` is closed. */
  lemma {:induction false} PlainClosed(t: string, sep: char)
    requires '"' !in t && sep !in t
    ensures Closed(t, false, sep)
    decreases |t|
  {
    if t != [] {
      assert t[0] != sep && t[0] != '"';
      PlainClosed(t[1..], sep);
    }
  }

  /** Inside quotes, a character other than `"` is taken as it is. */
  lemma QuotedChar(c: char, x: string, sep: char)
    requires c != '"'
    ensures Closed([c] + x, true, sep) == Closed(x, true, sep)
  {
    assert ([c] + x)[1..] == x;
  }

  /** Inside quotes, a doubled quote leaves the reader inside quotes. */
  lemma QuotedPair(x: string, sep: char)
    requires sep != '"'
    ensures Closed("\"\"" + x, true, sep) == Closed(x, true, sep)
  {
    var u := "\"\"" + x;
    assert u[1..] == "\"" + x && u[1..][1..] == x;
  }

  /** Inside quotes, doubled quotes never end the quoted run. */
  lemma {:induction false} DoubledStaysQuoted(s: string, t: string, sep: char)
    requires sep != '"'
    ensures Closed(DoubleQuotes(s) + t, true, sep) == Closed(t, true, sep)
    decreases |s|
  {
    if s == [] {
      assert DoubleQuotes(s) + t == t;
    } else {
      DoubledStaysQuoted(s[1..], t, sep);
      var rest := DoubleQuotes(s[1..]) + t;
      if s[0] == '"' {
        assert DoubleQuotes(s) + t == "\"\"" + rest;
        QuotedPair(rest, sep);
      } else {
        assert DoubleQuotes(s) + t == [s[0]] + rest;
        QuotedChar(s[0], rest, sep);
      }
    }
  }

  /** Text the export writes unchanged and that a reader takes back unchanged. */
  predicate Plain(t: string)
  {
    ',' !in t && '"' !in t && '\n' !in t
  }

  /** A cell the reader gets back: it is quoted, or its text is plain. */
  predicate Readable(c: Cell)
  {
    NeedsQuotes(c) || Plain(Display(c))
  }

  /** The text written for a readable cell is closed for both separators. */
  lemma FieldClosed(c: Cell, sep: char)
    requires Readable(c) && (sep == ',' || sep == '\n')
    ensures Closed(Field(c), false, sep)
  {
    if NeedsQuotes(c) {
      var t := "\"";
      DoubledStaysQuoted(c.s, t, sep);
      assert Field(c) == "\"" + (DoubleQuotes(c.s) + t);
    } else {
      PlainClosed(Display(c), sep);
    }
  }

  /** The reader's value of a readable cell is the text `join` would write for it. */
  lemma UnquoteField(c: Cell)
    requires Readable(c)
    ensures Unquote(Field(c)) == Display(c)
  {
    if !NeedsQuotes(c) {
      var t := Display(c);
      if |t| >= 2 {
        assert t[0] != '"';
      }
    }
  }

  /** What a reader should get for one row: the text of every column's cell. */
  function RowTexts(columns: seq<string>, row: Row): (r: seq<string>)
    ensures |r| == |columns|
    ensures forall j :: 0 <= j < |columns| ==> r[j] == Display(Lookup(row, columns[j]))
  {
    seq(|columns|, j requires 0 <= j < |columns| => Display(Lookup(row, columns[j])))
  }

  /** When every cell's field is closed, splitting a line at unquoted commas
      gives back exactly its cells. */
  lemma SplitLine(columns: seq<string>, row: Row)
    requires |columns| >= 1
    requires forall j :: 0 <= j < |columns| ==> Closed(Cells(columns, row)[j], false, ',')
    ensures Split(Line(columns, row), ',') == Cells(columns, row)
  {
    SplitJoin(Cells(columns, row), ',');
  }

  /** Reading a data line whose cells are all readable gives, for every column,
      the text of that column's cell. */
  lemma ReadLine(columns: seq<string>, row: Row)
    requires |columns| >= 1
    requires forall j :: 0 <= j < |columns| ==> Readable(Lookup(row, columns[j]))
    ensures ReadRecord(Line(columns, row)) == RowTexts(columns, row)
  {
    var cells := Cells(columns, row);
    forall j | 0 <= j < |cells| ensures Closed(cells[j], false, ',') {
      FieldClosed(Lookup(row, columns[j]), ',');
    }
    SplitLine(columns, row);
    forall j | 0 <= j < |cells| ensures Unquote(cells[j]) == Display(Lookup(row, columns[j])) {
      UnquoteField(Lookup(row, columns[j]));
    }
  }

  /** Reading the header gives back the column names when they are plain. */
  lemma ReadHeader(columns: seq<string>)
    requires |columns| >= 1
    requires forall j :: 0 <= j < |columns| ==> Plain(columns[j])
    ensures ReadRecord(Join(columns, ",")) == columns
  {
    forall j | 0 <= j < |columns| ensures Closed(columns[j], false, ',') {
      PlainClosed(columns[j], ',');
    }
    SplitJoin(columns, ',');
    forall j | 0 <= j < |columns| ensures Unquote(columns[j]) == columns[j] {
      if |columns[j]| >= 2 {
        assert columns[j][0] != '"';
      }
    }
  }

  /** Splitting the document at line feeds gives back its lines when every
      column name is plain and every cell is readable. */
  lemma SplitDocument(columns: seq<string>, rows: seq<Row>)
    requires forall j :: 0 <= j < |columns| ==> Plain(columns[j])
    requires forall i, j :: 0 <= i < |rows| && 0 <= j < |columns| ==> Readable(Lookup(rows[i], columns[j]))
    ensures Split(Document(columns, rows), '\n') == Lines(columns, rows)
  {
    var lines := Lines(columns, rows);
    forall i | 0 <= i < |lines| ensures Closed(lines[i], false, '\n') {
      if i == 0 {
        forall j | 0 <= j < |columns| ensures Closed(columns[j], false, '\n') {
          PlainClosed(columns[j], '\n');
        }
        ClosedJoin(columns, ",", '\n');
      } else {
        var cells := Cells(columns, rows[i - 1]);
        forall j | 0 <= j < |cells| ensures Closed(cells[j], false, '\n') {
          FieldClosed(Lookup(rows[i - 1], columns[j]), '\n');
        }
        ClosedJoin(cells, ",", '\n');
      }
    }
    SplitJoin(lines, '\n');
  }

  /** Round trip of the export: when the column names are plain and every cell
      is readable, a quote-aware reader recovers the header and then, row by
      row, the text of every cell. */
  lemma ReadDocument(columns: seq<string>, rows: seq<Row>)
    requires |columns| >= 1
    requires forall j :: 0 <= j < |columns| ==> Plain(columns[j])
    requires forall i, j :: 0 <= i < |rows| && 0 <= j < |columns| ==> Readable(Lookup(rows[i], columns[j]))
    ensures var table := Read(Document(columns, rows));
      |table| == |rows| + 1 && table[0] == columns &&
      forall i :: 0 <= i < |rows| ==> table[i + 1] == RowTexts(columns, rows[i])
  {
    var doc := Document(columns, rows);
    var lines := Lines(columns, rows);
    SplitDocument(columns, rows);
    var table := Read(doc);
    assert |table| == |lines|;
    assert forall i :: 0 <= i < |lines| ==> table[i] == ReadRecord(lines[i]);
    ReadHeader(columns);
    forall i | 0 <= i < |rows| ensures table[i + 1] == RowTexts(columns, rows[i]) {
      ReadLine(columns, rows[i]);
    }
  }

  /** Read from outside quotes, `x"y,z` is one field: the quote opens a quoted
      section that the comma falls inside. */
  lemma StrayQuoteSpansComma()
    ensures ReadRecord("x\"y,z") == ["x\"y,z"]
  {
    var line := "x\"y,z";
    assert FieldEnd(line[4..], true, ',') == 1;
    assert FieldEnd(line[2..], true, ',') == 3;
    assert FieldEnd(line, false, ',') == 5;
    assert Split(line, ',') == [line];
  }

  /** The export is not RFC 4180 for a string with a double quote and no comma:
      it is written unquoted, and in this row the quote then swallows the next
      separator, so the two-column row reads back as a single field. */
  lemma QuoteWithoutCommaMergesFields()
    ensures ReadRecord(Line(["a", "b"], map["a" := Str("x\"y"), "b" := Str("z")])) == ["x\"y,z"]
  {
    var row: Row := map["a" := Str("x\"y"), "b" := Str("z")];
    assert Cells(["a", "b"], row) == ["x\"y", "z"];
    assert Line(["a", "b"], row) == "x\"y,z";
    StrayQuoteSpansComma();
  }
}
