/**
 * CSV output (app/src/lib/csv.ts) read back by a parser for the format of section 2 of
 * RFC 4180.
 */
module Csv {
  import opened Collections

  // ---- the writer --------------------------------------------------------------------------

  predicate Special(c: char) { c == '"' || c == ',' || c == '\r' || c == '\n' }

  function NeedsQuotes(s: string): bool
  {
    s != [] && (Special(s[0]) || NeedsQuotes(s[1..]))
  }

  function Doubled(s: string): string
  {
    if s == [] then [] else (if s[0] == '"' then ['"', '"'] else [s[0]]) + Doubled(s[1..])
  }

  function EscapeCell(s: string): string
  {
    if NeedsQuotes(s) then ['"'] + Doubled(s) + ['"'] else s
  }

  function Join(lines: seq<string>, sep: string): string
  {
    if lines == [] then []
    else if |lines| == 1 then lines[0]
    else lines[0] + sep + Join(lines[1..], sep)
  }

  function Escaped(cells: seq<string>): seq<string>
  {
    seq(|cells|, i requires 0 <= i < |cells| => EscapeCell(cells[i]))
  }

  function Line(cells: seq<string>): string { Join(Escaped(cells), [',']) }

  const CRLF: string := ['\r', '\n']

  function Lines(records: seq<seq<string>>): seq<string>
  {
    seq(|records|, i requires 0 <= i < |records| => Line(records[i]))
  }

  /** The text of a header and rows. */
  function Text(records: seq<seq<string>>): string { Join(Lines(records), CRLF) }

  datatype Column = Column(key: string, header: string)

  /** `keys` are the row's own keys in order; a key may hold no value. */
  datatype Row = Row(keys: seq<string>, values: map<string, Option<string>>)

  function CellOf(row: Row, key: string): string
  {
    if key in row.values && row.values[key].Some? then row.values[key].value else []
  }

  function Headers(cols: seq<Column>): seq<string>
  {
    seq(|cols|, i requires 0 <= i < |cols| => cols[i].header)
  }

  function Cells(cols: seq<Column>, row: Row): seq<string>
  {
    seq(|cols|, i requires 0 <= i < |cols| => CellOf(row, cols[i].key))
  }

  function Records(cols: seq<Column>, rows: seq<Row>): seq<seq<string>>
  {
    [Headers(cols)] + seq(|rows|, i requires 0 <= i < |rows| => Cells(cols, rows[i]))
  }

  function ColumnsOf(rows: seq<Row>, columns: Option<seq<Column>>): seq<Column>
  {
    if columns.Some? then columns.value
    else if rows == [] then []
    else seq(|rows[0].keys|, i requires 0 <= i < |rows[0].keys| => Column(rows[0].keys[i], rows[0].keys[i]))
  }

  method ToCsv(rows: seq<Row>, columns: Option<seq<Column>>) returns (text: string)
    ensures var cols := ColumnsOf(rows, columns);
      text == if cols == [] then [] else Text(Records(cols, rows))
  {
    var cols := ColumnsOf(rows, columns);
    if |cols| == 0 { return []; }
    var lines := [Line(Headers(cols))];
    for i := 0 to |rows|
      invariant lines == Lines(Records(cols, rows))[..i + 1]
    {
      assert Records(cols, rows)[i + 1] == Cells(cols, rows[i]);
      lines := lines + [Line(Cells(cols, rows[i]))];
    }
    assert Lines(Records(cols, rows))[..|rows| + 1] == Lines(Records(cols, rows));
    text := Join(lines, CRLF);
  }

  // ---- the reader --------------------------------------------------------------------------------

  datatype Read<T> = Read(value: T, rest: string)

  /** Characters up to the next comma, quote or line break. */
  function Plain(t: string): (r: Read<string>)
    ensures |r.rest| <= |t|
  {
    if t == [] || Special(t[0]) then Read([], t)
    else
      var r := Plain(t[1..]);
      Read([t[0]] + r.value, r.rest)
  }

  /** After an opening quote: two quotes are one, a single quote ends the field. */
  function Quoted(t: string): (r: Option<Read<string>>)
    ensures r.Some? ==> |r.value.rest| <= |t|
  {
    if t == [] then None
    else if t[0] == '"' then
      if |t| > 1 && t[1] == '"' then Prepend('"', Quoted(t[2..])) else Some(Read([], t[1..]))
    else Prepend(t[0], Quoted(t[1..]))
  }

  function Prepend(c: char, r: Option<Read<string>>): Option<Read<string>>
  {
    match r case None => None case Some(x) => Some(Read([c] + x.value, x.rest))
  }

  function Field(t: string): (r: Option<Read<string>>)
    ensures r.Some? ==> |r.value.rest| <= |t|
  {
    if t != [] && t[0] == '"' then Quoted(t[1..]) else Some(Plain(t))
  }

  function Record(t: string): (r: Option<Read<seq<string>>>)
    ensures r.Some? ==> |r.value.rest| <= |t|
    decreases |t|
  {
    match Field(t)
    case None => None
    case Some(f) =>
      if f.rest != [] && f.rest[0] == ',' then
        match Record(f.rest[1..])
        case None => None
        case Some(more) => Some(Read([f.value] + more.value, more.rest))
      else Some(Read([f.value], f.rest))
  }

  /** Records separated by CRLF; the last one may or may not end with one. */
  function Parse(t: string): Option<seq<seq<string>>>
    decreases |t|
  {
    match Record(t)
    case None => None
    case Some(r) =>
      if r.rest == [] then Some([r.value])
      else if |r.rest| >= 2 && r.rest[0] == '\r' && r.rest[1] == '\n' then
        if |r.rest| == 2 then Some([r.value])
        else
          match Parse(r.rest[2..])
          case None => None
          case Some(more) => Some([r.value] + more)
      else None
  }

  // ---- round trip ----------------------------------------------------------------------------------

  /** What may follow a field. */
  predicate Ends(rest: string) { rest == [] || rest[0] == ',' || rest[0] == '\r' }

  lemma {:induction false} PlainReads(s: string, rest: string)
    requires !NeedsQuotes(s) && Ends(rest)
    ensures Plain(s + rest) == Read(s, rest)
  {
    if s == [] {
      assert s + rest == rest;
    } else {
      PlainReads(s[1..], rest);
      assert (s + rest)[1..] == s[1..] + rest;
      assert [s[0]] + s[1..] == s;
    }
  }

  lemma QuotedQuote(t: string)
    ensures Quoted(['"', '"'] + t) == Prepend('"', Quoted(t))
  {
    assert (['"', '"'] + t)[2..] == t;
  }

  lemma QuotedOther(c: char, t: string)
    requires c != '"'
    ensures Quoted([c] + t) == Prepend(c, Quoted(t))
  {
    assert ([c] + t)[1..] == t;
  }

  lemma QuotedCharacter(c: char, s: string, tail: string)
    requires s != [] && s[0] == c
    ensures Quoted(Doubled(s) + tail) == Prepend(c, Quoted(Doubled(s[1..]) + tail))
  {
    var rest := Doubled(s[1..]) + tail;
    if c == '"' {
      assert Doubled(s) + tail == ['"', '"'] + rest;
      QuotedQuote(rest);
    } else {
      assert Doubled(s) + tail == [c] + rest;
      QuotedOther(c, rest);
    }
  }

  lemma QuoteEnds(rest: string)
    requires Ends(rest)
    ensures Quoted(['"'] + rest) == Some(Read([], rest))
  {
    assert (['"'] + rest)[1..] == rest;
  }

  lemma {:induction false} QuotedReads(s: string, rest: string)
    requires Ends(rest)
    ensures Quoted(Doubled(s) + (['"'] + rest)) == Some(Read(s, rest))
  {
    if s == [] {
      QuoteEnds(rest);
      assert Doubled(s) + (['"'] + rest) == ['"'] + rest;
    } else {
      QuotedReads(s[1..], rest);
      QuotedCharacter(s[0], s, ['"'] + rest);
      assert [s[0]] + s[1..] == s;
    }
  }

  lemma QuoteStep(body: string, rest: string)
    ensures var t := (['"'] + body + ['"']) + rest;
      t[0] == '"' && t[1..] == body + (['"'] + rest)
  {}

  lemma SeparatorStep(head: string, c: char, tail: string, rest: string)
    ensures (head + [c] + tail) + rest == head + ([c] + (tail + rest))
    ensures ([c] + (tail + rest))[0] == c && ([c] + (tail + rest))[1..] == tail + rest
  {}

  lemma FieldReadsQuoted(s: string, rest: string)
    requires NeedsQuotes(s) && Ends(rest)
    ensures Field(EscapeCell(s) + rest) == Some(Read(s, rest))
  {
    QuoteStep(Doubled(s), rest);
    QuotedReads(s, rest);
  }

  lemma FieldReadsPlain(s: string, rest: string)
    requires !NeedsQuotes(s) && Ends(rest)
    ensures Field(s + rest) == Some(Read(s, rest))
  {
    PlainReads(s, rest);
    assert s + rest != [] ==> (s + rest)[0] == if s == [] then rest[0] else s[0];
  }

  /** Any cell text reads back, whatever mix of commas, quotes, CR and LF it holds. */
  lemma FieldReads(s: string, rest: string)
    requires Ends(rest)
    ensures Field(EscapeCell(s) + rest) == Some(Read(s, rest))
  {
    if NeedsQuotes(s) { FieldReadsQuoted(s, rest); } else { FieldReadsPlain(s, rest); }
  }

  lemma LineStep(cells: seq<string>)
    requires |cells| > 1
    ensures Line(cells) == EscapeCell(cells[0]) + [','] + Line(cells[1..])
  {
    assert Escaped(cells)[1..] == Escaped(cells[1..]);
  }

  lemma RecordStep(cell: string, tail: string, rest: string, cells: seq<string>)
    requires Record(tail + rest) == Some(Read(cells, rest))
    ensures Record((EscapeCell(cell) + [','] + tail) + rest) == Some(Read([cell] + cells, rest))
  {
    SeparatorStep(EscapeCell(cell), ',', tail, rest);
    FieldReads(cell, [','] + (tail + rest));
  }

  lemma {:induction false} RecordReads(cells: seq<string>, rest: string)
    requires cells != [] && (rest == [] || rest[0] == '\r')
    ensures Record(Line(cells) + rest) == Some(Read(cells, rest))
    decreases |cells|
  {
    if |cells| == 1 {
      FieldReads(cells[0], rest);
      assert [cells[0]] == cells;
    } else {
      LineStep(cells);
      RecordReads(cells[1..], rest);
      RecordStep(cells[0], Line(cells[1..]), rest, cells[1..]);
      assert [cells[0]] + cells[1..] == cells;
    }
  }

  lemma TextStep(records: seq<seq<string>>)
    requires |records| > 1
    ensures Text(records) == Line(records[0]) + CRLF + Text(records[1..])
  {
    assert Lines(records)[1..] == Lines(records[1..]);
  }

  /** A line is empty only for a single empty cell. */
  lemma EmptyLine(cells: seq<string>)
    requires cells != []
    ensures Line(cells) == [] <==> cells == [[]]
  {
    if |cells| > 1 { LineStep(cells); } else { assert cells == [cells[0]]; }
  }

  /** The text ends in a single empty cell on a line of its own. */
  predicate EndsInEmptyLine(records: seq<seq<string>>)
  {
    |records| > 1 && records[|records| - 1] == [[]]
  }

  /** One more record in front of a text that reads back. */
  lemma ParseStep(line: string, record: seq<string>, more: string)
    requires Record(line + (CRLF + more)) == Some(Read(record, CRLF + more))
    ensures Parse(line + (CRLF + more)) ==
      if more == [] then Some([record])
      else match Parse(more) case None => None case Some(records) => Some([record] + records)
  {
    var rest := CRLF + more;
    assert rest[0] == '\r' && rest[1] == '\n' && rest[2..] == more;
  }

  /** What is left of the records when the last line reads as nothing. */
  function Kept(records: seq<seq<string>>): seq<seq<string>>
  {
    if EndsInEmptyLine(records) then records[..|records| - 1] else records
  }

  lemma KeptStep(records: seq<seq<string>>)
    requires |records| > 1
    ensures Kept(records) == if records[1..] == [[[]]] then [records[0]] else [records[0]] + Kept(records[1..])
  {
    var more := records[1..];
    assert [records[0]] + more == records;
    if EndsInEmptyLine(records) && |more| > 1 {
      assert [records[0]] + more[..|more| - 1] == records[..|records| - 1];
    }
    if |more| == 1 { assert more == [more[0]]; }
  }

  /** Reading back the text gives the records, less a last line that is a single empty cell. */
  lemma {:induction false} TextReads(records: seq<seq<string>>)
    requires records != [] && forall i :: 0 <= i < |records| ==> records[i] != []
    ensures Parse(Text(records)) == Some(if EndsInEmptyLine(records) then records[..|records| - 1] else records)
    decreases |records|
  {
    if |records| == 1 {
      RecordReads(records[0], []);
      assert Line(records[0]) + [] == Text(records);
      assert [records[0]] == records;
    } else {
      var more := records[1..];
      TextStep(records);
      assert Text(records) == Line(records[0]) + (CRLF + Text(more));
      RecordReads(records[0], CRLF + Text(more));
      ParseStep(Line(records[0]), records[0], Text(more));
      TextReads(more);
      EmptyText(more);
      KeptStep(records);
    }
  }

  lemma EmptyText(records: seq<seq<string>>)
    requires records != [] && forall i :: 0 <= i < |records| ==> records[i] != []
    ensures Text(records) == [] <==> records == [[[]]]
  {
    EmptyLine(records[0]);
    if |records| > 1 {
      TextStep(records);
      assert |CRLF| == 2;
    } else {
      assert records == [records[0]];
    }
  }

  /**
   * The table comes back exactly, unless it has one column and its last row's cell is empty;
   * with two or more columns it always comes back.
   */
  lemma CsvRoundTrips(cols: seq<Column>, rows: seq<Row>)
    requires cols != []
    ensures Parse(Text(Records(cols, rows))) == Some(Records(cols, rows))
      <==> !(|cols| == 1 && rows != [] && CellOf(rows[|rows| - 1], cols[0].key) == [])
  {
    var records := Records(cols, rows);
    TextReads(records);
    if rows != [] {
      assert records[|records| - 1] == Cells(cols, rows[|rows| - 1]);
      if |cols| == 1 { assert Cells(cols, rows[|rows| - 1]) == [CellOf(rows[|rows| - 1], cols[0].key)]; }
    }
  }

  // ---- what the table holds ----------------------------------------------------------------------

  ghost predicate IsPlain(s: string)
  {
    forall c :: c in s ==> c != '"' && c != ',' && c != '\r' && c != '\n'
  }

  lemma {:induction false} NeedsQuotesIff(s: string)
    ensures NeedsQuotes(s) <==> !IsPlain(s)
  {
    if s != [] {
      NeedsQuotesIff(s[1..]);
      if Special(s[0]) {
        assert s[0] in s;
      } else {
        assert forall c :: c in s <==> c == s[0] || c in s[1..];
      }
    }
  }

  /** A cell is written as it is exactly when it holds no quote, comma, CR or LF. */
  lemma WrittenAsIsIff(s: string)
    ensures EscapeCell(s) == s <==> IsPlain(s)
  {
    NeedsQuotesIff(s);
    DoubledIsLonger(s);
    assert NeedsQuotes(s) ==> |EscapeCell(s)| == |Doubled(s)| + 2;
  }

  lemma {:induction false} DoubledIsLonger(s: string)
    ensures |Doubled(s)| >= |s|
  {
    if s != [] { DoubledIsLonger(s[1..]); }
  }

  /** The key and the header of column i: as given, or both the key of the first row. */
  ghost predicate ColumnAt(rows: seq<Row>, columns: Option<seq<Column>>, i: nat, key: string, header: string)
  {
    match columns
    case Some(cols) => i < |cols| && key == cols[i].key && header == cols[i].header
    case None => rows != [] && i < |rows[0].keys| && key == header == rows[0].keys[i]
  }

  ghost function Width(rows: seq<Row>, columns: Option<seq<Column>>): nat
  {
    match columns case Some(cols) => |cols| case None => if rows == [] then 0 else |rows[0].keys|
  }

  /** The cell shows the row's value under the key; a missing key or value shows as nothing. */
  ghost predicate CellShows(cell: string, row: Row, key: string)
  {
    && (forall v :: key in row.values && row.values[key] == Some(v) ==> cell == v)
    && (key !in row.values || row.values[key] == None ==> cell == "")
  }

  /** A header line and a line for each row, a cell for each column. */
  ghost predicate IsTable(t: seq<seq<string>>, rows: seq<Row>, columns: Option<seq<Column>>)
  {
    && |t| == |rows| + 1 && (forall r :: 0 <= r < |t| ==> |t[r]| == Width(rows, columns))
    && forall i: nat, key, header :: ColumnAt(rows, columns, i, key, header) ==>
         i < |t[0]| && t[0][i] == header && forall r :: 0 <= r < |rows| ==> CellShows(t[r + 1][i], rows[r], key)
  }

  lemma RecordsAreTable(rows: seq<Row>, columns: Option<seq<Column>>)
    ensures IsTable(Records(ColumnsOf(rows, columns), rows), rows, columns)
  {
    var cols := ColumnsOf(rows, columns);
    var t := Records(cols, rows);
    forall r | 0 <= r < |t| ensures |t[r]| == Width(rows, columns) {
      assert r > 0 ==> t[r] == Cells(cols, rows[r - 1]);
    }
    forall i: nat, key, header | ColumnAt(rows, columns, i, key, header)
      ensures i < |t[0]| && t[0][i] == header && forall r :: 0 <= r < |rows| ==> CellShows(t[r + 1][i], rows[r], key)
    {
      forall r | 0 <= r < |rows| ensures CellShows(t[r + 1][i], rows[r], key) {
        assert t[r + 1] == Cells(cols, rows[r]);
      }
    }
  }

  /** Unless its last line is lost, what is read back from the text is the table. */
  lemma TableReadsBack(rows: seq<Row>, columns: Option<seq<Column>>, t: seq<seq<string>>)
    requires Width(rows, columns) > 0 && Parse(Text(Records(ColumnsOf(rows, columns), rows))) == Some(t)
    requires |t| > |rows|
    ensures IsTable(t, rows, columns)
  {
    var records := Records(ColumnsOf(rows, columns), rows);
    forall i | 0 <= i < |records| ensures records[i] != [] {
      assert i > 0 ==> records[i] == Cells(ColumnsOf(rows, columns), rows[i - 1]);
    }
    TextReads(records);
    RecordsAreTable(rows, columns);
  }
}
