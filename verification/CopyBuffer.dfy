/** The buffer that is made for PostgreSQL's "COPY ... FROM" (text format), and what is read back from it. */
module CopyBuffers {
  import opened Sequences
  import opened Wrappers

  /** A value of a row: None, a string, a number or date that is printed without special characters, or another type. */
  datatype Value = Absent | Text(s: string) | Printed(s: string) | Unsupported

  /** What a column of the table holds. */
  datatype Cell = Null | Str(s: string)

  // ----- one pass over a string

  function EscapeChar(c: char): string {
    match c
    case '\\' => "\\\\"
    case '\t' => "\\t"
    case '\r' => "\\r"
    case '\n' => "\\n"
    case _ => [c]
  }

  function Escape(s: string): string {
    if s == "" then "" else EscapeChar(s[0]) + Escape(s[1..])
  }

  /** How COPY reads a field: a backslash and the character after it stand for one character. */
  function Unescape(s: string): string {
    if s == "" then ""
    else if s[0] == '\\' && |s| > 1 then [Meant(s[1])] + Unescape(s[2..])
    else [s[0]] + Unescape(s[1..])
  }

  function Meant(c: char): char {
    match c
    case 't' => '\t'
    case 'r' => '\r'
    case 'n' => '\n'
    case _ => c
  }

  predicate Special(c: char) {
    c == '\\' || c == '\t' || c == '\r' || c == '\n'
  }

  lemma {:induction false} UnescapeEscape(s: string)
    ensures Unescape(Escape(s)) == s
  {
    if s != "" {
      UnescapeEscape(s[1..]);
      var rest := Escape(s[1..]);
      if Special(s[0]) {
        assert Escape(s) == ['\\', EscapeChar(s[0])[1]] + rest;
        assert Escape(s)[2..] == rest;
      } else {
        assert Escape(s) == [s[0]] + rest;
      }
    }
  }

  /** The separators of the buffer do not occur in what is escaped. */
  lemma {:induction false} EscapedIsPlain(s: string)
    ensures '\t' !in Escape(s) && '\r' !in Escape(s) && '\n' !in Escape(s)
  {
    if s != "" {
      EscapedIsPlain(s[1..]);
    }
  }

  lemma {:induction false} EscapePrinted(s: string)
    requires forall c <- s :: !Special(c)
    ensures Escape(s) == s
  {
    if s != "" {
      assert s[0] in s && !Special(s[0]);
      EscapePrinted(s[1..]);
      assert s == [s[0]] + s[1..];
    }
  }

  // ----- four replaces

  /** `value.replace(c, by)` */
  function Replace(s: string, c: char, to: string): string {
    if s == "" then "" else (if s[0] == c then to else [s[0]]) + Replace(s[1..], c, to)
  }

  const ESCAPES: seq<(char, string)> := [('\\', "\\\\"), ('\t', "\\t"), ('\r', "\\r"), ('\n', "\\n")]

  function ReplaceAll(s: string, pairs: seq<(char, string)>): string
    decreases |pairs|
  {
    if pairs == [] then s else ReplaceAll(Replace(s, pairs[0].0, pairs[0].1), pairs[1..])
  }

  lemma {:induction false} ReplaceParts(a: string, b: string, c: char, to: string)
    ensures Replace(a + b, c, to) == Replace(a, c, to) + Replace(b, c, to)
  {
    if a == "" {
      assert a + b == b;
    } else {
      var first := if a[0] == c then to else [a[0]];
      ReplaceParts(a[1..], b, c, to);
      assert (a + b)[1..] == a[1..] + b && (a + b)[0] == a[0];
      Assoc(first, Replace(a[1..], c, to), Replace(b, c, to));
    }
  }

  lemma {:induction false} ReplaceAllParts(a: string, b: string, pairs: seq<(char, string)>)
    ensures ReplaceAll(a + b, pairs) == ReplaceAll(a, pairs) + ReplaceAll(b, pairs)
    decreases |pairs|
  {
    if pairs != [] {
      ReplaceParts(a, b, pairs[0].0, pairs[0].1);
      ReplaceAllParts(Replace(a, pairs[0].0, pairs[0].1), Replace(b, pairs[0].0, pairs[0].1), pairs[1..]);
    }
  }

  lemma ReplaceOne(x: char, c: char, to: string)
    ensures Replace([x], c, to) == if x == c then to else [x]
  {
  }

  lemma ReplaceTwo(x: char, y: char, c: char, to: string)
    requires x != c && y != c
    ensures Replace([x, y], c, to) == [x, y]
  {
    assert [x, y][1..] == [y] && [y][1..] == "";
    assert Replace([y], c, to) == [y];
  }

  /** The replaces of one character: what one of them puts in, the ones after it leave alone. */
  lemma ReplaceAllChar(x: char)
    ensures ReplaceAll([x], ESCAPES) == EscapeChar(x)
  {
    var one := Replace([x], '\\', "\\\\");
    var two := Replace(one, '\t', "\\t");
    var three := Replace(two, '\r', "\\r");
    var four := Replace(three, '\n', "\\n");
    assert ReplaceAll([x], ESCAPES) == four by {
      var e1, e2, e3 := ESCAPES[1..], ESCAPES[2..], ESCAPES[3..];
      assert e1[1..] == e2 && e2[1..] == e3 && e3[1..] == [];
      assert ReplaceAll([x], ESCAPES) == ReplaceAll(one, e1);
      assert ReplaceAll(one, e1) == ReplaceAll(two, e2);
      assert ReplaceAll(two, e2) == ReplaceAll(three, e3);
      assert ReplaceAll(three, e3) == ReplaceAll(four, []);
    }
    assert four == EscapeChar(x) by {
      ReplaceOne(x, '\\', "\\\\");
      ReplaceOne(x, '\t', "\\t");
      ReplaceOne(x, '\r', "\\r");
      ReplaceOne(x, '\n', "\\n");
      ReplaceTwo('\\', '\\', '\t', "\\t");
      ReplaceTwo('\\', '\\', '\r', "\\r");
      ReplaceTwo('\\', '\\', '\n', "\\n");
      ReplaceTwo('\\', 't', '\r', "\\r");
      ReplaceTwo('\\', 't', '\n', "\\n");
      ReplaceTwo('\\', 'r', '\n', "\\n");
    }
  }

  /** Four replaces, one after the other, are one pass. */
  lemma {:induction false} ReplaceAllIsEscape(s: string)
    ensures ReplaceAll(s, ESCAPES) == Escape(s)
  {
    if s == "" {
      assert ReplaceAll("", ESCAPES) == "" by {
        assert ESCAPES[1..] == [('\t', "\\t"), ('\r', "\\r"), ('\n', "\\n")];
      }
    } else {
      ReplaceAllIsEscape(s[1..]);
      ReplaceAllChar(s[0]);
      ReplaceAllParts([s[0]], s[1..], ESCAPES);
      assert s == [s[0]] + s[1..];
    }
  }

  /** `_copyfrom_buffer_convert_string` */
  method ConvertString(value: string) returns (r: string)
    ensures r == Escape(value)
  {
    r := value;
    for i := 0 to |ESCAPES|
      invariant ReplaceAll(r, ESCAPES[i..]) == ReplaceAll(value, ESCAPES)
    {
      assert ESCAPES[i..][0] == ESCAPES[i] && ESCAPES[i..][1..] == ESCAPES[i + 1..];
      r := Replace(r, ESCAPES[i].0, ESCAPES[i].1);
    }
    ReplaceAllIsEscape(value);
  }

  // ----- join and split

  function Join(parts: seq<string>, sep: char): string {
    if parts == [] then ""
    else if |parts| == 1 then parts[0]
    else parts[0] + [sep] + Join(parts[1..], sep)
  }

  /** The parts between separators: one more than there are separators. */
  function Split(s: string, sep: char): (parts: seq<string>)
    ensures |parts| > 0
  {
    if s == "" then [""]
    else if s[0] == sep then [""] + Split(s[1..], sep)
    else
      var rest := Split(s[1..], sep);
      [[s[0]] + rest[0]] + rest[1..]
  }

  lemma {:induction false} SplitPlain(a: string, sep: char)
    requires sep !in a
    ensures Split(a, sep) == [a]
  {
    if a != "" {
      SplitPlain(a[1..], sep);
      assert a == [a[0]] + a[1..];
    }
  }

  lemma {:induction false} SplitFirst(a: string, b: string, sep: char)
    requires sep !in a
    ensures Split(a + [sep] + b, sep) == [a] + Split(b, sep)
  {
    if a == "" {
      assert a + [sep] + b == [sep] + b;
    } else {
      SplitFirst(a[1..], b, sep);
      assert (a + [sep] + b)[1..] == a[1..] + [sep] + b;
      assert a == [a[0]] + a[1..];
    }
  }

  lemma {:induction false} SplitJoin(parts: seq<string>, sep: char)
    requires parts != [] && forall p <- parts :: sep !in p
    ensures Split(Join(parts, sep), sep) == parts
  {
    if |parts| == 1 {
      SplitPlain(parts[0], sep);
    } else {
      SplitJoin(parts[1..], sep);
      SplitFirst(parts[0], Join(parts[1..], sep), sep);
    }
  }

  lemma {:induction false} JoinWithout(parts: seq<string>, sep: char, c: char)
    requires c != sep && forall p <- parts :: c !in p
    ensures c !in Join(parts, sep)
  {
    if |parts| > 1 {
      JoinWithout(parts[1..], sep, c);
    }
  }

  // ----- the buffer

  /** The cell that a value is meant to be. */
  function CellOf(v: Value): Cell {
    match v
    case Text(s) => Str(s)
    case Printed(s) => Str(s)
    case _ => Null
  }

  function Field(c: Cell): string {
    if c == Null then "NULL" else Escape(c.s)
  }

  function Fields(row: seq<Cell>): seq<string> {
    seq(|row|, i requires 0 <= i < |row| => Field(row[i]))
  }

  function Lines(table: seq<seq<Cell>>): seq<string> {
    seq(|table|, i requires 0 <= i < |table| => Join(Fields(table[i]), '\t'))
  }

  function Encode(table: seq<seq<Cell>>): string {
    Join(Lines(table), '\n')
  }

  /** How COPY reads the buffer: "NULL" is the null string, and is recognised before anything is unescaped. */
  function ReadCell(field: string): Cell {
    if field == "NULL" then Null else Str(Unescape(field))
  }

  function ReadRow(line: string): seq<Cell> {
    var fields := Split(line, '\t');
    seq(|fields|, i requires 0 <= i < |fields| => ReadCell(fields[i]))
  }

  function Decode(buffer: string): seq<seq<Cell>> {
    var lines := Split(buffer, '\n');
    seq(|lines|, i requires 0 <= i < |lines| => ReadRow(lines[i]))
  }

  lemma FieldIsPlain(c: Cell)
    ensures '\t' !in Field(c) && '\n' !in Field(c) && '\r' !in Field(c)
  {
    if c.Str? {
      EscapedIsPlain(c.s);
    }
  }

  lemma ReadField(c: Cell)
    ensures ReadCell(Field(c)) == if c == Str("NULL") then Null else c
  {
    if c.Str? {
      UnescapeEscape(c.s);
      EscapePrinted("NULL");
      assert Escape(c.s) == "NULL" ==> c.s == Unescape("NULL");
      UnescapeEscape("NULL");
    }
  }

  /** What is read back of a cell: a string that reads "NULL" is lost. */
  function ReadBack(c: Cell): Cell {
    if c == Str("NULL") then Null else c
  }

  lemma LineIsPlain(row: seq<Cell>)
    ensures '\n' !in Join(Fields(row), '\t')
  {
    forall f | f in Fields(row) ensures '\n' !in f {
      var i :| 0 <= i < |row| && Fields(row)[i] == f;
      FieldIsPlain(row[i]);
    }
    JoinWithout(Fields(row), '\t', '\n');
  }

  lemma ReadLine(row: seq<Cell>)
    requires row != []
    ensures var back := ReadRow(Join(Fields(row), '\t'));
            |back| == |row| && forall i | 0 <= i < |row| :: back[i] == ReadBack(row[i])
  {
    forall f | f in Fields(row) ensures '\t' !in f {
      var i :| 0 <= i < |row| && Fields(row)[i] == f;
      FieldIsPlain(row[i]);
    }
    SplitJoin(Fields(row), '\t');
    forall i | 0 <= i < |row| ensures ReadCell(Fields(row)[i]) == ReadBack(row[i]) {
      ReadField(row[i]);
    }
  }

  lemma DecodedLines(table: seq<seq<Cell>>)
    requires table != []
    ensures |Decode(Encode(table))| == |table|
    ensures forall i | 0 <= i < |table| :: Decode(Encode(table))[i] == ReadRow(Join(Fields(table[i]), '\t'))
  {
    forall l | l in Lines(table) ensures '\n' !in l {
      var i :| 0 <= i < |table| && Lines(table)[i] == l;
      LineIsPlain(table[i]);
    }
    SplitJoin(Lines(table), '\n');
  }

  /** A table of `width` columns is read back as it was, exactly when it has a row and a column and no string
      in it reads "NULL". */
  lemma RoundTrip(table: seq<seq<Cell>>, width: nat)
    requires forall row <- table :: |row| == width
    ensures Decode(Encode(table)) == table <==>
            table != [] && width > 0 && forall row <- table :: Str("NULL") !in row
  {
    if table == [] {
      assert |Decode(Encode(table))| == 1;
    } else {
      DecodedLines(table);
      if width == 0 {
        assert table[0] in table;
        assert |ReadRow(Join(Fields(table[0]), '\t'))| == 1;
      } else {
        forall i | 0 <= i < |table|
          ensures Decode(Encode(table))[i] == table[i] <==> Str("NULL") !in table[i]
        {
          assert table[i] in table;
          ReadLine(table[i]);
          assert Str("NULL") in table[i] ==> exists j | 0 <= j < width :: table[i][j] == Str("NULL");
        }
        assert forall row :: row in table <==> exists i | 0 <= i < |table| :: table[i] == row;
      }
    }
  }

  /** No line of the buffer reads as the end-of-data marker, whatever the strings are. */
  lemma NoEndMarker(row: seq<Cell>)
    ensures Join(Fields(row), '\t') != "\\."
  {
    if Join(Fields(row), '\t') == "\\." {
      forall f | f in Fields(row) ensures '\t' !in f {
        var i :| 0 <= i < |row| && Fields(row)[i] == f;
        FieldIsPlain(row[i]);
      }
      if row != [] {
        SplitJoin(Fields(row), '\t');
        SplitPlain("\\.", '\t');
        assert Fields(row)[0] == "\\.";
        NotEscaped(row[0]);
      }
    }
  }

  lemma NotEscaped(c: Cell)
    ensures Field(c) != "\\."
  {
    if c.Str? && c.s != "" {
      assert Escape(c.s) == EscapeChar(c.s[0]) + Escape(c.s[1..]);
      if Special(c.s[0]) {
        assert Escape(c.s)[1] == EscapeChar(c.s[0])[1] != '.';
      } else {
        assert Escape(c.s)[0] == c.s[0] != '\\';
      }
    }
  }

  // ----- making the buffer

  /** The value of a column, None where the row does not have it. */
  function ValueAt<Col(==)>(row: map<Col, Value>, col: Col): Value {
    if col in row then row[col] else Absent
  }

  function Cells<Col(==)>(row: map<Col, Value>, columns: seq<Col>): seq<Cell> {
    seq(|columns|, i requires 0 <= i < |columns| => CellOf(ValueAt(row, columns[i])))
  }

  function Table<Col(==)>(data: seq<map<Col, Value>>, columns: seq<Col>): seq<seq<Cell>> {
    seq(|data|, i requires 0 <= i < |data| => Cells(data[i], columns))
  }

  predicate Supported<Col(==)>(row: map<Col, Value>, columns: seq<Col>) {
    forall c <- columns :: !ValueAt(row, c).Unsupported?
  }

  /** Numbers and dates are printed without special characters. */
  predicate PrintedPlain<Col(==)>(row: map<Col, Value>) {
    forall c <- row :: row[c].Printed? ==> forall x <- row[c].s :: !Special(x)
  }

  /** The converters. */
  method Convert(v: Value) returns (r: Result<string, string>)
    requires v.Printed? ==> forall x <- v.s :: !Special(x)
    ensures r == if v.Unsupported? then Failure("Unsupported value type") else Success(Field(CellOf(v)))
  {
    match v
    case Absent => r := Success("NULL");
    case Printed(s) => EscapePrinted(s); r := Success(s);
    case Text(s) =>
      var t := ConvertString(s);
      r := Success(t);
    case Unsupported => r := Failure("Unsupported value type");
  }

  lemma Formatted<Col>(row: map<Col, Value>, columns: seq<Col>, formatted: seq<string>)
    requires |formatted| == |columns|
    requires forall j | 0 <= j < |columns| :: formatted[j] == Field(CellOf(ValueAt(row, columns[j])))
    ensures formatted == Fields(Cells(row, columns))
  {
  }

  method FormatRow<Col(==)>(row: map<Col, Value>, columns: seq<Col>) returns (r: Result<string, string>)
    requires PrintedPlain(row)
    ensures r == if Supported(row, columns) then Success(Join(Fields(Cells(row, columns)), '\t'))
              else Failure("Unsupported value type")
  {
    var formatted: seq<string> := [];
    for i := 0 to |columns|
      invariant |formatted| == i && forall j | 0 <= j < i :: formatted[j] == Field(CellOf(ValueAt(row, columns[j])))
      invariant forall j | 0 <= j < i :: !ValueAt(row, columns[j]).Unsupported?
    {
      var value := ValueAt(row, columns[i]);
      var text := Convert(value);
      if text.Failure? {
        assert columns[i] in columns;
        return Failure(text.error);
      }
      formatted := formatted + [text.value];
    }
    Formatted(row, columns, formatted);
    r := Success(Join(formatted, '\t'));
  }

  lemma Collected<Col>(data: seq<map<Col, Value>>, columns: seq<Col>, rows: seq<string>)
    requires |rows| == |data|
    requires forall j | 0 <= j < |data| :: rows[j] == Join(Fields(Cells(data[j], columns)), '\t')
    ensures rows == Lines(Table(data, columns))
  {
  }

  /** `_create_copyfrom_buffer`: a ValueError, or the buffer of the whole table. */
  method CreateBuffer<Col(==)>(data: seq<map<Col, Value>>, columns: seq<Col>) returns (r: Result<string, string>)
    requires forall row <- data :: PrintedPlain(row)
    ensures r.Success? <==> forall row <- data :: Supported(row, columns)
    ensures r.Success? ==> r.value == Encode(Table(data, columns))
  {
    var rows: seq<string> := [];
    for i := 0 to |data|
      invariant |rows| == i && forall j | 0 <= j < i :: rows[j] == Join(Fields(Cells(data[j], columns)), '\t')
      invariant forall j | 0 <= j < i :: Supported(data[j], columns)
    {
      var line := FormatRow(data[i], columns);
      if line.Failure? {
        assert data[i] in data;
        return Failure(line.error);
      }
      rows := rows + [line.value];
    }
    Collected(data, columns, rows);
    r := Success(Join(rows, '\n'));
  }
}
