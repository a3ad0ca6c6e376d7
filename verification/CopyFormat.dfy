/** Table rows in the "Text Format" of the PostgreSQL reference page for COPY: fields
    separated by tabs, one line per row, `\N` for null, special characters escaped by a
    backslash. This is what `COPY ... TO stdout` hands to `dumpTableData` and what the
    server reads back from `CopyFrom`. */
module CopyFormat {
  import opened Text
  import opened PostgresScript

  type Row = seq<Option<string>>

  /** The letter that stands for a special character after a backslash. */
  function EscapeLetter(c: char): Option<char> {
    if c == '\\' then Some('\\')
    else if c == '\U{8}' then Some('b')
    else if c == '\U{C}' then Some('f')
    else if c == '\n' then Some('n')
    else if c == '\r' then Some('r')
    else if c == '\t' then Some('t')
    else if c == '\U{B}' then Some('v')
    else None
  }

  function EscapeField(v: string): string {
    if v == "" then ""
    else (match EscapeLetter(v[0]) case Some(l) => ['\\', l] case None => [v[0]]) + EscapeField(v[1..])
  }

  function FieldText(f: Option<string>): string {
    match f
    case None => "\\N"
    case Some(v) => EscapeField(v)
  }

  function RowText(row: Row): string {
    if row == [] then "" else FieldText(row[0]) + if |row| == 1 then "" else "\t" + RowText(row[1..])
  }

  function RowsText(rows: seq<Row>): string {
    if rows == [] then "" else RowText(rows[0]) + "\n" + RowsText(rows[1..])
  }

  // ------------------------------------------------------------------------ reading

  function Unletter(l: char): char {
    match l
    case 'b' => '\U{8}'
    case 'f' => '\U{C}'
    case 'n' => '\n'
    case 'r' => '\r'
    case 't' => '\t'
    case 'v' => '\U{B}'
    case _ => l
  }

  function UnescapeField(t: string): string {
    if t == "" then ""
    else if t[0] == '\\' && |t| > 1 then [Unletter(t[1])] + UnescapeField(t[2..])
    else [t[0]] + UnescapeField(t[1..])
  }

  function FieldValue(t: string): Option<string> {
    if t == "\\N" then None else Some(UnescapeField(t))
  }

  /** The text before the first tab, and what follows that tab if there is one. */
  function CutField(line: string): (r: (string, Option<string>))
    ensures r.1.Some? ==> |r.1.value| < |line|
  {
    if line == "" then ("", None)
    else if line[0] == '\t' then ("", Some(line[1..]))
    else var (field, rest) := CutField(line[1..]); ([line[0]] + field, rest)
  }

  function ReadFields(line: string): Row
    decreases |line|
  {
    var (field, rest) := CutField(line);
    match rest
    case None => [FieldValue(field)]
    case Some(more) => [FieldValue(field)] + ReadFields(more)
  }

  /** A line as a row of a table with `arity` columns. */
  function ReadRow(arity: nat, line: string): Option<Row> {
    if arity == 0 then if line == "" then Some([]) else None
    else if |ReadFields(line)| == arity then Some(ReadFields(line)) else None
  }

  function ReadRows(arity: nat, data: string): Option<seq<Row>>
    decreases |data|
  {
    if data == "" then Some([]) else
      var (line, rest) := CutLine(data);
      match ReadRow(arity, line)
      case None => None
      case Some(row) =>
        match ReadRows(arity, rest)
        case None => None
        case Some(rows) => Some([row] + rows)
  }

  // ------------------------------------------------------------------------- lemmas

  /** An escaped value holds no tab, newline or carriage return as such, neither is nor
      begins like the end-of-data marker, is not the null marker, and reads back. */
  lemma {:induction false} EscapedFieldSafe(v: string)
    ensures '\n' !in EscapeField(v) && '\t' !in EscapeField(v) && '\r' !in EscapeField(v)
    ensures !(END_OF_DATA <= EscapeField(v)) && EscapeField(v) != "\\N"
    ensures UnescapeField(EscapeField(v)) == v
  {
    if v == "" {
    } else {
      var head := match EscapeLetter(v[0]) case Some(l) => ['\\', l] case None => [v[0]];
      var t, tail := EscapeField(v), EscapeField(v[1..]);
      EscapedFieldSafe(v[1..]);
      assert t == head + tail && v == [v[0]] + v[1..];
      if EscapeLetter(v[0]).Some? {
        assert t[2..] == tail && t[1] == EscapeLetter(v[0]).value;
      } else {
        assert t[1..] == tail && t[0] == v[0];
      }
    }
  }

  lemma FieldRoundTrip(f: Option<string>)
    ensures FieldValue(FieldText(f)) == f && !(END_OF_DATA <= FieldText(f))
    ensures '\n' !in FieldText(f) && '\t' !in FieldText(f) && '\r' !in FieldText(f)
  {
    match f
    case None => assert "\\N"[1] == 'N';
    case Some(v) => EscapedFieldSafe(v);
  }

  lemma {:induction false} CutFieldAt(field: string, more: Option<string>)
    requires '\t' !in field
    ensures CutField(field + if more.Some? then "\t" + more.value else "") == (field, more)
  {
    var tail := if more.Some? then "\t" + more.value else "";
    if field == "" {
      assert field + tail == tail;
      if more.Some? {
        assert tail[1..] == more.value;
      }
    } else {
      assert (field + tail)[1..] == field[1..] + tail;
      CutFieldAt(field[1..], more);
      assert field == [field[0]] + field[1..];
    }
  }

  lemma MarkerInFront(field: string, tail: string)
    requires tail != "" && tail[0] == '\t' && !(END_OF_DATA <= field)
    ensures !(END_OF_DATA <= field + tail)
  {
    if |field| < 2 {
      assert (field + tail)[|field|] == '\t';
    } else {
      assert (field + tail)[0] == field[0] && (field + tail)[1] == field[1];
      assert field[0] != '\\' || field[1] != '.' by { assert field[..2] == [field[0], field[1]]; }
    }
  }

  /** A row's line holds no newline or carriage return and does not begin like the end
      marker. */
  lemma {:induction false} RowLine(row: Row)
    ensures '\n' !in RowText(row) && '\r' !in RowText(row) && !(END_OF_DATA <= RowText(row))
  {
    if row == [] {
    } else {
      FieldRoundTrip(row[0]);
      RowLine(row[1..]);
      if |row| > 1 {
        var field, tail := FieldText(row[0]), "\t" + RowText(row[1..]);
        assert RowText(row) == field + tail;
        MarkerInFront(field, tail);
      } else {
        assert RowText(row) == FieldText(row[0]) + "";
      }
    }
  }

  lemma {:induction false} FieldsRoundTrip(row: Row)
    requires row != []
    ensures ReadFields(RowText(row)) == row
  {
    FieldRoundTrip(row[0]);
    if |row| == 1 {
      CutFieldAt(FieldText(row[0]), None);
      assert row == [row[0]];
    } else {
      var more := RowText(row[1..]);
      assert CutField(RowText(row)) == (FieldText(row[0]), Some(more)) by { CutFieldAt(FieldText(row[0]), Some(more)); }
      assert ReadFields(more) == row[1..] by { FieldsRoundTrip(row[1..]); }
      assert row == [row[0]] + row[1..];
    }
  }

  lemma ReadFirstRow(arity: nat, row: Row, more: string)
    requires |row| == arity
    ensures CutLine(RowText(row) + "\n" + more) == (RowText(row), more)
    ensures ReadRow(arity, RowText(row)) == Some(row)
  {
    RowLine(row);
    CutLineAt(RowText(row), more);
    if arity > 0 {
      FieldsRoundTrip(row);
    }
  }

  /** COPY text loses nothing, whatever the rows hold, and is always made of complete
      lines none of which ends the data early. */
  lemma {:induction false} RowsRoundTrip(arity: nat, rows: seq<Row>)
    requires forall i :: 0 <= i < |rows| ==> |rows[i]| == arity
    ensures ReadRows(arity, RowsText(rows)) == Some(rows)
    ensures CopyRows(RowsText(rows))
  {
    if rows == [] {
    } else {
      ReadFirstRow(arity, rows[0], RowsText(rows[1..]));
      RowLine(rows[0]);
      RowsRoundTrip(arity, rows[1..]);
      assert [rows[0]] + rows[1..] == rows;
    }
  }
}
