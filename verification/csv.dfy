/**
 Writing CSV rows (src/takeout/report.ts) and reading them with the character state machine of
 scripts/remap-immich-to-s3.ts; section 2 of RFC 4180.
*/
module Csv {
  import opened Segments

  type Row = seq<string>

  // --------------------------------------------------------------------- writing

  /** value.replace(/"/g, '""') */
  function Doubled(value: string): string {
    if value == "" then "" else (if value[0] == '"' then "\"\"" else [value[0]]) + Doubled(value[1..])
  }

  function CsvEscape(value: string): string {
    if ',' in value || '"' in value || '\n' in value then "\"" + Doubled(value) + "\"" else value
  }

  function Escaped(row: Row): Row {
    seq(|row|, i requires 0 <= i < |row| => CsvEscape(row[i]))
  }

  function Line(row: Row): string {
    Join(Escaped(row), ',')
  }

  function Lines(rows: seq<Row>): seq<string> {
    seq(|rows|, i requires 0 <= i < |rows| => Line(rows[i]))
  }

  /** lines.join('\n') and a newline. */
  function Document(rows: seq<Row>): string {
    Join(Lines(rows), '\n') + "\n"
  }

  // --------------------------------------------------------------------- reading

  /** The state machine from `current` and `inQuotes` over what is left of the line. */
  function Run(rest: string, current: string, inQuotes: bool, fields: Row): (r: Row)
    ensures |r| > |fields|
    decreases |rest|
  {
    if rest == "" then fields + [current]
    else if inQuotes then
      if |rest| > 1 && rest[0] == '"' && rest[1] == '"' then Run(rest[2..], current + "\"", true, fields)
      else if rest[0] == '"' then Run(rest[1..], current, false, fields)
      else Run(rest[1..], current + [rest[0]], true, fields)
    else if rest[0] == '"' then Run(rest[1..], current, true, fields)
    else if rest[0] == ',' then Run(rest[1..], "", false, fields + [current])
    else Run(rest[1..], current + [rest[0]], false, fields)
  }

  function Parsed(line: string): Row {
    Run(line, "", false, [])
  }

  method ParseRow(line: string) returns (fields: Row)
    ensures fields == Parsed(line)
  {
    fields := [];
    var current, inQuotes, ci := "", false, 0;
    assert line[0..] == line;
    while ci < |line|
      invariant 0 <= ci <= |line|
      invariant Parsed(line) == Run(line[ci..], current, inQuotes, fields)
    {
      var ch := line[ci];
      ghost var rest := line[ci..];
      assert rest[1..] == line[ci + 1..] && (|rest| > 1 ==> rest[1] == line[ci + 1] && rest[2..] == line[ci + 2..]);
      if inQuotes {
        if ch == '"' && ci + 1 < |line| && line[ci + 1] == '"' {
          current := current + "\"";
          ci := ci + 1;
        } else if ch == '"' {
          inQuotes := false;
        } else {
          current := current + [ch];
        }
      } else if ch == '"' {
        inQuotes := true;
      } else if ch == ',' {
        fields := fields + [current];
        current := "";
      } else {
        current := current + [ch];
      }
      ci := ci + 1;
    }
    fields := fields + [current];
  }

  /** csvRaw.split('\n').filter(l => l.length > 0) */
  function NonBlank(lines: seq<string>): seq<string> {
    if lines == [] then []
    else NonBlank(lines[..|lines| - 1]) + if lines[|lines| - 1] == "" then [] else [lines[|lines| - 1]]
  }

  function ParsedAll(lines: seq<string>): seq<Row> {
    seq(|lines|, i requires 0 <= i < |lines| => Parsed(lines[i]))
  }

  function Read(text: string): seq<Row> {
    ParsedAll(NonBlank(Split(text, '\n')))
  }

  method ReadRows(text: string) returns (rows: seq<Row>)
    ensures rows == Read(text)
  {
    rows := [];
    var lines := NonBlank(Split(text, '\n'));
    for i := 0 to |lines|
      invariant rows == ParsedAll(lines)[..i]
    {
      var row := ParseRow(lines[i]);
      rows := rows + [row];
    }
  }

  // ------------------------------------------------------------ any line, and any field

  /** A field is quoted exactly when it has a comma, a quote or a newline. */
  lemma QuotedExactly(value: string)
    ensures CsvEscape(value) == value <==> forall c :: c in value ==> c != ',' && c != '"' && c != '\n'
    ensures CsvEscape(value) != value ==>
              |CsvEscape(value)| >= 2 && CsvEscape(value)[0] == '"' == CsvEscape(value)[|CsvEscape(value)| - 1]
  {
    DoubledGrows(value);
  }

  lemma {:induction false} DoubledGrows(value: string)
    ensures |Doubled(value)| >= |value|
  {
    if value != "" {
      DoubledGrows(value[1..]);
    }
  }

  /** The commas that have an even number of quotes before them, counting from inside quotes or not. */
  function OuterCommas(line: string, inside: bool): nat {
    if line == "" then 0
    else if line[0] == '"' then OuterCommas(line[1..], !inside)
    else OuterCommas(line[1..], inside) + if line[0] == ',' && !inside then 1 else 0
  }

  lemma {:induction false} RunCounts(rest: string, current: string, inQuotes: bool, fields: Row)
    ensures |Run(rest, current, inQuotes, fields)| == |fields| + 1 + OuterCommas(rest, inQuotes)
    decreases |rest|
  {
    if rest != "" {
      if inQuotes && |rest| > 1 && rest[0] == '"' && rest[1] == '"' {
        RunCounts(rest[2..], current + "\"", true, fields);
        assert rest[1..][0] == '"' && rest[1..][1..] == rest[2..];
      } else if inQuotes && rest[0] == '"' {
        RunCounts(rest[1..], current, false, fields);
      } else if inQuotes {
        RunCounts(rest[1..], current + [rest[0]], true, fields);
      } else if rest[0] == '"' {
        RunCounts(rest[1..], current, true, fields);
      } else if rest[0] == ',' {
        RunCounts(rest[1..], "", false, fields + [current]);
      } else {
        RunCounts(rest[1..], current + [rest[0]], false, fields);
      }
    }
  }

  function QuoteFree(s: string): string {
    if s == "" then "" else QuoteFree(s[..|s| - 1]) + if s[|s| - 1] == '"' then "" else [s[|s| - 1]]
  }

  lemma {:induction false} QuoteFreeConcat(a: string, b: string)
    ensures QuoteFree(a + b) == QuoteFree(a) + QuoteFree(b)
  {
    if b == "" {
      assert a + b == a;
    } else {
      assert (a + b)[..|a + b| - 1] == a + b[..|b| - 1];
      QuoteFreeConcat(a, b[..|b| - 1]);
    }
  }

  lemma {:induction false} JoinGrows(fields: Row, current: string, more: string)
    ensures Join(fields + [current + more], ',') == Join(fields + [current], ',') + more
    ensures Join(fields + [current] + [""], ',') == Join(fields + [current], ',') + ","
  {
    if fields == [] {
      assert ([current] + [""])[1..] == [""];
    } else {
      JoinGrows(fields[1..], current, more);
      assert (fields + [current + more])[1..] == fields[1..] + [current + more];
      assert (fields + [current])[1..] == fields[1..] + [current];
      assert (fields + [current] + [""])[1..] == fields[1..] + [current] + [""];
    }
  }

  /** What has been read so far, without quotes. */
  function Kept(current: string, fields: Row): string {
    QuoteFree(Join(fields + [current], ','))
  }

  lemma KeptGrows(current: string, fields: Row, more: string)
    ensures Kept(current + more, fields) == Kept(current, fields) + QuoteFree(more)
    ensures Kept("", fields + [current]) == Kept(current, fields) + ","
  {
    JoinGrows(fields, current, more);
    QuoteFreeConcat(Join(fields + [current], ','), more);
    QuoteFreeConcat(Join(fields + [current], ','), ",");
    assert QuoteFree(",") == ",";
  }

  lemma {:induction false} RunKeeps(rest: string, current: string, inQuotes: bool, fields: Row)
    ensures QuoteFree(Join(Run(rest, current, inQuotes, fields), ',')) == Kept(current, fields) + QuoteFree(rest)
    decreases |rest|
  {
    if rest != "" {
      QuoteFreeConcat(rest[..1], rest[1..]);
      assert rest == rest[..1] + rest[1..] && rest[..1] == [rest[0]];
      KeptGrows(current, fields, rest[..1]);
      if inQuotes && |rest| > 1 && rest[0] == '"' && rest[1] == '"' {
        QuoteFreeConcat(rest[1..][..1], rest[2..]);
        assert rest[1..] == rest[1..][..1] + rest[2..] && rest[1..][..1] == "\"" == rest[..1];
        RunKeeps(rest[2..], current + "\"", true, fields);
      } else if inQuotes && rest[0] == '"' {
        RunKeeps(rest[1..], current, false, fields);
      } else if inQuotes {
        RunKeeps(rest[1..], current + [rest[0]], true, fields);
      } else if rest[0] == '"' {
        RunKeeps(rest[1..], current, true, fields);
      } else if rest[0] == ',' {
        RunKeeps(rest[1..], "", false, fields + [current]);
      } else {
        RunKeeps(rest[1..], current + [rest[0]], false, fields);
      }
    }
  }

  /** Of any line, well formed or not, the fields part at the commas with an even number of quotes before
      them, and they keep every character but quotes, in order. */
  lemma ParsedKeeps(line: string)
    ensures |Parsed(line)| == 1 + OuterCommas(line, false)
    ensures QuoteFree(Join(Parsed(line), ',')) == QuoteFree(line)
  {
    RunCounts(line, "", false, []);
    RunKeeps(line, "", false, []);
    assert [] + [""] == [""];
  }

  // -------------------------------------------------------------- one row, there and back

  lemma {:induction false} RunPlain(v: string, rest: string, current: string, fields: Row)
    requires ',' !in v && '"' !in v
    ensures Run(v + rest, current, false, fields) == Run(rest, current + v, false, fields)
  {
    if v == "" {
      assert v + rest == rest && current + v == current;
    } else {
      assert (v + rest)[1..] == v[1..] + rest;
      RunPlain(v[1..], rest, current + [v[0]], fields);
      assert current + [v[0]] + v[1..] == current + v;
    }
  }

  lemma {:induction false} RunQuoted(v: string, rest: string, current: string, fields: Row)
    requires rest == "" || rest[0] == ','
    ensures Run(Doubled(v) + "\"" + rest, current, true, fields) == Run(rest, current + v, false, fields)
  {
    var text := Doubled(v) + "\"" + rest;
    if v == "" {
      assert text[1..] == rest && current + v == current;
    } else {
      var tail := Doubled(v[1..]) + "\"" + rest;
      RunQuoted(v[1..], rest, current + [v[0]], fields);
      assert current + [v[0]] + v[1..] == current + v;
      if v[0] == '"' {
        assert text[2..] == tail;
      } else {
        assert text[1..] == tail;
      }
    }
  }

  lemma RunQuotedField(v: string, rest: string, fields: Row)
    requires rest == "" || rest[0] == ','
    ensures Run("\"" + Doubled(v) + "\"" + rest, "", false, fields) == Run(rest, v, false, fields)
  {
    var text := "\"" + Doubled(v) + "\"" + rest;
    assert text[1..] == Doubled(v) + "\"" + rest;
    RunQuoted(v, rest, "", fields);
    assert "" + v == v;
  }

  lemma RunField(v: string, rest: string, fields: Row)
    requires rest == "" || rest[0] == ','
    ensures Run(CsvEscape(v) + rest, "", false, fields) == Run(rest, v, false, fields)
  {
    if ',' in v || '"' in v || '\n' in v {
      RunQuotedField(v, rest, fields);
    } else {
      RunPlain(v, rest, "", fields);
      assert "" + v == v;
    }
  }

  lemma {:induction false} RunRow(row: Row, fields: Row)
    requires row != []
    ensures Run(Line(row), "", false, fields) == fields + row
  {
    if |row| == 1 {
      RunField(row[0], "", fields);
      assert CsvEscape(row[0]) + "" == Line(row);
      assert fields + [row[0]] == fields + row;
    } else {
      var rest := row[1..];
      assert Escaped(row)[1..] == Escaped(rest);
      assert Line(row) == CsvEscape(row[0]) + ("," + Line(rest));
      RunField(row[0], "," + Line(rest), fields);
      assert ("," + Line(rest))[1..] == Line(rest);
      RunRow(rest, fields + [row[0]]);
      assert fields + [row[0]] + rest == fields + row;
    }
  }

  /** Any non-empty list of strings, with commas, quotes and newlines, comes back from its line. */
  lemma RowRoundTrip(row: Row)
    requires row != []
    ensures Parsed(Line(row)) == row
  {
    RunRow(row, []);
  }

  // --------------------------------------------------------- the document, there and back

  ghost predicate OneLine(row: Row) {
    forall i :: 0 <= i < |row| ==> Without(row[i], '\n')
  }

  lemma {:induction false} JoinWithout(parts: seq<string>, sep: char, c: char)
    requires sep != c && forall i :: 0 <= i < |parts| ==> Without(parts[i], c)
    ensures Without(Join(parts, sep), c)
  {
    if |parts| > 1 {
      JoinWithout(parts[1..], sep, c);
    }
  }

  lemma {:induction false} DoubledWithout(v: string)
    requires Without(v, '\n')
    ensures Without(Doubled(v), '\n')
  {
    if v != "" {
      DoubledWithout(v[1..]);
    }
  }

  lemma LineWithout(row: Row)
    requires OneLine(row)
    ensures Without(Line(row), '\n')
  {
    forall i | 0 <= i < |row|
      ensures Without(Escaped(row)[i], '\n')
    {
      DoubledWithout(row[i]);
    }
    JoinWithout(Escaped(row), ',', '\n');
  }

  lemma {:induction false} JoinSnoc(lines: seq<string>, c: char)
    requires lines != []
    ensures Join(lines + [""], c) == Join(lines, c) + [c]
  {
    if |lines| == 1 {
      assert (lines + [""])[1..] == [""];
      assert Join([""], c) == "";
    } else {
      assert (lines + [""])[1..] == lines[1..] + [""];
      JoinSnoc(lines[1..], c);
      assert lines[0] + [c] + (Join(lines[1..], c) + [c]) == lines[0] + [c] + Join(lines[1..], c) + [c];
    }
  }

  lemma DocumentLines(rows: seq<Row>)
    requires rows != [] && forall i :: 0 <= i < |rows| ==> OneLine(rows[i])
    ensures Split(Document(rows), '\n') == Lines(rows) + [""]
  {
    forall i | 0 <= i < |rows|
      ensures Without(Lines(rows)[i], '\n')
    {
      LineWithout(rows[i]);
    }
    JoinSnoc(Lines(rows), '\n');
    SplitJoin(Lines(rows) + [""], '\n');
  }

  /** The rows without those of one empty field, whose lines are blank. */
  function Visible(rows: seq<Row>): seq<Row> {
    if rows == [] then []
    else Visible(rows[..|rows| - 1]) + if rows[|rows| - 1] == [""] then [] else [rows[|rows| - 1]]
  }

  lemma BlankLine(row: Row)
    requires row != []
    ensures Line(row) == "" <==> row == [""]
  {
    RowRoundTrip(row);
    if Line(row) == "" {
      assert Run("", "", false, []) == [] + [""] == [""];
    }
    if row == [""] {
      assert Line(row) == CsvEscape("") == "";
    }
  }

  lemma {:induction false} ReadLines(rows: seq<Row>)
    requires forall i :: 0 <= i < |rows| ==> rows[i] != []
    ensures ParsedAll(NonBlank(Lines(rows))) == Visible(rows)
  {
    if rows != [] {
      var front, last := rows[..|rows| - 1], rows[|rows| - 1];
      ReadLines(front);
      assert Lines(rows) == Lines(front) + [Line(last)];
      BlankLine(last);
      RowRoundTrip(last);
    }
  }

  lemma NonBlankSnoc(lines: seq<string>)
    ensures NonBlank(lines + [""]) == NonBlank(lines)
  {
    assert (lines + [""])[..|lines|] == lines;
  }

  lemma ReadNothing()
    ensures NonBlank(Split("\n", '\n')) == []
  {
    var lines := ["", ""];
    assert lines[1..] == [""] && Join(lines, '\n') == "\n";
    SplitJoin(lines, '\n');
    assert lines[..1] == [""] && lines[..1][..0] == [];
  }

  lemma ReadDocument(rows: seq<Row>)
    requires forall i :: 0 <= i < |rows| ==> rows[i] != [] && OneLine(rows[i])
    ensures Read(Document(rows)) == Visible(rows)
  {
    if rows == [] {
      assert Lines(rows) == [] && Document(rows) == "\n";
      ReadNothing();
    } else {
      DocumentLines(rows);
      NonBlankSnoc(Lines(rows));
      ReadLines(rows);
    }
  }

  lemma {:induction false} RunWithout(rest: string, current: string, inQuotes: bool, fields: Row)
    requires Without(rest, '\n') && Without(current, '\n') && OneLine(fields)
    ensures OneLine(Run(rest, current, inQuotes, fields))
    decreases |rest|
  {
    if rest == "" {
    } else if inQuotes {
      if |rest| > 1 && rest[0] == '"' && rest[1] == '"' {
        RunWithout(rest[2..], current + "\"", true, fields);
      } else if rest[0] == '"' {
        RunWithout(rest[1..], current, false, fields);
      } else {
        RunWithout(rest[1..], current + [rest[0]], true, fields);
      }
    } else if rest[0] == '"' {
      RunWithout(rest[1..], current, true, fields);
    } else if rest[0] == ',' {
      RunWithout(rest[1..], "", false, fields + [current]);
    } else {
      RunWithout(rest[1..], current + [rest[0]], false, fields);
    }
  }

  lemma {:induction false} NonBlankFrom(lines: seq<string>)
    ensures forall line :: line in NonBlank(lines) ==> line in lines
  {
    if lines != [] {
      NonBlankFrom(lines[..|lines| - 1]);
    }
  }

  /** What is read never holds a newline: the text is cut there first. */
  lemma ReadIsOneLine(text: string)
    ensures forall i :: 0 <= i < |Read(text)| ==> OneLine(Read(text)[i])
  {
    var lines := NonBlank(Split(text, '\n'));
    SplitParts(text, '\n');
    NonBlankFrom(Split(text, '\n'));
    forall i | 0 <= i < |Read(text)|
      ensures OneLine(Read(text)[i])
    {
      assert lines[i] in Split(text, '\n');
      RunWithout(lines[i], "", false, []);
    }
  }

  lemma {:induction false} VisibleAll(rows: seq<Row>)
    ensures |Visible(rows)| <= |rows|
    ensures Visible(rows) == rows <==> forall i :: 0 <= i < |rows| ==> rows[i] != [""]
  {
    if rows != [] {
      var front, last := rows[..|rows| - 1], rows[|rows| - 1];
      VisibleAll(front);
      assert rows == front + [last];
      if last == [""] {
        assert |Visible(rows)| < |rows|;
      } else if Visible(rows) == rows {
        assert Visible(rows)[..|rows| - 1] == Visible(front);
      }
    }
  }

  /** A whole document comes back exactly when no field has a newline and no row is one empty field:
      quoting a newline does not save it from a reader that splits lines first. */
  lemma DocumentRoundTripsExactly(rows: seq<Row>)
    requires forall i :: 0 <= i < |rows| ==> rows[i] != []
    ensures Read(Document(rows)) == rows <==> forall i :: 0 <= i < |rows| ==> OneLine(rows[i]) && rows[i] != [""]
  {
    if forall i :: 0 <= i < |rows| ==> OneLine(rows[i]) {
      ReadDocument(rows);
      VisibleAll(rows);
    } else {
      ReadIsOneLine(Document(rows));
    }
  }
}
