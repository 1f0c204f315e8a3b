/** The timeline's CSV printer and reader. */
module Csv {
  import opened Wrappers
  import opened Scan

  type Row = seq<string>

  // ----- printing

  predicate Special(c: char) { c == '"' || c == ',' || c == '\r' || c == '\n' }
  predicate Plain(s: string) { forall c :: c in s ==> !Special(c) }

  /** Every quote twice. */
  function Doubled(s: string): string
  {
    if s == [] then [] else (if s[0] == '"' then ['"', '"'] else [s[0]]) + Doubled(s[1..])
  }

  function Escape(s: string): string { if Plain(s) then s else ['"'] + (Doubled(s) + ['"']) }

  function Line(row: Row): string
  {
    if row == [] then [] else if |row| == 1 then Escape(row[0]) else Escape(row[0]) + ([','] + Line(row[1..]))
  }

  /** One line per row, each ended by `eol`; the page exports with a line feed. */
  ghost function Export(rows: seq<Row>, eol: string): string
  {
    if rows == [] then [] else Line(rows[0]) + (eol + Export(rows[1..], eol))
  }

  /** The same without the last line end. */
  ghost function Unended(rows: seq<Row>, eol: string): string
  {
    if rows == [] then [] else if |rows| == 1 then Line(rows[0]) else Line(rows[0]) + (eol + Unended(rows[1..], eol))
  }

  predicate IsLineEnd(eol: string) { eol == "\n" || eol == "\r" || eol == "\r\n" }

  // ----- reading

  /** The reader's variables. */
  datatype State = State(rows: seq<Row>, row: Row, field: string, quoted: bool)

  /** The end of the text. */
  function Finish(s: State): Result<seq<Row>>
  {
    if s.quoted then Err else if s.field != [] || s.row != [] then Ok(s.rows + [s.row + [s.field]]) else Ok(s.rows)
  }

  function EndField(s: State): State { s.(row := s.row + [s.field], field := []) }
  function EndRow(s: State): State { s.(rows := s.rows + [s.row + [s.field]], row := [], field := []) }

  /** How many characters are read next: two for a doubled quote and for a carriage return with line feed. */
  function Width(s: State, text: string): (n: nat)
    requires text != []
    ensures 1 <= n <= |text|
  {
    if |text| > 1 && s.quoted && text[0] == '"' && text[1] == '"' then 2
    else if |text| > 1 && !s.quoted && text[0] == '\r' && text[1] == '\n' then 2
    else 1
  }

  function Next(s: State, text: string): Result<State>
    requires text != []
  {
    var c := text[0];
    if s.quoted then
      if c != '"' then Ok(s.(field := s.field + [c]))
      else if Width(s, text) == 2 then Ok(s.(field := s.field + ['"']))
      else Ok(s.(quoted := false))
    else if c == '"' then (if s.field != [] then Err else Ok(s.(quoted := true)))
    else if c == ',' then Ok(EndField(s))
    else if c == '\n' || c == '\r' then Ok(EndRow(s))
    else Ok(s.(field := s.field + [c]))
  }

  ghost function Read(s: State, text: string): Result<seq<Row>>
    decreases |text|
  {
    if text == [] then Finish(s)
    else
      var t := Next(s, text);
      if t.Err? then Err else Read(t.value, text[Width(s, text)..])
  }

  const START: State := State([], [], [], false)

  /** A row is kept if some cell is not blank. */
  function Kept(visible: string -> bool): Row -> bool
  {
    (r: Row) => exists cell :: cell in r && visible(cell)
  }

  /** What a text means, for any notion of a cell that is not blank. */
  ghost function Meaning(text: string, visible: string -> bool): Result<seq<Row>>
  {
    var all := Read(START, text);
    if all.Err? then Err else Ok(Filter(Kept(visible), all.value))
  }

  /** `parseCsvRows`. */
  method ParseCsvRows(text: string, visible: string -> bool) returns (r: Result<seq<Row>>)
    ensures r == Meaning(text, visible)
  {
    var s, i := START, 0;
    assert text[0..] == text;
    while i < |text|
      invariant 0 <= i <= |text| && Read(START, text) == Read(s, text[i..])
    {
      var t := Next(s, text[i..]);
      if t.Err? { return Err; }
      var width := Width(s, text[i..]);
      assert text[i..][width..] == text[i + width..];
      s, i := t.value, i + width;
    }
    var all := Finish(s);
    if all.Err? { return Err; }
    var kept := KeepVisible(all.value, visible);
    return Ok(kept);
  }

  method KeepVisible(rows: seq<Row>, visible: string -> bool) returns (kept: seq<Row>)
    ensures kept == Filter(Kept(visible), rows)
  {
    kept := [];
    assert rows[..0] == [];
    for i := 0 to |rows|
      invariant kept == Filter(Kept(visible), rows[..i])
    {
      assert rows[..i + 1] == rows[..i] + [rows[i]];
      FilterConcat(Kept(visible), rows[..i], [rows[i]]);
      FilterOne(Kept(visible), rows[i]);
      if Kept(visible)(rows[i]) { kept := kept + [rows[i]]; }
    }
    assert rows[..|rows|] == rows;
  }

  // ----- round trip

  lemma ReadOne(s: State, c: char, rest: string)
    requires Width(s, [c] + rest) == 1
    ensures var t := Next(s, [c] + rest);
      Read(s, [c] + rest) == if t.Err? then Err else Read(t.value, rest)
  {
    assert ([c] + rest)[1..] == rest;
  }

  lemma {:induction false} ReadPlain(s: State, f: string, rest: string)
    requires Plain(f) && !s.quoted
    ensures Read(s, f + rest) == Read(s.(field := s.field + f), rest)
    decreases f
  {
    if f == [] {
      assert f + rest == rest && s.field + f == s.field;
    } else {
      assert f[0] in f;
      assert f + rest == [f[0]] + (f[1..] + rest);
      ReadOne(s, f[0], f[1..] + rest);
      ReadPlain(s.(field := s.field + [f[0]]), f[1..], rest);
      Regroup(s.field, [f[0]], f[1..]);
      assert [f[0]] + f[1..] == f;
    }
  }

  /** What follows a field: the reader must not take its closing quote for a doubled one. */
  ghost predicate AfterField(rest: string) { rest == [] || rest[0] == ',' || rest[0] == '\n' || rest[0] == '\r' }

  lemma ReadTwo(s: State, rest: string)
    requires s.quoted
    ensures Read(s, ['"', '"'] + rest) == Read(s.(field := s.field + ['"']), rest)
  {
    assert (['"', '"'] + rest)[2..] == rest;
  }

  lemma {:induction false} ReadQuoted(s: State, f: string, rest: string)
    requires s.quoted && AfterField(rest)
    ensures Read(s, Doubled(f) + (['"'] + rest)) == Read(s.(field := s.field + f, quoted := false), rest)
    decreases f
  {
    if f == [] {
      assert Doubled(f) + (['"'] + rest) == ['"'] + rest && s.field + f == s.field;
      ReadOne(s, '"', rest);
    } else {
      var tail := Doubled(f[1..]) + (['"'] + rest);
      var t := s.(field := s.field + [f[0]]);
      if f[0] == '"' {
        Regroup(['"', '"'], Doubled(f[1..]), ['"'] + rest);
        ReadTwo(s, tail);
      } else {
        Regroup([f[0]], Doubled(f[1..]), ['"'] + rest);
        ReadOne(s, f[0], tail);
      }
      ReadQuoted(t, f[1..], rest);
      Regroup(s.field, [f[0]], f[1..]);
      assert [f[0]] + f[1..] == f;
    }
  }

  lemma ReadField(s: State, f: string, rest: string)
    requires !s.quoted && s.field == [] && AfterField(rest)
    ensures Read(s, Escape(f) + rest) == Read(s.(field := f), rest)
  {
    if Plain(f) {
      ReadPlain(s, f, rest);
      assert [] + f == f;
    } else {
      var tail := Doubled(f) + (['"'] + rest);
      assert Escape(f) + rest == ['"'] + tail;
      ReadOne(s, '"', tail);
      ReadQuoted(s.(quoted := true), f, rest);
      assert [] + f == f;
    }
  }

  /** No text starts with a line feed that a carriage return before it would swallow. */
  ghost predicate NoFeed(eol: string, rest: string) { eol == "\r" ==> rest == [] || rest[0] != '\n' }

  lemma ReadEnd(s: State, eol: string, rest: string)
    requires !s.quoted && IsLineEnd(eol) && NoFeed(eol, rest)
    ensures Read(s, eol + rest) == Read(EndRow(s), rest)
  {
    var text := eol + rest;
    assert text[Width(s, text)..] == rest by {
      if eol == "\r\n" {
        assert text[2..] == rest;
      } else {
        assert text[1..] == rest;
        if |text| > 1 { assert text[1] == rest[0]; }
      }
    }
  }

  lemma ReadFirstCell(s: State, row: Row, rest: string)
    requires |row| > 1 && !s.quoted && s.field == []
    ensures Read(s, Line(row) + rest) == Read(s.(row := s.row + [row[0]]), Line(row[1..]) + rest)
  {
    var tail := Line(row[1..]) + rest;
    Regroup(Escape(row[0]), [','] + Line(row[1..]), rest);
    Regroup([','], Line(row[1..]), rest);
    ReadField(s, row[0], [','] + tail);
    ReadOne(s.(field := row[0]), ',', tail);
  }

  /** Reads the cells of a row up to the end of its line. */
  lemma {:induction false} ReadCells(s: State, row: Row, cells: Row, last: string, rest: string)
    requires row == cells + [last] && !s.quoted && s.field == []
    requires rest != [] ==> rest[0] == '\n' || rest[0] == '\r'
    ensures Read(s, Line(row) + rest) == Read(State(s.rows, s.row + cells, last, false), rest)
    decreases |row|
  {
    if cells == [] {
      assert row == [last] && s.row + cells == s.row;
      ReadField(s, last, rest);
    } else {
      ReadFirstCell(s, row, rest);
      assert row[0] == cells[0] && row[1..] == cells[1..] + [last];
      ReadCells(s.(row := s.row + [row[0]]), row[1..], cells[1..], last, rest);
      Regroup(s.row, [cells[0]], cells[1..]);
      assert [cells[0]] + cells[1..] == cells;
    }
  }

  lemma LastCell(row: Row)
    requires row != []
    ensures row == row[..|row| - 1] + [row[|row| - 1]]
  {
  }

  lemma ReadLine(s: State, row: Row, eol: string, rest: string)
    requires row != [] && !s.quoted && s.field == [] && IsLineEnd(eol) && NoFeed(eol, rest)
    ensures Read(s, Line(row) + (eol + rest)) == Read(State(s.rows + [s.row + row], [], [], false), rest)
  {
    var cells, last := row[..|row| - 1], row[|row| - 1];
    LastCell(row);
    ReadCells(s, row, cells, last, eol + rest);
    ReadEnd(State(s.rows, s.row + cells, last, false), eol, rest);
    Regroup(s.row, cells, [last]);
  }

  lemma EscapeStart(f: string)
    ensures Escape(f) == [] || Escape(f)[0] != '\n'
  {
    if Plain(f) && f != [] { assert f[0] in f; }
  }

  lemma LineStart(row: Row)
    ensures Line(row) == [] || Line(row)[0] != '\n'
  {
    if row != [] { EscapeStart(row[0]); }
  }

  lemma ExportStart(rows: seq<Row>, eol: string)
    requires IsLineEnd(eol)
    ensures NoFeed(eol, Export(rows, eol)) && NoFeed(eol, Unended(rows, eol))
  {
    if rows != [] { LineStart(rows[0]); }
  }

  /** A row without cells is printed like a row with one empty cell. */
  function Printed(row: Row): Row { if row == [] then [""] else row }

  ghost function AllPrinted(rows: seq<Row>): seq<Row>
  {
    if rows == [] then [] else [Printed(rows[0])] + AllPrinted(rows[1..])
  }

  lemma PrintedLine(row: Row)
    ensures Line(Printed(row)) == Line(row)
  {
    assert Plain("");
  }

  lemma {:induction false} ReadRows(done: seq<Row>, rows: seq<Row>, eol: string)
    requires IsLineEnd(eol)
    ensures Read(State(done, [], [], false), Export(rows, eol)) == Ok(done + AllPrinted(rows))
    decreases rows
  {
    if rows == [] {
      assert done + AllPrinted(rows) == done;
    } else {
      var row := Printed(rows[0]);
      PrintedLine(rows[0]);
      ExportStart(rows[1..], eol);
      ReadLine(State(done, [], [], false), row, eol, Export(rows[1..], eol));
      assert [] + row == row;
      ReadRows(done + [row], rows[1..], eol);
      Regroup(done, [row], AllPrinted(rows[1..]));
    }
  }

  lemma FinishRow(done: seq<Row>, row: Row, cells: Row, last: string)
    requires row == cells + [last]
    ensures Finish(State(done, cells, last, false)) == Ok(if row == [""] then done else done + [row])
  {
    assert |row| == |cells| + 1 && row[|cells|] == last;
    if last == [] && cells == [] { assert row == [""]; }
  }

  /** A last line without an end is a row, unless there is nothing on it. */
  lemma ReadLast(done: seq<Row>, row: Row)
    requires row != []
    ensures Read(State(done, [], [], false), Line(row)) == Ok(if row == [""] then done else done + [row])
  {
    var cells, last := row[..|row| - 1], row[|row| - 1];
    LastCell(row);
    ReadCells(State(done, [], [], false), row, cells, last, []);
    assert Line(row) + [] == Line(row) && [] + cells == cells;
    FinishRow(done, row, cells, last);
  }

  /** What is read of rows whose last line has no end. */
  ghost function UnendedRows(rows: seq<Row>): seq<Row>
  {
    if rows == [] then []
    else if |rows| == 1 then (if Printed(rows[0]) == [""] then [] else [rows[0]])
    else [Printed(rows[0])] + UnendedRows(rows[1..])
  }

  lemma {:induction false} ReadUnended(done: seq<Row>, rows: seq<Row>, eol: string)
    requires IsLineEnd(eol)
    ensures Read(State(done, [], [], false), Unended(rows, eol)) == Ok(done + UnendedRows(rows))
    decreases rows
  {
    if rows == [] {
      assert done + [] == done;
    } else if |rows| == 1 {
      PrintedLine(rows[0]);
      ReadLast(done, Printed(rows[0]));
      assert done + [] == done;
    } else {
      var row := Printed(rows[0]);
      PrintedLine(rows[0]);
      ExportStart(rows[1..], eol);
      ReadLine(State(done, [], [], false), row, eol, Unended(rows[1..], eol));
      assert [] + row == row;
      ReadUnended(done + [row], rows[1..], eol);
      Regroup(done, [row], UnendedRows(rows[1..]));
    }
  }

  lemma {:induction false} PrintedFilter(rows: seq<Row>, visible: string -> bool)
    requires !visible("")
    ensures Filter(Kept(visible), AllPrinted(rows)) == Filter(Kept(visible), rows)
  {
    if rows != [] {
      PrintedFilter(rows[1..], visible);
      assert AllPrinted(rows)[1..] == AllPrinted(rows[1..]);
      assert Kept(visible)([""]) == Kept(visible)([]) == false;
    }
  }

  lemma {:induction false} UnendedFilter(rows: seq<Row>, visible: string -> bool)
    requires !visible("")
    ensures Filter(Kept(visible), UnendedRows(rows)) == Filter(Kept(visible), rows)
  {
    if |rows| > 1 {
      UnendedFilter(rows[1..], visible);
      assert UnendedRows(rows)[1..] == UnendedRows(rows[1..]);
    } else if |rows| == 1 {
      assert rows[1..] == [] && [rows[0]][1..] == [];
    }
    assert Kept(visible)([""]) == Kept(visible)([]) == false;
  }

  ghost predicate HasVisible(row: Row, visible: string -> bool) { exists k :: 0 <= k < |row| && visible(row[k]) }

  /** The rows that hold a visible cell, in their order. */
  ghost function NotBlank(rows: seq<Row>, visible: string -> bool): seq<Row>
  {
    if rows == [] then []
    else (if HasVisible(rows[0], visible) then [rows[0]] else []) + NotBlank(rows[1..], visible)
  }

  lemma NoneBlank(rows: seq<Row>, visible: string -> bool)
    ensures NotBlank(rows, visible) == rows <==> forall i :: 0 <= i < |rows| ==> HasVisible(rows[i], visible)
  {
    KeptAreNotBlank(rows, visible);
    FilterAllIff(Kept(visible), rows);
    forall i | 0 <= i < |rows| ensures HasVisible(rows[i], visible) <==> Kept(visible)(rows[i]) {
      KeptIff(rows[i], visible);
    }
  }

  lemma KeptIff(row: Row, visible: string -> bool)
    ensures Kept(visible)(row) <==> HasVisible(row, visible)
  {
  }

  lemma {:induction false} KeptAreNotBlank(rows: seq<Row>, visible: string -> bool)
    ensures Filter(Kept(visible), rows) == NotBlank(rows, visible)
  {
    if rows != [] {
      KeptIff(rows[0], visible);
      KeptAreNotBlank(rows[1..], visible);
    }
  }

  /**
    Reading a table gives its rows that are not blank, whatever characters their cells hold,
    whichever line ends are used and whether or not the last line has one. So the table itself
    comes back exactly if no row is blank.
  */
  lemma CsvRoundTrip(rows: seq<Row>, eol: string, visible: string -> bool)
    requires !visible("") && IsLineEnd(eol)
    ensures Meaning(Export(rows, eol), visible) == Ok(NotBlank(rows, visible))
    ensures Meaning(Unended(rows, eol), visible) == Ok(NotBlank(rows, visible))
    ensures NotBlank(rows, visible) == rows <==> forall i :: 0 <= i < |rows| ==> HasVisible(rows[i], visible)
  {
    ReadRows([], rows, eol);
    ReadUnended([], rows, eol);
    assert [] + AllPrinted(rows) == AllPrinted(rows) && [] + UnendedRows(rows) == UnendedRows(rows);
    PrintedFilter(rows, visible);
    UnendedFilter(rows, visible);
    KeptAreNotBlank(rows, visible);
    NoneBlank(rows, visible);
  }

  // ----- refusals

  /** A quote inside a cell that did not start with one is refused, whatever follows. */
  lemma StrayQuote(f: string, rest: string, visible: string -> bool)
    requires Plain(f) && f != []
    ensures Meaning(f + (['"'] + rest), visible).Err?
  {
    ReadPlain(START, f, ['"'] + rest);
    assert [] + f == f;
  }

  /** A cell whose closing quote is missing is refused. */
  lemma {:induction false} UnclosedFrom(s: State, f: string)
    requires s.quoted
    ensures Read(s, Doubled(f)).Err?
    decreases f
  {
    if f != [] {
      var t := s.(field := s.field + [f[0]]);
      if f[0] == '"' {
        ReadTwo(s, Doubled(f[1..]));
      } else {
        ReadOne(s, f[0], Doubled(f[1..]));
      }
      UnclosedFrom(t, f[1..]);
    }
  }

  lemma UnclosedQuote(f: string, visible: string -> bool)
    ensures Meaning(['"'] + Doubled(f), visible).Err?
  {
    UnclosedFrom(START.(quoted := true), f);
    if f != [] && f[0] == '"' { assert Width(START, ['"'] + Doubled(f)) == 1; }
    ReadOne(START, '"', Doubled(f));
  }
}
