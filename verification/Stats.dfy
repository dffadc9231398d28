/**
 The statistics table of src/DAF/AE/Stats: a map from (column, row) to text, printed and parsed as
 comma-separated lines. Parsing what was printed gives the table back exactly when there is a column
 to print and no cell holds a comma or a newline.
 */
module Stats {
  import opened Text

  const DELIM := ','
  const NEWLINE := '\n'

  // ---------- Trimming ----------

  predicate IsSpace(c: char) {
    c == ' ' || c == '\t' || c == '\n' || c == '\r' || c == '\U{0B}' || c == '\U{0C}'
  }

  function TrimLeft(s: string): (r: string)
    ensures |r| <= |s| && r == s[|s| - |r|..] && (r != [] ==> !IsSpace(r[0]))
    ensures forall i :: 0 <= i < |s| - |r| ==> IsSpace(s[i])
  {
    if s != [] && IsSpace(s[0]) then TrimLeft(s[1..]) else s
  }

  function TrimRight(s: string): (r: string)
    ensures r <= s && (r != [] ==> !IsSpace(r[|r| - 1]))
    ensures forall i :: |r| <= i < |s| ==> IsSpace(s[i])
  {
    if s != [] && IsSpace(s[|s| - 1]) then TrimRight(s[..|s| - 1]) else s
  }

  function Trim(s: string): (r: string)
    ensures forall c :: c in r ==> c in s
    ensures r != [] ==> !IsSpace(r[0]) && !IsSpace(r[|r| - 1])
  {
    TrimRight(TrimLeft(s))
  }

  // Only blanks surround the part of `s` from a to b, and it begins and ends without one.
  ghost predicate Core(s: string, a: nat, b: nat) {
    && a <= b <= |s|
    && (forall i :: 0 <= i < a ==> IsSpace(s[i])) && (forall i :: b <= i < |s| ==> IsSpace(s[i]))
    && (a < b ==> !IsSpace(s[a]) && !IsSpace(s[b - 1]))
  }

  // Trimming gives the core of a text, which every text has.
  lemma TrimIsCore(s: string) returns (a: nat, b: nat)
    ensures Core(s, a, b) && Trim(s) == s[a..b]
  {
    hide TrimLeft, TrimRight, IsSpace;
    var left := TrimLeft(s);
    var right := TrimRight(left);
    a := |s| - |left|;
    b := a + |right|;
    assert Trim(s) == right;
    hide Trim;
    assert forall i :: a <= i < |s| ==> s[i] == left[i - a];
    assert right == left[..|right|] == s[a..b];
    assert a < b ==> right[0] == s[a] && right[|right| - 1] == s[b - 1];
  }

  // And there is only one.
  lemma CoreIsUnique(s: string, a: nat, b: nat)
    requires Core(s, a, b)
    ensures Trim(s) == s[a..b]
  {
    hide Trim, IsSpace;
    var a', b' := TrimIsCore(s);
    if a < b {
      assert !IsSpace(s[a]) && !IsSpace(s[b - 1]);
    }
  }

  lemma TrimTwice(s: string)
    ensures Trim(Trim(s)) == Trim(s)
  {
  }

  lemma BlankIsSpace(c: char)
    requires c in [' ', '\t', '\n', '\r', '\U{0B}', '\U{0C}']
    ensures IsSpace(c)
  {
  }

  // A text with any of the six blanks of the C locale around it is trimmed as it is without them.
  lemma BlanksAreTrimmed(x: string, s: string, y: string)
    requires forall c :: c in x + y ==> c in [' ', '\t', '\n', '\r', '\U{0B}', '\U{0C}']
    ensures Trim(x + s + y) == Trim(s)
  {
    hide Trim, IsSpace;
    var t := x + s + y;
    var a, b := TrimIsCore(s);
    forall i | 0 <= i < |x| + a
      ensures IsSpace(t[i])
    {
      if i < |x| {
        assert t[i] == (x + y)[i];
        BlankIsSpace(t[i]);
      }
    }
    forall i | |x| + b <= i < |t|
      ensures IsSpace(t[i])
    {
      if i >= |x| + |s| {
        assert t[i] == (x + y)[i - |s|];
        BlankIsSpace(t[i]);
      }
    }
    CoreIsUnique(t, |x| + a, |x| + b);
    assert t[|x| + a..|x| + b] == s[a..b];
  }

  // And one with none of them at either end stays as it is.
  lemma InkStays(s: string)
    requires s != "" ==> s[0] !in [' ', '\t', '\n', '\r', '\U{0B}', '\U{0C}']
    requires s != "" ==> s[|s| - 1] !in [' ', '\t', '\n', '\r', '\U{0B}', '\U{0C}']
    ensures Trim(s) == s
  {
    hide Trim;
    CoreIsUnique(s, 0, |s|);
    assert s[0..|s|] == s;
  }

  // ---------- The table and its text ----------

  type Cells = map<(nat, nat), string>

  // What a position reads as: trimmed, and empty when absent
  function Cell(data: Cells, c: nat, r: nat): string {
    if (c, r) in data then Trim(data[(c, r)]) else ""
  }

  function RowCells(data: Cells, nCols: nat, r: nat): seq<string> {
    seq(nCols, c requires 0 <= c < nCols => Cell(data, c, r))
  }

  function Row(data: Cells, nCols: nat, r: nat): string {
    Join(RowCells(data, nCols, r), DELIM)
  }

  function Print(data: Cells, nCols: nat, nRows: nat): string {
    if nCols == 0 || nRows == 0 then ""
    else Print(data, nCols, nRows - 1) + Row(data, nCols, nRows - 1) + [NEWLINE]
  }

  function Fields(lines: seq<string>, r: nat): seq<string>
    requires r < |lines|
  {
    Pieces(lines[r], DELIM)
  }

  // The table that reading these lines gives: one row a line, one trimmed cell a field
  ghost predicate Parsed(lines: seq<string>, data: Cells, nCols: nat, nRows: nat) {
    && nRows == |lines|
    && (forall c: nat, r: nat :: (c, r) in data <==> r < nRows && c < |Fields(lines, r)|)
    && (forall c: nat, r: nat :: (c, r) in data ==> data[(c, r)] == Trim(Fields(lines, r)[c]))
    && (forall r: nat :: r < nRows ==> |Fields(lines, r)| <= nCols)
    && (nCols == 0 || exists r: nat :: r < nRows && |Fields(lines, r)| == nCols)
  }

  ghost predicate Loaded(text: string, data: Cells, nCols: nat, nRows: nat) {
    Parsed(Pieces(text, NEWLINE), data, nCols, nRows)
  }

  // The row that reading one line adds
  ghost predicate RowAdded(data: Cells, row: nat, line: string, data': Cells) {
    && (forall c: nat, r: nat :: (c, r) in data' <==> (c, r) in data || (r == row && c < |Pieces(line, DELIM)|))
    && (forall c: nat, r: nat :: (c, r) in data ==> data'[(c, r)] == data[(c, r)])
    && (forall c: nat :: c < |Pieces(line, DELIM)| ==> (c, row) in data' && data'[(c, row)] == Trim(Pieces(line, DELIM)[c]))
  }

  lemma NextRow(lines: seq<string>, data: Cells, nCols: nat, line: string, data': Cells)
    requires Parsed(lines, data, nCols, |lines|) && RowAdded(data, |lines|, line, data')
    ensures var nCol := |Pieces(line, DELIM)|;
      Parsed(lines + [line], data', if nCols < nCol then nCol else nCols, |lines| + 1)
  {
    hide Pieces, Trim;
    var lines' := lines + [line];
    assert forall r: nat :: r < |lines| ==> Fields(lines', r) == Fields(lines, r);
    assert Fields(lines', |lines|) == Pieces(line, DELIM);
  }

  // ---------- What is read, by where it stands ----------

  // As many rows as the text has newlines, and one more for a last line without
  lemma RowsAreLines(text: string, data: Cells, nCols: nat, nRows: nat)
    requires Loaded(text, data, nCols, nRows)
    ensures nRows == multiset(text)['\n'] + if text != "" && text[|text| - 1] != '\n' then 1 else 0
  {
    PiecesCount(text, '\n');
  }

  // A field between commas, newlines or the ends of the text is read into the row with the number of newlines
  // before it and the column with the number of commas before it in its line: `above` are the lines above, `left` is
  // what stands before it in its line and `right` what stands after. An empty field at the end of its line is not read.
  lemma FieldIsRead(above: string, left: string, field: string, right: string, below: string,
                    data: Cells, nCols: nat, nRows: nat)
    requires Loaded(above + (left + field + right) + below, data, nCols, nRows)
    requires (above == "" || above[|above| - 1] == '\n') && (below == "" || below[0] == '\n')
    requires (left == "" || left[|left| - 1] == ',') && (right == "" || right[0] == ',')
    requires '\n' !in left + field + right && ',' !in field
    ensures var (c, r) := (multiset(left)[','], multiset(above)['\n']);
      && ((c, r) in data <==> field + right != "")
      && ((c, r) in data ==> data[(c, r)] == Trim(field) && c < nCols && r < nRows)
  {
    hide Pieces, Trim;
    var line := left + field + right;
    var text, r, c := above + line + below, multiset(above)['\n'], multiset(left)[','];
    PieceIsAt(above, line, below, '\n');
    PieceIsAt(left, field, right, ',');
    var lines := Pieces(text, '\n');
    if r < |lines| {
      var fields := Fields(lines, r);
      assert line + below != "";
      assert lines[r] == line;
      assert (c, r) in data <==> c < |fields|;
    }
  }

  // ---------- The round trip ----------

  predicate Printable(s: string) {
    DELIM !in s && NEWLINE !in s
  }

  predicate AllPrintable(data: Cells, nCols: nat, nRows: nat) {
    forall c, r :: 0 <= c < nCols && 0 <= r < nRows ==> Printable(Cell(data, c, r))
  }

  // The same number of rows, and the same text at every position of the printed table
  predicate SameTable(data: Cells, nCols: nat, nRows: nat, data': Cells, nRows': nat) {
    && nRows' == nRows
    && forall c, r :: 0 <= c < nCols && 0 <= r < nRows ==> Cell(data', c, r) == Cell(data, c, r)
  }

  lemma JoinSnoc(v: seq<string>, x: string, d: char)
    requires v != []
    ensures Join(v + [x], d) == Join(v, d) + Separator(d) + x
  {
    assert (v + [x])[..|v|] == v;
  }

  lemma {:induction false} JoinAvoids(v: seq<string>, d: char, c: char)
    requires c != d && Clean(v, c)
    ensures c !in Join(v, d)
  {
    if |v| >= 2 {
      JoinAvoids(v[..|v| - 1], d, c);
    }
  }

  function Lines(data: Cells, nCols: nat, nRows: nat): (r: seq<string>)
    ensures |r| == nRows
  {
    seq(nRows, r requires 0 <= r < nRows => Row(data, nCols, r))
  }

  lemma JoinOne(x: string, d: char)
    ensures Join([x], d) == x
  {
  }

  lemma JoinNextLine(before: seq<string>, x: string)
    ensures Join(before + [""], NEWLINE) + x + [NEWLINE] == Join(before + [x] + [""], NEWLINE)
  {
    hide Join;
    JoinSnoc(before + [x], "", NEWLINE);
    if before == [] {
      JoinOne(x, NEWLINE);
      JoinOne("", NEWLINE);
      assert before + [x] == [x] && before + [""] == [""];
    } else {
      JoinSnoc(before, "", NEWLINE);
      JoinSnoc(before, x, NEWLINE);
    }
  }

  // The printed text is its lines and an empty last one, joined by newlines.
  lemma {:induction false} PrintIsJoin(data: Cells, nCols: nat, nRows: nat)
    requires nCols > 0
    ensures Print(data, nCols, nRows) == Join(Lines(data, nCols, nRows) + [""], NEWLINE)
  {
    hide Row, Join;
    if nRows == 0 {
      JoinOne("", NEWLINE);
      assert Lines(data, nCols, 0) + [""] == [""];
    } else {
      PrintIsJoin(data, nCols, nRows - 1);
      JoinNextLine(Lines(data, nCols, nRows - 1), Row(data, nCols, nRows - 1));
      assert Lines(data, nCols, nRows) == Lines(data, nCols, nRows - 1) + [Row(data, nCols, nRows - 1)];
    }
  }

  lemma LinesReadBack(data: Cells, nCols: nat, nRows: nat)
    requires nCols > 0 && AllPrintable(data, nCols, nRows)
    ensures Pieces(Print(data, nCols, nRows), NEWLINE) == Lines(data, nCols, nRows)
  {
    hide Pieces, Join, Cell;
    var lines := Lines(data, nCols, nRows) + [""];
    forall r | 0 <= r < nRows
      ensures NEWLINE !in Row(data, nCols, r)
    {
      JoinAvoids(RowCells(data, nCols, r), DELIM, NEWLINE);
    }
    PrintIsJoin(data, nCols, nRows);
    SplitOfJoin(lines, NEWLINE);
    assert lines[..nRows] == Lines(data, nCols, nRows);
  }

  lemma RowReadsBack(data: Cells, nCols: nat, nRows: nat, r: nat)
    requires nCols > 0 && AllPrintable(data, nCols, nRows) && r < nRows
    ensures Pieces(Row(data, nCols, r), DELIM) == ReadBack(RowCells(data, nCols, r))
  {
    hide Pieces, Join, Cell;
    SplitOfJoin(RowCells(data, nCols, r), DELIM);
  }

  lemma ReadBackAt(v: seq<string>, c: nat)
    requires c < |v|
    ensures if c < |ReadBack(v)| then ReadBack(v)[c] == v[c] else v[c] == ""
  {
  }

  // One cell of a row that came back as `fields`
  lemma CellComesBack(data: Cells, nCols: nat, data': Cells, c: nat, r: nat, fields: seq<string>)
    requires c < nCols && fields == ReadBack(RowCells(data, nCols, r))
    requires (c, r) in data' <==> c < |fields|
    requires (c, r) in data' ==> data'[(c, r)] == Trim(fields[c])
    ensures Cell(data', c, r) == Cell(data, c, r)
  {
    hide Trim, ReadBack;
    ReadBackAt(RowCells(data, nCols, r), c);
    assert RowCells(data, nCols, r)[c] == Cell(data, c, r);
    if (c, r) in data {
      TrimTwice(data[(c, r)]);
    }
    TrimEmpty();
  }

  // The lines of a printable table hold its cells, less an empty last one.
  lemma FieldsComeBack(data: Cells, nCols: nat, nRows: nat, r: nat)
    requires nCols > 0 && AllPrintable(data, nCols, nRows) && r < nRows
    ensures Fields(Lines(data, nCols, nRows), r) == ReadBack(RowCells(data, nCols, r))
  {
    hide Pieces, Row, AllPrintable, ReadBack;
    RowReadsBack(data, nCols, nRows, r);
  }

  // A printable table comes back, possibly in fewer columns.
  lemma PrintableComesBack(data: Cells, nCols: nat, nRows: nat, data': Cells, nCols': nat, nRows': nat)
    requires Loaded(Print(data, nCols, nRows), data', nCols', nRows')
    requires nCols > 0 && AllPrintable(data, nCols, nRows)
    ensures SameTable(data, nCols, nRows, data', nRows') && nCols' <= nCols
  {
    hide Pieces, Print, Trim, Row, AllPrintable, Cell, Lines, Fields;
    LinesReadBack(data, nCols, nRows);
    var lines := Lines(data, nCols, nRows);
    forall c: nat, r: nat | c < nCols && r < nRows
      ensures Cell(data', c, r) == Cell(data, c, r)
    {
      FieldsComeBack(data, nCols, nRows, r);
      CellComesBack(data, nCols, data', c, r, Fields(lines, r));
    }
    forall r: nat | r < nRows
      ensures |Fields(lines, r)| <= nCols
    {
      FieldsComeBack(data, nCols, nRows, r);
    }
  }

  lemma TrimEmpty()
    ensures Trim("") == ""
  {
  }

  // ---------- What is printed, by its separators ----------

  lemma {:induction false} JoinCounts(v: seq<string>, d: char, c: char)
    requires v != [] && Clean(v, c)
    ensures multiset(Join(v, d))[c] == if c == d && d != '\0' then |v| - 1 else 0
  {
    if |v| >= 2 {
      JoinCounts(v[..|v| - 1], d, c);
      CountWithout(v[|v| - 1], c);
    } else {
      CountWithout(v[0], c);
    }
  }

  // Free of a character, as far as they are printed
  predicate CellsWithout(data: Cells, nCols: nat, nRows: nat, x: char) {
    forall c, r :: 0 <= c < nCols && 0 <= r < nRows && (c, r) in data ==> x !in data[(c, r)]
  }

  lemma CountLine(before: string, line: string, x: char)
    ensures multiset(before + line + ['\n'])[x] == multiset(before)[x] + multiset(line)[x] + if x == '\n' then 1 else 0
  {
  }

  lemma {:induction false} SeparatorPrinted(data: Cells, nCols: nat, nRows: nat, x: char)
    requires nCols > 0 && CellsWithout(data, nCols, nRows, x)
    ensures multiset(Print(data, nCols, nRows))[x] ==
      if x == '\n' then nRows else if x == ',' then nRows * (nCols - 1) else 0
  {
    hide Row, CellsWithout;
    if nRows > 0 {
      RowCounts(data, nCols, nRows, x);
      SeparatorPrinted(data, nCols, nRows - 1, x);
      CountLine(Print(data, nCols, nRows - 1), Row(data, nCols, nRows - 1), x);
      assert nRows * (nCols - 1) == (nRows - 1) * (nCols - 1) + (nCols - 1);
    }
  }

  // A newline ends every row and commas separate its cells, whatever the map holds elsewhere.
  lemma SeparatorsPrinted(data: Cells, nCols: nat, nRows: nat)
    ensures nCols == 0 ==> Print(data, nCols, nRows) == ""
    ensures nCols > 0 && CellsWithout(data, nCols, nRows, '\n') ==> multiset(Print(data, nCols, nRows))['\n'] == nRows
    ensures nCols > 0 && CellsWithout(data, nCols, nRows, ',') ==>
              multiset(Print(data, nCols, nRows))[','] == nRows * (nCols - 1)
  {
    hide Print, CellsWithout;
    if nCols == 0 {
      NothingPrinted(data, nRows);
    } else {
      if CellsWithout(data, nCols, nRows, '\n') {
        SeparatorPrinted(data, nCols, nRows, '\n');
      }
      if CellsWithout(data, nCols, nRows, ',') {
        SeparatorPrinted(data, nCols, nRows, ',');
      }
    }
  }

  lemma NothingPrinted(data: Cells, nRows: nat)
    ensures Print(data, 0, nRows) == ""
  {
  }

  lemma RowCounts(data: Cells, nCols: nat, nRows: nat, x: char)
    requires nCols > 0 && nRows > 0 && CellsWithout(data, nCols, nRows, x)
    ensures CellsWithout(data, nCols, nRows - 1, x)
    ensures multiset(Row(data, nCols, nRows - 1))[x] == if x == ',' then nCols - 1 else 0
  {
    hide Trim, Join;
    JoinCounts(RowCells(data, nCols, nRows - 1), DELIM, x);
  }

  // Whatever was read is printable.
  lemma LoadedIsPrintable(text: string, data: Cells, nCols: nat, nRows: nat, c: nat, r: nat)
    requires Loaded(text, data, nCols, nRows)
    ensures Printable(Cell(data, c, r))
  {
    hide Pieces, Trim;
    if (c, r) in data {
      var fields := Fields(Pieces(text, NEWLINE), r);
      PiecesAreClean(text, NEWLINE);
      PiecesAreClean(Pieces(text, NEWLINE)[r], DELIM);
      assert fields[c] in fields;
      TrimTwice(data[(c, r)]);
      assert forall x :: x in Cell(data, c, r) ==> x in data[(c, r)];
    }
  }

  // Printing and parsing gives the table back exactly when there is a column to print, or nothing to
  // print, and no cell holds a comma or a newline.
  lemma RoundTripIff(data: Cells, nCols: nat, nRows: nat, data': Cells, nCols': nat, nRows': nat)
    requires Loaded(Print(data, nCols, nRows), data', nCols', nRows')
    ensures SameTable(data, nCols, nRows, data', nRows')
       <==> (nCols > 0 || nRows == 0) && AllPrintable(data, nCols, nRows)
  {
    hide Pieces, Cell, Row, Loaded;
    if nCols == 0 || nRows == 0 {
      EmptyLoads(data', nCols', nRows');
    } else if AllPrintable(data, nCols, nRows) {
      PrintableComesBack(data, nCols, nRows, data', nCols', nRows');
    } else {
      var c, r :| 0 <= c < nCols && 0 <= r < nRows && !Printable(Cell(data, c, r));
      LoadedIsPrintable(Print(data, nCols, nRows), data', nCols', nRows', c, r);
    }
  }

  // The one cell "a,b" comes back as something else.
  lemma CommaExample(data': Cells, nCols': nat, nRows': nat)
    requires Loaded(Print(map[(0, 0) := "a,b"], 1, 1), data', nCols', nRows')
    ensures !SameTable(map[(0, 0) := "a,b"], 1, 1, data', nRows')
  {
    hide Loaded, Print, SameTable, Cell;
    CommaStays(map[(0, 0) := "a,b"]);
    RoundTripIff(map[(0, 0) := "a,b"], 1, 1, data', nCols', nRows');
  }

  lemma CommaStays(data: Cells)
    requires data == map[(0, 0) := "a,b"]
    ensures !Printable(Cell(data, 0, 0))
  {
    var s := "a,b";
    assert TrimLeft(s) == s && TrimRight(s) == s;
    assert s[1] == DELIM;
  }

  lemma EmptyLoads(data: Cells, nCols: nat, nRows: nat)
    requires Loaded("", data, nCols, nRows)
    ensures nRows == 0
  {
  }

  // Printed so far: all rows before `row`, and the first `col` cells of it
  predicate Done(nCols: nat, row: nat, col: nat, c: nat, r: nat) {
    (r < row && c < nCols) || (r == row && c < col)
  }

  // Printing a cell leaves its trimmed text in the map, creating it when absent.
  ghost predicate Tidied(before: Cells, nCols: nat, row: nat, col: nat, after: Cells) {
    && (forall c: nat, r: nat :: (c, r) in after <==> (c, r) in before || Done(nCols, row, col, c, r))
    && (forall c: nat, r: nat :: (c, r) in after ==>
          after[(c, r)] == if Done(nCols, row, col, c, r) then Cell(before, c, r) else before[(c, r)])
  }

  // Tidying does not change what any position reads as.
  lemma TidiedReadsSame(before: Cells, nCols: nat, nRows: nat, after: Cells, c: nat, r: nat)
    requires Tidied(before, nCols, nRows, 0, after)
    ensures Cell(after, c, r) == Cell(before, c, r)
  {
    hide Trim;
    TrimEmpty();
    if (c, r) in before {
      TrimTwice(before[(c, r)]);
    }
  }

  // ---------- The class ----------

  class Stats {
    var m_oData: Cells
    var m_nCols: nat
    var m_nRows: nat

    constructor ()
      ensures m_oData == map[] && m_nCols == 0 && m_nRows == 0
    {
      m_oData, m_nCols, m_nRows := map[], 0, 0;
    }

    method Clear()
      modifies this
      ensures m_oData == map[] && m_nCols == 0 && m_nRows == 0
    {
      m_oData := map[];
      m_nRows, m_nCols := 0, 0;
    }

    // operator(): the cell written becomes part of the table.
    method Put(c: nat, r: nat, text: string)
      modifies this
      ensures m_oData == old(m_oData)[(c, r) := text]
      ensures c < m_nCols && r < m_nRows && m_nCols >= old(m_nCols) && m_nRows >= old(m_nRows)
      ensures m_nCols <= old(m_nCols) || m_nCols == c + 1
      ensures m_nRows <= old(m_nRows) || m_nRows == r + 1
    {
      if m_nCols < c + 1 { m_nCols := c + 1; }
      if m_nRows < r + 1 { m_nRows := r + 1; }
      m_oData := m_oData[(c, r) := text];
    }

    // One line of the input: its fields fill row m_nRows from the left.
    method ReadRow(line: string) returns (nCol: nat)
      requires forall c: nat :: (c, m_nRows) !in m_oData
      modifies this`m_oData
      ensures nCol == |Pieces(line, DELIM)| && RowAdded(old(m_oData), m_nRows, line, m_oData)
    {
      hide Pieces, Trim;
      nCol := 0;
      var lineStream := new Stream(line);
      var ok, cell := lineStream.GetLine(DELIM);
      ghost var read: seq<string> := [];
      while ok
        invariant |read| == nCol
        invariant Pieces(line, DELIM) == read + (if ok then [cell] else []) + Pieces(lineStream.rest, DELIM)
        invariant !ok ==> lineStream.rest == []
        invariant forall c: nat, r: nat :: (c, r) in m_oData <==> (c, r) in old(m_oData) || (r == m_nRows && c < nCol)
        invariant forall c: nat, r: nat :: (c, r) in old(m_oData) ==> m_oData[(c, r)] == old(m_oData)[(c, r)]
        invariant forall c: nat :: c < nCol ==> (c, m_nRows) in m_oData && m_oData[(c, m_nRows)] == Trim(read[c])
        modifies this`m_oData, lineStream
        decreases |lineStream.rest|, ok
      {
        m_oData := m_oData[(nCol, m_nRows) := Trim(cell)];
        read := read + [cell];
        nCol := nCol + 1;
        ok, cell := lineStream.GetLine(DELIM);
      }
      PiecesOfNothing(DELIM);
      assert Pieces(line, DELIM) == read;
    }

    // One row of output, tidied in place
    method PrintRow(ghost before: Cells, r: nat) returns (text: string)
      requires Tidied(before, m_nCols, r, 0, m_oData)
      modifies this`m_oData
      ensures text == if m_nCols == 0 then "" else Row(before, m_nCols, r) + [NEWLINE]
      ensures Tidied(before, m_nCols, r + 1, 0, m_oData)
    {
      hide Trim, Join;
      text := "";
      ghost var cells := RowCells(before, m_nCols, r);
      for nCol := 0 to m_nCols
        invariant Tidied(before, m_nCols, r, nCol, m_oData)
        invariant text == if nCol == 0 then ""
                          else Join(cells[..nCol], DELIM) + [if nCol < m_nCols then DELIM else NEWLINE]
      {
        ghost var previous := m_oData;
        if (nCol, r) !in m_oData {
          m_oData := m_oData[(nCol, r) := ""];
        }
        m_oData := m_oData[(nCol, r) := Trim(m_oData[(nCol, r)])];
        TidiedOneMore(before, m_nCols, r, nCol, previous);
        assert m_oData == previous[(nCol, r) := m_oData[(nCol, r)]];
        NextCell(cells, nCol);
        text := text + m_oData[(nCol, r)];
        if nCol + 1 < m_nCols {
          text := text + [DELIM];
        } else {
          text := text + [NEWLINE];
        }
      }
      assert cells[..m_nCols] == cells;
    }

    method SaveNow() returns (ostream: string)
      modifies this`m_oData
      ensures ostream == Print(old(m_oData), m_nCols, m_nRows)
      ensures Tidied(old(m_oData), m_nCols, m_nRows, 0, m_oData)
      ensures forall c: nat, r: nat :: Cell(m_oData, c, r) == Cell(old(m_oData), c, r)
      ensures m_nCols == 0 ==> ostream == ""
      ensures m_nCols > 0 && CellsWithout(old(m_oData), m_nCols, m_nRows, '\n') ==> multiset(ostream)['\n'] == m_nRows
      ensures m_nCols > 0 && CellsWithout(old(m_oData), m_nCols, m_nRows, ',') ==>
                multiset(ostream)[','] == m_nRows * (m_nCols - 1)
    {
      hide Row, Cell, CellsWithout;
      SeparatorsPrinted(m_oData, m_nCols, m_nRows);
      ostream := "";
      for nRow := 0 to m_nRows
        invariant ostream == Print(old(m_oData), m_nCols, nRow)
        invariant Tidied(old(m_oData), m_nCols, nRow, 0, m_oData)
      {
        var text := PrintRow(old(m_oData), nRow);
        ostream := ostream + text;
      }
      forall c: nat, r: nat
        ensures Cell(m_oData, c, r) == Cell(old(m_oData), c, r)
      {
        TidiedReadsSame(old(m_oData), m_nCols, m_nRows, m_oData, c, r);
      }
    }

    method OpenNow(istream: string)
      modifies this
      ensures Loaded(istream, m_oData, m_nCols, m_nRows)
      ensures m_nRows == multiset(istream)['\n'] + if istream != "" && istream[|istream| - 1] != '\n' then 1 else 0
    {
      hide Pieces, Trim, RowAdded;
      Clear();
      var input := new Stream(istream);
      var ok, line := input.GetLine(NEWLINE);
      ghost var read: seq<string> := [];
      while ok
        invariant Pieces(istream, NEWLINE) == read + (if ok then [line] else []) + Pieces(input.rest, NEWLINE)
        invariant !ok ==> input.rest == []
        invariant Parsed(read, m_oData, m_nCols, m_nRows)
        modifies this, input
        decreases |input.rest|, ok
      {
        ghost var data := m_oData;
        var nCol := ReadRow(line);
        NextRow(read, data, m_nCols, line, m_oData);
        m_nCols := if m_nCols < nCol then nCol else m_nCols;
        m_nRows := m_nRows + 1;
        read := read + [line];
        ok, line := input.GetLine(NEWLINE);
      }
      PiecesOfNothing(NEWLINE);
      assert Pieces(istream, NEWLINE) == read;
      PiecesCount(istream, '\n');
    }

    // save() and then open(): the table survives exactly when the condition held before.
    method SaveAndOpen()
      modifies this
      ensures SameTable(old(m_oData), old(m_nCols), old(m_nRows), m_oData, m_nRows)
         <==> (old(m_nCols) > 0 || old(m_nRows) == 0) && AllPrintable(old(m_oData), old(m_nCols), old(m_nRows))
    {
      hide Loaded, Print, SameTable, AllPrintable, Tidied;
      var file := SaveNow();
      OpenNow(file);
      RoundTripIff(old(m_oData), old(m_nCols), old(m_nRows), m_oData, m_nCols, m_nRows);
    }
  }

  lemma TidiedOneMore(before: Cells, nCols: nat, r: nat, c: nat, data: Cells)
    requires c < nCols && Tidied(before, nCols, r, c, data)
    ensures var data' := data[(c, r) := Trim(if (c, r) in data then data[(c, r)] else "")];
      Tidied(before, nCols, r, c + 1, data') && data'[(c, r)] == Cell(before, c, r)
  {
    hide Trim;
    TrimEmpty();
  }

  lemma NextCell(cells: seq<string>, n: nat)
    requires n < |cells|
    ensures Join(cells[..n + 1], DELIM) == (if n == 0 then "" else Join(cells[..n], DELIM) + [DELIM]) + cells[n]
  {
    assert cells[..n + 1] == cells[..n] + [cells[n]];
    if n == 0 {
      JoinOne(cells[0], DELIM);
      assert cells[..1] == [cells[0]];
    } else {
      JoinSnoc(cells[..n], cells[n], DELIM);
    }
  }

  lemma PiecesOfNothing(d: char)
    ensures Pieces("", d) == []
  {
  }
}
