/**
 * `print_directory_listing` of ls.py. The printed output is a sequence of
 * pieces: text written without a newline and line breaks. Compact mode lays
 * the entries out row-major in equal-width cells; long mode prints one line
 * per entry after a block total.
 */
module LsRender {
  import opened Wrappers
  import opened Text
  import opened LsListing
  import SizeFormat

  /** One piece of output: text printed with `end=""`, or a newline. */
  datatype Out = Write(s: string) | LineBreak

  /** The shown name: a directory gets a trailing '/'. */
  function DisplayName(e: Entry): (s: string)
    ensures |s| == |e.name| + (if e.isDir then 1 else 0) && s[..|e.name|] == e.name
    ensures e.isDir ==> s[|s| - 1] == '/'
  {
    if e.isDir then e.name + "/" else e.name
  }

  // ----- Reading lines back out of the output -----

  /** How many pieces of text follow the last line break. */
  function Pending(out: seq<Out>): nat
    decreases |out|
  {
    if out == [] then 0
    else if out[|out| - 1].LineBreak? then 0
    else Pending(out[..|out| - 1]) + 1
  }

  /** For each finished line, the number of pieces of text on it. */
  function LineLengths(out: seq<Out>): seq<nat>
    decreases |out|
  {
    if out == [] then []
    else if out[|out| - 1].LineBreak? then LineLengths(out[..|out| - 1]) + [Pending(out[..|out| - 1])]
    else LineLengths(out[..|out| - 1])
  }

  lemma LinesAfterBreak(out: seq<Out>)
    ensures Pending(out + [LineBreak]) == 0
    ensures LineLengths(out + [LineBreak]) == LineLengths(out) + [Pending(out)]
  {
    assert (out + [LineBreak])[..|out|] == out;
  }

  lemma LinesAfterWrite(out: seq<Out>, s: string)
    ensures Pending(out + [Write(s)]) == Pending(out) + 1
    ensures LineLengths(out + [Write(s)]) == LineLengths(out)
  {
    assert (out + [Write(s)])[..|out|] == out;
  }

  // ----- Compact mode -----

  /** The longest bare name; a trailing '/' is not counted (ls.py:113). */
  function LongestName(items: seq<Entry>): (m: nat)
    requires |items| > 0
    ensures forall i :: 0 <= i < |items| ==> |items[i].name| <= m
    ensures exists i :: 0 <= i < |items| && |items[i].name| == m
    decreases |items|
  {
    if |items| == 1 then |items[0].name|
    else
      var m := LongestName(items[1..]);
      assert forall i :: 1 <= i < |items| ==> items[i] == items[1..][i - 1];
      if |items[0].name| > m then |items[0].name| else m
  }

  /**
   * `max_len`: the width of every compact cell, two more than the longest
   * bare name, so that every shown name leaves at least one space.
   */
  function CellWidth(items: seq<Entry>): (w: nat)
    requires |items| > 0
    ensures exists i :: 0 <= i < |items| && w == |items[i].name| + 2
    ensures forall i :: 0 <= i < |items| ==> |DisplayName(items[i])| < w
  {
    LongestName(items) + 2
  }

  /**
   * `cols`: as many cells as the terminal width holds, at least one; one when
   * the width cannot be determined (None).
   */
  function Columns(width: Option<nat>, cellWidth: nat): (cols: nat)
    requires cellWidth >= 1
    ensures cols >= 1
    ensures (width.None? || width.value < cellWidth) ==> cols == 1
  {
    match width
    case None => 1
    case Some(w) =>
      var q := w / cellWidth;
      assert w < cellWidth ==> q == 0;
      if q < 1 then 1 else q
  }

  /** When the terminal holds at least one cell, `cols` is the most cells that fit. */
  lemma ColumnsFit(w: nat, cellWidth: nat)
    requires 1 <= cellWidth <= w
    ensures var cols := Columns(Some(w), cellWidth);
      cols * cellWidth <= w < (cols + 1) * cellWidth
  {
    var q := w / cellWidth;
    assert q * cellWidth <= w < (q + 1) * cellWidth by {
      assert w == q * cellWidth + w % cellWidth;
    }
    MulAtLeast(1 - q, cellWidth);
  }

  /** One compact cell: colour, the shown name padded to the cell width, reset. */
  function CompactCell(e: Entry, width: nat): (r: string)
    ensures var c := FileColor(e.isDir, e.isExecutable); var n := DisplayName(e);
      |r| == |c| + (if |n| < width then width else |n|) + |Reset| &&
      r[..|c|] == c && r[|c|..|c| + |n|] == n && r[|r| - |Reset|..] == Reset &&
      forall i :: |c| + |n| <= i < |r| - |Reset| ==> r[i] == ' '
  {
    var c := FileColor(e.isDir, e.isExecutable);
    var pn := PadRight(DisplayName(e), width);
    CellParts(c + pn + Reset, c, DisplayName(e), pn, Reset);
    c + pn + Reset
  }

  /** The pieces of `c + pn + k` for a text `n` padded with spaces to `pn`. */
  lemma CellParts(r: string, c: string, n: string, pn: string, k: string)
    requires r == c + pn + k && |n| <= |pn| && pn[..|n|] == n
    requires forall i :: |n| <= i < |pn| ==> pn[i] == ' '
    ensures |r| == |c| + |pn| + |k| && r[..|c|] == c && r[|c|..|c| + |n|] == n && r[|r| - |k|..] == k
    ensures forall i :: |c| + |n| <= i < |r| - |k| ==> r[i] == ' '
  {
    var front := c + pn;
    SliceInFront(r, front, k, 0, |c|);
    SliceInFront(r, front, k, |c|, |c| + |n|);
    assert front[|c|..|c| + |n|] == pn[..|n|];
    SliceBehind(r, front, k, |front|, |r|);
    forall i | |c| + |n| <= i < |r| - |k|
      ensures r[i] == ' '
    {
      assert r[i] == front[i] == pn[i - |c|];
    }
  }

  /** The padded names line up: every one is exactly one cell wide and ends in a space. */
  lemma CellsAligned(items: seq<Entry>)
    requires |items| > 0
    ensures forall i :: 0 <= i < |items| ==>
      var p := PadRight(DisplayName(items[i]), CellWidth(items));
      |p| == CellWidth(items) && p[|p| - 1] == ' '
  {
  }

  /** The cell of every entry, in listing order. */
  function CellTexts(items: seq<Entry>, width: nat): (cells: seq<string>)
    ensures |cells| == |items|
  {
    seq(|items|, i requires 0 <= i < |items| => CompactCell(items[i], width))
  }

  /** The cells of one row, printed without a newline. */
  function Cells(row: seq<string>): (out: seq<Out>)
    ensures |out| == |row|
    decreases |row|
  {
    if row == [] then [] else Cells(row[..|row| - 1]) + [Write(row[|row| - 1])]
  }

  /** Each row's cells followed by a line break. */
  function Emit(rows: seq<seq<string>>): seq<Out>
    decreases |rows|
  {
    if rows == [] then [] else Emit(rows[..|rows| - 1]) + Cells(rows[|rows| - 1]) + [LineBreak]
  }

  function Flatten<T>(rows: seq<seq<T>>): seq<T>
    decreases |rows|
  {
    if rows == [] then [] else rows[0] + Flatten(rows[1..])
  }

  lemma {:induction false} FlattenAppend<T>(rows: seq<seq<T>>, r: seq<T>)
    ensures Flatten(rows + [r]) == Flatten(rows) + r
    decreases |rows|
  {
    if rows == [] {
      assert [r][1..] == [];
    } else {
      assert (rows + [r])[1..] == rows[1..] + [r];
      FlattenAppend(rows[1..], r);
    }
  }

  /** Row-major rows of `c` elements, the last one possibly shorter. */
  function Chunks<T>(s: seq<T>, c: nat): (rows: seq<seq<T>>)
    requires c >= 1
    ensures forall i :: 0 <= i < |rows| ==> 0 < |rows[i]| <= c
    ensures forall i :: 0 <= i < |rows| - 1 ==> |rows[i]| == c
    ensures Flatten(rows) == s
    decreases |s|
  {
    if s == [] then []
    else if |s| <= c then
      assert [s][1..] == [];
      [s]
    else
      var rest := Chunks(s[c..], c);
      assert ([s[..c]] + rest)[1..] == rest;
      assert s == s[..c] + s[c..];
      [s[..c]] + rest
  }

  /** The rows are determined by their properties: any such split of `s` is `Chunks(s, c)`. */
  lemma {:induction false} ChunksUnique<T>(rows: seq<seq<T>>, s: seq<T>, c: nat)
    requires c >= 1 && Flatten(rows) == s
    requires forall i :: 0 <= i < |rows| ==> 0 < |rows[i]| <= c
    requires forall i :: 0 <= i < |rows| - 1 ==> |rows[i]| == c
    ensures rows == Chunks(s, c)
    decreases |rows|
  {
    if rows == [] {
    } else if |rows| == 1 {
      assert Flatten(rows[1..]) == [];
      assert s == rows[0];
    } else {
      var rest := Flatten(rows[1..]);
      assert s == rows[0] + rest;
      assert |rows[1]| > 0 && rows[1..][0] == rows[1];
      assert |rest| > 0;
      assert s[..c] == rows[0] && s[c..] == rest;
      ChunksUnique(rows[1..], rest, c);
      assert rows == [rows[0]] + rows[1..];
    }
  }

  lemma {:induction false} MulAtLeast(d: int, c: int)
    ensures d >= 1 && c >= 0 ==> d * c >= c
    decreases if d < 0 then 0 else d
  {
    if d > 1 {
      MulAtLeast(d - 1, c);
      assert d * c == (d - 1) * c + c;
    }
  }

  lemma DivModUnique(a: int, c: int, q: int, r: int)
    requires c >= 1 && 0 <= r < c && a == q * c + r
    ensures a / c == q && a % c == r
  {
    var q0, r0 := a / c, a % c;
    assert a == q0 * c + r0;
    var d := q - q0;
    assert d * c == r0 - r by {
      assert d * c == q * c - q0 * c;
    }
    MulAtLeast(d, c);
    MulAtLeast(-d, c);
    assert (-d) * c == -(d * c);
  }

  /** ceil(n / cols): the number of rows that n cells make, `cols` to a row. */
  function LineCount(n: nat, cols: nat): nat
    requires cols >= 1
  {
    (n + cols - 1) / cols
  }

  /** There are ceil(n / c) rows. */
  lemma {:induction false} ChunkCount<T>(s: seq<T>, c: nat)
    requires c >= 1
    ensures |Chunks(s, c)| == LineCount(|s|, c)
    decreases |s|
  {
    if s == [] {
      DivModUnique(c - 1, c, 0, c - 1);
    } else if |s| <= c {
      DivModUnique(|s| + c - 1, c, 1, |s| - 1);
    } else {
      assert |Chunks(s, c)| == 1 + |Chunks(s[c..], c)|;
      ChunkCount(s[c..], c);
      assert |s[c..]| + c - 1 == |s| - 1;
      CeilStep(|s|, c);
    }
  }

  /** ceil(n / c) is one more than ceil((n - c) / c). */
  lemma CeilStep(n: int, c: int)
    requires c >= 1 && n > c
    ensures (n + c - 1) / c == (n - 1) / c + 1
  {
    var m := n - 1;
    var q, r := m / c, m % c;
    assert m == q * c + r;
    assert (q + 1) * c == q * c + c;
    DivModUnique(m + c, c, q + 1, r);
  }

  lemma {:induction false} CellsLines(out: seq<Out>, row: seq<string>)
    ensures Pending(out + Cells(row)) == Pending(out) + |row|
    ensures LineLengths(out + Cells(row)) == LineLengths(out)
    decreases |row|
  {
    if row != [] {
      var init := row[..|row| - 1];
      CellsLines(out, init);
      var w := row[|row| - 1];
      var before := out + Cells(init);
      assert Cells(row) == Cells(init) + [Write(w)];
      assert out + Cells(row) == before + [Write(w)];
      LinesAfterWrite(before, w);
      assert Pending(before + [Write(w)]) == Pending(out) + |row|;
      assert LineLengths(before + [Write(w)]) == LineLengths(out);
    } else {
      assert out + Cells(row) == out;
    }
  }

  /** Reading the emitted rows back: one line per row, holding that row's cells, nothing pending. */
  lemma {:induction false} EmitLines(rows: seq<seq<string>>)
    ensures Pending(Emit(rows)) == 0
    ensures |LineLengths(Emit(rows))| == |rows|
    ensures forall k :: 0 <= k < |rows| ==> LineLengths(Emit(rows))[k] == |rows[k]|
    decreases |rows|
  {
    if rows != [] {
      var init := rows[..|rows| - 1];
      var last := rows[|rows| - 1];
      var before := Emit(init);
      var x := before + Cells(last);
      assert Emit(rows) == x + [LineBreak];
      EmitLines(init);
      CellsLines(before, last);
      LinesAfterBreak(x);
      assert LineLengths(Emit(rows)) == LineLengths(before) + [|last|];
      forall k | 0 <= k < |rows| ensures LineLengths(Emit(rows))[k] == |rows[k]| {
        if k < |init| {
          assert rows[k] == init[k];
        }
      }
    }
  }

  lemma ModAfterRows(k: nat, c: nat, j: nat)
    requires c >= 1 && j < c
    ensures (k * c + j) % c == j
  {
    DivModUnique(k * c + j, c, k, j);
  }

  lemma EmitCloseRow(rows: seq<seq<string>>, row: seq<string>)
    ensures Emit(rows + [row]) == Emit(rows) + Cells(row) + [LineBreak]
  {
    assert (rows + [row])[..|rows|] == rows;
  }

  lemma CellsExtend(cells: seq<string>, start: nat, i: nat)
    requires start <= i < |cells|
    ensures Cells(cells[start..i + 1]) == Cells(cells[start..i]) + [Write(cells[i])]
  {
    assert cells[start..i + 1][..i - start] == cells[start..i];
  }

  /** Printing the next cell extends the open row. */
  lemma OutOpen(rows: seq<seq<string>>, cells: seq<string>, start: nat, i: nat)
    requires start <= i < |cells|
    ensures Emit(rows) + Cells(cells[start..i]) + [Write(cells[i])] == Emit(rows) + Cells(cells[start..i + 1])
  {
    CellsExtend(cells, start, i);
    AppendAssoc(Emit(rows), Cells(cells[start..i]), [Write(cells[i])]);
  }

  /** Printing the newline turns the open row into a finished one and opens an empty row. */
  lemma OutClose(rows: seq<seq<string>>, cells: seq<string>, start: nat, i: nat)
    requires start <= i < |cells|
    ensures Emit(rows) + Cells(cells[start..i + 1]) + [LineBreak] ==
      Emit(rows + [cells[start..i + 1]]) + Cells(cells[i + 1..i + 1])
  {
    EmitCloseRow(rows, cells[start..i + 1]);
    assert Cells(cells[i + 1..i + 1]) == [];
    var e := Emit(rows + [cells[start..i + 1]]);
    assert e + [] == e;
  }

  /**
   * The row bookkeeping of `CompactListing` after entries `cells[..i]`:
   * `rows` are the finished rows and `cells[start..i]` is the open one.
   * While entries remain every finished row is full; at the end only the
   * last may be shorter.
   */
  ghost predicate RowsSoFar(cells: seq<string>, cols: nat, rows: seq<seq<string>>, start: nat, i: nat) {
    cols >= 1 && start <= i <= |cells| &&
    Flatten(rows) == cells[..start] &&
    (forall k :: 0 <= k < |rows| ==> 0 < |rows[k]| <= cols) &&
    (i < |cells| ==> start == |rows| * cols && i - start < cols && forall k :: 0 <= k < |rows| ==> |rows[k]| == cols) &&
    (i == |cells| ==> start == i && forall k :: 0 <= k < |rows| - 1 ==> |rows[k]| == cols)
  }

  /** The break test of ls.py:127: it fires exactly when the open row is full. */
  lemma BreakTest(cells: seq<string>, cols: nat, rows: seq<seq<string>>, start: nat, i: nat)
    requires RowsSoFar(cells, cols, rows, start, i) && i < |cells|
    ensures ((i + 1) % cols == 0) == (i - start + 1 == cols)
  {
    var used := i - start;
    var k := |rows|;
    assert i + 1 == k * cols + used + 1;
    if used + 1 < cols {
      ModAfterRows(k, cols, used + 1);
    } else {
      assert (k + 1) * cols == k * cols + cols;
      ModAfterRows(k + 1, cols, 0);
    }
  }

  /** Printing a cell without a newline keeps the bookkeeping. */
  lemma StepOpen(cells: seq<string>, cols: nat, rows: seq<seq<string>>, start: nat, i: nat)
    requires RowsSoFar(cells, cols, rows, start, i) && i + 1 < |cells| && i - start + 1 < cols
    ensures RowsSoFar(cells, cols, rows, start, i + 1)
  {
  }

  /** Printing a cell and a newline closes the open row. */
  lemma StepClose(cells: seq<string>, cols: nat, rows: seq<seq<string>>, start: nat, i: nat)
    requires RowsSoFar(cells, cols, rows, start, i) && i < |cells|
    requires i - start + 1 == cols || i == |cells| - 1
    ensures RowsSoFar(cells, cols, rows + [cells[start..i + 1]], i + 1, i + 1)
  {
    var row := cells[start..i + 1];
    FlattenAppend(rows, row);
    assert cells[..i + 1] == cells[..start] + row;
    SnocBounded(rows, row, cols);
    if i + 1 < |cells| {
      SnocFull(rows, row, cols);
      assert (|rows| + 1) * cols == |rows| * cols + cols;
    } else {
      SnocFullButLast(rows, row, cols);
    }
  }

  lemma SnocBounded(rows: seq<seq<string>>, row: seq<string>, cols: nat)
    requires forall k :: 0 <= k < |rows| ==> 0 < |rows[k]| <= cols
    requires 0 < |row| <= cols
    ensures forall k :: 0 <= k < |rows + [row]| ==> 0 < |(rows + [row])[k]| <= cols
  {
    forall k | 0 <= k < |rows + [row]| ensures 0 < |(rows + [row])[k]| <= cols {
      if k < |rows| {
        assert (rows + [row])[k] == rows[k];
      }
    }
  }

  lemma SnocFull(rows: seq<seq<string>>, row: seq<string>, cols: nat)
    requires forall k :: 0 <= k < |rows| ==> |rows[k]| == cols
    requires |row| == cols
    ensures forall k :: 0 <= k < |rows + [row]| ==> |(rows + [row])[k]| == cols
  {
    forall k | 0 <= k < |rows + [row]| ensures |(rows + [row])[k]| == cols {
      if k < |rows| {
        assert (rows + [row])[k] == rows[k];
      }
    }
  }

  lemma SnocFullButLast(rows: seq<seq<string>>, row: seq<string>, cols: nat)
    requires forall k :: 0 <= k < |rows| ==> |rows[k]| == cols
    ensures forall k :: 0 <= k < |rows + [row]| - 1 ==> |(rows + [row])[k]| == cols
  {
    forall k | 0 <= k < |rows + [row]| - 1 ensures |(rows + [row])[k]| == cols {
      assert (rows + [row])[k] == rows[k];
    }
  }

  /**
   * What the compact loop has printed after the first `i` cells: each cell,
   * and a newline after cell j when (j + 1) % cols == 0 or j is the last one.
   */
  function Printed(cells: seq<string>, cols: nat, i: nat): (out: seq<Out>)
    requires cols >= 1 && i <= |cells|
    ensures i == 0 <==> out == []
    ensures i > 0 ==> (out[|out| - 1] == LineBreak <==> i % cols == 0 || i == |cells|)
    ensures i > 0 && out[|out| - 1] != LineBreak ==> out[|out| - 1] == Write(cells[i - 1])
    decreases i
  {
    if i == 0 then []
    else Printed(cells, cols, i - 1) + [Write(cells[i - 1])] + (if i % cols == 0 || i == |cells| then [LineBreak] else [])
  }

  lemma PrintedClose(cells: seq<string>, cols: nat, i: nat)
    requires cols >= 1 && i < |cells| && ((i + 1) % cols == 0 || i == |cells| - 1)
    ensures Printed(cells, cols, i + 1) == Printed(cells, cols, i) + [Write(cells[i])] + [LineBreak]
  {
  }

  lemma PrintedOpen(cells: seq<string>, cols: nat, i: nat)
    requires cols >= 1 && i < |cells| && !((i + 1) % cols == 0 || i == |cells| - 1)
    ensures Printed(cells, cols, i + 1) == Printed(cells, cols, i) + [Write(cells[i])]
  {
    var p := Printed(cells, cols, i) + [Write(cells[i])];
    assert p + [] == p;
  }

  /** The bookkeeping that explains `Printed`: finished rows, then the open row. */
  lemma {:induction false} PrintedRows(cells: seq<string>, cols: nat, i: nat) returns (rows: seq<seq<string>>, start: nat)
    requires cols >= 1 && i <= |cells|
    ensures RowsSoFar(cells, cols, rows, start, i)
    ensures Printed(cells, cols, i) == Emit(rows) + Cells(cells[start..i])
    decreases i
  {
    if i == 0 {
      rows, start := [], 0;
      assert Cells(cells[0..0]) == [];
      return;
    }
    var j := i - 1;
    rows, start := PrintedRows(cells, cols, j);
    OutOpen(rows, cells, start, j);
    BreakTest(cells, cols, rows, start, j);
    if i % cols == 0 || i == |cells| {
      OutClose(rows, cells, start, j);
      StepClose(cells, cols, rows, start, j);
      rows, start := rows + [cells[start..i]], i;
    } else {
      StepOpen(cells, cols, rows, start, j);
      var e := Emit(rows) + Cells(cells[start..i]);
      assert e + [] == e;
    }
  }

  /** Once every cell is printed, the output is the rows of `Chunks(cells, cols)`. */
  lemma PrintedIsChunks(cells: seq<string>, cols: nat)
    requires cols >= 1
    ensures Printed(cells, cols, |cells|) == Emit(Chunks(cells, cols))
  {
    var rows, start := PrintedRows(cells, cols, |cells|);
    assert cells[..|cells|] == cells;
    assert Cells(cells[|cells|..|cells|]) == [];
    var e := Emit(rows);
    assert e + [] == e;
    ChunksUnique(rows, cells, cols);
  }

  /**
   * The compact branch (ls.py:112-128): each cell is printed, and a newline
   * follows entry i when (i + 1) % cols == 0 or i is the last one. The output
   * is the rows of `Chunks(cells, cols)`, each ended by a line break.
   */
  method CompactListing(items: seq<Entry>, width: Option<nat>) returns (out: seq<Out>)
    requires |items| > 0
    ensures out == Emit(Chunks(CellTexts(items, CellWidth(items)), Columns(width, CellWidth(items))))
  {
    var maxLen := CellWidth(items);
    var cols := Columns(width, maxLen);
    var n := |items|;
    ghost var cells := CellTexts(items, maxLen);
    out := [];
    for i := 0 to n
      invariant out == Printed(cells, cols, i)
    {
      var cell := CompactCell(items[i], maxLen);
      assert cell == cells[i];
      out := out + [Write(cell)];
      if (i + 1) % cols == 0 || i == n - 1 {
        PrintedClose(cells, cols, i);
        out := out + [LineBreak];
      } else {
        PrintedOpen(cells, cols, i);
      }
    }
    PrintedIsChunks(cells, cols);
  }

  // ----- Long mode -----

  /** The size column: blank for a directory, `sizeof_fmt(size)` for anything else. */
  function SizeField(e: Entry): (s: string)
    ensures s == "" <==> e.isDir
    ensures !e.isDir ==> var tail := SizeFormat.UnitName(SizeFormat.Divisions(e.size)) + "B";
      |s| > |tail| && s[|s| - |tail|..] == tail
  {
    if e.isDir then "" else SizeFormat.SizeText(e.size, "B")
  }

  /** One long line: colour, the shown name padded to 30, the size right-aligned in 8, the time, reset. */
  function LongLine(e: Entry, formatTime: int -> string): string {
    FileColor(e.isDir, e.isExecutable) + PadRight(DisplayName(e), 30) + " " +
      PadLeft(SizeField(e), 8) + " " + formatTime(e.modTime) + Reset
  }

  /**
   * The columns of a long line `r`: the colour `c`, the shown name `n`
   * left-aligned in at least 30 characters and a space, the size field `z`
   * right-aligned in at least 8 and a space, then the tail `t` (the time and
   * the reset code). Both paddings are spaces.
   */
  predicate LongColumns(r: string, c: string, n: string, z: string, t: string) {
    var w := if |n| < 30 then 30 else |n|;
    |r| == |c| + w + 1 + (if |z| < 8 then 8 else |z|) + 1 + |t| &&
    r[..|c|] == c && r[|c|..|c| + |n|] == n &&
    (forall i :: |c| + |n| <= i <= |c| + w ==> r[i] == ' ') &&
    (forall i :: |c| + w + 1 <= i < |r| - |t| - 1 - |z| ==> r[i] == ' ') &&
    r[|r| - |t| - 1 - |z|..|r| - |t| - 1] == z && r[|r| - |t| - 1] == ' ' && r[|r| - |t|..] == t
  }

  /** Every long line has those columns. */
  lemma LongLineFields(e: Entry, formatTime: int -> string)
    ensures LongColumns(LongLine(e, formatTime), FileColor(e.isDir, e.isExecutable), DisplayName(e),
                        SizeField(e), formatTime(e.modTime) + Reset)
  {
    var c, n, z, m := FileColor(e.isDir, e.isExecutable), DisplayName(e), SizeField(e), formatTime(e.modTime);
    var pn, pz := PadRight(n, 30), PadLeft(z, 8);
    var r := LongLine(e, formatTime);
    assert r == c + pn + " " + pz + " " + m + Reset;
    AppendAssoc(c + pn + " " + pz + " ", m, Reset);
    LineColumns(r, c, n, pn, z, pz, m + Reset);
  }

  /** The columns of `c + pn + " " + pz + " " + t`, for a name padded to `pn` and a size padded to `pz`. */
  lemma LineColumns(r: string, c: string, n: string, pn: string, z: string, pz: string, t: string)
    requires r == c + pn + " " + pz + " " + t
    requires |pn| == (if |n| < 30 then 30 else |n|) && pn[..|n|] == n
    requires forall i :: |n| <= i < |pn| ==> pn[i] == ' '
    requires |pz| == (if |z| < 8 then 8 else |z|) && pz[|pz| - |z|..] == z
    requires forall i :: 0 <= i < |pz| - |z| ==> pz[i] == ' '
    ensures LongColumns(r, c, n, z, t)
  {
    var front := c + pn + " ";
    var back := pz + " ";
    assert r == front + back + t;
    FrontColumns(r, front, back + t, c, n, pn);
    BackColumns(r, front + back, t, front, back, z, pz);
  }

  /** The colour, the name and the spaces that pad it, with the one after it, at the start of `r`. */
  lemma FrontColumns(r: string, front: string, rest: string, c: string, n: string, pn: string)
    requires r == front + rest && front == c + pn + " " && |n| <= |pn|
    requires pn[..|n|] == n
    requires forall i :: |n| <= i < |pn| ==> pn[i] == ' '
    ensures r[..|c|] == c && r[|c|..|c| + |n|] == n
    ensures forall i :: |c| + |n| <= i <= |c| + |pn| ==> r[i] == ' '
  {
    SliceInFront(r, front, rest, 0, |c|);
    SliceInFront(r, front, rest, |c|, |c| + |n|);
    assert front[|c|..|c| + |n|] == pn[..|n|];
    forall i | |c| + |n| <= i <= |c| + |pn|
      ensures r[i] == ' '
    {
      assert r[i] == front[i];
      if i < |c| + |pn| {
        assert front[i] == pn[i - |c|];
      }
    }
  }

  /** The spaces that pad the size field, the field, the space after it, then the tail. */
  lemma BackColumns(r: string, head: string, t: string, front: string, back: string, z: string, pz: string)
    requires r == head + t && head == front + back && back == pz + " "
    requires |z| <= |pz| && pz[|pz| - |z|..] == z
    requires forall i :: 0 <= i < |pz| - |z| ==> pz[i] == ' '
    ensures r[|r| - |t| - 1 - |z|..|r| - |t| - 1] == z && r[|r| - |t| - 1] == ' ' && r[|r| - |t|..] == t
    ensures forall i :: |front| <= i < |r| - |t| - 1 - |z| ==> r[i] == ' '
  {
    SliceInFront(r, head, t, |head| - 1 - |z|, |head| - 1);
    SliceBehind(head, front, back, |head| - 1 - |z|, |head| - 1);
    SliceBehind(r, head, t, |head|, |r|);
    assert r[|head| - 1] == head[|head| - 1] == back[|back| - 1];
    forall i | |front| <= i < |r| - |t| - 1 - |z|
      ensures r[i] == ' '
    {
      assert r[i] == head[i] == back[i - |front|] == pz[i - |front|];
    }
  }

  /** A slice within the first part of a concatenation is a slice of that part. */
  lemma SliceInFront(r: string, a: string, b: string, i: nat, j: nat)
    requires r == a + b && i <= j <= |a|
    ensures r[i..j] == a[i..j]
  {
  }

  /** A slice within the second part of a concatenation is a slice of that part. */
  lemma SliceBehind(r: string, a: string, b: string, i: nat, j: nat)
    requires r == a + b && |a| <= i <= j <= |r|
    ensures r[i..j] == b[i - |a|..j - |a|]
  {
  }

  /** The header: `total` and half the summed block count, which reads back from the digits. */
  function TotalLine(blocks: nat): (r: string)
    ensures HasPrefix(r, "total ") && IsDigits(r[6..]) && DigitsValue(r[6..]) == blocks / 2
    ensures r[6] == '0' ==> |r| == 7
  {
    DigitsValueOfNatText(blocks / 2);
    assert ("total " + NatText(blocks / 2))[6..] == NatText(blocks / 2);
    "total " + NatText(blocks / 2)
  }

  /** Each text on a line of its own. */
  function Lined(texts: seq<string>): seq<Out>
    decreases |texts|
  {
    if texts == [] then []
    else Lined(texts[..|texts| - 1]) + [Write(texts[|texts| - 1]), LineBreak]
  }

  /** The long line of each entry, in order. */
  function LongTexts(items: seq<Entry>, formatTime: int -> string): (texts: seq<string>)
    ensures |texts| == |items|
    decreases |items|
  {
    if items == [] then [] else LongTexts(items[..|items| - 1], formatTime) + [LongLine(items[|items| - 1], formatTime)]
  }

  function LongLines(items: seq<Entry>, formatTime: int -> string): seq<Out> {
    Lined(LongTexts(items, formatTime))
  }

  /** `n` lines of one piece of text each. */
  function Ones(n: nat): (r: seq<nat>)
    ensures |r| == n && forall k :: 0 <= k < n ==> r[k] == 1
  {
    if n == 0 then [] else Ones(n - 1) + [1]
  }

  lemma {:induction false} OnesCons(n: nat)
    ensures [1] + Ones(n) == Ones(n + 1)
  {
    if n > 0 {
      OnesCons(n - 1);
      assert [1] + Ones(n) == ([1] + Ones(n - 1)) + [1];
    }
  }

  /** Texts written one per line leave one line per text, one piece on each, nothing open. */
  lemma {:induction false} LinedShape(out: seq<Out>, texts: seq<string>)
    requires Pending(out) == 0
    ensures Pending(out + Lined(texts)) == 0
    ensures LineLengths(out + Lined(texts)) == LineLengths(out) + Ones(|texts|)
    decreases |texts|
  {
    if texts != [] {
      var init := texts[..|texts| - 1];
      LinedShape(out, init);
      var before := out + Lined(init);
      var line := texts[|texts| - 1];
      var written := before + [Write(line)];
      assert Lined(texts) == Lined(init) + [Write(line), LineBreak];
      AppendAssoc(out, Lined(init), [Write(line), LineBreak]);
      assert before + [Write(line), LineBreak] == written + [LineBreak];
      LinesAfterWrite(before, line);
      LinesAfterBreak(written);
      AppendAssoc(LineLengths(out), Ones(|init|), [1]);
      assert Ones(|texts|) == Ones(|init|) + [1];
    } else {
      assert out + Lined(texts) == out;
      assert LineLengths(out) + Ones(|texts|) == LineLengths(out);
    }
  }

  /** The long branch: the total line, then one line per entry with its size and time fields. */
  method LongListing(items: seq<Entry>, blocks: nat, formatTime: int -> string) returns (out: seq<Out>)
    ensures out == [Write(TotalLine(blocks)), LineBreak] + LongLines(items, formatTime)
  {
    var head := [Write(TotalLine(blocks)), LineBreak];
    out := head;
    for i := 0 to |items|
      invariant out == head + Lined(LongTexts(items[..i], formatTime))
    {
      var line := FormatLongLine(items[i], formatTime);
      LongStep(head, items, i, formatTime);
      out := out + [Write(line), LineBreak];
    }
    assert items[..|items|] == items;
  }

  /** The body of the long-mode loop: the fields of one entry, formatted and coloured. */
  method FormatLongLine(item: Entry, formatTime: int -> string) returns (line: string)
    ensures line == LongLine(item, formatTime)
  {
    var color := FileColor(item.isDir, item.isExecutable);
    var size := "";
    if !item.isDir {
      size := SizeFormat.SizeOf(item.size, "B");
    }
    var modTime := formatTime(item.modTime);
    var name := if item.isDir then item.name + "/" else item.name;
    line := color + PadRight(name, 30) + " " + PadLeft(size, 8) + " " + modTime + Reset;
  }

  lemma LongTextsSnoc(items: seq<Entry>, i: nat, formatTime: int -> string)
    requires i < |items|
    ensures LongTexts(items[..i + 1], formatTime) == LongTexts(items[..i], formatTime) + [LongLine(items[i], formatTime)]
  {
    assert items[..i + 1][..i] == items[..i];
  }

  lemma LongStep(head: seq<Out>, items: seq<Entry>, i: nat, formatTime: int -> string)
    requires i < |items|
    ensures head + Lined(LongTexts(items[..i + 1], formatTime)) ==
      head + Lined(LongTexts(items[..i], formatTime)) + [Write(LongLine(items[i], formatTime)), LineBreak]
  {
    var t0 := LongTexts(items[..i], formatTime);
    var line := LongLine(items[i], formatTime);
    LongTextsSnoc(items, i, formatTime);
    LinedSnoc(t0, line);
    AppendAssoc(head, Lined(t0), [Write(line), LineBreak]);
  }

  lemma AppendAssoc<T>(a: seq<T>, b: seq<T>, c: seq<T>)
    ensures a + b + c == a + (b + c)
  {
  }

  lemma LinedSnoc(texts: seq<string>, t: string)
    ensures Lined(texts + [t]) == Lined(texts) + [Write(t), LineBreak]
  {
    assert (texts + [t])[..|texts|] == texts;
  }

  /** The notice for an empty listing, naming the path between quotes. */
  function EmptyNotice(path: string): (r: string)
    ensures |r| == |path| + 22 && HasPrefix(r, "Directory '")
    ensures r[11..|r| - 11] == path && r[|r| - 11..] == "' is empty."
  {
    "Directory '" + path + "' is empty."
  }

  /** The compact listing of `items` has ceil(n / cols) lines of at most `cols` cells, and ends its last line. */
  lemma CompactShape(items: seq<Entry>, width: Option<nat>)
    requires |items| > 0
    ensures var cols := Columns(width, CellWidth(items));
      var out := Emit(Chunks(CellTexts(items, CellWidth(items)), cols));
      |out| > 0 && out[|out| - 1] == LineBreak && Pending(out) == 0 &&
      |LineLengths(out)| == LineCount(|items|, cols) &&
      forall k :: 0 <= k < |LineLengths(out)| ==> 0 < LineLengths(out)[k] <= cols
  {
    var cw := CellWidth(items);
    var cells := CellTexts(items, cw);
    assert |cells| == |items|;
    CellsShape(cells, Columns(width, cw));
  }

  /** Cells laid out `cols` to a row: ceil(n / cols) lines of at most `cols` cells, the last one ended. */
  lemma CellsShape(cells: seq<string>, cols: nat)
    requires |cells| > 0 && cols >= 1
    ensures var out := Emit(Chunks(cells, cols));
      |out| > 0 && out[|out| - 1] == LineBreak && Pending(out) == 0 &&
      |LineLengths(out)| == LineCount(|cells|, cols) &&
      forall k :: 0 <= k < |LineLengths(out)| ==> 0 < LineLengths(out)[k] <= cols
  {
    var rows := Chunks(cells, cols);
    assert rows != [] by {
      assert Flatten(rows) == cells;
    }
    EmitShape(rows, cols);
    ChunkCount(cells, cols);
  }

  /** Emitted rows of at most `cols` cells: one finished line per row, at most `cols` cells on each. */
  lemma EmitShape(rows: seq<seq<string>>, cols: nat)
    requires rows != [] && forall k :: 0 <= k < |rows| ==> 0 < |rows[k]| <= cols
    ensures |Emit(rows)| > 0 && Emit(rows)[|Emit(rows)| - 1] == LineBreak
    ensures Pending(Emit(rows)) == 0 && |LineLengths(Emit(rows))| == |rows|
    ensures forall k :: 0 <= k < |rows| ==> 0 < LineLengths(Emit(rows))[k] <= cols
  {
    EmitLines(rows);
    EmitEndsLine(rows);
  }

  lemma EmitEndsLine(rows: seq<seq<string>>)
    requires rows != []
    ensures var out := Emit(rows); |out| > 0 && out[|out| - 1] == LineBreak
  {
  }

  /** The long output is one line per entry after the total line, one piece of text on each. */
  lemma LongShape(items: seq<Entry>, blocks: nat, formatTime: int -> string)
    requires |items| > 0
    ensures var out := [Write(TotalLine(blocks)), LineBreak] + LongLines(items, formatTime);
      out[|out| - 1] == LineBreak && Pending(out) == 0 && LineLengths(out) == Ones(|items| + 1)
  {
    var head := [Write(TotalLine(blocks)), LineBreak];
    var texts := LongTexts(items, formatTime);
    OneLine(TotalLine(blocks));
    LinedShape(head, texts);
    OnesCons(|items|);
    LinedEndsLine(texts);
  }

  lemma LinedEndsLine(texts: seq<string>)
    requires texts != []
    ensures var out := Lined(texts); |out| > 0 && out[|out| - 1] == LineBreak
  {
  }

  /** A single text followed by a newline is one finished line holding one piece. */
  lemma OneLine(t: string)
    ensures Pending([Write(t), LineBreak]) == 0 && LineLengths([Write(t), LineBreak]) == [1]
  {
    LinesAfterBreak([Write(t)]);
    LinesAfterWrite([], t);
    assert [] + [Write(t)] == [Write(t)];
    assert [Write(t)] + [LineBreak] == [Write(t), LineBreak];
  }

  /**
   * `print_directory_listing(items, long_format, path)`, with the terminal
   * width, the summed block count and the time formatter as parameters.
   * Every mode ends its last line; an empty listing prints exactly one line;
   * compact rows hold at most `cols` cells and there are ceil(n / cols) of them;
   * long mode prints the total line and one line per entry.
   */
  method RenderListing(items: seq<Entry>, longFormat: bool, path: string, width: Option<nat>,
                       blocks: nat, formatTime: int -> string) returns (out: seq<Out>)
    ensures |out| > 0 && out[|out| - 1] == LineBreak && Pending(out) == 0
    ensures |items| == 0 ==> out == [Write(EmptyNotice(path)), LineBreak] && LineLengths(out) == [1]
    ensures |items| > 0 && !longFormat ==>
      var cols := Columns(width, CellWidth(items));
      out == Emit(Chunks(CellTexts(items, CellWidth(items)), cols)) &&
      |LineLengths(out)| == LineCount(|items|, cols) &&
      forall k :: 0 <= k < |LineLengths(out)| ==> 0 < LineLengths(out)[k] <= cols
    ensures |items| > 0 && longFormat ==>
      out == [Write(TotalLine(blocks)), LineBreak] + LongLines(items, formatTime) &&
      LineLengths(out) == Ones(|items| + 1)
  {
    if |items| == 0 {
      out := [Write(EmptyNotice(path)), LineBreak];
      OneLine(EmptyNotice(path));
    } else if longFormat {
      out := LongListing(items, blocks, formatTime);
      LongShape(items, blocks, formatTime);
    } else {
      out := CompactListing(items, width);
      CompactShape(items, width);
    }
  }
}
