/** table.go: a table of values stored by columns, its clean-up, and its
    rendering as a grid of padded, optionally Markdown, text. */
module Tables {
  import opened Dynamic
  import Text

  // ---------------------------------------------------------------- rows kept by CleanUp

  /** A cell that counts as a value: a number, a date, or a non-empty string. */
  predicate Filled(v: Dyn) {
    match v
    case Str(s) => s != ""
    case Nil => false
    case Other(_) => false
    case _ => true
  }

  /** Every column has at least `n` cells. */
  predicate Rectangular(data: seq<seq<Dyn>>, n: nat) {
    forall c :: 0 <= c < |data| ==> |data[c]| >= n
  }

  /** Row `row` of column-stored data has a value in some column. */
  predicate RowHasValue(data: seq<seq<Dyn>>, row: nat)
    requires Rectangular(data, row + 1)
  {
    exists c :: 0 <= c < |data| && Filled(data[c][row])
  }

  /** The indices of the rows below `n` that have a value, in increasing order. */
  function KeptRows(data: seq<seq<Dyn>>, n: nat): (ks: seq<nat>)
    requires Rectangular(data, n)
    ensures forall i :: 0 <= i < |ks| ==> ks[i] < n && RowHasValue(data, ks[i])
    ensures forall i, j :: 0 <= i < j < |ks| ==> ks[i] < ks[j]
    ensures forall row :: 0 <= row < n && RowHasValue(data, row) ==> row in ks
  {
    if n == 0 then []
    else
      var ks := KeptRows(data, n - 1);
      if RowHasValue(data, n - 1) then ks + [n - 1] else ks
  }

  /** The elements of `xs` at the indices `ks`, in that order. */
  function Project<T>(xs: seq<T>, ks: seq<nat>): (r: seq<T>)
    requires forall i :: 0 <= i < |ks| ==> ks[i] < |xs|
    ensures |r| == |ks|
    ensures forall i :: 0 <= i < |ks| ==> r[i] == xs[ks[i]]
  {
    seq(|ks|, i requires 0 <= i < |ks| => xs[ks[i]])
  }

  lemma {:induction false} ProjectSnoc<T>(xs: seq<T>, ks: seq<nat>, k: nat)
    requires forall i :: 0 <= i < |ks| ==> ks[i] < |xs|
    requires k < |xs|
    ensures Project(xs, ks + [k]) == Project(xs, ks) + [xs[k]]
  {
  }

  /** CleanUp's test of one row: some column holds a value there. The scan
      stops at the first such column. */
  method RowFilled(data: seq<seq<Dyn>>, row: nat) returns (ok: bool)
    requires Rectangular(data, row + 1)
    ensures ok <==> RowHasValue(data, row)
  {
    ok := false;
    var col := 0;
    while col < |data|
      invariant 0 <= col <= |data|
      invariant ok <==> exists c :: 0 <= c < col && Filled(data[c][row])
      decreases |data| - col
    {
      match data[col][row] {
        case Str(x) =>
          if x != "" {
            ok := true;
          }
        case Nil =>
        case Other(_) =>
        case _ =>
          ok := true;
      }
      if ok {
        break;
      }
      col := col + 1;
    }
  }

  /** CleanUp's copy of one kept row: each column gets its cell of `row`
      appended. */
  method AppendRow(dataVal: seq<seq<Dyn>>, data: seq<seq<Dyn>>, row: nat) returns (r: seq<seq<Dyn>>)
    requires |dataVal| == |data| && Rectangular(data, row + 1)
    ensures |r| == |data|
    ensures forall c :: 0 <= c < |data| ==> r[c] == dataVal[c] + [data[c][row]]
  {
    r := dataVal;
    var col := 0;
    while col < |data|
      invariant 0 <= col <= |data| && |r| == |data|
      invariant forall c :: 0 <= c < col ==> r[c] == dataVal[c] + [data[c][row]]
      invariant forall c :: col <= c < |data| ==> r[c] == dataVal[c]
    {
      r := r[col := r[col] + [data[col][row]]];
      col := col + 1;
    }
  }

  /** CleanUp reads a row name for every row it keeps. */
  predicate NamesCover(data: seq<seq<Dyn>>, rowNames: seq<string>)
    requires |data| > 0 && Rectangular(data, |data[0]|)
  {
    forall row :: 0 <= row < |data[0]| && RowHasValue(data, row) ==> row < |rowNames|
  }

  // ---------------------------------------------------------------- Pad

  /** The table has a first row, and no row is narrower than it. */
  predicate WideRows(t: seq<seq<string>>) {
    |t| > 0 && forall r :: 0 <= r < |t| ==> |t[r]| >= |t[0]|
  }

  /** A row with its first `w` cells trimmed of spaces. */
  function TrimRow(row: seq<string>, w: nat): (r: seq<string>)
    requires w <= |row|
    ensures |r| == |row|
    ensures forall c :: 0 <= c < |row| ==> r[c] == if c < w then Text.Trim(row[c]) else row[c]
  {
    seq(|row|, c requires 0 <= c < |row| => if c < w then Text.Trim(row[c]) else row[c])
  }

  /** The table as Pad leaves it: the cells of the first row's width trimmed. */
  function TrimTable(t: seq<seq<string>>): (r: seq<seq<string>>)
    requires WideRows(t)
    ensures WideRows(r) && |r| == |t| && |r[0]| == |t[0]|
    ensures forall i :: 0 <= i < |t| ==> r[i] == TrimRow(t[i], |t[0]|)
  {
    seq(|t|, i requires 0 <= i < |t| => TrimRow(t[i], |t[0]|))
  }

  /** The length of the longest cell of column `c` in the first `n` rows. */
  function ColMax(t: seq<seq<string>>, c: nat, n: nat): (m: nat)
    requires n <= |t| && forall r :: 0 <= r < n ==> c < |t[r]|
    ensures forall r :: 0 <= r < n ==> |t[r][c]| <= m
  {
    if n == 0 then 0
    else
      var m := ColMax(t, c, n - 1);
      if |t[n - 1][c]| > m then |t[n - 1][c]| else m
  }

  /** The widest cell is one of the column's cells. */
  lemma {:induction false} ColMaxAttained(t: seq<seq<string>>, c: nat, n: nat)
    requires 0 < n <= |t| && forall r :: 0 <= r < n ==> c < |t[r]|
    ensures exists r :: 0 <= r < n && |t[r][c]| == ColMax(t, c, n)
  {
    if n == 1 {
      assert ColMax(t, c, 0) == 0;
      assert ColMax(t, c, 1) == |t[0][c]|;
    } else {
      ColMaxAttained(t, c, n - 1);
      var r :| 0 <= r < n - 1 && |t[r][c]| == ColMax(t, c, n - 1);
      if |t[n - 1][c]| > ColMax(t, c, n - 1) {
        assert |t[n - 1][c]| == ColMax(t, c, n);
      } else {
        assert |t[r][c]| == ColMax(t, c, n);
      }
    }
  }

  /** Pad's maxes: the widest cell of each of the first row's columns. */
  function Widths(t: seq<seq<string>>): (ws: seq<nat>)
    requires WideRows(t)
    ensures |ws| == |t[0]|
    ensures forall c :: 0 <= c < |ws| ==> ws[c] == ColMax(t, c, |t|)
    ensures forall r :: 0 <= r < |t| ==> Fits(t[r], ws, |t[0]|)
  {
    seq(|t[0]|, c requires 0 <= c < |t[0]| => ColMax(t, c, |t|))
  }

  /** Every one of the first `k` cells fits its column's width. */
  predicate Fits(row: seq<string>, maxes: seq<nat>, k: nat) {
    k <= |row| && k <= |maxes| && forall c :: 0 <= c < k ==> |row[c]| <= maxes[c]
  }

  /** The first `k` cells of a row, each followed by spaces up to its
      column's width plus `pad`. */
  function Cells(row: seq<string>, maxes: seq<nat>, pad: nat, k: nat): string
    requires Fits(row, maxes, k)
  {
    if k == 0 then ""
    else Cells(row, maxes, pad, k - 1) + (row[k - 1] + Text.Spaces(maxes[k - 1] + pad - |row[k - 1]|))
  }

  /** The first `n` rows of the table, one padded line each. */
  function Render(t: seq<seq<string>>, maxes: seq<nat>, pad: nat, n: nat): string
    requires n <= |t| && forall r :: 0 <= r < n ==> Fits(t[r], maxes, |maxes|)
  {
    if n == 0 then ""
    else Render(t, maxes, pad, n - 1) + Cells(t[n - 1], maxes, pad, |maxes|) + "\n"
  }

  /** What Pad returns for the table `t`. */
  function PadText(t: seq<seq<string>>, pad: nat): string
    requires WideRows(t)
  {
    var tt := TrimTable(t);
    Render(tt, Widths(tt), pad, |tt|)
  }

  /** The trimming of one row in Pad's first pass: the cells within the
      width of `maxes` are trimmed, and each column's maximum grows to the
      trimmed cell's length when that is larger. */
  method TrimLine(line: seq<string>, maxes: seq<nat>) returns (trimmed: seq<string>, grown: seq<nat>)
    requires |maxes| <= |line|
    ensures trimmed == TrimRow(line, |maxes|)
    ensures |grown| == |maxes|
    ensures forall c :: 0 <= c < |maxes| ==>
      grown[c] == if |trimmed[c]| > maxes[c] then |trimmed[c]| else maxes[c]
  {
    trimmed, grown := line, maxes;
    var col := 0;
    while col < |maxes|
      invariant 0 <= col <= |maxes| && |trimmed| == |line| && |grown| == |maxes|
      invariant forall c :: 0 <= c < |line| ==> trimmed[c] == if c < col then Text.Trim(line[c]) else line[c]
      invariant forall c :: 0 <= c < |maxes| ==>
        grown[c] == if c < col && |trimmed[c]| > maxes[c] then |trimmed[c]| else maxes[c]
    {
      trimmed := trimmed[col := Text.Trim(trimmed[col])];
      var l := |trimmed[col]|;
      if l > grown[col] {
        grown := grown[col := l];
      }
      col := col + 1;
    }
  }

  /** Pad's first pass: trims, in place, every cell within the first row's
      width, and measures each such column's widest trimmed cell. */
  method TrimAndMeasure(inTable: array<seq<string>>) returns (maxes: seq<nat>)
    requires WideRows(inTable[..])
    modifies inTable
    ensures inTable[..] == TrimTable(old(inTable[..]))
    ensures maxes == Widths(inTable[..])
  {
    ghost var t0 := inTable[..];
    ghost var tt := TrimTable(t0);
    var w := |inTable[0]|;
    maxes := seq(w, _ => 0);
    var row := 0;
    while row < inTable.Length
      invariant 0 <= row <= inTable.Length && |maxes| == w
      invariant forall r :: 0 <= r < row ==> inTable[r] == tt[r]
      invariant forall r :: row <= r < inTable.Length ==> inTable[r] == t0[r]
      invariant forall c :: 0 <= c < w ==> maxes[c] == ColMax(tt, c, row)
    {
      var line, grown := TrimLine(inTable[row], maxes);
      inTable[row] := line;
      maxes := grown;
      row := row + 1;
    }
    assert inTable[..] == tt;
  }

  /** One line of Pad's second pass: every cell within the width of
      `maxes`, padded to its column's width plus `pad`. */
  method PadLine(line: seq<string>, maxes: seq<nat>, pad: nat) returns (s: string)
    requires Fits(line, maxes, |maxes|)
    ensures s == Cells(line, maxes, pad, |maxes|)
  {
    s := "";
    var col := 0;
    while col < |maxes|
      invariant 0 <= col <= |maxes|
      invariant s == Cells(line, maxes, pad, col)
    {
      var element := line[col] + Text.Spaces(maxes[col] + pad - |line[col]|);
      s := s + element;
      col := col + 1;
    }
  }

  /** Pad's second pass: the rows of `t`, one padded line each. */
  method PadLines(t: seq<seq<string>>, maxes: seq<nat>, pad: nat) returns (outString: string)
    requires forall r :: 0 <= r < |t| ==> Fits(t[r], maxes, |maxes|)
    ensures outString == Render(t, maxes, pad, |t|)
  {
    outString := "";
    var row := 0;
    while row < |t|
      invariant 0 <= row <= |t|
      invariant outString == Render(t, maxes, pad, row)
    {
      var line := PadLine(t[row], maxes, pad);
      outString := outString + line + "\n";
      row := row + 1;
    }
  }

  /** Pad: trims the cells of the first row's width in place, then writes
      each row as one line of cells padded to their column's widest cell
      plus `pad` spaces. The table must have a first row and no narrower
      row; strings.Repeat panics on a negative count, hence a
      non-negative pad. */
  method Pad(inTable: array<seq<string>>, pad: nat) returns (outString: string)
    requires WideRows(inTable[..])
    modifies inTable
    ensures inTable[..] == TrimTable(old(inTable[..]))
    ensures outString == PadText(old(inTable[..]), pad)
  {
    var maxes := TrimAndMeasure(inTable);
    outString := PadLines(inTable[..], maxes, pad);
  }

  // ---------------------------------------------------------------- the layout Pad produces

  /** The width of a padded line, the newline excluded. */
  function LineWidth(maxes: seq<nat>, pad: nat, k: nat): nat
    requires k <= |maxes|
  {
    if k == 0 then 0 else LineWidth(maxes, pad, k - 1) + maxes[k - 1] + pad
  }

  /** A padded line is as wide as its columns plus `pad` each, whatever its
      cells, and it is built left to right: the first `j` padded cells are a
      prefix of the first `k`. */
  lemma {:induction false} CellsLayout(row: seq<string>, maxes: seq<nat>, pad: nat, j: nat, k: nat)
    requires Fits(row, maxes, k) && j <= k
    ensures |Cells(row, maxes, pad, k)| == LineWidth(maxes, pad, k)
    ensures Cells(row, maxes, pad, j) <= Cells(row, maxes, pad, k)
    decreases k
  {
    if k > 0 {
      if j < k {
        CellsLayout(row, maxes, pad, j, k - 1);
      } else {
        CellsLayout(row, maxes, pad, 0, k - 1);
      }
    }
  }

  /** The rendering of `n` rows is `n` lines of one width, each ending in a
      newline, and the first `m` of them are a prefix of it. */
  lemma {:induction false} RenderLines(t: seq<seq<string>>, maxes: seq<nat>, pad: nat, m: nat, n: nat)
    requires n <= |t| && forall r :: 0 <= r < n ==> Fits(t[r], maxes, |maxes|)
    requires m <= n
    ensures |Render(t, maxes, pad, n)| == n * (LineWidth(maxes, pad, |maxes|) + 1)
    ensures Render(t, maxes, pad, m) <= Render(t, maxes, pad, n)
    decreases n
  {
    var l := LineWidth(maxes, pad, |maxes|) + 1;
    if n > 0 {
      RenderLines(t, maxes, pad, if m < n then m else 0, n - 1);
      CellsLayout(t[n - 1], maxes, pad, 0, |maxes|);
      assert |Render(t, maxes, pad, n)| == (n - 1) * l + l;
      assert (n - 1) * l + l == n * l;
    }
  }

  /** Pad's text has one line per row of the table, all of the same
      length. */
  lemma {:induction false} PadLength(t: seq<seq<string>>, pad: nat)
    requires WideRows(t)
    ensures var ws := Widths(TrimTable(t));
      |PadText(t, pad)| == |t| * (LineWidth(ws, pad, |ws|) + 1)
  {
    var tt := TrimTable(t);
    var ws := Widths(tt);
    var l := LineWidth(ws, pad, |ws|) + 1;
    assert PadText(t, pad) == Render(tt, ws, pad, |tt|);
    RenderLines(tt, ws, pad, 0, |tt|);
    assert |tt| == |t|;
    assert |PadText(t, pad)| == |Render(tt, ws, pad, |tt|)|;
    assert |Render(tt, ws, pad, |tt|)| == |tt| * l;
  }

  /** Line `r` of Pad's text starts after `r` lines and holds the row's
      trimmed cells, each padded to its column's widest trimmed cell plus
      `pad`, then a newline. */
  lemma {:induction false} PadRow(t: seq<seq<string>>, pad: nat, r: nat)
    requires WideRows(t) && r < |t|
    ensures var tt, ws := TrimTable(t), Widths(TrimTable(t));
      var l := LineWidth(ws, pad, |ws|) + 1;
      |Render(tt, ws, pad, r)| == r * l &&
      |Cells(tt[r], ws, pad, |ws|)| + 1 == l &&
      Render(tt, ws, pad, r) + Cells(tt[r], ws, pad, |ws|) + "\n" <= PadText(t, pad)
  {
    var tt := TrimTable(t);
    var ws := Widths(tt);
    RenderLines(tt, ws, pad, r + 1, |tt|);
    RenderLines(tt, ws, pad, r, r);
    CellsLayout(tt[r], ws, pad, 0, |ws|);
  }

  /** Every column's width is the length of its longest trimmed cell. */
  lemma {:induction false} PadWidths(t: seq<seq<string>>, r: nat, c: nat)
    requires WideRows(t) && r < |t| && c < |t[0]|
    ensures |TrimTable(t)[r][c]| <= Widths(TrimTable(t))[c]
    ensures exists r' :: 0 <= r' < |t| && |TrimTable(t)[r'][c]| == Widths(TrimTable(t))[c]
  {
    var tt := TrimTable(t);
    assert Widths(tt)[c] == ColMax(tt, c, |tt|);
    ColMaxAttained(tt, c, |tt|);
  }

  /** Pad leaves every cell trimmed: without a leading or trailing space. */
  lemma {:induction false} PadTrimmed(t: seq<seq<string>>, r: nat, c: nat)
    requires WideRows(t) && r < |t| && c < |t[0]|
    ensures TrimTable(t)[r][c] == Text.Trim(t[r][c])
    ensures var x := TrimTable(t)[r][c]; x == [] || (x[0] != ' ' && x[|x| - 1] != ' ')
  {
    assert TrimTable(t)[r][c] == Text.Trim(t[r][c]);
    Text.TrimShape(t[r][c]);
  }

  // ---------------------------------------------------------------- Table

  /** The header row of Table.String: every column name followed by `sep`. */
  function HeaderRow(colNames: seq<string>, sep: string): (h: seq<string>)
    ensures |h| == |colNames|
    ensures forall c :: 0 <= c < |colNames| ==> h[c] == colNames[c] + sep
  {
    seq(|colNames|, c requires 0 <= c < |colNames| => colNames[c] + sep)
  }

  /** The printed cells of row `r` in the first `k` columns, each followed
      by `sep`. */
  function PrintedCells(data: seq<seq<Dyn>>, sep: string, r: nat, k: nat): (p: seq<string>)
    requires k <= |data| && Rectangular(data, r + 1)
    ensures |p| == k
  {
    if k == 0 then [] else PrintedCells(data, sep, r, k - 1) + [PrettyString(data[k - 1][r]) + sep]
  }

  /** Row `r` of Table.String's grid: the row name, then the printed cell
      of every column, each followed by `sep`. */
  function DataRow(rowNames: seq<string>, data: seq<seq<Dyn>>, sep: string, r: nat): (d: seq<string>)
    requires r < |rowNames| && Rectangular(data, r + 1)
    ensures |d| == |data| + 1
  {
    [rowNames[r] + sep] + PrintedCells(data, sep, r, |data|)
  }

  /** The first `n` data rows of Table.String's grid. */
  function DataRows(rowNames: seq<string>, data: seq<seq<Dyn>>, sep: string, n: nat): (rs: seq<seq<string>>)
    requires n <= |rowNames| && Rectangular(data, n)
    ensures |rs| == n
    ensures forall r :: 0 <= r < n ==> |rs[r]| == |data| + 1
  {
    if n == 0 then [] else DataRows(rowNames, data, sep, n - 1) + [DataRow(rowNames, data, sep, n - 1)]
  }

  /** The header row and one row per data row: the grid Table.String hands
      to Pad. */
  function Grid(colNames: seq<string>, rowNames: seq<string>, data: seq<seq<Dyn>>, sep: string): (g: seq<seq<string>>)
    requires |data| > 0 && Rectangular(data, |data[0]|) && |rowNames| >= |data[0]|
    ensures |g| == |data[0]| + 1 && g[0] == HeaderRow(colNames, sep)
    ensures g[1..] == DataRows(rowNames, data, sep, |data[0]|)
  {
    [HeaderRow(colNames, sep)] + DataRows(rowNames, data, sep, |data[0]|)
  }

  lemma {:induction false} Append(x: string, xs: seq<string>, y: string)
    ensures [x] + xs + [y] == [x] + (xs + [y])
  {
  }

  /** What Table.String needs of the table: aligned columns, a name for
      every row, and, when there is a data row, a header no wider than it
      (a table without rows renders its header alone). */
  predicate Printable(colNames: seq<string>, rowNames: seq<string>, data: seq<seq<Dyn>>) {
    |data| > 0 ==>
      Rectangular(data, |data[0]|) && |rowNames| >= |data[0]| && (|data[0]| > 0 ==> |colNames| <= |data| + 1)
  }

  /** The text Table.String returns: "" for a table without columns, else
      the grid padded by four spaces. */
  function TableText(colNames: seq<string>, rowNames: seq<string>, data: seq<seq<Dyn>>, markdown: bool): string
    requires Printable(colNames, rowNames, data)
  {
    if |data| == 0 then ""
    else PadText(Grid(colNames, rowNames, data, if markdown then "|" else ""), 4)
  }

  /** Table.String's grid is one header row and one row per data row, and
      no data row is shorter than the header. */
  lemma {:induction false} GridWide(colNames: seq<string>, rowNames: seq<string>, data: seq<seq<Dyn>>, sep: string)
    requires Printable(colNames, rowNames, data) && |data| > 0
    ensures var g := Grid(colNames, rowNames, data, sep);
      WideRows(g) && |g| == |data[0]| + 1 && |g[0]| == |colNames|
  {
    var g := Grid(colNames, rowNames, data, sep);
    var rs := DataRows(rowNames, data, sep, |data[0]|);
    forall r | 0 <= r < |g|
      ensures |g[r]| >= |g[0]|
    {
      if r > 0 {
        assert g[r] == rs[r - 1];
      }
    }
  }

  /** Table.String pads a grid of one header row and one row per data row,
      with as many columns as there are column names; by PadLength and
      PadRow its text is that many lines of one width. */
  lemma {:induction false} TableLayout(colNames: seq<string>, rowNames: seq<string>, data: seq<seq<Dyn>>, markdown: bool)
    requires Printable(colNames, rowNames, data) && |data| > 0
    ensures var g := Grid(colNames, rowNames, data, if markdown then "|" else "");
      WideRows(g) && |g| == |data[0]| + 1 && |Widths(TrimTable(g))| == |colNames| &&
      TableText(colNames, rowNames, data, markdown) == PadText(g, 4)
  {
    GridWide(colNames, rowNames, data, if markdown then "|" else "");
  }

  /** A table whose columns hold no rows renders its header alone, however
      many column names it has. */
  lemma {:induction false} HeaderOnly(colNames: seq<string>, rowNames: seq<string>, data: seq<seq<Dyn>>, markdown: bool)
    requires |data| > 0 && |data[0]| == 0
    ensures Printable(colNames, rowNames, data)
    ensures TableText(colNames, rowNames, data, markdown) == PadText([HeaderRow(colNames, if markdown then "|" else "")], 4)
  {
    var sep := if markdown then "|" else "";
    assert Rectangular(data, 0);
    var g := Grid(colNames, rowNames, data, sep);
    assert g[1..] == DataRows(rowNames, data, sep, 0) == [];
    assert g == [HeaderRow(colNames, sep)] by {
      assert g == [g[0]] + g[1..];
    }
    assert TableText(colNames, rowNames, data, markdown) == PadText(g, 4);
  }

  /** In a Markdown table every rendered cell ends in "|": trimming removes
      spaces only. */
  lemma {:induction false} MarkdownCells(x: string)
    ensures var t := Text.Trim(x + "|"); |t| > 0 && t[|t| - 1] == '|'
  {
    var s := x + "|";
    Text.TrimShape(s);
    var t := Text.Trim(s);
    var i := |s| - |Text.TrimLeft(s)|;
    assert s[|s| - 1] == '|';
    assert i + |t| == |s|;
    assert t[|t| - 1] == s[|s| - 1];
  }

  /** String's header loop: every column name followed by the separator. */
  method HeaderCells(colNames: seq<string>, sep: string) returns (cells: seq<string>)
    ensures cells == HeaderRow(colNames, sep)
  {
    cells := [];
    var ind := 0;
    while ind < |colNames|
      invariant 0 <= ind <= |colNames| && |cells| == ind
      invariant forall c :: 0 <= c < ind ==> cells[c] == colNames[c] + sep
    {
      cells := cells + [colNames[ind] + sep];
      ind := ind + 1;
    }
  }

  /** String's inner loop: the row name, then every column's value at the
      row, each followed by the separator. */
  method BodyRow(rowNames: seq<string>, data: seq<seq<Dyn>>, sep: string, row: nat) returns (rowSlc: seq<string>)
    requires Rectangular(data, row + 1) && row < |rowNames|
    ensures rowSlc == DataRow(rowNames, data, sep, row)
  {
    rowSlc := [rowNames[row] + sep];
    var col := 0;
    while col < |data|
      invariant 0 <= col <= |data|
      invariant rowSlc == [rowNames[row] + sep] + PrintedCells(data, sep, row, col)
    {
      Append(rowNames[row] + sep, PrintedCells(data, sep, row, col), PrettyString(data[col][row]) + sep);
      rowSlc := rowSlc + [PrettyString(data[col][row]) + sep];
      col := col + 1;
    }
  }

  /** String's outer loop: one printed row per data row. */
  method BodyRows(rowNames: seq<string>, data: seq<seq<Dyn>>, sep: string) returns (rows: seq<seq<string>>)
    requires |data| > 0 && Rectangular(data, |data[0]|) && |data[0]| <= |rowNames|
    ensures rows == DataRows(rowNames, data, sep, |data[0]|)
  {
    rows := [];
    var row := 0;
    while row < |data[0]|
      invariant 0 <= row <= |data[0]|
      invariant rows == DataRows(rowNames, data, sep, row)
    {
      var rowSlc := BodyRow(rowNames, data, sep, row);
      rows := rows + [rowSlc];
      row := row + 1;
    }
  }

  /** CleanUp's scan over the rows: the names and the cells of the rows
      with a value, in their order. */
  method CleanRows(data: seq<seq<Dyn>>, names: seq<string>) returns (rowNames: seq<string>, dataVal: seq<seq<Dyn>>)
    requires |data| > 0 && Rectangular(data, |data[0]|) && NamesCover(data, names)
    ensures var ks := KeptRows(data, |data[0]|);
      rowNames == Project(names, ks) &&
      |dataVal| == |data| &&
      forall c :: 0 <= c < |data| ==> dataVal[c] == Project(data[c], ks)
  {
    rowNames := [];
    var nCol := |data|;
    var nRow := |data[0]|;
    dataVal := seq(nCol, _ => []);
    ghost var kept: seq<nat> := [];
    var row := 0;
    while row < nRow
      invariant 0 <= row <= nRow
      invariant kept == KeptRows(data, row)
      invariant Collected(names, data, kept, rowNames, dataVal)
    {
      assert Rectangular(data, row + 1);
      rowNames, dataVal, kept := CleanRow(names, data, row, kept, rowNames, dataVal);
      row := row + 1;
    }
  }

  /** The names and the cells of the rows `ks`, collected so far. */
  predicate Collected(names: seq<string>, data: seq<seq<Dyn>>, ks: seq<nat>,
                      rowNames: seq<string>, dataVal: seq<seq<Dyn>>)
  {
    (forall i :: 0 <= i < |ks| ==> ks[i] < |names|) &&
    (forall c, i :: 0 <= c < |data| && 0 <= i < |ks| ==> ks[i] < |data[c]|) &&
    rowNames == Project(names, ks) &&
    |dataVal| == |data| &&
    forall c :: 0 <= c < |data| ==> dataVal[c] == Project(data[c], ks)
  }

  /** One step of the scan: row `row` is kept when it has a value. */
  method CleanRow(names: seq<string>, data: seq<seq<Dyn>>, row: nat, ghost ks: seq<nat>,
                  rowNames: seq<string>, dataVal: seq<seq<Dyn>>)
    returns (rowNames': seq<string>, dataVal': seq<seq<Dyn>>, ghost ks': seq<nat>)
    requires |data| > 0 && Rectangular(data, |data[0]|) && NamesCover(data, names)
    requires row < |data[0]| && ks == KeptRows(data, row)
    requires Collected(names, data, ks, rowNames, dataVal)
    ensures ks' == KeptRows(data, row + 1)
    ensures Collected(names, data, ks', rowNames', dataVal')
  {
    assert Rectangular(data, row + 1);
    var ok := RowFilled(data, row);
    if ok {
      rowNames', dataVal' := KeepRow(names, data, ks, row, rowNames, dataVal);
      ks' := ks + [row];
    } else {
      rowNames', dataVal', ks' := rowNames, dataVal, ks;
    }
  }

  /** One kept row: its name and its cells join those already kept. */
  method KeepRow(names: seq<string>, data: seq<seq<Dyn>>, ghost ks: seq<nat>, row: nat,
                 rowNames: seq<string>, dataVal: seq<seq<Dyn>>)
    returns (rowNames': seq<string>, dataVal': seq<seq<Dyn>>)
    requires Rectangular(data, row + 1) && row < |names|
    requires forall i :: 0 <= i < |ks| ==> ks[i] < row
    requires Collected(names, data, ks, rowNames, dataVal)
    ensures Collected(names, data, ks + [row], rowNames', dataVal')
  {
    ProjectSnoc(names, ks, row);
    rowNames' := rowNames + [names[row]];
    dataVal' := AppendRow(dataVal, data, row);
    forall c | 0 <= c < |data|
      ensures dataVal'[c] == Project(data[c], ks + [row])
    {
      ProjectSnoc(data[c], ks, row);
    }
  }

  /** table.go's Table: row names, column names, and the data stored by
      columns. */
  class Table {
    var RowNames: seq<string>
    var ColNames: seq<string>
    var Data: seq<seq<Dyn>>
    var markdown: bool

    constructor(rowNames: seq<string>, colNames: seq<string>, data: seq<seq<Dyn>>)
      ensures RowNames == rowNames && ColNames == colNames && Data == data && !markdown
    {
      RowNames, ColNames, Data := rowNames, colNames, data;
      markdown := false;
    }

    /** CleanUp: keeps exactly the rows with a value in some column, in
        their order, in the row names and in every column alike. Go reads
        Data[0], so there must be a column. */
    method CleanUp()
      requires |Data| > 0 && Rectangular(Data, |Data[0]|) && NamesCover(Data, RowNames)
      modifies this
      ensures var ks := KeptRows(old(Data), |old(Data)[0]|);
        RowNames == Project(old(RowNames), ks) &&
        |Data| == |old(Data)| &&
        forall c :: 0 <= c < |Data| ==> Data[c] == Project(old(Data)[c], ks)
      ensures ColNames == old(ColNames) && markdown == old(markdown)
    {
      var rowNames, dataVal := CleanRows(Data, RowNames);
      RowNames := rowNames;
      Data := dataVal;
    }

    /** Table.String: the rendering of the table, Markdown when the
        markdown flag is set. */
    method String() returns (s: string)
      requires Printable(ColNames, RowNames, Data)
      ensures s == TableText(ColNames, RowNames, Data, markdown)
    {
      if |Data| == 0 {
        return "";
      }
      var sep := if markdown then "|" else "";
      var colNames := HeaderCells(ColNames, sep);
      var rows := BodyRows(RowNames, Data, sep);
      var outSlc := [colNames] + rows;
      ghost var g := Grid(ColNames, RowNames, Data, sep);
      assert outSlc == [g[0]] + g[1..];
      var grid := new seq<string>[|outSlc|](i requires 0 <= i < |outSlc| => outSlc[i]);
      assert grid[..] == g;
      s := Pad(grid, 4);
    }

    /** Table.Write: renders the table with the requested markdown flag for
        the file. The file system is a parameter: `created` says whether
        os.Create succeeded and `written` whether WriteString did. The flag
        is reset only after a successful write; a failure leaves it set.
        Rendering, and so the shape of the table, matters only once the
        file exists. */
    method Write(markDown: bool, created: bool, written: bool) returns (ok: bool, fileText: string)
      requires created ==> Printable(ColNames, RowNames, Data)
      modifies this
      ensures RowNames == old(RowNames) && ColNames == old(ColNames) && Data == old(Data)
      ensures ok == (created && written)
      ensures fileText == if created then TableText(ColNames, RowNames, Data, markDown) else ""
      ensures markdown == if ok then false else markDown
    {
      markdown := markDown;
      if !created {
        return false, "";
      }
      fileText := String();
      if !written {
        return false, fileText;
      }
      markdown := false;
      return true, fileText;
    }
  }

  /** A failed Write leaves the table in Markdown mode, so the next
      String renders a Markdown table. */
  method WriteThenString(t: Table) returns (s: string)
    requires Printable(t.ColNames, t.RowNames, t.Data)
    modifies t
    ensures t.RowNames == old(t.RowNames) && t.ColNames == old(t.ColNames) && t.Data == old(t.Data)
    ensures s == TableText(t.ColNames, t.RowNames, t.Data, true)
  {
    var ok, _ := t.Write(true, false, false);
    s := t.String();
  }
}
