/**
 * The selector's button map: the flat array of cell texts handed to the
 * LVGL button matrix. A "column" here is what the source's loops call one:
 * a group of R cells followed by a "\n" marker, which the button matrix
 * displays as one row. Entries fill the groups in order and "" ends the
 * array.
 */
module ButtonMap {
  import opened Autons

  const SELECTOR_ROWS: nat := 4
  const SELECTOR_COLS: nat := 4
  /** R*C cells, one marker per column, one end marker. */
  const BUTTON_MAP_LENGTH: nat := SELECTOR_ROWS * SELECTOR_COLS + SELECTOR_COLS + 1
  const ROW_BREAK: string := "\n"
  const MAP_END: string := ""

  /** The text of the cell that shows registry position `i`. */
  function Label(reg: seq<Auton>, i: nat): string
  {
    if i < |reg| then
      if reg[i].hasAction then reg[i].name else INVALID_AUTON_TEXT
    else NO_AUTON_TEXT
  }

  /** The cells of column `c`: the labels of positions c*rows .. c*rows+rows-1. */
  function ColumnCells(reg: seq<Auton>, rows: nat, c: nat): seq<string>
  {
    seq(rows, j requires 0 <= j < rows => Label(reg, c * rows + j))
  }

  /** Column `c` as it appears in the map: its cells, then a marker. */
  function Column(reg: seq<Auton>, rows: nat, c: nat): seq<string>
  {
    ColumnCells(reg, rows, c) + [ROW_BREAK]
  }

  /** The first `cols` columns, in order. */
  function Columns(reg: seq<Auton>, rows: nat, cols: nat): seq<string>
    decreases cols
  {
    if cols == 0 then [] else Columns(reg, rows, cols - 1) + Column(reg, rows, cols - 1)
  }

  /** The whole button map for a rows x cols grid. */
  function Layout(reg: seq<Auton>, rows: nat, cols: nat): seq<string>
  {
    Columns(reg, rows, cols) + [MAP_END]
  }

  lemma DivModOf(a: nat, b: nat, q: nat)
    requires q < b
    ensures (a * b + q) / b == a && (a * b + q) % b == q
  {
    var n := a * b + q;
    var d, m := n / b, n % b;
    assert n == d * b + m;
    assert (a - d) * b == m - q;
    if a > d {
      assert (a - d) * b >= b by { MulAtLeast(a - d, b); }
    } else if a < d {
      assert (d - a) * b >= b by { MulAtLeast(d - a, b); }
    }
  }

  lemma MulAtLeast(k: int, b: nat)
    requires k >= 1
    ensures k * b >= b
  {
  }

  lemma {:induction false} ColumnsLength(reg: seq<Auton>, rows: nat, cols: nat)
    ensures |Columns(reg, rows, cols)| == cols * (rows + 1)
  {
    if cols > 0 {
      ColumnsLength(reg, rows, cols - 1);
    }
  }

  /** Every position of the first `cols` columns: a marker or the label of one registry position. */
  lemma {:induction false} ColumnsAt(reg: seq<Auton>, rows: nat, cols: nat, p: nat)
    requires p < cols * (rows + 1)
    ensures |Columns(reg, rows, cols)| == cols * (rows + 1)
    ensures Columns(reg, rows, cols)[p] ==
      if p % (rows + 1) == rows then ROW_BREAK
      else Label(reg, (p / (rows + 1)) * rows + p % (rows + 1))
  {
    ColumnsLength(reg, rows, cols);
    ColumnsLength(reg, rows, cols - 1);
    var prev := Columns(reg, rows, cols - 1);
    if p < (cols - 1) * (rows + 1) {
      ColumnsAt(reg, rows, cols - 1, p);
    } else {
      var q := p - (cols - 1) * (rows + 1);
      assert q < rows + 1;
      DivModOf(cols - 1, rows + 1, q);
      assert Columns(reg, rows, cols)[p] == Column(reg, rows, cols - 1)[q];
    }
  }

  /** The button map has R*C + C + 1 entries. */
  lemma LayoutLength(reg: seq<Auton>, rows: nat, cols: nat)
    ensures |Layout(reg, rows, cols)| == rows * cols + cols + 1
  {
    ColumnsLength(reg, rows, cols);
  }

  /** A complete description of the button map, position by position. */
  lemma LayoutAt(reg: seq<Auton>, rows: nat, cols: nat, p: nat)
    requires p < rows * cols + cols + 1
    ensures |Layout(reg, rows, cols)| == rows * cols + cols + 1
    ensures Layout(reg, rows, cols)[p] ==
      if p == rows * cols + cols then MAP_END
      else if p % (rows + 1) == rows then ROW_BREAK
      else Label(reg, (p / (rows + 1)) * rows + p % (rows + 1))
  {
    LayoutLength(reg, rows, cols);
    if p < rows * cols + cols {
      ColumnsAt(reg, rows, cols, p);
    }
  }

  /** Column k's marker sits at (k+1)(R+1)-1. */
  lemma SeparatorAt(reg: seq<Auton>, rows: nat, cols: nat, k: nat)
    requires k < cols
    ensures (k + 1) * (rows + 1) - 1 < |Layout(reg, rows, cols)|
    ensures Layout(reg, rows, cols)[(k + 1) * (rows + 1) - 1] == ROW_BREAK
  {
    var p := k * (rows + 1) + rows;
    assert p == (k + 1) * (rows + 1) - 1;
    assert (k + 1) * (rows + 1) <= cols * (rows + 1) by { MulMono(k + 1, cols, rows + 1); }
    DivModOf(k, rows + 1, rows);
    ColumnsAt(reg, rows, cols, p);
  }

  lemma MulMono(a: nat, b: nat, c: nat)
    requires a <= b
    ensures a * c <= b * c
  {
  }

  /** The end marker is the last entry. */
  lemma EndAt(reg: seq<Auton>, rows: nat, cols: nat)
    ensures |Layout(reg, rows, cols)| == rows * cols + cols + 1
    ensures Layout(reg, rows, cols)[rows * cols + cols] == MAP_END
  {
    LayoutLength(reg, rows, cols);
  }

  /** Where registry position `i` sits in the map: column i / R, row i % R, each column R+1 long. */
  function CellPosition(rows: nat, i: nat): nat
    requires rows > 0
  {
    (i / rows) * (rows + 1) + i % rows
  }

  /**
   * Registry position i < R*C falls in column (group) i / R at offset i % R,
   * i.e. at map position (i / R)(R+1) + i % R: its name if it has an action,
   * "Invalid Auton" if not, and "No Auton" once the registry has run out.
   */
  lemma EntryAt(reg: seq<Auton>, rows: nat, cols: nat, i: nat)
    requires rows > 0 && i < rows * cols
    ensures CellPosition(rows, i) < |Layout(reg, rows, cols)|
    ensures Layout(reg, rows, cols)[CellPosition(rows, i)] ==
      if i >= |reg| then NO_AUTON_TEXT
      else if !reg[i].hasAction then INVALID_AUTON_TEXT
      else reg[i].name
  {
    IndexSplit(i, rows, cols);
    var c, r := i / rows, i % rows;
    var p := c * (rows + 1) + r;
    assert p == CellPosition(rows, i);
    DivModOf(c, rows + 1, r);
    assert p / (rows + 1) == c && p % (rows + 1) == r;
    ColumnsAt(reg, rows, cols, p);
    assert Columns(reg, rows, cols)[p] == Label(reg, i);
    assert Layout(reg, rows, cols)[p] == Columns(reg, rows, cols)[p];
  }

  /** Registry position i < R*C lies in column i / R < C, at row i % R. */
  lemma IndexSplit(i: nat, rows: nat, cols: nat)
    requires rows > 0 && i < rows * cols
    ensures i == (i / rows) * rows + i % rows && i % rows < rows
    ensures i / rows < cols && (i / rows) * (rows + 1) + i % rows < cols * (rows + 1)
  {
    var c, r := i / rows, i % rows;
    assert i == c * rows + r;
    if c >= cols {
      MulMono(cols, c, rows);
    }
    MulMono(c + 1, cols, rows + 1);
    assert (c + 1) * (rows + 1) == c * (rows + 1) + rows + 1;
  }

  lemma {:induction false} ColumnsIgnoreUnshown(reg: seq<Auton>, extra: seq<Auton>, rows: nat, cols: nat)
    requires rows * cols <= |reg|
    ensures Columns(reg + extra, rows, cols) == Columns(reg, rows, cols)
  {
    if cols > 0 {
      MulMono(cols - 1, cols, rows);
      ColumnsIgnoreUnshown(reg, extra, rows, cols - 1);
      var c := cols - 1;
      var shown, kept := ColumnCells(reg + extra, rows, c), ColumnCells(reg, rows, c);
      assert c * rows + rows == cols * rows;
      forall j | 0 <= j < rows
        ensures shown[j] == kept[j]
      {
        var k := c * rows + j;
        assert k < |reg| && (reg + extra)[k] == reg[k];
        assert shown[j] == Label(reg + extra, k) && kept[j] == Label(reg, k);
      }
      assert shown == kept;
    }
  }

  /** Entries past the first R*C never reach the button map. */
  lemma LayoutIgnoresUnshown(reg: seq<Auton>, extra: seq<Auton>, rows: nat, cols: nat)
    requires rows * cols <= |reg|
    ensures Layout(reg + extra, rows, cols) == Layout(reg, rows, cols)
  {
    ColumnsIgnoreUnshown(reg, extra, rows, cols);
  }

  /**
   * How the button matrix numbers its buttons: "\n" markers are skipped and
   * "" ends the map; every other entry is the next button.
   */
  function ButtonTexts(m: seq<string>): (b: seq<string>)
    ensures |b| <= |m|
    ensures forall k :: 0 <= k < |b| ==> b[k] != ROW_BREAK && b[k] != MAP_END
  {
    if m == [] || m[0] == MAP_END then []
    else if m[0] == ROW_BREAK then ButtonTexts(m[1..])
    else [m[0]] + ButtonTexts(m[1..])
  }

  /** Every shown entry with an action has a name the button matrix treats as a button. */
  ghost predicate Displayable(reg: seq<Auton>, n: nat)
  {
    forall i :: 0 <= i < |reg| && i < n && reg[i].hasAction ==>
      reg[i].name != MAP_END && reg[i].name != ROW_BREAK
  }

  lemma LabelIsButton(reg: seq<Auton>, n: nat, i: nat)
    requires Displayable(reg, n) && i < n
    ensures Label(reg, i) != MAP_END && Label(reg, i) != ROW_BREAK
  {
    assert |NO_AUTON_TEXT| > 1 && |INVALID_AUTON_TEXT| > 1;
  }

  /** The labels of registry positions 0 .. n-1. */
  function Cells(reg: seq<Auton>, n: nat): seq<string>
  {
    seq(n, i requires 0 <= i < n => Label(reg, i))
  }

  lemma {:induction false} ButtonTextsAppend(a: seq<string>, b: seq<string>)
    requires MAP_END !in a
    ensures ButtonTexts(a + b) == ButtonTexts(a) + ButtonTexts(b)
  {
    if a != [] {
      assert (a + b)[0] == a[0] && a[0] != MAP_END;
      assert (a + b)[1..] == a[1..] + b;
      ButtonTextsAppend(a[1..], b);
    } else {
      assert a + b == b;
    }
  }

  lemma {:induction false} ButtonTextsPlain(s: seq<string>)
    requires forall k :: 0 <= k < |s| ==> s[k] != MAP_END && s[k] != ROW_BREAK
    ensures ButtonTexts(s) == s
  {
    if s != [] {
      ButtonTextsPlain(s[1..]);
    }
  }

  lemma DisplayablePrefix(reg: seq<Auton>, n: nat, m: nat)
    requires n <= m && Displayable(reg, m)
    ensures Displayable(reg, n)
  {
  }

  lemma ColumnCellsAreButtons(reg: seq<Auton>, rows: nat, c: nat, n: nat)
    requires Displayable(reg, n) && c * rows + rows <= n
    ensures forall k :: 0 <= k < rows ==> ColumnCells(reg, rows, c)[k] != MAP_END && ColumnCells(reg, rows, c)[k] != ROW_BREAK
  {
    forall k | 0 <= k < rows
      ensures ColumnCells(reg, rows, c)[k] != MAP_END && ColumnCells(reg, rows, c)[k] != ROW_BREAK
    {
      LabelIsButton(reg, n, c * rows + k);
    }
  }

  lemma MulSucc(c: nat, rows: nat)
    ensures rows * c == c * rows && c * rows + rows == rows * (c + 1)
  {
  }

  lemma CellsSplit(reg: seq<Auton>, rows: nat, c: nat)
    ensures Cells(reg, c * rows) + ColumnCells(reg, rows, c) == Cells(reg, c * rows + rows)
  {
  }

  lemma ButtonTextsOfColumn(reg: seq<Auton>, rows: nat, c: nat)
    requires forall k :: 0 <= k < rows ==> ColumnCells(reg, rows, c)[k] != MAP_END && ColumnCells(reg, rows, c)[k] != ROW_BREAK
    ensures MAP_END !in Column(reg, rows, c)
    ensures ButtonTexts(Column(reg, rows, c)) == ColumnCells(reg, rows, c)
  {
    var cells := ColumnCells(reg, rows, c);
    ButtonTextsPlain(cells);
    ButtonTextsAppend(cells, [ROW_BREAK]);
    assert ButtonTexts([ROW_BREAK]) == [];
  }

  lemma {:induction false} ButtonTextsOfColumns(reg: seq<Auton>, rows: nat, cols: nat)
    requires Displayable(reg, rows * cols)
    ensures MAP_END !in Columns(reg, rows, cols)
    ensures ButtonTexts(Columns(reg, rows, cols)) == Cells(reg, rows * cols)
  {
    if cols > 0 {
      var c := cols - 1;
      var n := c * rows;
      assert rows * c == n && n + rows == rows * cols by { MulSucc(c, rows); }
      DisplayablePrefix(reg, n, rows * cols);
      ButtonTextsOfColumns(reg, rows, c);
      ColumnCellsAreButtons(reg, rows, c, rows * cols);
      ButtonTextsOfColumn(reg, rows, c);
      ButtonTextsAppend(Columns(reg, rows, c), Column(reg, rows, c));
      CellsSplit(reg, rows, c);
    }
  }

  /**
   * With a displayable registry the matrix has exactly R*C buttons and
   * button `i` shows the label of registry position `i`.
   */
  lemma ButtonsOfLayout(reg: seq<Auton>, rows: nat, cols: nat)
    requires Displayable(reg, rows * cols)
    ensures ButtonTexts(Layout(reg, rows, cols)) == Cells(reg, rows * cols)
  {
    ButtonTextsOfColumns(reg, rows, cols);
    ButtonTextsAppend(Columns(reg, rows, cols), [MAP_END]);
  }

  /** Fills the button map column by column, as the selector's constructor does. */
  method FillButtonMap(reg: seq<Auton>, m: array<string>)
    requires m.Length == BUTTON_MAP_LENGTH
    modifies m
    ensures m[..] == Layout(reg, SELECTOR_ROWS, SELECTOR_COLS)
  {
    var aIndex := 0;
    var rIndex := 0;
    var i := 0;
    while i < SELECTOR_COLS
      invariant 0 <= i <= SELECTOR_COLS
      invariant aIndex == i * SELECTOR_ROWS && rIndex == i * (SELECTOR_ROWS + 1)
      invariant m[..rIndex] == Columns(reg, SELECTOR_ROWS, i)
    {
      aIndex, rIndex := FillColumn(reg, m, i, aIndex, rIndex);
      i := i + 1;
    }
    m[rIndex] := MAP_END;
    assert m[..] == m[..rIndex] + [MAP_END];
  }

  /**
   * One pass of the constructor's outer loop: the inner loop writes column
   * `i`'s cells from registry position `aIndex` on, then the marker.
   */
  method FillColumn(reg: seq<Auton>, m: array<string>, i: nat, aIndex: nat, rIndex: nat)
    returns (aNext: nat, rNext: nat)
    requires m.Length == BUTTON_MAP_LENGTH && i < SELECTOR_COLS
    requires aIndex == i * SELECTOR_ROWS && rIndex == i * (SELECTOR_ROWS + 1)
    requires m[..rIndex] == Columns(reg, SELECTOR_ROWS, i)
    modifies m
    ensures aNext == aIndex + SELECTOR_ROWS && rNext == rIndex + SELECTOR_ROWS + 1
    ensures m[..rNext] == Columns(reg, SELECTOR_ROWS, i + 1)
  {
    ghost var cells := ColumnCells(reg, SELECTOR_ROWS, i);
    aNext, rNext := aIndex, rIndex;
    var j := 0;
    while j < SELECTOR_ROWS
      invariant 0 <= j <= SELECTOR_ROWS
      invariant aNext == aIndex + j && rNext == rIndex + j
      invariant m[..rNext] == Columns(reg, SELECTOR_ROWS, i) + cells[..j]
    {
      ghost var before := m[..rNext];
      if |reg| > aNext {
        if !reg[aNext].hasAction {
          m[rNext] := INVALID_AUTON_TEXT;
        } else {
          m[rNext] := reg[aNext].name;
        }
      } else {
        m[rNext] := NO_AUTON_TEXT;
      }
      assert m[rNext] == Label(reg, aNext) == cells[j];
      assert m[..rNext + 1] == before + [cells[j]];
      assert cells[..j + 1] == cells[..j] + [cells[j]];
      aNext := aNext + 1;
      rNext := rNext + 1;
      j := j + 1;
    }
    ghost var before := m[..rNext];
    m[rNext] := ROW_BREAK;
    rNext := rNext + 1;
    assert cells[..SELECTOR_ROWS] == cells;
    assert m[..rNext] == before + [ROW_BREAK];
  }
}
