/**
  The text-grid engine: an immutable terminal state (the 2000 display cells,
  the logical cursor and the current colour byte) and pure transitions for
  each terminal operation of the driver.

  The cursor row and column are unbounded naturals, so the states the driver
  can reach outside the grid (row 25 after a newline on the last row) are
  representable. The driver stores through a raw pointer without a bounds
  check; here a store whose linear index falls outside the 2000 cells leaves
  the grid unchanged and is reported as a `Stray` store instead. The 80 cells
  that follow the grid in memory (read by the scroll loop) are a parameter,
  `below`.
 */
module Terminal {
  import opened Vga
  import opened CursorPort

  /** The display: 25 rows of 80 cells, row-major. */
  type Grid = cells: seq<uint16> | |cells| == CellCount witness seq(CellCount, _ => 0)

  /** One row of cells, such as the memory that follows the grid. */
  type Row = cells: seq<uint16> | |cells| == Width witness seq(Width, _ => 0)

  datatype State = State(cells: Grid, row: nat, column: nat, color: uint8)

  /** A cell store that fell past the end of the grid. */
  datatype Stray = Stray(index: nat, cell: uint16)

  /**
    The outcome of an operation: the new state, the stores that fell past
    the grid and the port accesses, each in the order they were made.
   */
  datatype Step = Step(state: State, stray: seq<Stray>, ports: seq<PortIo>)

  /** Row-major index of the cursor: where the next cell store goes. */
  function Linear(s: State): nat {
    s.row * Width + s.column
  }

  /** The cell at (row, col) of a grid. */
  function At(cells: Grid, row: nat, col: nat): uint16
    requires row * Width + col < CellCount
  {
    cells[row * Width + col]
  }

  /**
    terminal_initialize: cursor home, light grey on black, and every cell a
    blank in that colour, whatever the display held before.
   */
  function Initialize(): (s: State)
    ensures s.row == 0 && s.column == 0 && s.color == DefaultColor
    ensures forall k :: 0 <= k < CellCount ==> s.cells[k] == Blank
  {
    var color := EntryColor(LightGrey, Black);
    State(seq(CellCount, _ => Entry(Space, color)), 0, 0, color)
  }

  /** terminal_setcolor: later characters use `color`; nothing on screen changes. */
  function SetColor(s: State, color: uint8): (r: State)
    ensures r.cells == s.cells && r.row == s.row && r.column == s.column
    ensures r.color == color
  {
    s.(color := color)
  }

  /**
    terminal_putentryat: store character `c` in colour `color` at column `x`
    of row `y`. The driver checks nothing; callers here must stay inside the
    grid.
   */
  function PutEntryAt(cells: Grid, c: uint8, color: uint8, x: nat, y: nat): (r: Grid)
    requires y * Width + x < CellCount
    ensures CharOf(At(r, y, x)) == c && ColorOf(At(r, y, x)) == color
    ensures forall k :: 0 <= k < CellCount && k != y * Width + x ==> r[k] == cells[k]
  {
    cells[y * Width + x := Entry(c, color)]
  }

  /**
    terminal_scroll: every row takes the contents of the row below it. The
    loop runs over all 25 rows, so the last row is copied from the 80 cells
    that follow the grid in memory (`below`).
   */
  function Scroll(cells: Grid, below: Row): (r: Grid)
    ensures forall row: nat, col: nat :: row < Height - 1 && col < Width ==>
              At(r, row, col) == At(cells, row + 1, col)
    ensures forall col :: 0 <= col < Width ==> At(r, Height - 1, col) == below[col]
  {
    cells[Width..] + below
  }

  /** The column step of terminal_putchar: one column right, wrapping at 80. */
  function Advance(s: State): (r: State)
    ensures r.cells == s.cells && r.color == s.color
    ensures s.column < Width ==> r.column < Width && Linear(r) == Linear(s) + 1
  {
    if s.column + 1 == Width then s.(column := 0, row := s.row + 1)
    else s.(column := s.column + 1)
  }

  /** The scroll condition, evaluated on the advanced cursor. */
  predicate ScrollDue(s: State) {
    s.row == Height - 1 && s.column != 0
  }

  /**
    The cursor part of terminal_putchar for a byte other than newline: advance
    (wrapping at column 80), then scroll and step back a row if the advanced
    cursor is on the last row but not in column 0. In reading order the
    cursor moves one cell on, and one row back when the grid scrolled; the
    scroll happens exactly when the cursor started on the last row short of
    its final column.
   */
  function AdvanceAndScroll(s: State, below: Row): (b: State)
    ensures b.color == s.color
    ensures b.cells == if ScrollDue(Advance(s)) then Scroll(s.cells, below) else s.cells
    ensures s.column < Width ==>
              && b.column < Width
              && (ScrollDue(Advance(s)) <==> s.row == Height - 1 && s.column < Width - 1)
              && Linear(b) + (if ScrollDue(Advance(s)) then Width else 0) == Linear(s) + 1
  {
    var a := Advance(s);
    if ScrollDue(a) then a.(cells := Scroll(a.cells, below), row := a.row - 1) else a
  }

  /**
    The store part of terminal_putchar: the byte goes to the cursor cell in
    the current colour (or past the grid, as a stray store), then the
    hardware cursor is moved to the cursor.
   */
  function StoreAndSync(b: State, c: uint8): (r: Step)
    ensures r.state.row == b.row && r.state.column == b.column && r.state.color == b.color
    ensures r.ports == UpdateCursor(b.column, b.row)
    ensures Linear(b) < CellCount ==>
              && r.state.cells[Linear(b)] == Entry(c, b.color)
              && (forall k :: 0 <= k < CellCount && k != Linear(b) ==> r.state.cells[k] == b.cells[k])
              && r.stray == []
    ensures Linear(b) >= CellCount ==>
              r.state.cells == b.cells && r.stray == [Stray(Linear(b), Entry(c, b.color))]
  {
    var cursor := UpdateCursor(b.column, b.row);
    if Linear(b) < CellCount then
      Step(b.(cells := PutEntryAt(b.cells, c, b.color, b.column, b.row)), [], cursor)
    else
      Step(b, [Stray(Linear(b), Entry(c, b.color))], cursor)
  }

  /**
    terminal_putchar. A newline moves to column 0 of the next row and stops:
    no cell is stored and the hardware cursor is not moved. Any other byte
    goes through `AdvanceAndScroll` and then `StoreAndSync`, so it lands at
    the cursor as it is AFTER the advance.
   */
  function PutChar(s: State, c: uint8, below: Row): (r: Step)
    ensures r.state.color == s.color
    ensures c == Newline ==> r.state == s.(row := s.row + 1, column := 0) && r.stray == [] && r.ports == []
    ensures c != Newline && s.column < Width ==>
              && r.state.column < Width
              && Linear(r.state) + (if s.row == Height - 1 && s.column < Width - 1 then Width else 0)
                 == Linear(s) + 1
    ensures c != Newline ==> r.ports == UpdateCursor(r.state.column, r.state.row)
    ensures c != Newline && Linear(r.state) < CellCount ==>
              r.state.cells[Linear(r.state)] == Entry(c, s.color) && r.stray == []
    ensures c != Newline && Linear(r.state) >= CellCount ==>
              r.stray == [Stray(Linear(r.state), Entry(c, s.color))]
  {
    if c == Newline then
      Step(s.(column := 0, row := s.row + 1), [], [])
    else
      StoreAndSync(AdvanceAndScroll(s, below), c)
  }

  /** PutChar with the memory below the grid fixed, as a transition function. */
  function Putter(below: Row): (State, uint8) -> Step {
    (s, c) => PutChar(s, c, below)
  }

  /**
    A left fold of a transition over some bytes, collecting the stray stores
    and port accesses of every step in order.
   */
  function Fold(step: (State, uint8) -> Step, s: State, data: seq<uint8>): Step
    decreases |data|
  {
    if |data| == 0 then Step(s, [], [])
    else
      var first := step(s, data[0]);
      var rest := Fold(step, first.state, data[1..]);
      Step(rest.state, first.stray + rest.stray, first.ports + rest.ports)
  }

  /** terminal_write: PutChar applied to each byte in turn. */
  function Write(s: State, data: seq<uint8>, below: Row): Step {
    Fold(Putter(below), s, data)
  }

  /**
    The memory past the grid after some stray stores, in order: a store that
    falls in the 80 cells after the grid overwrites its cell, a store further
    out leaves them alone. This is the `below` a later write sees.
   */
  function StoreBelow(below: Row, strays: seq<Stray>): (r: Row)
    ensures forall col :: 0 <= col < Width && (forall k :: 0 <= k < |strays| ==> strays[k].index != CellCount + col) ==>
              r[col] == below[col]
    ensures |strays| > 0 && CellCount <= strays[|strays| - 1].index < CellCount + Width ==>
              r[strays[|strays| - 1].index - CellCount] == strays[|strays| - 1].cell
    decreases |strays|
  {
    if |strays| == 0 then below
    else
      var before := StoreBelow(below, strays[..|strays| - 1]);
      var last := strays[|strays| - 1];
      if CellCount <= last.index < CellCount + Width then before[last.index - CellCount := last.cell]
      else before
  }

  /** strlen: the index of the first NUL byte (the driver assumes one exists). */
  function Strlen(str: seq<uint8>): (n: nat)
    requires 0 in str
    ensures n < |str| && str[n] == 0
    ensures forall k :: 0 <= k < n ==> str[k] != 0
  {
    if str[0] == 0 then 0 else 1 + Strlen(str[1..])
  }

  /** terminal_writestring: write the bytes before the first NUL. */
  function WriteString(s: State, str: seq<uint8>, below: Row): (r: Step)
    requires 0 in str
    ensures forall n :: 0 <= n < |str| && str[n] == 0 && (forall k :: 0 <= k < n ==> str[k] != 0) ==>
              r == Write(s, str[..n], below)
  {
    Write(s, str[..Strlen(str)], below)
  }
}
