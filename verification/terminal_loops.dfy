/**
  The driver's loops, written as loops over sequences and proved to compute
  what the pure definitions in `Terminal` say.
 */
module TerminalLoops {
  import opened Vga
  import opened Terminal
  import opened TerminalProperties

  /**
    terminal_initialize as written: row by row, column by column, store a
    blank in the default colour at `y * 80 + x`. The previous contents of
    the display are overwritten entirely, so the result does not depend on
    them: initializing twice gives the same state as initializing once.
   */
  method InitializeBuffer(display: Grid) returns (s: State)
    ensures s == Initialize()
  {
    var color := EntryColor(LightGrey, Black);
    var buffer: seq<uint16> := display;
    var y := 0;
    while y < Height
      invariant 0 <= y <= Height
      invariant |buffer| == CellCount
      invariant forall k :: 0 <= k < y * Width ==> buffer[k] == Blank
    {
      var x := 0;
      while x < Width
        invariant 0 <= x <= Width
        invariant |buffer| == CellCount
        invariant forall k :: 0 <= k < y * Width + x ==> buffer[k] == Blank
      {
        var index := y * Width + x;
        buffer := buffer[index := Entry(Space, color)];
        x := x + 1;
      }
      y := y + 1;
    }
    s := State(buffer, 0, 0, color);
    assert forall k :: 0 <= k < CellCount ==> s.cells[k] == Initialize().cells[k];
  }

  /**
    terminal_scroll as written, on the display memory together with the row
    of memory that follows it (`memory[2000..2080]`): each cell at
    `i * 80 + j` for i in 0..24 takes the cell at `(i + 1) * 80 + j`. The
    cells read have not been overwritten yet, so the grid ends up as
    `Scroll` says and the memory past the grid is only read.
   */
  method ScrollMemory(memory: seq<uint16>) returns (m: seq<uint16>)
    requires |memory| == CellCount + Width
    ensures |m| == |memory|
    ensures m[..CellCount] == Scroll(memory[..CellCount], memory[CellCount..])
    ensures m[CellCount..] == memory[CellCount..]
  {
    m := memory;
    var i := 0;
    while i < Height
      invariant 0 <= i <= Height
      invariant |m| == |memory|
      invariant forall k :: 0 <= k < i * Width ==> m[k] == memory[k + Width]
      invariant forall k :: i * Width <= k < |memory| ==> m[k] == memory[k]
    {
      var j := 0;
      while j < Width
        invariant 0 <= j <= Width
        invariant |m| == |memory|
        invariant forall k :: 0 <= k < i * Width + j ==> m[k] == memory[k + Width]
        invariant forall k :: i * Width + j <= k < |memory| ==> m[k] == memory[k]
      {
        m := m[i * Width + j := m[(i + 1) * Width + j]];
        j := j + 1;
      }
      i := i + 1;
    }
    var expected := Scroll(memory[..CellCount], memory[CellCount..]);
    assert forall k :: 0 <= k < CellCount ==> m[k] == expected[k];
  }

  /** terminal_write as written: one PutChar per byte, in order. */
  method WriteBytes(s: State, data: seq<uint8>, below: Row) returns (r: Step)
    ensures r == Write(s, data, below)
  {
    r := Step(s, [], []);
    var i := 0;
    while i < |data|
      invariant 0 <= i <= |data|
      invariant r == Write(s, data[..i], below)
    {
      var next := PutChar(r.state, data[i], below);
      WriteSnoc(s, data[..i], data[i], below);
      assert data[..i + 1] == data[..i] + [data[i]];
      r := Step(next.state, r.stray + next.stray, r.ports + next.ports);
      i := i + 1;
    }
    assert data[..i] == data;
  }
}
