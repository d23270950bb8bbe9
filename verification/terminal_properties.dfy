/**
  Properties of the terminal over single characters and over whole writes:
  the scroll rule, where characters land, the bounds invariant (and the
  newline that breaks it), and the hardware cursor following the logical one.
 */
module TerminalProperties {
  import opened Vga
  import opened CursorPort
  import opened Terminal

  /**
    The cursor states reachable from `Initialize` by writing bytes other than
    newline: inside the grid, and on the last row only at its first column.
   */
  predicate InBounds(s: State) {
    s.column < Width && (s.row < Height - 1 || (s.row == Height - 1 && s.column == 0))
  }

  predicate NoNewline(data: seq<uint8>) {
    forall i :: 0 <= i < |data| ==> data[i] != Newline
  }

  lemma NoNewlineTail(data: seq<uint8>)
    requires NoNewline(data) && |data| > 0
    ensures NoNewline(data[1..])
  {
    forall i | 0 <= i < |data[1..]| ensures data[1..][i] != Newline {
      assert data[1..][i] == data[i + 1];
    }
  }

  /** A fold over one more byte is one more step on the state reached so far. */
  lemma {:induction false} FoldSnoc(step: (State, uint8) -> Step, s: State, data: seq<uint8>, c: uint8)
    ensures var w := Fold(step, s, data);
            var p := step(w.state, c);
            Fold(step, s, data + [c]) == Step(p.state, w.stray + p.stray, w.ports + p.ports)
    decreases |data|
  {
    if |data| == 0 {
      assert data + [c] == [c];
      var p := step(s, c);
      assert [c][1..] == [];
      assert p.stray + [] == p.stray && p.ports + [] == p.ports;
    } else {
      var first := step(s, data[0]);
      assert (data + [c])[0] == data[0];
      assert (data + [c])[1..] == data[1..] + [c];
      FoldSnoc(step, first.state, data[1..], c);
      var w := Fold(step, first.state, data[1..]);
      var p := step(w.state, c);
      assert first.stray + (w.stray + p.stray) == (first.stray + w.stray) + p.stray;
      assert first.ports + (w.ports + p.ports) == (first.ports + w.ports) + p.ports;
    }
  }

  /** Writing one byte is one PutChar. */
  lemma WriteOne(s: State, c: uint8, below: Row)
    ensures Write(s, [c], below) == PutChar(s, c, below)
  {
    FoldSnoc(Putter(below), s, [], c);
    assert [] + [c] == [c];
  }

  /** Writing one more byte is one more PutChar on the state reached so far. */
  lemma WriteSnoc(s: State, data: seq<uint8>, c: uint8, below: Row)
    ensures var w := Write(s, data, below);
            var p := PutChar(w.state, c, below);
            Write(s, data + [c], below) == Step(p.state, w.stray + p.stray, w.ports + p.ports)
  {
    FoldSnoc(Putter(below), s, data, c);
  }

  /** Writing some bytes is a PutChar of the first, then a write of the rest. */
  lemma WriteCons(s: State, data: seq<uint8>, below: Row)
    requires |data| > 0
    ensures var p := PutChar(s, data[0], below);
            var w := Write(p.state, data[1..], below);
            Write(s, data, below) == Step(w.state, p.stray + w.stray, p.ports + w.ports)
  {
  }

  /**
    A byte written in the last column of a row above the last wraps: it
    lands in column 0 of the next row, the cursor stays there, and no
    other cell changes (the advanced cursor is in column 0, so no scroll).
   */
  lemma PutCharWraps(s: State, c: uint8, below: Row)
    requires s.row < Height - 1 && s.column == Width - 1 && c != Newline
    ensures var r := PutChar(s, c, below);
            && r.state.row == s.row + 1 && r.state.column == 0 && r.state.color == s.color
            && r.state.cells == s.cells[Linear(r.state) := Entry(c, s.color)]
            && r.stray == []
  {
    var b := AdvanceAndScroll(s, below);
    assert !ScrollDue(Advance(s));
    assert b == s.(row := s.row + 1, column := 0);
    assert PutChar(s, c, below) == StoreAndSync(b, c);
    assert StoreAndSync(b, c).state.cells == PutEntryAt(s.cells, c, s.color, 0, s.row + 1);
  }

  /**
    The scroll rule in terms of the cursor before the call: a byte scrolls the
    grid exactly when the cursor is on the last row short of its final
    column. A wrap from the end of row 23 onto row 24 does not scroll; the
    byte lands in column 0 of row 24 and no other cell changes.
   */
  lemma WrapOntoLastRowDoesNotScroll(s: State, c: uint8, below: Row)
    requires s.row == Height - 2 && s.column == Width - 1 && c != Newline
    ensures var r := PutChar(s, c, below).state;
            && r.row == Height - 1 && r.column == 0
            && At(r.cells, Height - 1, 0) == Entry(c, s.color)
            && forall k :: 0 <= k < CellCount && k != (Height - 1) * Width ==> r.cells[k] == s.cells[k]
  {
    PutCharWraps(s, c, below);
  }

  /**
    A byte written with the cursor on the last row (short of its final
    column) scrolls: rows 1..24 move up one, row 24 is taken from the memory
    below the grid, the cursor ends on row 23 one column further on, and the
    byte is stored there.
   */
  lemma ScrollOnLastRow(s: State, c: uint8, below: Row)
    requires s.row == Height - 1 && s.column < Width - 1 && c != Newline
    ensures var r := PutChar(s, c, below).state;
            && r.row == Height - 2 && r.column == s.column + 1
            && (forall row: nat, col: nat :: row < Height - 2 && col < Width ==>
                  At(r.cells, row, col) == At(s.cells, row + 1, col))
            && (forall row: nat, col: nat :: row == Height - 2 && col < Width && col != s.column + 1 ==>
                  At(r.cells, row, col) == At(s.cells, row + 1, col))
            && At(r.cells, Height - 2, s.column + 1) == Entry(c, s.color)
            && (forall col :: 0 <= col < Width ==> At(r.cells, Height - 1, col) == below[col])
  {
    var b := AdvanceAndScroll(s, below);
    assert b.cells == Scroll(s.cells, below);
    var r := PutChar(s, c, below).state;
    assert r == StoreAndSync(b, c).state;
    forall row: nat, col: nat | row < Height - 2 && col < Width
      ensures At(r.cells, row, col) == At(s.cells, row + 1, col)
    {
      assert At(r.cells, row, col) == At(b.cells, row, col);
    }
    forall row: nat, col: nat | row == Height - 2 && col < Width && col != s.column + 1
      ensures At(r.cells, row, col) == At(s.cells, row + 1, col)
    {
      assert At(r.cells, row, col) == At(b.cells, row, col);
    }
    forall col | 0 <= col < Width
      ensures At(r.cells, Height - 1, col) == below[col]
    {
      assert At(r.cells, Height - 1, col) == At(b.cells, Height - 1, col);
    }
  }

  /**
    Apart from the scroll, a byte other than newline changes only the cell
    under the cursor it ends at.
   */
  lemma PutCharChangesOneCell(s: State, c: uint8, below: Row)
    requires s.column < Width && c != Newline
    ensures var r := PutChar(s, c, below).state;
            var before := if s.row == Height - 1 && s.column < Width - 1 then Scroll(s.cells, below) else s.cells;
            forall k :: 0 <= k < CellCount && k != Linear(r) ==> r.cells[k] == before[k]
  {
    var b := AdvanceAndScroll(s, below);
    assert PutChar(s, c, below) == StoreAndSync(b, c);
  }

  /** A byte that keeps the cursor in bounds stores inside the grid. */
  lemma {:induction false} PutCharKeepsBounds(s: State, c: uint8, below: Row)
    requires InBounds(s)
    requires c != Newline || s.row < Height - 1
    ensures InBounds(PutChar(s, c, below).state)
    ensures PutChar(s, c, below).stray == []
  {
    if c != Newline {
      var a := Advance(s);
      var b := AdvanceAndScroll(s, below);
      if s.row == Height - 1 {
        assert s.column == 0 && b.row == Height - 2;
      } else if s.column == Width - 1 {
        assert b.row == s.row + 1 && b.column == 0;
      } else {
        assert b.row == s.row && b.column == s.column + 1;
      }
      assert Linear(b) < CellCount;
    }
  }

  /**
    The bounds invariant: from an in-bounds cursor, writing any bytes other
    than newline keeps the cursor in bounds and every store inside the grid.
   */
  lemma {:induction false} WriteKeepsBounds(s: State, data: seq<uint8>, below: Row)
    requires InBounds(s) && NoNewline(data)
    ensures InBounds(Write(s, data, below).state)
    ensures Write(s, data, below).stray == []
    decreases |data|
  {
    if |data| != 0 {
      var first := PutChar(s, data[0], below);
      PutCharKeepsBounds(s, data[0], below);
      WriteKeepsBounds(first.state, data[1..], below);
    }
  }

  /** A newline then a byte: the byte is put on the state the newline left. */
  lemma WriteNewlineThen(s: State, c: uint8, below: Row)
    ensures var p := PutChar(s.(row := s.row + 1, column := 0), c, below);
            Write(s, [Newline, c], below) == Step(p.state, p.stray, p.ports)
  {
    var n := PutChar(s, Newline, below);
    assert n == Step(s.(row := s.row + 1, column := 0), [], []);
    WriteCons(s, [Newline, c], below);
    assert [Newline, c][1..] == [c];
    WriteOne(n.state, c, below);
  }

  /**
    Stray stores applied in two batches leave the memory past the grid as
    applying them all at once does, so the strays of consecutive writes
    (which a fold appends) can be applied write by write.
   */
  lemma {:induction false} StoreBelowAppend(below: Row, a: seq<Stray>, b: seq<Stray>)
    ensures StoreBelow(below, a + b) == StoreBelow(StoreBelow(below, a), b)
    decreases |b|
  {
    if |b| == 0 {
      assert a + b == a;
    } else {
      assert (a + b)[..|a + b| - 1] == a + b[..|b| - 1];
      assert (a + b)[|a + b| - 1] == b[|b| - 1];
      StoreBelowAppend(below, a, b[..|b| - 1]);
    }
  }

  /**
    Where the invariant breaks: a newline on the last row moves the cursor to
    row 25, and the next byte is stored at index 2001, past the grid.
   */
  lemma NewlineOnLastRowEscapes(s: State, c: uint8, below: Row)
    requires InBounds(s) && s.row == Height - 1
    requires c != Newline
    ensures var r := Write(s, [Newline, c], below);
            && r.state.row == Height && r.state.column == 1
            && r.state.cells == s.cells
            && r.stray == [Stray(CellCount + 1, Entry(c, s.color))]
            && StoreBelow(below, r.stray)[1] == Entry(c, s.color)
  {
    WriteNewlineThen(s, c, below);
    var n := s.(row := s.row + 1, column := 0);
    var b := AdvanceAndScroll(n, below);
    assert b == n.(column := 1);
    assert Linear(b) == CellCount + 1;
    assert PutChar(n, c, below) == StoreAndSync(b, c);
  }

  /**
    One byte in the middle of a row above the last: no wrap and no scroll,
    the byte goes one cell right of the cursor and the cursor follows it.
   */
  lemma PutCharWithinRow(s: State, c: uint8, below: Row)
    requires s.row < Height - 1 && s.column + 1 < Width && c != Newline
    ensures var r := PutChar(s, c, below);
            && r.state == s.(column := s.column + 1, cells := s.cells[Linear(s) + 1 := Entry(c, s.color)])
            && r.stray == []
  {
    var b := AdvanceAndScroll(s, below);
    assert !ScrollDue(Advance(s));
    assert b == s.(column := s.column + 1);
    assert PutChar(s, c, below) == StoreAndSync(b, c);
    assert StoreAndSync(b, c).state.cells == PutEntryAt(s.cells, c, s.color, s.column + 1, s.row);
  }

  /**
    `cells` after storing `data` left to right from index `at` in colour
    `color`, cell by cell: the reference against which a run of bytes is
    judged.
   */
  ghost predicate Filled(r: Grid, cells: Grid, at: nat, data: seq<uint8>, color: uint8) {
    forall k :: 0 <= k < CellCount ==>
      r[k] == if at <= k < at + |data| then Entry(data[k - at], color) else cells[k]
  }

  /**
    What one step of terminal_putchar does to a byte other than newline with
    the cursor on a row above the last: store it one cell on and move the
    cursor there, wrapping to the next row from the final column.
   */
  ghost predicate StepsAlongRow(step: (State, uint8) -> Step) {
    forall t: State, c: uint8 {:trigger step(t, c)} :: c != Newline && t.row < Height - 1 && t.column < Width ==>
      && step(t, c).stray == []
      && step(t, c).state.color == t.color
      && step(t, c).state.cells == t.cells[Linear(t) + 1 := Entry(c, t.color)]
      && (t.column + 1 < Width ==> step(t, c).state.row == t.row && step(t, c).state.column == t.column + 1)
      && (t.column + 1 == Width ==> step(t, c).state.row == t.row + 1 && step(t, c).state.column == 0)
  }

  lemma PutterStepsAlongRow(below: Row)
    ensures StepsAlongRow(Putter(below))
  {
    forall t: State, c: uint8 | c != Newline && t.row < Height - 1 && t.column < Width
      ensures Putter(below)(t, c) == PutChar(t, c, below)
    {
      if t.column + 1 < Width {
        PutCharWithinRow(t, c, below);
      } else {
        PutCharWraps(t, c, below);
      }
    }
  }

  /**
    The cursor after a fold of such a step over bytes that fit in the row:
    it moves one column per byte, wrapping only on the last.
   */
  lemma {:induction false} FoldAlongRow(step: (State, uint8) -> Step, s: State, data: seq<uint8>)
    requires StepsAlongRow(step) && NoNewline(data)
    requires s.row < Height - 1 && s.column < Width && s.column + |data| <= Width
    ensures var r := Fold(step, s, data);
            && r.state.color == s.color
            && (s.column + |data| < Width ==> r.state.row == s.row && r.state.column == s.column + |data|)
            && (s.column + |data| == Width ==> r.state.row == s.row + 1 && r.state.column == 0)
            && r.stray == []
    decreases |data|
  {
    if |data| != 0 {
      var first := step(s, data[0]);
      var rest := Fold(step, first.state, data[1..]);
      assert Fold(step, s, data) == Step(rest.state, first.stray + rest.stray, first.ports + rest.ports);
      if s.column + 1 < Width {
        NoNewlineTail(data);
        FoldAlongRow(step, first.state, data[1..]);
      } else {
        assert data[1..] == [];
      }
    }
  }

  /** Each cell after such a fold: the bytes in order after the cursor, the rest as before. */
  lemma {:induction false} FoldAlongRowCell(step: (State, uint8) -> Step, s: State, data: seq<uint8>, k: nat)
    requires StepsAlongRow(step) && NoNewline(data)
    requires s.row < Height - 1 && s.column < Width && s.column + |data| <= Width
    requires k < CellCount
    ensures Fold(step, s, data).state.cells[k] ==
              if Linear(s) < k <= Linear(s) + |data| then Entry(data[k - Linear(s) - 1], s.color) else s.cells[k]
    decreases |data|
  {
    if |data| != 0 {
      var first := step(s, data[0]);
      var rest := Fold(step, first.state, data[1..]);
      assert Fold(step, s, data).state == rest.state;
      assert first.state.cells[k] == if k == Linear(s) + 1 then Entry(data[0], s.color) else s.cells[k];
      if s.column + 1 < Width {
        NoNewlineTail(data);
        FoldAlongRowCell(step, first.state, data[1..], k);
        assert Linear(first.state) == Linear(s) + 1;
        if Linear(s) + 1 < k <= Linear(s) + |data| {
          assert data[1..][k - Linear(first.state) - 1] == data[k - Linear(s) - 1];
        }
      } else {
        assert data[1..] == [];
      }
    }
  }

  /**
    Bytes other than newline written from a cursor on a row above the last
    go left to right into the cells after the cursor (the first one lands one
    column right of the cursor). As long as they fit in the row, the cursor
    ends on the last of them; if the last byte reaches past the final column
    it wraps to column 0 of the next row. Nothing scrolls.
   */
  lemma FillLine(s: State, data: seq<uint8>, below: Row)
    requires NoNewline(data)
    requires s.row < Height - 1 && s.column < Width && s.column + |data| <= Width
    ensures var r := Write(s, data, below);
            && r.state.color == s.color
            && Filled(r.state.cells, s.cells, Linear(s) + 1, data, s.color)
            && (s.column + |data| < Width ==> r.state.row == s.row && r.state.column == s.column + |data|)
            && (s.column + |data| == Width ==> r.state.row == s.row + 1 && r.state.column == 0)
            && r.stray == []
  {
    PutterStepsAlongRow(below);
    FoldAlongRow(Putter(below), s, data);
    forall k | 0 <= k < CellCount
      ensures Write(s, data, below).state.cells[k] ==
                if Linear(s) + 1 <= k < Linear(s) + 1 + |data| then Entry(data[k - (Linear(s) + 1)], s.color) else s.cells[k]
    {
      FoldAlongRowCell(Putter(below), s, data, k);
    }
  }

  /**
    Eighty bytes from column 0 of a row above the last: the first 79 fill
    columns 1..79 of that row and the 80th wraps to column 0 of the next
    row, where the cursor stays. Column 0 of the starting row is untouched.
   */
  lemma EightyBytesFromColumnZero(s: State, data: seq<uint8>, below: Row)
    requires NoNewline(data)
    requires s.row < Height - 1 && s.column == 0 && |data| == Width
    ensures var r := Write(s, data, below);
            && r.state.row == s.row + 1 && r.state.column == 0
            && At(r.state.cells, s.row, 0) == At(s.cells, s.row, 0)
            && (forall col :: 1 <= col < Width ==> At(r.state.cells, s.row, col) == Entry(data[col - 1], s.color))
            && At(r.state.cells, s.row + 1, 0) == Entry(data[Width - 1], s.color)
  {
    FillLine(s, data, below);
  }

  /**
    After a newline the next byte lands in column 1 of the new row; column 0
    keeps what it held.
   */
  lemma FirstByteAfterNewline(s: State, c: uint8, below: Row)
    requires s.row < Height - 2 && c != Newline
    ensures var r := Write(s, [Newline, c], below).state;
            && r.row == s.row + 1 && r.column == 1
            && At(r.cells, s.row + 1, 1) == Entry(c, s.color)
            && At(r.cells, s.row + 1, 0) == At(s.cells, s.row + 1, 0)
  {
    WriteNewlineThen(s, c, below);
    var n := s.(row := s.row + 1, column := 0);
    PutCharWithinRow(n, c, below);
  }

  /** A write that ends in a newline leaves the cursor at column 0 of the next row. */
  lemma WriteThenNewline(s: State, data: seq<uint8>, below: Row)
    ensures var w := Write(s, data, below);
            var r := Write(s, data + [Newline], below);
            r.state == w.state.(row := w.state.row + 1, column := 0) && r.stray == w.stray && r.ports == w.ports
  {
    WriteSnoc(s, data, Newline, below);
    var w := Write(s, data, below);
    assert w.stray + [] == w.stray && w.ports + [] == w.ports;
  }

  /**
    A line of text and a newline on a freshly initialized display: row 0
    reads a blank followed by the text and then blanks, in the default
    colour, and the cursor is at column 0 of row 1.
   */
  lemma {:induction false} LineAfterInitialize(line: seq<uint8>, below: Row)
    requires NoNewline(line) && |line| < Width
    ensures var r := Write(Initialize(), line + [Newline], below).state;
            && r.row == 1 && r.column == 0 && r.color == DefaultColor
            && r.cells[0] == Blank
            && (forall i :: 0 <= i < |line| ==> r.cells[1 + i] == Entry(line[i], DefaultColor))
            && (forall k :: |line| < k < CellCount ==> r.cells[k] == Blank)
  {
    var s := Initialize();
    FillLine(s, line, below);
    WriteThenNewline(s, line, below);
  }

  /**
    Writing "Hello\n" on a freshly initialized display: row 0 reads a blank,
    then "Hello", then blanks, and the cursor is at column 0 of row 1.
   */
  lemma HelloAfterInitialize(below: Row)
    ensures var hello: seq<uint8> := [0x48, 0x65, 0x6C, 0x6C, 0x6F];
            var r := Write(Initialize(), hello + [Newline], below).state;
            && r.row == 1 && r.column == 0
            && r.cells[0] == Blank
            && (forall i :: 0 <= i < 5 ==> r.cells[1 + i] == Entry(hello[i], DefaultColor))
            && (forall k :: 6 <= k < CellCount ==> r.cells[k] == Blank)
  {
    var hello: seq<uint8> := [0x48, 0x65, 0x6C, 0x6C, 0x6F];
    assert NoNewline(hello);
    LineAfterInitialize(hello, below);
  }

  /**
    Cursor sync for one byte: a byte other than newline leaves the hardware
    cursor at the logical cursor (modulo 2^16; exactly, when in bounds); a
    newline sends nothing to the controller.
   */
  lemma PutCharSyncsCursor(crt: Crt, s: State, c: uint8, below: Row)
    ensures var r := PutChar(s, c, below);
            && (c == Newline ==> Run(crt, r.ports) == crt)
            && (c != Newline ==> Location(Run(crt, r.ports)) == Linear(r.state) % 0x1_0000)
            && (c != Newline && InBounds(r.state) ==> Location(Run(crt, r.ports)) == Linear(r.state))
  {
    var r := PutChar(s, c, below);
    if c != Newline {
      UpdateCursorMovesCursor(crt, r.state.column, r.state.row);
    }
  }

  /**
    Cursor sync for a whole write ending in a byte other than newline: the
    hardware cursor ends at the final logical cursor, whatever the controller
    held before.
   */
  lemma WriteSyncsCursor(crt: Crt, s: State, data: seq<uint8>, below: Row)
    requires |data| > 0 && data[|data| - 1] != Newline
    ensures var r := Write(s, data, below);
            Location(Run(crt, r.ports)) == Linear(r.state) % 0x1_0000
  {
    var init := data[..|data| - 1];
    var last := data[|data| - 1];
    assert data == init + [last];
    WriteSnoc(s, init, last, below);
    var w := Write(s, init, below);
    var p := PutChar(w.state, last, below);
    RunAppend(crt, w.ports, p.ports);
    PutCharSyncsCursor(Run(crt, w.ports), w.state, last, below);
  }
}
