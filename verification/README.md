# VGA text-mode terminal of a small i386 kernel, in Dafny

This project models the text terminal of `kernel.c`: a 25 × 80 grid of
16-bit display cells, a logical cursor (`terminal_row`, `terminal_column`),
a current colour byte, and the two routines that drive the CRT controller's
hardware cursor. Every routine is a pure function over an immutable state.
The driver's loops are also written as methods and proved equal to those
functions. Lemmas state what the driver does to the grid and the cursor,
over single characters and over whole writes.

Modules, one per component of the driver:

- `Bits`: bitwise OR and AND on naturals, defined one bit at a time, with
  the shift laws that the driver's byte arithmetic needs.
- `Vga`: grid dimensions, the 16-colour palette, the colour byte
  (`vga_entry_color`) and the display cell (`vga_entry`). Bytes and cells
  are the integer newtypes `uint8` and `uint16`.
- `CursorPort`: port I/O as a trace of `Out`/`In` events, plus a small
  device model of the CRT controller (`Crt`: a selected index and a
  register file). `update_cursor` and `enable_cursor` produce traces, and
  running a trace on `Crt` is the reference the traces are judged against.
- `Terminal`: the state record and one transition per driver routine.
  `terminal_write` is a left fold of `terminal_putchar`. A `Step` carries
  the new state, the stores that fell past the grid, and the port events,
  in order.
- `TerminalLoops`: the nested loops of `terminal_initialize` and
  `terminal_scroll`, and the loop of `terminal_write`, as methods proved
  equal to the functions.
- `TerminalProperties`: the scroll rule, where characters land, the bounds
  invariant and the newline that breaks it, and the hardware cursor
  following the logical one.

Behaviour of the code that the model keeps as written:

- A character is stored at the cursor as it is *after* the column advance.
  So after `terminal_initialize`, or after a newline, the first character
  lands in column 1, and column 0 keeps its blank.
- `terminal_scroll` runs its row loop over all 25 rows. Row 24 is therefore
  copied from the 80 cells of memory that follow the grid. The model takes
  those cells as a parameter (`below`).
- The scroll test comes after the advance. A wrap from the end of row 23
  onto row 24 does not scroll. A character typed on row 24 (away from its
  final column) scrolls, and the cursor ends on row 23.
- A newline on row 24 moves the cursor to row 25 without a scroll check.
  The next character's store goes to index 2001, past the grid. The driver
  has no bounds check there. The model leaves the grid unchanged and
  records the store as a `Stray` in the step's result.
- The second read in `enable_cursor` is from port 0x3E0, not from the data
  port 0x3D5 that it then writes. The model keeps 0x3E0 and treats the byte
  read as an input.

## Model

| member | source | states |
|---|---|---|
| Vga.EntryColor | kernel.c:84-87 | the colour byte's low nibble is always the foreground's low nibble; its high nibble is `bg` OR the foreground's spilled high bits; for palette colours the two nibbles read back as `fg` and `bg` |
| Vga.NibbleParts | kernel.c:84-87 | `(fg OR bg << 4) mod 256` has `fg mod 16` as low nibble and `(bg OR fg >> 4) mod 16` as high nibble |
| Vga.Entry | kernel.c:89-92 | the character and colour can be read back from the cell unchanged (low byte and high byte) |
| Vga.EntryIsBitwiseOr | kernel.c:89-92 | the cell equals the driver's `c OR color << 8` truncated to 16 bits |
| Vga.EntryOfParts | kernel.c:89-92 | every 16-bit cell is the encoding of its own character and colour, so the encoding is onto |
| Vga.EntryInjective | kernel.c:89-92 | two cells are equal exactly when their characters and colours are both equal |
| Vga.DefaultColorIsLightGreyOnBlack | kernel.c:109-114 | light grey on black gives colour byte 0x07, and a space in it is the cell 0x0720 |
| Bits.OrShift4 | kernel.c:86 | OR with a value shifted left by 4 takes the low 4 bits from the other operand alone |
| Bits.OrShift8 | kernel.c:91 | OR with a value shifted left by 8 takes the low 8 bits from the other operand alone |
| CursorPort.KeepHigh6 | kernel.c:66 | masking a byte with 0xC0 keeps exactly its bits from bit 6 up |
| CursorPort.KeepHigh5 | kernel.c:69 | masking a byte with 0xE0 keeps exactly its bits from bit 5 up |
| CursorPort.OrKept6 | kernel.c:66 | `(r AND 0xC0) OR start` is the low 6 bits of `start` under the OR of the high parts |
| CursorPort.OrKept5 | kernel.c:69 | `(r AND 0xE0) OR end` is the low 5 bits of `end` under the OR of the high parts |
| CursorPort.MergeField6 | kernel.c:66 | the merged start byte has `start`'s low 6 bits, and `r`'s top two bits when `start < 64` |
| CursorPort.MergeField5 | kernel.c:69 | the merged end byte has `end`'s low 5 bits, and `r`'s top three bits when `end < 32` |
| CursorPort.MaskMerge6 | kernel.c:66 | the same for the byte `outb` receives |
| CursorPort.MaskMerge5 | kernel.c:69 | the same for the byte `outb` receives |
| CursorPort.EnableCursor | kernel.c:63-70 | six events in order: select 0x0A, read 0x3D5, write the merged start; select 0x0B, read 0x3E0, write the merged end; the written fields carry the scan lines and the bits read |
| CursorPort.EnableCursorWrites | kernel.c:63-70 | on the controller, the trace writes register 0x0A and then 0x0B, and no other register |
| CursorPort.EnableCursorShapesCursor | kernel.c:63-70 | for a start scan line below 64 and an end scan line below 32, when the first read returns register 0x0A: the start register keeps its top two bits and gets `cursor_start`; the end register gets `cursor_end` under the top bits read from 0x3E0; the cursor location is unchanged |
| CursorPort.CursorOffset | kernel.c:74 | the 16-bit offset is below 2^16 and congruent to `y * 80 + x` modulo 2^16 (also off the grid, such as row 25), and exactly `y * 80 + x` on the grid |
| CursorPort.UpdateCursor | kernel.c:72-80 | select 0x0F, write the low byte; select 0x0E, write the high byte; the high byte times 256 plus the low byte is the offset |
| CursorPort.UpdateCursorMovesCursor | kernel.c:72-80 | from any controller state, the cursor location ends at `y * 80 + x` (mod 2^16); no register other than 0x0E and 0x0F changes |
| Terminal.Initialize | kernel.c:105-117 | cursor at (0, 0), colour 0x07, and all 2000 cells 0x0720 |
| Terminal.SetColor | kernel.c:119-122 | only the current colour changes; the grid and the cursor stay |
| Terminal.PutEntryAt | kernel.c:124-128 | the cell at (x, y) reads back as the character and colour; every other cell is unchanged |
| Terminal.Scroll | kernel.c:131-139 | rows 0..23 take the rows below them column for column; row 24 is the memory past the grid |
| Terminal.Advance | kernel.c:150-153 | the column moves one right, wrapping to column 0 of the next row at 80; for an in-grid column the linear index moves by one |
| Terminal.AdvanceAndScroll | kernel.c:149-159 | scrolls exactly when the cursor started on row 24 short of column 79; the linear cursor moves one cell on, and one row back after a scroll |
| Terminal.StoreAndSync | kernel.c:160-161 | stores the character at the cursor (or records a stray store past the grid), changes no other cell, and emits the cursor update for the cursor |
| Terminal.PutChar | kernel.c:141-162 | newline: column 0 of the next row, no store, no port events; other bytes: the advance and scroll rule, the byte stored at the final cursor, and the cursor update there |
| Terminal.Strlen | kernel.c:94-100 | the index of the first NUL byte |
| Terminal.WriteString | kernel.c:170-173 | writing a string is writing the bytes before its first NUL |
| Terminal.StoreBelow | kernel.c:124-127 | stray stores applied to the 80 cells after the grid: a cell no store hits keeps its value, and the last store, when it falls among those cells, is what its cell holds |
| TerminalLoops.InitializeBuffer | kernel.c:105-117 | the nested loop gives `Initialize()` from any previous display contents, so initializing twice equals initializing once |
| TerminalLoops.ScrollMemory | kernel.c:131-139 | the in-place nested copy gives `Scroll` on the grid and leaves the memory past the grid unchanged |
| TerminalLoops.WriteBytes | kernel.c:164-168 | the loop gives `Write`, one PutChar per byte in order |
| TerminalProperties.FoldSnoc | kernel.c:164-168 | a fold over one more byte is one more step on the state reached so far |
| TerminalProperties.WriteOne | kernel.c:164-168 | writing one byte is one PutChar |
| TerminalProperties.WriteSnoc | kernel.c:164-168 | writing `data` then `c` is PutChar of `c` after writing `data`, with the strays and port events concatenated |
| TerminalProperties.StoreBelowAppend | kernel.c:164-168 | applying the strays of two writes in turn equals applying their concatenation, as the fold appends them |
| TerminalProperties.WriteCons | kernel.c:164-168 | writing a non-empty sequence is PutChar of its first byte and then writing the rest |
| TerminalProperties.PutCharWraps | kernel.c:150-161 | a byte in column 79 on rows 0..23 goes to column 0 of the next row, where the cursor ends; nothing scrolls |
| TerminalProperties.PutCharWithinRow | kernel.c:150-161 | a byte short of column 79 above row 24 goes one cell right of the cursor, and the cursor follows it |
| TerminalProperties.WrapOntoLastRowDoesNotScroll | kernel.c:150-159 | a wrap from (79, 23) lands on (0, 24) without scrolling, and only that cell changes |
| TerminalProperties.ScrollOnLastRow | kernel.c:155-160 | a byte on row 24 scrolls; the rows move up, row 24 is the memory past the grid, the byte lands on row 23 one column on |
| TerminalProperties.PutCharChangesOneCell | kernel.c:150-160 | apart from a scroll, a byte changes only the cell under the final cursor |
| TerminalProperties.PutCharKeepsBounds | kernel.c:141-162 | from an in-bounds cursor, a byte other than a newline on row 24 keeps the cursor in bounds and stores inside the grid |
| TerminalProperties.WriteKeepsBounds | kernel.c:164-168 | writing bytes without a newline keeps the bounds invariant and makes no store past the grid |
| TerminalProperties.WriteNewlineThen | kernel.c:144-147 | a newline then a byte is PutChar of the byte on column 0 of the next row |
| TerminalProperties.NewlineOnLastRowEscapes | kernel.c:144-160 | a newline on row 24 moves to row 25; the next byte's store goes to index 2001, past the grid, and no cell changes; applied to the memory past the grid it overwrites the cell at offset 1 |
| TerminalProperties.PutterStepsAlongRow | kernel.c:149-161 | PutChar, as a transition, moves one cell right per byte above row 24, wrapping at column 79 |
| TerminalProperties.FoldAlongRow | kernel.c:164-168 | such a fold over bytes that fit in the row moves the cursor one column per byte, wrapping only on the last byte |
| TerminalProperties.FoldAlongRowCell | kernel.c:164-168 | after such a fold, the cells after the cursor hold the bytes in order, and every other cell is unchanged |
| TerminalProperties.FillLine | kernel.c:164-168 | writing bytes that fit in the row fills the cells after the cursor in order, with the cursor on the last of them, and makes no stray stores |
| TerminalProperties.EightyBytesFromColumnZero | kernel.c:150-153 | eighty bytes from column 0 fill columns 1..79 and wrap the 80th to column 0 of the next row; column 0 of the first row keeps its old cell |
| TerminalProperties.FirstByteAfterNewline | kernel.c:144-160 | after a newline, the next byte lands in column 1 and column 0 keeps its old cell |
| TerminalProperties.WriteThenNewline | kernel.c:144-147 | a trailing newline only moves the cursor to column 0 of the next row |
| TerminalProperties.LineAfterInitialize | kernel.c:105-168 | a line and a newline on a fresh display: row 0 is a blank, the text, then blanks; the cursor is at (0, 1) |
| TerminalProperties.HelloAfterInitialize | kernel.c:105-168 | "Hello\n" on a fresh display: a blank, "Hello", then blanks; the cursor is at (0, 1) |
| TerminalProperties.PutCharSyncsCursor | kernel.c:141-162 | after a byte other than newline, the controller's cursor is at the logical cursor (exactly, when in bounds); a newline sends nothing |
| TerminalProperties.WriteSyncsCursor | kernel.c:164-168 | after a write ending in a byte other than newline, the controller's cursor is at the final logical cursor, whatever it held before |

## Left out

- `outb` and `inb` (kernel.c:46-61) are inline assembly. Port writes are a
  trace of events, and the bytes `inb` returns are parameters of
  `EnableCursor`. How the controller answers a read is not modelled.
- The physical address 0xB8000 and the `volatile` qualifier (kernel.c:103,
  110) are not modelled. The display is a plain sequence of 2000 cells.
- The compiler and target `#error` guards (kernel.c:5-13) are not modelled.
- `kernel_main` (kernel.c:176-200) is a fixed demo call sequence, not logic,
  and is not modelled.
- `char` is treated as an unsigned byte. The signedness of `char` makes no
  difference to the comparison with `'\n'` or to `vga_entry`.
- `terminal_row` and `terminal_column` are `size_t`. The model keeps them as
  unbounded naturals, so their 32-bit wrap-around after 2^32 newlines is not
  modelled.
- The 80 cells past the grid are a parameter, `below`, fixed for a whole
  write, and `Write` does not write its stray stores into it. Within one
  write this loses nothing: a stray store needs the cursor on row 25 or
  later, and from there no later byte of the write scrolls. Across writes
  the memory past the grid is read again once `terminal_initialize`
  (kernel.c:105-117) brings the cursor back without clearing it, and the
  next scroll (kernel.c:136) copies it into row 24. Nothing in `Write` ties
  one write's strays to the `below` of a later write; a caller that wants
  the driver's behaviour passes `StoreBelow(below, strays)` to the next
  write, and `StoreBelowAppend` shows the strays can be applied write by
  write.
- A `Step` keeps stray stores and port events in two separate sequences.
  Their interleaving is not recorded.
- Terminal.PutEntryAt: requires the cell index to be inside the grid, where
  the driver checks nothing. Out-of-grid stores reach `StoreAndSync`
  instead, which records them as strays.
- Terminal.Strlen: requires a NUL in the sequence. Reading past the end of
  a string without one is not modelled.
- In `update_cursor`, `pos & 0xFF` and `(pos >> 8) & 0xFF` are written as
  `pos % 256` and `pos / 256`, which are equal for a 16-bit `pos`.
- The colour arguments of `vga_entry_color` are C enum values. The model
  accepts any byte and states what a foreground above 15 does to the
  background nibble.
