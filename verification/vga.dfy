/**
  Text-mode display geometry, the 16-colour palette, and the packing of a
  character and its colour byte into one 16-bit display cell.

  Bytes and cells are integer newtypes with the ranges of the C types
  `uint8_t` and `uint16_t`. Where the driver combines bit fields that can
  overlap (the colour byte), the model uses the bitwise OR of `Bits`; where
  the fields are disjoint (the cell), OR is written as the equal sum.
 */
module Vga {
  import opened Bits

  newtype uint8 = x: int | 0 <= x < 0x100
  newtype uint16 = x: int | 0 <= x < 0x1_0000

  /** Grid dimensions: 25 rows of 80 columns, stored row-major. */
  const Width: nat := 80
  const Height: nat := 25
  const CellCount: nat := 2000

  /** The hardware colour indices (4 bits each). */
  const Black: uint8 := 0
  const Blue: uint8 := 1
  const Green: uint8 := 2
  const Cyan: uint8 := 3
  const Red: uint8 := 4
  const Magenta: uint8 := 5
  const Brown: uint8 := 6
  const LightGrey: uint8 := 7
  const DarkGrey: uint8 := 8
  const LightBlue: uint8 := 9
  const LightGreen: uint8 := 10
  const LightCyan: uint8 := 11
  const LightRed: uint8 := 12
  const LightMagenta: uint8 := 13
  const LightBrown: uint8 := 14
  const White: uint8 := 15

  /** The two byte values the terminal treats specially or uses as filler. */
  const Newline: uint8 := 0x0A
  const Space: uint8 := 0x20

  /** Foreground colour: the low nibble of a colour byte. */
  function Foreground(color: uint8): uint8 {
    color % 16
  }

  /** Background colour: the high nibble of a colour byte. */
  function Background(color: uint8): uint8 {
    color / 16
  }

  /** The character byte of a cell (its low byte). */
  function CharOf(cell: uint16): uint8 {
    (cell % 256) as uint8
  }

  /** The colour byte of a cell (its high byte). */
  function ColorOf(cell: uint16): uint8 {
    (cell / 256) as uint8
  }

  /**
    Colour byte for a foreground/background pair: `fg | bg << 4`, computed
    on integers and truncated to the 8 bits of the returned byte. The low
    nibble is always the foreground's; the high nibble is the background,
    unless a foreground of 16 or more spills bits into it.
   */
  function EntryColor(fg: uint8, bg: uint8): (color: uint8)
    ensures Foreground(color) == Foreground(fg)
    ensures Background(color) as nat == Or(bg as nat, Background(fg) as nat) % 16
    ensures fg < 16 ==> Foreground(color) == fg
    ensures fg < 16 && bg < 16 ==> Background(color) == bg
  {
    NibbleParts(fg as nat, bg as nat);
    (Or(fg as nat, bg as nat * 16) % 256) as uint8
  }

  /** The two nibbles of `(fg | bg << 4) mod 256`. */
  lemma NibbleParts(fg: nat, bg: nat)
    ensures Or(fg, bg * 16) % 256 % 16 == fg % 16
    ensures Or(fg, bg * 16) % 256 / 16 == Or(bg, fg / 16) % 16
  {
    OrCommutes(fg, bg * 16);
    OrShift4(bg, fg);
    var x := Or(bg, fg / 16);
    var v := Or(fg, bg * 16);
    assert v == x * 16 + fg % 16;
    LowByte4(v, x, fg % 16);
  }

  /**
    A display cell: the character in the low byte, the colour in the high
    byte. The driver writes `(uint16_t) c | (uint16_t) color << 8`; the two
    parts occupy disjoint bits, so the OR is the sum written here
    (`EntryIsBitwiseOr`).
   */
  function Entry(c: uint8, color: uint8): (cell: uint16)
    ensures CharOf(cell) == c && ColorOf(cell) == color
  {
    (c as int + color as int * 256) as uint16
  }

  /**
    The sum is the driver's `c | color << 8`, truncated to 16 bits: the
    colour shifted left by 8 has no bits where the character has any.
   */
  lemma EntryIsBitwiseOr(c: uint8, color: uint8)
    ensures Entry(c, color) as nat == Or(c as nat, color as nat * 256) % 0x1_0000
  {
    OrCommutes(c as nat, color as nat * 256);
    OrShift8(color as nat, c as nat);
    OrZero(color as nat);
    SumBelow(Or(c as nat, color as nat * 256), c as nat, color as nat);
  }

  /** The arithmetic behind `EntryIsBitwiseOr`. */
  lemma SumBelow(v: nat, c: nat, color: nat)
    requires c < 256 && color < 256 && v == color * 256 + c
    ensures v % 0x1_0000 == c + color * 256
  {
  }

  /** Every cell is the encoding of its own character and colour. */
  lemma EntryOfParts(cell: uint16)
    ensures Entry(CharOf(cell), ColorOf(cell)) == cell
  {
  }

  /** Two cells are equal exactly when both their characters and colours are. */
  lemma EntryInjective(c1: uint8, color1: uint8, c2: uint8, color2: uint8)
    ensures Entry(c1, color1) == Entry(c2, color2) <==> c1 == c2 && color1 == color2
  {
    if Entry(c1, color1) == Entry(c2, color2) {
      assert CharOf(Entry(c1, color1)) == c1;
      assert ColorOf(Entry(c1, color1)) == color1;
    }
  }

  /** The default colour (light grey on black) and the blank cell it gives. */
  const DefaultColor: uint8 := 0x07
  const Blank: uint16 := 0x0720

  lemma DefaultColorIsLightGreyOnBlack()
    ensures EntryColor(LightGrey, Black) == DefaultColor
    ensures Entry(Space, DefaultColor) == Blank
  {
  }
}
