/**
  The hardware-cursor side of the display: the CRT controller is reached
  through an index port (which selects a register) and a data port (which
  reads or writes the selected register). Port I/O is represented as a trace
  of `PortIo` events; values read from a port are inputs of the model.

  `Crt` is a small device model of the controller (a selected index and a
  register file). It is the independent reference against which the traces
  are judged: running a trace on it says which registers end up holding what.
 */
module CursorPort {
  import opened Vga
  import opened Bits

  const IndexPort: uint16 := 0x3D4
  const DataPort: uint16 := 0x3D5
  /** The port the second read of `EnableCursor` uses, as written in the driver. */
  const ShapeReadPort: uint16 := 0x3E0

  /** Controller registers used by the driver. */
  const CursorStartReg: uint8 := 0x0A
  const CursorEndReg: uint8 := 0x0B
  const LocationHighReg: uint8 := 0x0E
  const LocationLowReg: uint8 := 0x0F

  datatype PortIo = Out(port: uint16, value: uint8) | In(port: uint16, value: uint8)

  /** The selected register index and the register file. */
  datatype Crt = Crt(selected: uint8, regs: map<uint8, uint8>)

  /** Register `i` of the controller (0 if never written). */
  function Reg(crt: Crt, i: uint8): uint8 {
    if i in crt.regs then crt.regs[i] else 0
  }

  /** Effect of one port event on the controller; reads change nothing. */
  function Apply(crt: Crt, io: PortIo): Crt {
    match io
    case Out(port, v) =>
      if port == IndexPort then crt.(selected := v)
      else if port == DataPort then crt.(regs := crt.regs[crt.selected := v])
      else crt
    case In(_, _) => crt
  }

  function Run(crt: Crt, trace: seq<PortIo>): Crt
    decreases |trace|
  {
    if |trace| == 0 then crt else Run(Apply(crt, trace[0]), trace[1..])
  }

  /** Running two traces in turn is running their concatenation. */
  lemma {:induction false} RunAppend(crt: Crt, t1: seq<PortIo>, t2: seq<PortIo>)
    ensures Run(crt, t1 + t2) == Run(Run(crt, t1), t2)
    decreases |t1|
  {
    if |t1| == 0 {
      assert t1 + t2 == t2;
    } else {
      assert (t1 + t2)[1..] == t1[1..] + t2;
      RunAppend(Apply(crt, t1[0]), t1[1..], t2);
    }
  }

  /** The linear cell offset at which the controller shows the cursor. */
  function Location(crt: Crt): nat {
    Reg(crt, LocationHighReg) as nat * 256 + Reg(crt, LocationLowReg) as nat
  }

  /** Running a trace of four events, one at a time. */
  lemma Run4(crt: Crt, t: seq<PortIo>)
    requires |t| == 4
    ensures Run(crt, t) == Apply(Apply(Apply(Apply(crt, t[0]), t[1]), t[2]), t[3])
  {
    var c1 := Apply(crt, t[0]);
    var c2 := Apply(c1, t[1]);
    var c3 := Apply(c2, t[2]);
    var c4 := Apply(c3, t[3]);
    assert t[1..][0] == t[1] && t[1..][1..] == t[2..];
    assert t[2..][0] == t[2] && t[2..][1..] == t[3..];
    assert t[3..][0] == t[3] && t[3..][1..] == [];
    assert Run(c3, t[3..]) == c4;
    assert Run(c2, t[2..]) == c4;
    assert Run(c1, t[1..]) == c4;
  }

  /**
    The linear offset `y * 80 + x` as the driver computes it: the arithmetic is
    done in 32-bit unsigned integers and the result is truncated to 16 bits,
    which together is reduction modulo 2^16.
   */
  function CursorOffset(x: int, y: int): (pos: nat)
    ensures pos < 0x1_0000
    ensures (y * Width + x - pos) % 0x1_0000 == 0
    ensures 0 <= x < Width && 0 <= y < Height ==> pos == y * Width + x
  {
    (y * Width + x) % 0x1_0000
  }

  /**
    update_cursor: select the low location register and write the low byte of
    the offset (`pos & 0xFF`), then select the high one and write the high
    byte (`(pos >> 8) & 0xFF`). On a 16-bit value these are `pos % 256` and
    `pos / 256`.
   */
  function UpdateCursor(x: int, y: int): (trace: seq<PortIo>)
    ensures |trace| == 4
    ensures trace[0] == Out(IndexPort, LocationLowReg) && trace[2] == Out(IndexPort, LocationHighReg)
    ensures trace[1].Out? && trace[1].port == DataPort && trace[3].Out? && trace[3].port == DataPort
    ensures trace[3].value as nat * 256 + trace[1].value as nat == (y * Width + x) % 0x1_0000
    ensures 0 <= x < Width && 0 <= y < Height ==>
              trace[3].value as nat * 256 + trace[1].value as nat == y * Width + x
  {
    var pos := CursorOffset(x, y);
    [Out(IndexPort, LocationLowReg), Out(DataPort, (pos % 256) as uint8),
     Out(IndexPort, LocationHighReg), Out(DataPort, (pos / 256) as uint8)]
  }

  /**
    Running `UpdateCursor(x, y)` on any controller state leaves the cursor at
    offset `y * 80 + x` (mod 2^16) and touches no other register.
   */
  lemma UpdateCursorMovesCursor(crt: Crt, x: int, y: int)
    ensures Location(Run(crt, UpdateCursor(x, y))) == (y * Width + x) % 0x1_0000
    ensures 0 <= x < Width && 0 <= y < Height ==> Location(Run(crt, UpdateCursor(x, y))) == y * Width + x
    ensures forall i :: i != LocationLowReg && i != LocationHighReg ==>
              Reg(Run(crt, UpdateCursor(x, y)), i) == Reg(crt, i)
  {
    var t := UpdateCursor(x, y);
    Run4(crt, t);
    var c1 := Apply(crt, t[0]);
    assert c1.selected == LocationLowReg;
    var c2 := Apply(c1, t[1]);
    assert c2.regs == crt.regs[LocationLowReg := t[1].value];
    var c3 := Apply(c2, t[2]);
    assert c3.selected == LocationHighReg;
    var c4 := Apply(c3, t[3]);
    assert c4.regs == crt.regs[LocationLowReg := t[1].value][LocationHighReg := t[3].value];
    assert Reg(c4, LocationLowReg) == t[1].value;
    assert Reg(c4, LocationHighReg) == t[3].value;
  }

  /**
    `(r & keep) | field` as the driver computes it, truncated to the byte
    `outb` takes. `keep` masks the bits above a field: 0xC0 keeps the top two
    bits of a register, 0xE0 the top three.
   */
  function MaskMerge(r: uint8, keep: nat, field: uint8): uint8 {
    (Or(And(r as nat, keep), field as nat) % 256) as uint8
  }

  /** The merged byte carries the field in its low 6 bits and `r`'s bits above. */
  lemma MaskMerge6(r: uint8, field: uint8)
    ensures MaskMerge(r, 0xC0, field) % 64 == field % 64
    ensures field < 64 ==> MaskMerge(r, 0xC0, field) / 64 == r / 64
  {
    MergeField6(r as nat, field as nat);
  }

  /** Masking a byte with 0xC0 keeps its bits from bit 6 up. */
  lemma KeepHigh6(r: nat)
    requires r < 256
    ensures And(r, 0xC0) == r / 64 * 64
  {
    AndCommutes(r, 0xC0);
    AndShift6(3, r);
    AndOnes(3, r / 64);
  }

  /** OR into a masked byte: the field's low 6 bits, and above them `r`'s high bits OR the field's. */
  lemma OrKept6(r: nat, field: nat)
    requires r < 256
    ensures Or(And(r, 0xC0), field) == Or(r / 64, field / 64) * 64 + field % 64
  {
    var m := r / 64;
    KeepHigh6(r);
    assert And(r, 0xC0) == m * 64;
    OrShift6(m, field);
  }

  lemma MergeField6(r: nat, field: nat)
    requires r < 256
    ensures Or(And(r, 0xC0), field) % 256 % 64 == field % 64
    ensures field < 64 ==> Or(And(r, 0xC0), field) % 256 / 64 == r / 64
  {
    OrKept6(r, field);
    OrZero(r / 64);
    LowBits6(Or(And(r, 0xC0), field), Or(r / 64, field / 64), r, field);
  }

  /** The arithmetic behind `MergeField6`. */
  lemma LowBits6(v: nat, x: nat, r: nat, field: nat)
    requires r < 256 && v == x * 64 + field % 64
    requires field < 64 ==> x == r / 64
    ensures v % 256 % 64 == field % 64
    ensures field < 64 ==> v % 256 / 64 == r / 64
  {
    LowByte6(v, x, field % 64);
  }

  /** The merged byte carries the field in its low 5 bits and `r`'s bits above. */
  lemma MaskMerge5(r: uint8, field: uint8)
    ensures MaskMerge(r, 0xE0, field) % 32 == field % 32
    ensures field < 32 ==> MaskMerge(r, 0xE0, field) / 32 == r / 32
  {
    MergeField5(r as nat, field as nat);
  }

  /** Masking a byte with 0xE0 keeps its bits from bit 5 up. */
  lemma KeepHigh5(r: nat)
    requires r < 256
    ensures And(r, 0xE0) == r / 32 * 32
  {
    AndCommutes(r, 0xE0);
    AndShift5(7, r);
    AndOnes(7, r / 32);
  }

  /** OR into a masked byte: the field's low 5 bits, and above them `r`'s high bits OR the field's. */
  lemma OrKept5(r: nat, field: nat)
    requires r < 256
    ensures Or(And(r, 0xE0), field) == Or(r / 32, field / 32) * 32 + field % 32
  {
    var m := r / 32;
    KeepHigh5(r);
    assert And(r, 0xE0) == m * 32;
    OrShift5(m, field);
  }

  lemma MergeField5(r: nat, field: nat)
    requires r < 256
    ensures Or(And(r, 0xE0), field) % 256 % 32 == field % 32
    ensures field < 32 ==> Or(And(r, 0xE0), field) % 256 / 32 == r / 32
  {
    OrKept5(r, field);
    OrZero(r / 32);
    LowBits5(Or(And(r, 0xE0), field), Or(r / 32, field / 32), r, field);
  }

  /** The arithmetic behind `MergeField5`. */
  lemma LowBits5(v: nat, x: nat, r: nat, field: nat)
    requires r < 256 && v == x * 32 + field % 32
    requires field < 32 ==> x == r / 32
    ensures v % 256 % 32 == field % 32
    ensures field < 32 ==> v % 256 / 32 == r / 32
  {
    LowByte5(v, x, field % 32);
  }

  /**
    enable_cursor: read-modify-write of the cursor start and end registers,
    keeping their top bits and setting the scan-line fields. `read0` and `read1`
    are the bytes the two `inb` calls return; the second read comes from port
    0x3E0, not from the data port it then writes.
   */
  function EnableCursor(cursorStart: uint8, cursorEnd: uint8, read0: uint8, read1: uint8): (trace: seq<PortIo>)
    ensures |trace| == 6
    ensures trace[0] == Out(IndexPort, CursorStartReg) && trace[3] == Out(IndexPort, CursorEndReg)
    ensures trace[1] == In(DataPort, read0) && trace[4] == In(ShapeReadPort, read1)
    ensures trace[2].Out? && trace[2].port == DataPort && trace[5].Out? && trace[5].port == DataPort
    ensures trace[2].value % 64 == cursorStart % 64
    ensures cursorStart < 64 ==> trace[2].value / 64 == read0 / 64
    ensures trace[5].value % 32 == cursorEnd % 32
    ensures cursorEnd < 32 ==> trace[5].value / 32 == read1 / 32
  {
    MaskMerge6(read0, cursorStart);
    MaskMerge5(read1, cursorEnd);
    [Out(IndexPort, CursorStartReg), In(DataPort, read0),
     Out(DataPort, MaskMerge(read0, 0xC0, cursorStart)),
     Out(IndexPort, CursorEndReg), In(ShapeReadPort, read1),
     Out(DataPort, MaskMerge(read1, 0xE0, cursorEnd))]
  }

  /**
    Running `EnableCursor` writes exactly the two shape registers, with the
    bytes of its two `Out` events to the data port.
   */
  lemma EnableCursorWrites(crt: Crt, cursorStart: uint8, cursorEnd: uint8, read0: uint8, read1: uint8)
    ensures var t := EnableCursor(cursorStart, cursorEnd, read0, read1);
            Run(crt, t).regs == crt.regs[CursorStartReg := t[2].value][CursorEndReg := t[5].value]
  {
    var t := EnableCursor(cursorStart, cursorEnd, read0, read1);
    var c2 := Apply(Apply(crt, t[0]), t[1]);
    assert t[1..][0] == t[1] && t[1..][1..] == t[2..];
    assert Run(crt, t) == Run(c2, t[2..]);
    Run4(c2, t[2..]);
    assert c2.regs == crt.regs && c2.selected == CursorStartReg;
    var c3 := Apply(c2, t[2]);
    assert c3.regs == crt.regs[CursorStartReg := t[2].value];
    var c5 := Apply(Apply(c3, t[3]), t[4]);
    assert c5.selected == CursorEndReg && c5.regs == c3.regs;
  }

  /**
    On a controller whose data port answers the first read with the register
    just selected, `EnableCursor` keeps the top two bits of the start register
    and sets its low six to `cursorStart`. The end register gets `cursorEnd`
    in its low five bits and, above them, whatever port 0x3E0 returned. The
    cursor location is untouched.
   */
  lemma EnableCursorShapesCursor(crt: Crt, cursorStart: uint8, cursorEnd: uint8, read0: uint8, read1: uint8)
    requires read0 == Reg(crt, CursorStartReg)
    requires cursorStart < 64 && cursorEnd < 32
    ensures var after := Run(crt, EnableCursor(cursorStart, cursorEnd, read0, read1));
            && Reg(after, CursorStartReg) / 64 == Reg(crt, CursorStartReg) / 64
            && Reg(after, CursorStartReg) % 64 == cursorStart
            && Reg(after, CursorEndReg) / 32 == read1 / 32
            && Reg(after, CursorEndReg) % 32 == cursorEnd
            && Location(after) == Location(crt)
  {
    var t := EnableCursor(cursorStart, cursorEnd, read0, read1);
    EnableCursorWrites(crt, cursorStart, cursorEnd, read0, read1);
    var after := Run(crt, t);
    assert Reg(after, CursorStartReg) == t[2].value;
    assert Reg(after, CursorEndReg) == t[5].value;
    assert Reg(after, LocationLowReg) == Reg(crt, LocationLowReg);
    assert Reg(after, LocationHighReg) == Reg(crt, LocationHighReg);
  }
}
