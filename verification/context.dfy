/** The complete state of one CHIP-8 / Super-CHIP machine (`SContext`), its
    display (`SDisplay`), the opcode field extractors (`SOpCode`) and
    `SContext::Reset`. */
module Context {
  import opened Constants

  /** The fixed-size arrays of the machine. */
  type Registers = s: seq<byte> | |s| == NumberOfRegisters witness seq(16, _ => 0)
  type ReturnStack = s: seq<word> | |s| == StackSize witness seq(16, _ => 0)
  type Memory = s: seq<byte> | |s| == MemorySize witness seq(4096, _ => 0)
  type RplFlags = s: seq<byte> | |s| == NumberOfRPLFlags witness seq(8, _ => 0)
  type PixelBuffer = s: seq<byte> | |s| == PixelBufferSize witness seq(8192, _ => 0)
  type KeyboardState = s: seq<bool> | |s| == KeyboardKeyCount witness seq(16, _ => false)

  /** One buffer sized for the extended resolution; only the first
      Width() * Height() pixels are meaningful, row-major. */
  datatype Display = Display(ExtendedMode: bool, PixelBuffer: PixelBuffer) {

    function Width(): (w: nat)
      ensures w == (if ExtendedMode then 128 else 64)
    {
      if ExtendedMode then ExtendedDisplayResolutionWidth else DisplayResolutionWidth
    }

    function Height(): (h: nat)
      ensures h == (if ExtendedMode then 64 else 32)
    {
      if ExtendedMode then ExtendedDisplayResolutionHeight else DisplayResolutionHeight
    }
  }

  /** Row-major buffer index of pixel (x, y) of the current resolution: it
      lies inside Width x Height, and x and y are its remainder and quotient
      by Width. */
  function PixelIndex(d: Display, x: nat, y: nat): (p: nat)
    requires x < d.Width() && y < d.Height()
    ensures p < d.Width() * d.Height() <= PixelBufferSize
    ensures p % d.Width() == x && p / d.Width() == y
  {
    if d.ExtendedMode then x + y * 128 else x + y * 64
  }

  /** Every index inside Width x Height is the index of exactly the pixel
      given by its remainder and quotient by Width. */
  lemma PixelCoordinates(d: Display, q: nat)
    requires q < d.Width() * d.Height()
    ensures q % d.Width() < d.Width() && q / d.Width() < d.Height()
    ensures PixelIndex(d, q % d.Width(), q / d.Width()) == q
  {
  }

  /** Equal coordinates modulo a display dimension, with offsets below the
      dimension, mean equal offsets. */
  lemma ModShiftInjective(a: nat, b: nat, c: nat, m: nat)
    requires m == 32 || m == 64 || m == 128
    requires b < m && c < m
    requires (a + b) % m == (a + c) % m
    ensures b == c
  {
    if m == 32 {
      assert (a + b) % 32 == (a + c) % 32;
    } else if m == 64 {
      assert (a + b) % 64 == (a + c) % 64;
    } else {
      assert (a + b) % 128 == (a + c) % 128;
    }
  }

  // Opcode fields. The C++ masks and shifts the 16-bit word; on the value
  // that is taking hexadecimal digits.

  /** Bits 8-11: `(op & 0x0F00) >> 8`. */
  function OpX(op: word): (x: nat)
    ensures x < 16
  {
    (op / 0x100) % 0x10
  }

  /** Bits 4-7: `(op & 0x00F0) >> 4`. */
  function OpY(op: word): (y: nat)
    ensures y < 16
  {
    (op / 0x10) % 0x10
  }

  /** Bits 0-11: `op & 0x0FFF`. */
  function OpNNN(op: word): (nnn: word)
    ensures nnn < 0x1000
  {
    op % 0x1000
  }

  /** Bits 0-7: `op & 0x00FF`. */
  function OpKK(op: word): (kk: byte)
    ensures op == (op / 0x100) * 0x100 + kk
  {
    op % 0x100
  }

  /** Bits 0-3: `op & 0x000F`. */
  function OpN(op: word): (n: nat)
    ensures n < 16
  {
    op % 0x10
  }

  /** The fields tile the opcode: its top digit, X, Y and N make it up, NNN
      is X followed by KK, and KK is Y followed by N. */
  lemma OpFieldsRecompose(op: word)
    ensures op == (op / 0x1000) * 0x1000 + OpX(op) * 0x100 + OpY(op) * 0x10 + OpN(op)
    ensures OpNNN(op) == OpX(op) * 0x100 + OpKK(op)
    ensures OpKK(op) == OpY(op) * 0x10 + OpN(op)
  {
    var top, nnn := op / 0x1000, op % 0x1000;
    var x, kk := nnn / 0x100, nnn % 0x100;
    var y, n := kk / 0x10, kk % 0x10;
    DigitSplit256(op, top * 0x10 + x, kk);
    DigitSplit16(top * 0x10 + x, top, x);
    DigitSplit16(op, top * 0x100 + x * 0x10 + y, n);
    DigitSplit16(top * 0x100 + x * 0x10 + y, top * 0x10 + x, y);
  }

  /** Quotient and remainder by 16 of a number written as q * 16 + r. */
  lemma DigitSplit16(v: int, q: int, r: int)
    requires 0 <= r < 0x10 && v == q * 0x10 + r
    ensures v / 0x10 == q && v % 0x10 == r
  {
  }

  /** Quotient and remainder by 256 of a number written as q * 256 + r. */
  lemma DigitSplit256(v: int, q: int, r: int)
    requires 0 <= r < 0x100 && v == q * 0x100 + r
    ensures v / 0x100 == q && v % 0x100 == r
  {
  }

  /** The machine state `SContext`. */
  datatype Context = Context(
    V: Registers,          // general purpose registers V0..VF
    I: word,               // memory address register
    PC: word,              // program counter
    SP: byte,              // stack pointer: next free slot of Stack
    DT: byte,              // delay timer
    ST: byte,              // sound timer
    IR: word,              // the opcode being executed
    Stack: ReturnStack,
    Memory: Memory,
    R: RplFlags,           // Super-CHIP RPL user flags
    Display: Display,
    DisplayChanged: bool,
    Keyboard: KeyboardState,
    Exited: bool)
  {
    /** The register named by the second hex digit: NNN is X followed by
        KK. */
    function X(): (x: nat)
      ensures x < NumberOfRegisters
      ensures OpNNN(IR) == x * 0x100 + OpKK(IR)
    {
      OpFieldsRecompose(IR);
      OpX(IR)
    }

    /** The register named by the third hex digit: KK is Y followed by N. */
    function Y(): (y: nat)
      ensures y < NumberOfRegisters
      ensures OpKK(IR) == y * 0x10 + OpN(IR)
    {
      OpFieldsRecompose(IR);
      OpY(IR)
    }

    /** The 12-bit address in the low three hex digits: an address inside
        memory, and IR is its top digit followed by it. */
    function NNN(): (nnn: word)
      ensures nnn < MemorySize
      ensures IR == (IR / 0x1000) * 0x1000 + nnn
    {
      OpNNN(IR)
    }

    /** The byte in the low two hex digits: IR is its top byte followed by
        it. */
    function KK(): (kk: byte)
      ensures IR == (IR / 0x100) * 0x100 + kk
    {
      OpKK(IR)
    }

    /** The low hex digit: a nibble, and IR is its top three digits followed
        by it. */
    function N(): (n: nat)
      ensures n < 0x10
      ensures IR == (IR / 0x10) * 0x10 + n
    {
      OpN(IR)
    }
  }

  /** The memory image Reset leaves: the small glyph set at address 0 and
      zeros everywhere else. */
  function ResetMemory(): (m: Memory)
    ensures m[..FontsetTotalByteSize] == Fontset
    ensures forall a :: FontsetTotalByteSize <= a < MemorySize ==> m[a] == 0
  {
    Fontset + seq(MemorySize - FontsetTotalByteSize, _ => 0)
  }

  /** `SContext::Reset`. It does not touch the RPL flags, the display mode or
      the Exited flag; only the small glyph set is copied into memory. */
  function Reset(c: Context): (r: Context)
    ensures forall k :: 0 <= k < NumberOfRegisters ==> r.V[k] == 0
    ensures r.I == 0 && r.PC == 0 && r.SP == 0 && r.DT == 0 && r.ST == 0 && r.IR == 0
    ensures forall k :: 0 <= k < StackSize ==> r.Stack[k] == 0
    ensures forall a :: 0 <= a < FontsetTotalByteSize ==> r.Memory[a] == Fontset[a]
    ensures forall a :: FontsetTotalByteSize <= a < MemorySize ==> r.Memory[a] == 0
    ensures forall p :: 0 <= p < PixelBufferSize ==> r.Display.PixelBuffer[p] == 0
    ensures r.DisplayChanged
    ensures forall k :: 0 <= k < KeyboardKeyCount ==> !r.Keyboard[k]
    ensures r.R == c.R && r.Display.ExtendedMode == c.Display.ExtendedMode && r.Exited == c.Exited
  {
    Context(
      V := seq(NumberOfRegisters, _ => 0),
      I := 0, PC := 0, SP := 0, DT := 0, ST := 0, IR := 0,
      Stack := seq(StackSize, _ => 0),
      Memory := ResetMemory(),
      R := c.R,
      Display := Display(c.Display.ExtendedMode, seq(PixelBufferSize, _ => 0)),
      DisplayChanged := true,
      Keyboard := seq(KeyboardKeyCount, _ => false),
      Exited := c.Exited)
  }

  /** Resetting twice is resetting once, and Reset forgets everything but
      the RPL flags, the display mode and the Exited flag. */
  lemma ResetIdempotent(c: Context, c': Context)
    ensures Reset(Reset(c)) == Reset(c)
    ensures c.R == c'.R && c.Display.ExtendedMode == c'.Display.ExtendedMode && c.Exited == c'.Exited
      ==> Reset(c) == Reset(c')
  {
  }

  /** A freshly constructed context: the constructor only calls Reset. The
      fields Reset leaves alone start as zero / false here. */
  function New(): (r: Context)
    ensures r == Reset(r)
    ensures r.PC == 0 && !r.Exited && !r.Display.ExtendedMode && r.DisplayChanged
  {
    Reset(Context(
      seq(NumberOfRegisters, _ => 0), 0, 0, 0, 0, 0, 0,
      seq(StackSize, _ => 0), seq(MemorySize, _ => 0), seq(NumberOfRPLFlags, _ => 0),
      Display(false, seq(PixelBufferSize, _ => 0)), false,
      seq(KeyboardKeyCount, _ => false), false))
  }
}
