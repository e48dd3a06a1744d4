/** The 43 instruction handlers (`Handler_*`) as functions from the machine
    state to the next state. Handlers guarded by `Expects`, and those whose
    C++ indexes an array out of bounds for some inputs, return a `Result`
    whose failure names the violated bound. Every handler reads its operands
    from the opcode in IR, which the engine has already fetched. */
module Handlers {
  import opened Constants
  import opened Context
  import opened Bits
  import opened Screen
  import opened Faults
  import Instructions

  /** Index of the flag register VF. */
  const VF: nat := 0xF

  /** `c.V[i] = v`. */
  function SetV(c: Context, i: nat, v: byte): Context
    requires i < NumberOfRegisters
  {
    c.(V := c.V[i := v])
  }

  /** `PC += 2` on the 16-bit program counter. */
  function NextPC(pc: word): word {
    (pc as int + InstructionByteSize) % 0x1_0000
  }

  /** `PC -= 2` on the 16-bit program counter. */
  function PrevPC(pc: word): word {
    (pc as int - InstructionByteSize) % 0x1_0000
  }

  /** Skips the next instruction when the condition holds. */
  function SkipIf(c: Context, cond: bool): Context {
    if cond then c.(PC := NextPC(c.PC)) else c
  }

  /** Bitwise operators on bytes. */
  function BitOr(a: byte, b: byte): byte {
    ByteWidth(); Or(a, b, 8)
  }

  function BitAnd(a: byte, b: byte): byte {
    ByteWidth(); And(a, b, 8)
  }

  function BitXor(a: byte, b: byte): byte {
    ByteWidth(); Xor(a, b, 8)
  }

  // ------------------------------------------------------------ CHIP-8 set

  /** CLS */
  function ClearScreen(c: Context): Context {
    c.(Display := c.Display.(PixelBuffer := Cleared()), DisplayChanged := true)
  }

  /** RET: `Expects(SP > 0 && SP <= 16)`, then `PC = Stack[--SP]`. */
  function ReturnFromCall(c: Context): Result<Context> {
    if c.SP == 0 then Failure(StackUnderflow)
    else if c.SP > StackSize then Failure(StackOverflow)
    else Success(c.(SP := c.SP - 1, PC := c.Stack[c.SP - 1]))
  }

  /** JP nnn */
  function JumpTo(c: Context): Context {
    c.(PC := c.NNN())
  }

  /** CALL nnn: `Expects(SP < 16)`, then `Stack[SP++] = PC; PC = nnn`. */
  function CallSubroutine(c: Context): Result<Context> {
    if c.SP >= StackSize then Failure(StackOverflow)
    else Success(c.(Stack := c.Stack[c.SP := c.PC], SP := c.SP + 1, PC := c.NNN()))
  }

  /** SE Vx, kk */
  function SkipIfEqualByte(c: Context): Context {
    SkipIf(c, c.V[c.X()] == c.KK())
  }

  /** SNE Vx, kk */
  function SkipIfNotEqualByte(c: Context): Context {
    SkipIf(c, c.V[c.X()] != c.KK())
  }

  /** SE Vx, Vy */
  function SkipIfEqualReg(c: Context): Context {
    SkipIf(c, c.V[c.X()] == c.V[c.Y()])
  }

  /** LD Vx, kk */
  function LoadByte(c: Context): Context {
    SetV(c, c.X(), c.KK())
  }

  /** ADD Vx, kk: 8-bit wrap-around, VF untouched. */
  function AddByte(c: Context): Context {
    SetV(c, c.X(), (c.V[c.X()] as int + c.KK()) % 0x100)
  }

  /** LD Vx, Vy */
  function CopyReg(c: Context): Context {
    SetV(c, c.X(), c.V[c.Y()])
  }

  /** OR Vx, Vy */
  function OrReg(c: Context): Context {
    SetV(c, c.X(), BitOr(c.V[c.X()], c.V[c.Y()]))
  }

  /** AND Vx, Vy */
  function AndReg(c: Context): Context {
    SetV(c, c.X(), BitAnd(c.V[c.X()], c.V[c.Y()]))
  }

  /** XOR Vx, Vy */
  function XorReg(c: Context): Context {
    SetV(c, c.X(), BitXor(c.V[c.X()], c.V[c.Y()]))
  }

  // The four arithmetic handlers below write VF first and then Vx through a
  // reference to V[X]; when X is F the second write sees the flag.

  /** ADD Vx, Vy: `VF = vx + vy > 255; vx += vy` with vy read first. */
  function AddReg(c: Context): Context {
    var vy: int := c.V[c.Y()];
    var c1 := SetV(c, VF, if c.V[c.X()] as int + vy > 0xFF then 1 else 0);
    SetV(c1, c1.X(), (c1.V[c1.X()] as int + vy) % 0x100)
  }

  /** SUB Vx, Vy: `VF = vx > vy; vx -= vy`. */
  function SubReg(c: Context): Context {
    var vy: int := c.V[c.Y()];
    var c1 := SetV(c, VF, if c.V[c.X()] > vy then 1 else 0);
    SetV(c1, c1.X(), (c1.V[c1.X()] as int - vy) % 0x100)
  }

  /** SHR Vx: `VF = vx & 1; vx >>= 1`. */
  function ShiftRight(c: Context): Context {
    var c1 := SetV(c, VF, c.V[c.X()] % 2);
    SetV(c1, c1.X(), c1.V[c1.X()] / 2)
  }

  /** SUBN Vx, Vy: `VF = vy > vx; vx = vy - vx`. */
  function SubReversed(c: Context): Context {
    var vy: int := c.V[c.Y()];
    var c1 := SetV(c, VF, if vy > c.V[c.X()] then 1 else 0);
    SetV(c1, c1.X(), (vy - c1.V[c1.X()] as int) % 0x100)
  }

  /** SHL Vx: `VF = (vx >> 7) & 1; vx <<= 1`. */
  function ShiftLeft(c: Context): Context {
    var c1 := SetV(c, VF, c.V[c.X()] / 0x80);
    SetV(c1, c1.X(), (c1.V[c1.X()] as int * 2) % 0x100)
  }

  /** SNE Vx, Vy */
  function SkipIfNotEqualReg(c: Context): Context {
    SkipIf(c, c.V[c.X()] != c.V[c.Y()])
  }

  /** LD I, nnn */
  function LoadIndex(c: Context): Context {
    c.(I := c.NNN())
  }

  /** JP V0, nnn: the sum is at most 0xFFF + 0xFF, so it never wraps. */
  function JumpOffset(c: Context): Context {
    c.(PC := c.NNN() as int + c.V[0])
  }

  /** RND Vx, kk with the random byte drawn by the caller. */
  function Random(c: Context, rnd: byte): Context {
    SetV(c, c.X(), BitAnd(rnd, c.KK()))
  }

  /** The sprite DRW draws: n rows of 8 pixels, or the 16x16 sprite when n
      is 0 in extended mode. */
  function SpriteOf(c: Context): Sprite {
    if c.N() != 0 then Sprite(c.V[c.X()], c.V[c.Y()], c.N(), false, c.I)
    else Sprite(c.V[c.X()], c.V[c.Y()], 16, true, c.I)
  }

  /** DRW Vx, Vy, n: VF is cleared, then the sprite is XORed onto the
      display and VF is set on a collision. With n = 0 outside extended
      mode nothing is drawn. A sprite reaching past memory is a fault. */
  function DrawSprite(c: Context): Result<Context> {
    var c0 := SetV(c, VF, 0);
    var s := SpriteOf(c);
    if c.N() == 0 && !c.Display.ExtendedMode then Success(c0)
    else if !Fits(s) then Failure(MemoryOutOfRange)
    else
      var b := Draw(c.Display, c.Memory, s);
      Success(c0.(V := c0.V[VF := if b.collided then 1 else 0],
                  Display := c.Display.(PixelBuffer := b.pixels),
                  DisplayChanged := true))
  }

  /** SKP Vx: a key index of 16 or more reads past the keyboard array. */
  function SkipIfKey(c: Context): Result<Context> {
    var k := c.V[c.X()];
    if k >= KeyboardKeyCount then Failure(KeyOutOfRange)
    else Success(SkipIf(c, c.Keyboard[k]))
  }

  /** SKNP Vx */
  function SkipIfNotKey(c: Context): Result<Context> {
    var k := c.V[c.X()];
    if k >= KeyboardKeyCount then Failure(KeyOutOfRange)
    else Success(SkipIf(c, !c.Keyboard[k]))
  }

  /** LD Vx, DT */
  function ReadDelay(c: Context): Context {
    SetV(c, c.X(), c.DT)
  }

  /** The lowest pressed key at or after `from`. */
  function FirstPressed(keys: KeyboardState, from: nat): (r: Option<nat>)
    requires from <= KeyboardKeyCount
    ensures r.Some? ==>
              && from <= r.value < KeyboardKeyCount && keys[r.value]
              && forall k :: from <= k < r.value ==> !keys[k]
    ensures r.None? ==> forall k :: from <= k < KeyboardKeyCount ==> !keys[k]
    decreases KeyboardKeyCount - from
  {
    if from == KeyboardKeyCount then None
    else if keys[from] then Some(from)
    else FirstPressed(keys, from + 1)
  }

  /** LD Vx, K: the lowest pressed key goes to Vx; with no key pressed PC
      steps back so the instruction runs again. */
  function WaitKey(c: Context): Context {
    match FirstPressed(c.Keyboard, 0)
    case Some(k) => SetV(c, c.X(), k)
    case None => c.(PC := PrevPC(c.PC))
  }

  /** LD DT, Vx */
  function SetDelay(c: Context): Context {
    c.(DT := c.V[c.X()])
  }

  /** LD ST, Vx */
  function SetSound(c: Context): Context {
    c.(ST := c.V[c.X()])
  }

  /** ADD I, Vx: `VF = vx + I > 255; I += vx` with vx read first. */
  function AddIndex(c: Context): Context {
    var vx: int := c.V[c.X()];
    var c1 := SetV(c, VF, if vx + c.I > 0xFF then 1 else 0);
    c1.(I := (c1.I as int + vx) % 0x1_0000)
  }

  /** LD F, Vx: `Expects(digit < 16)`, then I is the small glyph's address. */
  function LoadGlyph(c: Context): Result<Context> {
    var d := c.V[c.X()];
    if d >= FontsetCharCount then Failure(FontDigitOutOfRange)
    else Success(c.(I := FontsetAddress + FontsetCharByteSize * d))
  }

  /** LD B, Vx: hundreds, tens and ones of Vx at I, I+1 and I+2. */
  function StoreBcd(c: Context): Result<Context> {
    var vx := c.V[c.X()];
    if c.I + 2 >= MemorySize then Failure(MemoryOutOfRange)
    else Success(c.(Memory := c.Memory[c.I := (vx / 100) % 10]
                                      [c.I + 1 := (vx / 10) % 10]
                                      [c.I + 2 := vx % 10]))
  }

  /** LD [I], Vx: V0..Vx to memory from I on; I is left unchanged. */
  function StoreRegisters(c: Context): Result<Context> {
    var n := c.X() + 1;
    if c.I + n > MemorySize then Failure(MemoryOutOfRange)
    else Success(c.(Memory := c.Memory[..c.I] + c.V[..n] + c.Memory[c.I + n..]))
  }

  /** LD Vx, [I]: memory from I on to V0..Vx; I is left unchanged. */
  function LoadRegisters(c: Context): Result<Context> {
    var n := c.X() + 1;
    if c.I + n > MemorySize then Failure(MemoryOutOfRange)
    else Success(c.(V := c.Memory[c.I..c.I + n] + c.V[n..]))
  }

  // --------------------------------------------------------- Super-CHIP set

  /** SCD n: row y takes row y + n (the picture moves up by n rows). */
  function ScrollDown(c: Context): Context {
    c.(Display := c.Display.(PixelBuffer := Shifted(c.Display, 0, c.N())), DisplayChanged := true)
  }

  /** SCR: column x takes column x + 4 (the picture moves left). */
  function ScrollRight(c: Context): Context {
    c.(Display := c.Display.(PixelBuffer := Shifted(c.Display, 4, 0)), DisplayChanged := true)
  }

  /** SCL: column x takes column x - 4 (the picture moves right). */
  function ScrollLeft(c: Context): Context {
    c.(Display := c.Display.(PixelBuffer := Shifted(c.Display, -4, 0)), DisplayChanged := true)
  }

  /** EXIT */
  function Halt(c: Context): Context {
    c.(Exited := true)
  }

  /** LOW: leave extended mode, flagging the display only on a change. */
  function LowRes(c: Context): Context {
    if c.Display.ExtendedMode then c.(Display := c.Display.(ExtendedMode := false), DisplayChanged := true)
    else c
  }

  /** HIGH: enter extended mode, flagging the display only on a change. */
  function HighRes(c: Context): Context {
    if !c.Display.ExtendedMode then c.(Display := c.Display.(ExtendedMode := true), DisplayChanged := true)
    else c
  }

  /** LD HF, Vx: `Expects(digit < 16)`, then I is the large glyph's address. */
  function LoadLargeGlyph(c: Context): Result<Context> {
    var d := c.V[c.X()];
    if d >= SchipFontsetCharCount then Failure(FontDigitOutOfRange)
    else Success(c.(I := SchipFontsetAddress + SchipFontsetCharByteSize * d))
  }

  /** LD R, Vx: `Expects(x < 8)`, then V0..Vx to R0..Rx. */
  function SaveFlags(c: Context): Result<Context> {
    var n := c.X() + 1;
    if c.X() >= NumberOfRPLFlags then Failure(RplIndexOutOfRange)
    else Success(c.(R := c.V[..n] + c.R[n..]))
  }

  /** LD Vx, R: `Expects(x < 8)`, then R0..Rx to V0..Vx. */
  function RestoreFlags(c: Context): Result<Context> {
    var n := c.X() + 1;
    if c.X() >= NumberOfRPLFlags then Failure(RplIndexOutOfRange)
    else Success(c.(V := c.R[..n] + c.V[n..]))
  }

  // -------------------------------------------------------------- dispatch

  /** Runs the handler of a table entry; `rnd` is the byte RND draws. */
  function Execute(op: Instructions.Op, c: Context, rnd: byte): Result<Context> {
    match op
    case Cls => Success(ClearScreen(c))
    case Ret => ReturnFromCall(c)
    case JpAddr => Success(JumpTo(c))
    case CallAddr => CallSubroutine(c)
    case SeVxByte => Success(SkipIfEqualByte(c))
    case SneVxByte => Success(SkipIfNotEqualByte(c))
    case SeVxVy => Success(SkipIfEqualReg(c))
    case LdVxByte => Success(LoadByte(c))
    case AddVxByte => Success(AddByte(c))
    case LdVxVy => Success(CopyReg(c))
    case OrVxVy => Success(OrReg(c))
    case AndVxVy => Success(AndReg(c))
    case XorVxVy => Success(XorReg(c))
    case AddVxVy => Success(AddReg(c))
    case SubVxVy => Success(SubReg(c))
    case ShrVx => Success(ShiftRight(c))
    case SubnVxVy => Success(SubReversed(c))
    case ShlVx => Success(ShiftLeft(c))
    case SneVxVy => Success(SkipIfNotEqualReg(c))
    case LdIAddr => Success(LoadIndex(c))
    case JpV0Addr => Success(JumpOffset(c))
    case RndVxByte => Success(Random(c, rnd))
    case DrwVxVyN => DrawSprite(c)
    case SkpVx => SkipIfKey(c)
    case SknpVx => SkipIfNotKey(c)
    case LdVxDt => Success(ReadDelay(c))
    case LdVxKey => Success(WaitKey(c))
    case LdDtVx => Success(SetDelay(c))
    case LdStVx => Success(SetSound(c))
    case AddIVx => Success(AddIndex(c))
    case LdFVx => LoadGlyph(c)
    case LdBVx => StoreBcd(c)
    case LdMemVx => StoreRegisters(c)
    case LdVxMem => LoadRegisters(c)
    case ScdN => Success(ScrollDown(c))
    case Scr => Success(ScrollRight(c))
    case Scl => Success(ScrollLeft(c))
    case Exit => Success(Halt(c))
    case Low => Success(LowRes(c))
    case High => Success(HighRes(c))
    case LdHfVx => LoadLargeGlyph(c)
    case LdRVx => SaveFlags(c)
    case LdVxR => RestoreFlags(c)
  }
}
