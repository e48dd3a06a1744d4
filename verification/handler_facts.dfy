/** What the instruction handlers guarantee: flag arithmetic including the
    VF aliasing cases, stack discipline, sprite collision, key wait, BCD,
    register/memory and register/RPL copies, glyph addresses, scrolls and
    mode switches. */
module HandlerFacts {
  import opened Constants
  import opened Context
  import opened Screen
  import opened Faults
  import opened Handlers
  import opened Bits
  import Instructions

  // ------------------------------------------------------------ arithmetic

  /** ADD Vx, Vy for X other than F: Vx is the sum mod 256 and VF the carry,
      so together they hold the full 9-bit sum; other registers keep their
      values. */
  lemma AddRegCarry(c: Context)
    requires c.X() != VF
    ensures AddReg(c).V[c.X()] == (c.V[c.X()] as int + c.V[c.Y()]) % 0x100
    ensures AddReg(c).V[VF] == if c.V[c.X()] as int + c.V[c.Y()] > 0xFF then 1 else 0
    ensures AddReg(c).V[c.X()] as int + 0x100 * (AddReg(c).V[VF] as int) == c.V[c.X()] as int + c.V[c.Y()]
    ensures forall k :: 0 <= k < NumberOfRegisters && k != c.X() && k != VF ==> AddReg(c).V[k] == c.V[k]
    ensures AddReg(c).(V := c.V) == c
  {
  }

  /** ADD VF, Vy: the flag is written first, so VF ends as carry + Vy. */
  lemma AddRegIntoFlag(c: Context)
    requires c.X() == VF
    ensures AddReg(c).V[VF]
         == ((if c.V[VF] as int + c.V[c.Y()] > 0xFF then 1 else 0) + c.V[c.Y()] as int) % 0x100
  {
  }

  /** The three ADD examples of the handler's tests: without carry, with
      carry, and with a sum of exactly 0x100. Vy is never changed. */
  lemma AddRegExamples(c: Context)
    requires c.IR == 0x8124
    ensures c.V[1] == 0x10 && c.V[2] == 0x20 ==> AddReg(c).V[1] == 0x30 && AddReg(c).V[VF] == 0
    ensures AddReg(c).V[2] == c.V[2]
    ensures c.V[1] == 0xA0 && c.V[2] == 0xB0 ==> AddReg(c).V[1] == 0x50 && AddReg(c).V[VF] == 1
    ensures c.V[1] == 0x10 && c.V[2] == 0xF0 ==> AddReg(c).V[1] == 0 && AddReg(c).V[VF] == 1
  {
  }

  /** SUB Vx, Vy for X other than F: Vx wraps mod 256 and VF is 1 exactly
      when Vx was strictly greater, so equal operands give 0 with VF = 0. */
  lemma SubRegBorrow(c: Context)
    requires c.X() != VF
    ensures SubReg(c).V[c.X()] == (c.V[c.X()] as int - c.V[c.Y()]) % 0x100
    ensures SubReg(c).V[VF] == 1 <==> c.V[c.X()] > c.V[c.Y()]
    ensures SubReg(c).V[VF] == 0 <==> c.V[c.X()] <= c.V[c.Y()]
    ensures c.V[c.X()] == c.V[c.Y()] ==> SubReg(c).V[c.X()] == 0 && SubReg(c).V[VF] == 0
    ensures SubReg(c).(V := c.V) == c
  {
  }

  /** SUBN Vx, Vy for X other than F: Vx = Vy - Vx mod 256 and VF is 1
      exactly when Vy was strictly greater. */
  lemma SubReversedBorrow(c: Context)
    requires c.X() != VF
    ensures SubReversed(c).V[c.X()] == (c.V[c.Y()] as int - c.V[c.X()]) % 0x100
    ensures SubReversed(c).V[VF] == 1 <==> c.V[c.Y()] > c.V[c.X()]
    ensures SubReversed(c).V[VF] == 0 <==> c.V[c.Y()] <= c.V[c.X()]
    ensures c.V[c.X()] == c.V[c.Y()] ==> SubReversed(c).V[c.X()] == 0 && SubReversed(c).V[VF] == 0
  {
  }

  /** SUB VF, Vy and SUBN VF, Vy operate on the flag just written. */
  lemma SubIntoFlag(c: Context)
    requires c.X() == VF
    ensures SubReg(c).V[VF] == ((if c.V[VF] > c.V[c.Y()] then 1 else 0) - c.V[c.Y()] as int) % 0x100
    ensures SubReversed(c).V[VF] == (c.V[c.Y()] as int - (if c.V[c.Y()] > c.V[VF] then 1 else 0)) % 0x100
  {
  }

  /** SUB undoes ADD on the same registers when neither is VF. */
  lemma AddThenSubRestores(c: Context)
    requires c.X() != VF && c.Y() != VF && c.X() != c.Y()
    ensures SubReg(AddReg(c)).V[c.X()] == c.V[c.X()]
  {
  }

  /** SHR and SHL for X other than F lose no bit: VF receives the bit
      shifted out, and shifting left then right keeps the low seven bits. */
  lemma ShiftsKeepBits(c: Context)
    requires c.X() != VF
    ensures 2 * ShiftRight(c).V[c.X()] + ShiftRight(c).V[VF] == c.V[c.X()]
    ensures ShiftRight(c).V[VF] <= 1
    ensures ShiftLeft(c).V[c.X()] as int + 0x100 * (ShiftLeft(c).V[VF] as int) == 2 * c.V[c.X()] as int
    ensures ShiftLeft(c).V[VF] <= 1
    ensures ShiftRight(ShiftLeft(c)).V[c.X()] == c.V[c.X()] % 0x80
  {
  }

  /** SHR VF ends with VF = 0, SHL VF with VF = 0 or 2: the shift applies to
      the flag already written. */
  lemma ShiftIntoFlag(c: Context)
    requires c.X() == VF
    ensures ShiftRight(c).V[VF] == 0
    ensures ShiftLeft(c).V[VF] == 2 * (c.V[VF] / 0x80)
  {
  }

  /** XOR with the same register twice restores Vx; OR and AND of a register
      with itself change nothing, XOR with itself clears it. */
  lemma BitwiseLaws(c: Context)
    ensures c.X() != c.Y() ==> XorReg(XorReg(c)) == c
    ensures c.X() == c.Y() ==> OrReg(c) == c && AndReg(c) == c && XorReg(c).V[c.X()] == 0
  {
    ByteWidth();
    XorCancels(c.V[c.X()], c.V[c.Y()], 8);
    SelfOperands(c.V[c.X()], 8);
  }

  /** RND keeps only the bits of kk, and every byte within kk can come out. */
  lemma RandomMasked(c: Context, rnd: byte)
    ensures BitAnd(Random(c, rnd).V[c.X()], c.KK()) == Random(c, rnd).V[c.X()]
    ensures Random(c, rnd).V[c.X()] <= c.KK()
    ensures BitAnd(rnd, c.KK()) == rnd ==> Random(c, rnd).V[c.X()] == rnd
  {
    ByteWidth();
    AndIdempotent(rnd, c.KK(), 8);
  }

  /** ADD I, Vx: I wraps at 16 bits and VF is set when Vx + I exceeds 255
      (an 8-bit carry test on a 16-bit sum); Vx is read before VF is
      written, so ADD I, VF adds the old flag. */
  lemma AddIndexFlag(c: Context)
    ensures AddIndex(c).I == (c.I + c.V[c.X()]) % 0x1_0000
    ensures AddIndex(c).V[VF] == if c.V[c.X()] + c.I > 0xFF then 1 else 0
    ensures c.I + c.V[c.X()] < 0x1_0000 ==> AddIndex(c).I == c.I + c.V[c.X()]
  {
  }

  /** Frames of the register-to-register handlers: SUB, SUBN, SHR and SHL
      write only Vx and VF; OR, AND, XOR and RND write only Vx. Nothing
      outside the registers changes. */
  lemma RegisterFrames(c: Context, rnd: byte)
    ensures && SubReg(c).(V := c.V) == c && SubReversed(c).(V := c.V) == c
            && ShiftRight(c).(V := c.V) == c && ShiftLeft(c).(V := c.V) == c
    ensures && OrReg(c).(V := c.V) == c && AndReg(c).(V := c.V) == c
            && XorReg(c).(V := c.V) == c && Random(c, rnd).(V := c.V) == c
    ensures forall k :: 0 <= k < NumberOfRegisters && k != c.X() && k != VF ==>
              && SubReg(c).V[k] == c.V[k] && SubReversed(c).V[k] == c.V[k]
              && ShiftRight(c).V[k] == c.V[k] && ShiftLeft(c).V[k] == c.V[k]
    ensures forall k :: 0 <= k < NumberOfRegisters && k != c.X() ==>
              && OrReg(c).V[k] == c.V[k] && AndReg(c).V[k] == c.V[k]
              && XorReg(c).V[k] == c.V[k] && Random(c, rnd).V[k] == c.V[k]
  {
  }

  // ------------------------------------------------------- control flow

  /** CALL fails exactly on a full stack; RET fails exactly when the stack
      pointer is 0 or past the stack. */
  lemma StackFaults(c: Context)
    ensures CallSubroutine(c).Failure? <==> c.SP >= StackSize
    ensures ReturnFromCall(c).Failure? <==> c.SP == 0 || c.SP > StackSize
  {
  }

  /** CALL pushes the return address and jumps; a RET right after it comes
      back to that address with the stack pointer restored. */
  lemma CallThenReturn(c: Context)
    requires c.SP < StackSize
    ensures CallSubroutine(c).Success?
    ensures CallSubroutine(c).value.PC == c.NNN()
    ensures CallSubroutine(c).value.SP == c.SP + 1
    ensures CallSubroutine(c).value.Stack[c.SP] == c.PC
    ensures ReturnFromCall(CallSubroutine(c).value)
         == Success(c.(Stack := c.Stack[c.SP := c.PC]))
  {
  }

  /** The RET test: a two-deep stack unwinds in reverse order and a third
      RET fails. */
  lemma ReturnExample(c: Context)
    requires c.SP == 2 && c.Stack[0] == 0x1111 && c.Stack[1] == 0x2222
    ensures ReturnFromCall(c).Success? && ReturnFromCall(c).value.PC == 0x2222
    ensures ReturnFromCall(ReturnFromCall(c).value).Success?
    ensures ReturnFromCall(ReturnFromCall(c).value).value.PC == 0x1111
    ensures ReturnFromCall(ReturnFromCall(c).value).value.SP == 0
    ensures ReturnFromCall(ReturnFromCall(ReturnFromCall(c).value).value).Failure?
  {
  }

  /** RET on any state whose stack pointer is within bounds pops: SP drops
      by one, PC takes the entry below it, and nothing else changes. */
  lemma ReturnPops(c: Context)
    requires 0 < c.SP <= StackSize
    ensures ReturnFromCall(c).Success?
    ensures ReturnFromCall(c).value.SP == c.SP - 1
    ensures ReturnFromCall(c).value.PC == c.Stack[c.SP - 1]
    ensures ReturnFromCall(c).value.(SP := c.SP, PC := c.PC) == c
  {
  }

  /** Skips, JP V0, nnn, and the glyph loads change only PC or only I:
      every other field, registers included, is kept. */
  lemma PointerFrames(c: Context)
    ensures && SkipIfEqualByte(c).(PC := c.PC) == c && SkipIfNotEqualByte(c).(PC := c.PC) == c
            && SkipIfEqualReg(c).(PC := c.PC) == c && SkipIfNotEqualReg(c).(PC := c.PC) == c
    ensures SkipIfKey(c).Success? ==> SkipIfKey(c).value.(PC := c.PC) == c
    ensures SkipIfNotKey(c).Success? ==> SkipIfNotKey(c).value.(PC := c.PC) == c
    ensures JumpOffset(c).(PC := c.PC) == c
    ensures LoadGlyph(c).Success? ==> LoadGlyph(c).value.(I := c.I) == c
    ensures LoadLargeGlyph(c).Success? ==> LoadLargeGlyph(c).value.(I := c.I) == c
  {
  }

  /** ADD I, Vx changes only I and VF. */
  lemma AddIndexFrame(c: Context)
    ensures AddIndex(c).(I := c.I, V := c.V) == c
    ensures forall k :: 0 <= k < NumberOfRegisters && k != VF ==> AddIndex(c).V[k] == c.V[k]
  {
  }

  /** PC steps of 2 are undone by stepping back, also across the 16-bit
      wrap. */
  lemma StepBackUndoesStep(pc: word)
    ensures PrevPC(NextPC(pc)) == pc
    ensures NextPC(PrevPC(pc)) == pc
  {
  }

  /** Each SE/SNE pair is complementary: exactly one of them skips. */
  lemma SkipPairsComplement(c: Context)
    ensures (SkipIfEqualByte(c).PC == c.PC) != (SkipIfNotEqualByte(c).PC == c.PC)
    ensures (SkipIfEqualReg(c).PC == c.PC) != (SkipIfNotEqualReg(c).PC == c.PC)
    ensures SkipIfEqualByte(c).PC == NextPC(c.PC) <==> c.V[c.X()] == c.KK()
    ensures SkipIfEqualReg(c).PC == NextPC(c.PC) <==> c.V[c.X()] == c.V[c.Y()]
  {
  }

  /** SKP and SKNP fail on a key index of 16 or more and otherwise exactly
      one of them skips. */
  lemma KeySkipsComplement(c: Context)
    ensures SkipIfKey(c).Failure? <==> c.V[c.X()] >= KeyboardKeyCount
    ensures SkipIfNotKey(c).Failure? <==> c.V[c.X()] >= KeyboardKeyCount
    ensures c.V[c.X()] < KeyboardKeyCount ==>
              && (SkipIfKey(c).value.PC == c.PC) != (SkipIfNotKey(c).value.PC == c.PC)
              && (SkipIfKey(c).value.PC == NextPC(c.PC) <==> c.Keyboard[c.V[c.X()]])
  {
  }

  /** JP V0, nnn never leaves 16 bits: the target is nnn + V0 exactly. */
  lemma JumpOffsetNoWrap(c: Context)
    ensures JumpOffset(c).PC == c.NNN() + c.V[0] <= 0xFFF + 0xFF
  {
  }

  /** LD Vx, K: with a key held Vx becomes the lowest held key and PC stays;
      with none held only PC moves back by 2. */
  lemma WaitKeyOutcome(c: Context)
    ensures (exists k :: 0 <= k < KeyboardKeyCount && c.Keyboard[k]) ==>
              && WaitKey(c).PC == c.PC
              && c.Keyboard[WaitKey(c).V[c.X()]]
              && (forall k :: 0 <= k < WaitKey(c).V[c.X()] ==> !c.Keyboard[k])
              && WaitKey(c).(V := c.V) == c
    ensures (forall k :: 0 <= k < KeyboardKeyCount ==> !c.Keyboard[k]) ==>
              WaitKey(c) == c.(PC := PrevPC(c.PC))
  {
    if exists k :: 0 <= k < KeyboardKeyCount && c.Keyboard[k] {
      var k :| 0 <= k < KeyboardKeyCount && c.Keyboard[k];
      assert FirstPressed(c.Keyboard, 0).Some?;
    }
  }

  // -------------------------------------------------------- plain loads

  /** LD Vx, kk, ADD Vx, kk, LD Vx, Vy and LD Vx, DT write Vx alone: it
      takes kk, Vx + kk mod 256, Vy and DT respectively. ADD Vx, kk has no
      carry, so every other register, VF included, keeps its value, and no
      other field changes. */
  lemma RegisterLoads(c: Context)
    ensures LoadByte(c).V[c.X()] == c.KK()
    ensures AddByte(c).V[c.X()] == (c.V[c.X()] as int + c.KK()) % 0x100
    ensures CopyReg(c).V[c.X()] == c.V[c.Y()]
    ensures ReadDelay(c).V[c.X()] == c.DT
    ensures forall k :: 0 <= k < NumberOfRegisters && k != c.X() ==>
              && LoadByte(c).V[k] == c.V[k] && AddByte(c).V[k] == c.V[k]
              && CopyReg(c).V[k] == c.V[k] && ReadDelay(c).V[k] == c.V[k]
    ensures && LoadByte(c).(V := c.V) == c && AddByte(c).(V := c.V) == c
            && CopyReg(c).(V := c.V) == c && ReadDelay(c).(V := c.V) == c
  {
  }

  /** JP nnn and LD I, nnn load the 12-bit address of the opcode, which lies
      inside memory, into PC and I; LD DT, Vx and LD ST, Vx load Vx into a
      timer; EXIT sets Exited. Each changes that one field and nothing else. */
  lemma SingleFieldWrites(c: Context)
    ensures JumpTo(c).PC == c.IR % 0x1000 < MemorySize && JumpTo(c).(PC := c.PC) == c
    ensures LoadIndex(c).I == c.IR % 0x1000 < MemorySize && LoadIndex(c).(I := c.I) == c
    ensures SetDelay(c).DT == c.V[c.X()] && SetDelay(c).(DT := c.DT) == c
    ensures SetSound(c).ST == c.V[c.X()] && SetSound(c).(ST := c.ST) == c
    ensures Halt(c).Exited && Halt(c).(Exited := c.Exited) == c
  {
  }

  // -------------------------------------------------------------- memory

  /** LD B, Vx stores three decimal digits that spell Vx and touches no
      other byte; it fails when I + 2 is past memory. */
  lemma BcdDigits(c: Context)
    ensures StoreBcd(c).Failure? <==> c.I + 2 >= MemorySize
    ensures StoreBcd(c).Success? ==>
              var m := StoreBcd(c).value.Memory;
              && m[c.I] < 10 && m[c.I + 1] < 10 && m[c.I + 2] < 10
              && 100 * m[c.I] + 10 * m[c.I + 1] + m[c.I + 2] == c.V[c.X()]
              && (forall a :: 0 <= a < MemorySize && (a < c.I || a > c.I + 2) ==> m[a] == c.Memory[a])
              && StoreBcd(c).value.(Memory := c.Memory) == c
  {
  }

  /** LD [I], Vx writes V0..Vx to I..I+x and nothing else. */
  lemma StoreRegistersCopies(c: Context)
    ensures StoreRegisters(c).Failure? <==> c.I + c.X() >= MemorySize
    ensures StoreRegisters(c).Success? ==>
              && (forall k :: 0 <= k <= c.X() ==> StoreRegisters(c).value.Memory[c.I + k] == c.V[k])
              && (forall a :: 0 <= a < MemorySize && (a < c.I || a > c.I + c.X()) ==>
                    StoreRegisters(c).value.Memory[a] == c.Memory[a])
              && StoreRegisters(c).value.(Memory := c.Memory) == c
  {
  }

  /** LD Vx, [I] reads I..I+x into V0..Vx and nothing else. */
  lemma LoadRegistersCopies(c: Context)
    ensures LoadRegisters(c).Failure? <==> c.I + c.X() >= MemorySize
    ensures LoadRegisters(c).Success? ==>
              && (forall k :: 0 <= k <= c.X() ==> LoadRegisters(c).value.V[k] == c.Memory[c.I + k])
              && (forall k :: c.X() < k < NumberOfRegisters ==> LoadRegisters(c).value.V[k] == c.V[k])
              && LoadRegisters(c).value.(V := c.V) == c
  {
  }

  /** Loading what was just stored leaves the registers as they were. */
  lemma StoreThenLoadRegisters(c: Context)
    requires StoreRegisters(c).Success?
    ensures LoadRegisters(StoreRegisters(c).value) == StoreRegisters(c)
  {
    var s := StoreRegisters(c).value;
    var n := c.X() + 1;
    assert s.Memory[c.I..c.I + n] == c.V[..n];
    assert c.V[..n] + c.V[n..] == c.V;
  }

  /** LD R, Vx and LD Vx, R copy exactly indices 0..x and fail when x >= 8. */
  lemma FlagCopies(c: Context)
    ensures SaveFlags(c).Failure? <==> c.X() >= NumberOfRPLFlags
    ensures RestoreFlags(c).Failure? <==> c.X() >= NumberOfRPLFlags
    ensures SaveFlags(c).Success? ==>
              && (forall k :: 0 <= k <= c.X() ==> SaveFlags(c).value.R[k] == c.V[k])
              && (forall k :: c.X() < k < NumberOfRPLFlags ==> SaveFlags(c).value.R[k] == c.R[k])
              && SaveFlags(c).value.(R := c.R) == c
    ensures RestoreFlags(c).Success? ==>
              && (forall k :: 0 <= k <= c.X() ==> RestoreFlags(c).value.V[k] == c.R[k])
              && (forall k :: c.X() < k < NumberOfRegisters ==> RestoreFlags(c).value.V[k] == c.V[k])
              && RestoreFlags(c).value.(V := c.V) == c
  {
  }

  /** Restoring the flags just saved leaves the registers as they were. */
  lemma SaveThenRestoreFlags(c: Context)
    requires SaveFlags(c).Success?
    ensures RestoreFlags(SaveFlags(c).value) == SaveFlags(c)
  {
    var s := SaveFlags(c).value;
    var n := c.X() + 1;
    assert s.R[..n] == c.V[..n];
    assert c.V[..n] + c.V[n..] == c.V;
  }

  /** LD F, Vx points I at the glyph of the digit: while memory still holds
      the image Reset put there, the five bytes at I are that glyph. */
  lemma GlyphAddress(c: Context)
    ensures LoadGlyph(c).Failure? <==> c.V[c.X()] >= FontsetCharCount
    ensures LoadGlyph(c).Success? ==>
              && LoadGlyph(c).value.I == FontsetCharByteSize * c.V[c.X()]
              && LoadGlyph(c).value.I + FontsetCharByteSize <= FontsetTotalByteSize
    ensures LoadGlyph(c).Success? && c.Memory == ResetMemory() ==>
              var i := LoadGlyph(c).value.I;
              c.Memory[i..i + FontsetCharByteSize] == Fontset[i..i + FontsetCharByteSize]
  {
    if LoadGlyph(c).Success? && c.Memory == ResetMemory() {
      var i := LoadGlyph(c).value.I;
      assert c.Memory[..FontsetTotalByteSize] == Fontset;
      assert c.Memory[i..i + FontsetCharByteSize] == c.Memory[..FontsetTotalByteSize][i..i + FontsetCharByteSize];
    }
  }

  /** LD HF, Vx points I at the large glyph's slot right after the small
      glyphs; Reset never copies the large glyphs there, so in a freshly
      reset memory every large-glyph slot holds zeros. */
  lemma LargeGlyphAddress(c: Context)
    ensures LoadLargeGlyph(c).Failure? <==> c.V[c.X()] >= SchipFontsetCharCount
    ensures LoadLargeGlyph(c).Success? ==>
              && LoadLargeGlyph(c).value.I == SchipFontsetAddress + SchipFontsetCharByteSize * c.V[c.X()]
              && SchipFontsetAddress <= LoadLargeGlyph(c).value.I
              && LoadLargeGlyph(c).value.I + SchipFontsetCharByteSize <= SchipFontsetAddress + SchipFontsetTotalByteSize
    ensures forall a :: SchipFontsetAddress <= a < SchipFontsetAddress + SchipFontsetTotalByteSize ==>
              ResetMemory()[a] == 0
  {
  }

  // ------------------------------------------------------------- display

  /** DRW faults exactly when a sprite it has to draw reaches past memory. */
  lemma DrawSpriteFaults(c: Context)
    ensures DrawSprite(c).Failure? <==>
              (c.N() != 0 || c.Display.ExtendedMode) && !Fits(SpriteOf(c))
  {
  }

  /** DRW with n = 0 outside extended mode only clears VF: no pixel and no
      dirty flag changes. */
  lemma DrawNothingInLowRes(c: Context)
    requires c.N() == 0 && !c.Display.ExtendedMode
    ensures DrawSprite(c) == Success(c.(V := c.V[VF := 0]))
  {
  }

  /** DRW sets VF to 1 exactly when a set sprite bit lands on a lit pixel,
      toggles exactly the covered pixels (Target wraps the coordinates at
      the current Width and Height) and marks the display changed. */
  lemma DrawSpriteEffect(c: Context)
    requires DrawSprite(c).Success? && (c.N() != 0 || c.Display.ExtendedMode)
    ensures DrawSprite(c).value.V[VF] == 1
        <==> exists row: nat, col: nat :: HitsLit(c.Display, c.Memory, SpriteOf(c), c.Display.PixelBuffer, row, col)
    ensures DrawSprite(c).value.V[VF] == 0
        <==> !exists row: nat, col: nat :: HitsLit(c.Display, c.Memory, SpriteOf(c), c.Display.PixelBuffer, row, col)
    ensures DrawSprite(c).value.DisplayChanged
    ensures DrawSprite(c).value.Display.ExtendedMode == c.Display.ExtendedMode
    ensures forall row: nat, col: nat :: row < SpriteOf(c).rows && col < Cols(SpriteOf(c)) ==>
              DrawSprite(c).value.Display.PixelBuffer[Target(c.Display, SpriteOf(c), row, col)]
              == XorBit(c.Display.PixelBuffer[Target(c.Display, SpriteOf(c), row, col)], SpriteBit(c.Memory, SpriteOf(c), row, col))
    ensures forall q :: 0 <= q < PixelBufferSize && !Covered(c.Display, SpriteOf(c), q) ==>
              DrawSprite(c).value.Display.PixelBuffer[q] == c.Display.PixelBuffer[q]
  {
    var s := SpriteOf(c);
    var b := Draw(c.Display, c.Memory, s);
    assert DrawSprite(c).value.Display.PixelBuffer == b.pixels;
    assert DrawSprite(c).value.V[VF] == if b.collided then 1 else 0;
    DrawCollision(c.Display, c.Memory, s);
    DrawPixels(c.Display, c.Memory, s);
  }

  /** DRW changes only VF, the display and its flag: memory, I, PC, the
      stack, the timers and every other register are kept. */
  lemma DrawSpriteFrame(c: Context)
    requires DrawSprite(c).Success?
    ensures DrawSprite(c).value.(V := c.V, Display := c.Display, DisplayChanged := c.DisplayChanged) == c
    ensures forall k :: 0 <= k < NumberOfRegisters && k != VF ==> DrawSprite(c).value.V[k] == c.V[k]
  {
  }

  /** Drawing the same sprite twice restores the screen, and the second draw
      reports a collision as soon as the sprite has a set bit over a pixel
      that was dark (the coordinates must not be read from VF). */
  lemma DrawTwice(c: Context, row: nat, col: nat)
    requires c.X() != VF && c.Y() != VF
    requires DrawSprite(c).Success? && (c.N() != 0 || c.Display.ExtendedMode)
    ensures DrawSprite(DrawSprite(c).value).Success?
    ensures DrawSprite(DrawSprite(c).value).value.Display == c.Display
    ensures row < SpriteOf(c).rows && col < Cols(SpriteOf(c))
            && SpriteBit(c.Memory, SpriteOf(c), row, col) != 0
            && c.Display.PixelBuffer[Target(c.Display, SpriteOf(c), row, col)] == 0
            ==> DrawSprite(DrawSprite(c).value).value.V[VF] == 1
  {
    var s := SpriteOf(c);
    var c1 := DrawSprite(c).value;
    assert SpriteOf(c1) == s;
    DrawTwiceRestores(c.Display, c.Memory, s);
    if row < s.rows && col < Cols(s) && SpriteBit(c.Memory, s, row, col) != 0
       && c.Display.PixelBuffer[Target(c.Display, s, row, col)] == 0 {
      DrawTwiceCollides(c.Display, c.Memory, s, row, col);
    }
  }

  /** CLS blanks the whole buffer and keeps the mode. */
  lemma ClearScreenBlank(c: Context)
    ensures forall q :: 0 <= q < PixelBufferSize ==> ClearScreen(c).Display.PixelBuffer[q] == 0
    ensures ClearScreen(c).DisplayChanged
    ensures ClearScreen(c).(Display := c.Display, DisplayChanged := c.DisplayChanged) == c
    ensures ClearScreen(ClearScreen(c)) == ClearScreen(c)
  {
  }

  /** Two SCD n in a row are one SCD 2n; two SCR (SCL) move the picture by
      eight columns. */
  lemma ScrollsCompose(c: Context)
    ensures ScrollDown(ScrollDown(c)).Display.PixelBuffer == Shifted(c.Display, 0, 2 * c.N())
    ensures ScrollRight(ScrollRight(c)).Display.PixelBuffer == Shifted(c.Display, 8, 0)
    ensures ScrollLeft(ScrollLeft(c)).Display.PixelBuffer == Shifted(c.Display, -8, 0)
  {
    ShiftedCompose(c.Display, 0, c.N(), 0, c.N());
    ShiftedCompose(c.Display, 4, 0, 4, 0);
    ShiftedCompose(c.Display, -4, 0, -4, 0);
  }

  /** LOW and HIGH are idempotent, undo each other's mode, and raise the
      dirty flag only when the mode actually changes. */
  lemma ModeSwitches(c: Context)
    ensures LowRes(LowRes(c)) == LowRes(c) && HighRes(HighRes(c)) == HighRes(c)
    ensures !LowRes(c).Display.ExtendedMode && HighRes(c).Display.ExtendedMode
    ensures LowRes(c).DisplayChanged == (c.DisplayChanged || c.Display.ExtendedMode)
    ensures HighRes(c).DisplayChanged == (c.DisplayChanged || !c.Display.ExtendedMode)
    ensures LowRes(HighRes(c)).Display == c.Display.(ExtendedMode := false)
    ensures LowRes(c).Display.PixelBuffer == c.Display.PixelBuffer
  {
  }

  // -------------------------------------------------------------- dispatch

  /** What every handler leaves alone or must report, for one execution
      from c to after. */
  predicate Disciplined(op: Instructions.Op, c: Context, after: Context) {
    && after.IR == c.IR && after.Keyboard == c.Keyboard
    && (op != Instructions.LdRVx ==> after.R == c.R)
    && (op != Instructions.Op.Exit ==> after.Exited == c.Exited)
    && (op == Instructions.Op.Exit ==> after.Exited)
    && (c.DisplayChanged ==> after.DisplayChanged)
    && (after.Display != c.Display ==> after.DisplayChanged)
    && (Instructions.KindOf(op) == Instructions.Other && op != Instructions.LdVxKey ==> after.PC == c.PC)
    && (op == Instructions.LdVxKey ==> after.PC == c.PC || after.PC == PrevPC(c.PC))
  }

  /** Every handler is disciplined; the table is taken a few entries at a
      time. */
  lemma ExecuteDisciplined(op: Instructions.Op, c: Context, rnd: byte)
    requires Execute(op, c, rnd).Success?
    ensures Disciplined(op, c, Execute(op, c, rnd).value)
  {
    if op in {Instructions.Op.Cls, Instructions.Op.Ret, Instructions.Op.JpAddr, Instructions.Op.CallAddr, Instructions.Op.SeVxByte, Instructions.Op.SneVxByte} {
      DisciplinedPart1(op, c, rnd);
    } else if op in {Instructions.Op.SeVxVy, Instructions.Op.LdVxByte, Instructions.Op.AddVxByte, Instructions.Op.LdVxVy, Instructions.Op.OrVxVy, Instructions.Op.AndVxVy} {
      DisciplinedPart2(op, c, rnd);
    } else if op in {Instructions.Op.XorVxVy, Instructions.Op.AddVxVy, Instructions.Op.SubVxVy, Instructions.Op.ShrVx, Instructions.Op.SubnVxVy, Instructions.Op.ShlVx} {
      DisciplinedPart3(op, c, rnd);
    } else if op in {Instructions.Op.SneVxVy, Instructions.Op.LdIAddr, Instructions.Op.JpV0Addr, Instructions.Op.RndVxByte, Instructions.Op.DrwVxVyN, Instructions.Op.SkpVx} {
      DisciplinedPart4(op, c, rnd);
    } else if op in {Instructions.Op.SknpVx, Instructions.Op.LdVxDt, Instructions.Op.LdVxKey, Instructions.Op.LdDtVx, Instructions.Op.LdStVx, Instructions.Op.AddIVx} {
      DisciplinedPart5(op, c, rnd);
    } else if op in {Instructions.Op.LdFVx, Instructions.Op.LdBVx, Instructions.Op.LdMemVx, Instructions.Op.LdVxMem, Instructions.Op.ScdN, Instructions.Op.Scr} {
      DisciplinedPart6(op, c, rnd);
    } else if op in {Instructions.Op.Scl, Instructions.Op.Exit, Instructions.Op.Low, Instructions.Op.High, Instructions.Op.LdHfVx, Instructions.Op.LdRVx} {
      DisciplinedPart7(op, c, rnd);
    } else {
      DisciplinedPart8(op, c, rnd);
    }
  }

  lemma DisciplinedPart1(op: Instructions.Op, c: Context, rnd: byte)
    requires op in {Instructions.Op.Cls, Instructions.Op.Ret, Instructions.Op.JpAddr, Instructions.Op.CallAddr, Instructions.Op.SeVxByte, Instructions.Op.SneVxByte}
    requires Execute(op, c, rnd).Success?
    ensures Disciplined(op, c, Execute(op, c, rnd).value)
  {
  }

  lemma DisciplinedPart2(op: Instructions.Op, c: Context, rnd: byte)
    requires op in {Instructions.Op.SeVxVy, Instructions.Op.LdVxByte, Instructions.Op.AddVxByte, Instructions.Op.LdVxVy, Instructions.Op.OrVxVy, Instructions.Op.AndVxVy}
    requires Execute(op, c, rnd).Success?
    ensures Disciplined(op, c, Execute(op, c, rnd).value)
  {
  }

  lemma DisciplinedPart3(op: Instructions.Op, c: Context, rnd: byte)
    requires op in {Instructions.Op.XorVxVy, Instructions.Op.AddVxVy, Instructions.Op.SubVxVy, Instructions.Op.ShrVx, Instructions.Op.SubnVxVy, Instructions.Op.ShlVx}
    requires Execute(op, c, rnd).Success?
    ensures Disciplined(op, c, Execute(op, c, rnd).value)
  {
  }

  lemma DisciplinedPart4(op: Instructions.Op, c: Context, rnd: byte)
    requires op in {Instructions.Op.SneVxVy, Instructions.Op.LdIAddr, Instructions.Op.JpV0Addr, Instructions.Op.RndVxByte, Instructions.Op.DrwVxVyN, Instructions.Op.SkpVx}
    requires Execute(op, c, rnd).Success?
    ensures Disciplined(op, c, Execute(op, c, rnd).value)
  {
  }

  lemma DisciplinedPart5(op: Instructions.Op, c: Context, rnd: byte)
    requires op in {Instructions.Op.SknpVx, Instructions.Op.LdVxDt, Instructions.Op.LdVxKey, Instructions.Op.LdDtVx, Instructions.Op.LdStVx, Instructions.Op.AddIVx}
    requires Execute(op, c, rnd).Success?
    ensures Disciplined(op, c, Execute(op, c, rnd).value)
  {
  }

  lemma DisciplinedPart6(op: Instructions.Op, c: Context, rnd: byte)
    requires op in {Instructions.Op.LdFVx, Instructions.Op.LdBVx, Instructions.Op.LdMemVx, Instructions.Op.LdVxMem, Instructions.Op.ScdN, Instructions.Op.Scr}
    requires Execute(op, c, rnd).Success?
    ensures Disciplined(op, c, Execute(op, c, rnd).value)
  {
  }

  lemma DisciplinedPart7(op: Instructions.Op, c: Context, rnd: byte)
    requires op in {Instructions.Op.Scl, Instructions.Op.Exit, Instructions.Op.Low, Instructions.Op.High, Instructions.Op.LdHfVx, Instructions.Op.LdRVx}
    requires Execute(op, c, rnd).Success?
    ensures Disciplined(op, c, Execute(op, c, rnd).value)
  {
  }

  lemma DisciplinedPart8(op: Instructions.Op, c: Context, rnd: byte)
    requires op in {Instructions.Op.LdVxR}
    requires Execute(op, c, rnd).Success?
    ensures Disciplined(op, c, Execute(op, c, rnd).value)
  {
  }

  /** No handler changes the opcode register or the keyboard. */
  lemma ExecuteFrame(op: Instructions.Op, c: Context, rnd: byte)
    requires Execute(op, c, rnd).Success?
    ensures Execute(op, c, rnd).value.IR == c.IR
    ensures Execute(op, c, rnd).value.Keyboard == c.Keyboard
  {
    ExecuteDisciplined(op, c, rnd);
  }

  /** Only LD R, Vx changes the RPL flags and only EXIT touches Exited,
      which it sets. */
  lemma ExecuteFlags(op: Instructions.Op, c: Context, rnd: byte)
    requires Execute(op, c, rnd).Success?
    ensures op != Instructions.LdRVx ==> Execute(op, c, rnd).value.R == c.R
    ensures op != Instructions.Op.Exit ==> Execute(op, c, rnd).value.Exited == c.Exited
    ensures op == Instructions.Op.Exit ==> Execute(op, c, rnd).value.Exited
  {
    ExecuteDisciplined(op, c, rnd);
  }

  /** No handler clears the dirty flag, and every handler that changes the
      display (pixels or mode) raises it. */
  lemma ExecuteReportsDisplay(op: Instructions.Op, c: Context, rnd: byte)
    requires Execute(op, c, rnd).Success?
    ensures c.DisplayChanged ==> Execute(op, c, rnd).value.DisplayChanged
    ensures Execute(op, c, rnd).value.Display != c.Display ==> Execute(op, c, rnd).value.DisplayChanged
  {
    ExecuteDisciplined(op, c, rnd);
  }

  /** Instructions that are not jumps, branches, returns or exits leave PC
      where the fetch put it, except LD Vx, K while no key is held. */
  lemma ExecuteKeepsPC(op: Instructions.Op, c: Context, rnd: byte)
    requires Execute(op, c, rnd).Success?
    requires Instructions.KindOf(op) == Instructions.Other
    ensures op != Instructions.LdVxKey ==> Execute(op, c, rnd).value.PC == c.PC
    ensures op == Instructions.LdVxKey ==>
              Execute(op, c, rnd).value.PC == c.PC || Execute(op, c, rnd).value.PC == PrevPC(c.PC)
  {
    ExecuteDisciplined(op, c, rnd);
  }

  /** Only the twelve guarded handlers can fail. */
  lemma ExecuteFailures(op: Instructions.Op, c: Context, rnd: byte)
    requires Execute(op, c, rnd).Failure?
    ensures op in {Instructions.Ret, Instructions.CallAddr, Instructions.DrwVxVyN,
                   Instructions.SkpVx, Instructions.SknpVx, Instructions.LdFVx,
                   Instructions.LdBVx, Instructions.LdMemVx, Instructions.LdVxMem,
                   Instructions.LdHfVx, Instructions.LdRVx, Instructions.LdVxR}
  {
  }
}
