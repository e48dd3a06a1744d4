# CHIP-8 / Super-CHIP interpreter core, modelled in Dafny

This project models the engine in `src/core` of the chip8-interpreter
repository, a CHIP-8 interpreter with the Super-CHIP extensions. It covers:

* **Machine state.** `SContext` (registers V0..VF, I, PC, SP, DT, ST, IR,
  the return stack, 4 KiB of memory, the RPL flags, the display, the
  keyboard, `DisplayChanged`, `Exited`) and its `Reset`.
* **Instruction set.** The 43-entry instruction table (pattern, mask,
  mnemonic, formatter, control-flow kind), first-match decoding, every
  handler, and the disassembly formatters.
* **Engine.** `Step`, `Update`, `DoCycle`, `DoTimerTick`, `Pause` and the
  memory image that `LoadProgram` builds.
* **Save states.** `SaveState` / `LoadState` as a byte encoding.
* **Disassembler.** `CDisassembler`: a recursive walk over the program's
  control flow, followed by a sort by address.

Modules, one concept each:

| module | file | models |
|---|---|---|
| `Faults` | faults.dfy | `Result` / `Option` and the reasons an operation fails |
| `Constants` | constants.dfy | `Constants.h`: sizes, fontsets, clock rates |
| `Bits` | bits.dfy | bitwise OR / AND / XOR on unsigned integers of a given width |
| `Context` | context.dfy | `Context.h` / `Context.cpp`: the state, opcode fields, `Reset` |
| `Screen` | screen.dfy | the pixel buffer: sprite blitting with collision, scrolling |
| `Instructions` | instructions.dfy | the instruction table and decoding |
| `Handlers` | handlers.dfy | the 43 `Handler_*` functions and dispatch |
| `HandlerFacts` | handler_facts.dfy | what each handler guarantees |
| `Formatting` | formatting.dfy | the `ToString_*` disassembly formatters |
| `Interpreter` | interpreter.dfy | `CInterpreter`: cycle, timer tick, step, update, program loading |
| `EngineFacts` | engine_facts.dfy | what cycles, ticks and steps guarantee |
| `SaveState` | savestate.dfy | the save-state byte layout, `SaveState`, `LoadState` |
| `Disassembler` | disassembler.dfy | `CDisassembler::Disassemble` |

## Modelling choices

* **Integers.** Registers and memory cells are `byte` (0..255). I, PC and
  the stack entries are `word` (0..65535). Every C++ wrap-around is written
  out with `%`: `vx += vy`, `vx -= vy`, `vx <<= 1`, `I += vx`, `PC += 2`,
  `PC -= 2`. `JP V0, nnn` cannot overflow 16 bits.
* **Fixed-size arrays.** Each `std::array` is a sequence subset type of
  its exact length.
* **Faults.** A GSL `Expects` throws. Indexing a `std::array` out of range
  is undefined behaviour. Both become a `Failure` that names the bound:
  * `StackOverflow` / `StackUnderflow` for CALL / RET.
  * `FontDigitOutOfRange` for LD F / LD HF.
  * `RplIndexOutOfRange` for LD R / LD Vx,R.
  * `MemoryOutOfRange` for an access at or past address 4096. This covers
    DRW, LD B, LD [I], LD Vx,[I], the fetch, and a program image larger
    than 3584 bytes.
  * `KeyOutOfRange` for SKP / SKNP with Vx ≥ 16.
* **Flag register ordering.** ADD Vx,Vy, SUB, SUBN, SHR and SHL write VF
  first and Vx second, as the C++ does. When X = F the second write reads
  the fresh flag as its Vx operand and overwrites it.

  `AddRegIntoFlag`, `SubIntoFlag` and `ShiftIntoFlag` state these cases.
* **ADD I, Vx flag.** ADD I, Vx sets VF when I + Vx exceeds 255, not 4095,
  exactly as written.
* **Scroll directions.** The scroll handlers move the picture in these
  directions:
  * SCD n reads from row y + n, so the picture moves *up*.
  * SCR reads from column x + 4, so the picture moves *left*.
  * SCL reads from column x − 4, so the picture moves *right*.

  `Screen.Shifted(d, dx, dy)` describes "pixel (x, y) takes the value at
  (x + dx, y + dy), or 0 off screen". The three in-place loops are methods
  proved equal to it.
* **Inputs as parameters.** The random byte of RND, the time `now` (in
  nanoseconds) and the keyboard snapshot are parameters of `Step` and
  `Update`.
* **Platform calls as effects.** The platform calls `UpdateDisplay` and
  `Beep` are returned as a list of `Effect`s.
* **Reset is partial.** `Reset` copies only the small fontset into memory,
  and it leaves `R`, `Display.ExtendedMode` and `Exited` as they were.
  `LoadProgram` inherits both facts, and so does `LoadState` for the
  fields a short file does not reach.
* **Save-state layout.** The layout is the field order of
  `CInterpreter::SaveState`, with 16-bit fields in little-endian byte order
  (12353 bytes). Loading starts from `Reset` and overlays the file bytes on
  the encoding of the reset state. A short file therefore sets a prefix of
  the fields and leaves the rest as reset, which is what `istream::read`
  does. Extra bytes are ignored. Booleans read back as "byte ≠ 0".
* **Instruction kinds.** The kinds follow the way the disassembler uses
  them:
  * Jump: `JP nnn`, `JP V0, nnn`.
  * Branch: CALL, SE, SNE, SKP, SKNP.
  * Return: RET.
  * Exit: EXIT.
  * Other: everything else.
* **Disassembler walk.** The recursive walk is `Explore` / `ExploreEach`
  over `Successors`. Termination rests on the set of not-yet-listed
  in-range addresses, which shrinks with every line added. An address
  whose second byte would lie past memory stops a path. `std::sort` by
  address is modelled by an insertion sort. `SortedUnique` shows that any
  sort yields the same sequence, because the walk never lists an address
  twice.

## Source and model differences

* **Instruction kinds.** `Instructions.h:17-23` declares the enum without a
  `Jump` kind. The table at `Instructions.cpp:518-565` has no kind column.
  `Disassembler.cpp:32-75` switches on `Jump` and tests `inst.Opcode`.
  The kinds here follow the disassembler's usage.
* **Field names.** `Context.cpp:21-22` writes `PixelBuffer` and
  `PixelBufferDirty`. `Context.h` declares `Display.PixelBuffer` and
  `DisplayChanged`. The model uses the header's names.
* **Formatter signatures.** `Instructions.h:15` gives the formatters an
  opcode argument. The definitions in `Instructions.cpp:12-89` take a
  context and read `IR`. The model formats an opcode, which is the same
  thing for the context whose IR is that opcode.
* **Disassembly at the end of memory.** `Disassembler.cpp:25` reads
  `mem[addr]` and `mem[addr + 1]` without a bound check. A `JP FFF`, or a
  skip at 0xFFC or later, makes the walk reach an address whose second byte
  (or both bytes) lie past the 4096-byte array, which is undefined
  behaviour in the C++. Unlike the fetch of a cycle, which fails with
  `MemoryOutOfRange` there, the model's walk ends that path without a line
  (`Disassembler.ExploreStops`). So `Disassembler.Disassemble` fails only
  through the SCD formatter.

## Model

| member | source | states |
|---|---|---|
| Constants.RoundedPeriodMs | src/core/Constants.h:39-44 | the period is 1000/Hz rounded to the nearest millisecond (half up), stated as bounds on the product with Hz |
| Constants.ClockPeriods | src/core/Constants.h:39-44 | the cycle period is 2 ms and the timer period 17 ms, so cycles run more often than ticks |
| Constants.FontsetLayout | src/core/Constants.h:16-63 | the small font takes 80 bytes at 0; the large font takes 160 bytes right after it; both end before the program area |
| Constants.ResolutionsFitBuffer | src/core/Context.h:9-11 | the pixel buffer holds the 128x64 screen exactly, and the 64x32 screen fits in it |
| Bits.Or | src/core/Instructions.cpp:156-159 | OR stays within the width and is at least each operand |
| Bits.And | src/core/Instructions.cpp:161-164 | AND is at most each operand |
| Bits.Xor | src/core/Instructions.cpp:166-169 | XOR stays within the width |
| Bits.XorCancels | src/core/Instructions.cpp:166-169 | XOR-ing the same value twice gives back the original |
| Bits.SelfOperands | src/core/Instructions.cpp:156-169 | a OR a = a, a AND a = a, a XOR a = 0 |
| Bits.AndIdempotent | src/core/Instructions.cpp:227-237 | masking twice with the same mask equals masking once |
| Context.Display.Width | src/core/Context.h:22-26 | the active width is 128 in extended mode and 64 otherwise |
| Context.Display.Height | src/core/Context.h:27-31 | the active height is 64 in extended mode and 32 otherwise |
| Context.PixelIndex | src/core/Instructions.cpp:255-257 | the index x + y*Width of an on-screen pixel lies in the active screen and gives back x and y by mod and div |
| Context.PixelCoordinates | src/core/Instructions.cpp:255-257 | every index of the active screen is the index of exactly the pixel its mod/div name |
| Context.ModShiftInjective | src/core/Instructions.cpp:255-256 | adding the same origin and wrapping modulo a screen dimension does not merge two different offsets |
| Context.OpX | src/core/Context.h:43 | the X field is a register number below 16 |
| Context.OpY | src/core/Context.h:44 | the Y field is a register number below 16 |
| Context.OpNNN | src/core/Context.h:45 | the NNN field is a 12-bit address |
| Context.OpN | src/core/Context.h:47 | the N field is a nibble |
| Context.OpKK | src/core/Context.h:46 | the KK field is the low byte: the opcode is its top byte followed by KK |
| Context.OpFieldsRecompose | src/core/Context.h:43-47 | the top nibble, X, Y and N recompose the opcode; NNN is X followed by KK, and KK is Y followed by N |
| Context.Context.X | src/core/Context.h:71 | X names one of the 16 registers, and the opcode's address field is X followed by its byte field |
| Context.Context.Y | src/core/Context.h:72 | Y names one of the 16 registers, and the opcode's byte field is Y followed by its low nibble |
| Context.Context.NNN | src/core/Context.h:73 | NNN is an address inside memory, and IR is its top hex digit followed by NNN |
| Context.Context.KK | src/core/Context.h:74 | IR is its top byte followed by KK |
| Context.Context.N | src/core/Context.h:75 | N is a nibble, and IR is its top three hex digits followed by N |
| Context.ResetMemory | src/core/Context.cpp:20-25 | reset memory starts with the small fontset and is zero everywhere after it |
| Context.Reset | src/core/Context.cpp:10-26 | all registers, timers, stack, pixels and keys are zero, the font is loaded and the display is marked changed, while R, ExtendedMode and Exited are untouched |
| Context.ResetIdempotent | src/core/Context.cpp:10-26 | resetting twice equals resetting once, and the result depends only on R, ExtendedMode and Exited |
| Context.New | src/core/Context.cpp:5-8 | a new context is already a reset context: PC 0, not exited, low resolution, display marked changed |
| Instructions.FindFrom | src/core/Instructions.h:36-37 | finds the first table entry from a position whose mask and pattern match the opcode, or reports that none matches |
| Instructions.Decode | src/core/Instructions.cpp:518-565 | decoding yields the first matching entry of the table, and fails exactly when no entry matches |
| Instructions.PatternsUnderMasks | src/core/Instructions.cpp:518-565 | every pattern has no bits outside its own mask |
| Instructions.NotShadowed | src/core/Instructions.cpp:518-565 | no entry's pattern is captured by an earlier entry, so every entry is reachable |
| Instructions.DecodeFirstMatch | src/core/Instructions.cpp:518-565 | a matching entry with no earlier match is what decoding returns |
| Instructions.OwnPatternFirst | src/core/Instructions.cpp:518-565 | each entry's own pattern matches it and no earlier entry |
| Instructions.DecodeOwnPattern | src/core/Instructions.cpp:518-565 | decoding an entry's own pattern gives back that entry |
| Instructions.EntryAt | src/core/Instructions.cpp:518-565 | the 43 entries in table order; every entry is reached by decoding its own pattern, stated in Instructions.DecodeOwnPattern |
| Instructions.PatternAt | src/core/Instructions.cpp:518-565 | the pattern column; each pattern lies within its mask, stated in Instructions.PatternsUnderMasks |
| Instructions.MaskAt | src/core/Instructions.cpp:518-565 | the mask column; no earlier mask and pattern capture a later pattern, stated in Instructions.NotShadowed |
| Instructions.Mnemonic | src/core/Instructions.cpp:518-565 | the name column, as printed by the formatters in Formatting.ToStringExamples |
| Instructions.FormatOf | src/core/Instructions.cpp:518-565 | the formatter column; only SCD uses the NAME n formatter, so Formatting.ToString fails only for SCD |
| Instructions.KindOf | src/core/Disassembler.cpp:32-78 | the control-flow kind the disassembler switches on; the successors it gives are stated in Disassembler.SuccessorsByKind |
| Handlers.FirstPressed | src/core/Instructions.cpp:325-332 | the key found is held and no lower key is held; no key is found only when none is held |
| Handlers.ClearScreen | src/core/Instructions.cpp:91-95 | CLS: blanks every pixel and raises DisplayChanged, stated in HandlerFacts.ClearScreenBlank |
| Handlers.ReturnFromCall | src/core/Instructions.cpp:97-102 | RET: fails exactly outside 0 < SP <= 16 and undoes CALL, stated in HandlerFacts.StackFaults and HandlerFacts.CallThenReturn; from any state with 0 < SP <= 16 it pops, stated in HandlerFacts.ReturnPops |
| Handlers.JumpTo | src/core/Instructions.cpp:104-107 | JP nnn: PC becomes the 12-bit address and nothing else changes, stated in HandlerFacts.SingleFieldWrites |
| Handlers.CallSubroutine | src/core/Instructions.cpp:109-115 | CALL nnn: fails exactly when the stack is full, and RET returns to the caller, stated in HandlerFacts.StackFaults and HandlerFacts.CallThenReturn |
| Handlers.SkipIfEqualByte | src/core/Instructions.cpp:117-123 | SE Vx, kk: skips exactly when Vx equals kk, stated in HandlerFacts.SkipPairsComplement; only PC changes, stated in HandlerFacts.PointerFrames |
| Handlers.SkipIfNotEqualByte | src/core/Instructions.cpp:125-131 | SNE Vx, kk: skips exactly when SE Vx, kk does not, stated in HandlerFacts.SkipPairsComplement; only PC changes, stated in HandlerFacts.PointerFrames |
| Handlers.SkipIfEqualReg | src/core/Instructions.cpp:133-139 | SE Vx, Vy: skips exactly when Vx equals Vy, stated in HandlerFacts.SkipPairsComplement; only PC changes, stated in HandlerFacts.PointerFrames |
| Handlers.LoadByte | src/core/Instructions.cpp:141-144 | LD Vx, kk: Vx becomes kk and nothing else changes, stated in HandlerFacts.RegisterLoads |
| Handlers.AddByte | src/core/Instructions.cpp:146-149 | ADD Vx, kk: Vx becomes Vx + kk mod 256 and no carry is written to VF, stated in HandlerFacts.RegisterLoads |
| Handlers.CopyReg | src/core/Instructions.cpp:151-154 | LD Vx, Vy: Vx becomes Vy and nothing else changes, stated in HandlerFacts.RegisterLoads |
| Handlers.OrReg | src/core/Instructions.cpp:156-159 | OR Vx, Vy: the bitwise OR, with its laws in HandlerFacts.BitwiseLaws and Bits.Or; only Vx changes, stated in HandlerFacts.RegisterFrames |
| Handlers.AndReg | src/core/Instructions.cpp:161-164 | AND Vx, Vy: the bitwise AND, with its laws in HandlerFacts.BitwiseLaws and Bits.And; only Vx changes, stated in HandlerFacts.RegisterFrames |
| Handlers.XorReg | src/core/Instructions.cpp:166-169 | XOR Vx, Vy: the bitwise XOR, an involution, stated in HandlerFacts.BitwiseLaws and Bits.XorCancels; only Vx changes, stated in HandlerFacts.RegisterFrames |
| Handlers.AddReg | src/core/Instructions.cpp:171-177 | ADD Vx, Vy: sum mod 256 and carry in VF, including X = F, stated in HandlerFacts.AddRegCarry and HandlerFacts.AddRegIntoFlag |
| Handlers.SubReg | src/core/Instructions.cpp:179-185 | SUB Vx, Vy: difference mod 256 with VF = 1 exactly when Vx > Vy, stated in HandlerFacts.SubRegBorrow and HandlerFacts.SubIntoFlag; only Vx and VF change, stated in HandlerFacts.RegisterFrames |
| Handlers.ShiftRight | src/core/Instructions.cpp:187-192 | SHR Vx: the halved value and the shifted-out bit recompose Vx, stated in HandlerFacts.ShiftsKeepBits and HandlerFacts.ShiftIntoFlag; only Vx and VF change, stated in HandlerFacts.RegisterFrames |
| Handlers.SubReversed | src/core/Instructions.cpp:194-200 | SUBN Vx, Vy: Vy - Vx mod 256 with VF = 1 exactly when Vy > Vx, stated in HandlerFacts.SubReversedBorrow and HandlerFacts.SubIntoFlag; only Vx and VF change, stated in HandlerFacts.RegisterFrames |
| Handlers.ShiftLeft | src/core/Instructions.cpp:202-207 | SHL Vx: the doubled value mod 256 and the shifted-out bit recompose 2 * Vx, stated in HandlerFacts.ShiftsKeepBits and HandlerFacts.ShiftIntoFlag; only Vx and VF change, stated in HandlerFacts.RegisterFrames |
| Handlers.SkipIfNotEqualReg | src/core/Instructions.cpp:209-215 | SNE Vx, Vy: skips exactly when SE Vx, Vy does not, stated in HandlerFacts.SkipPairsComplement; only PC changes, stated in HandlerFacts.PointerFrames |
| Handlers.LoadIndex | src/core/Instructions.cpp:217-220 | LD I, nnn: I becomes the 12-bit address and nothing else changes, stated in HandlerFacts.SingleFieldWrites |
| Handlers.JumpOffset | src/core/Instructions.cpp:222-225 | JP V0, nnn: PC becomes nnn + V0 without wrap-around, stated in HandlerFacts.JumpOffsetNoWrap; only PC changes, stated in HandlerFacts.PointerFrames |
| Handlers.Random | src/core/Instructions.cpp:227-237 | RND Vx, kk: Vx becomes the random byte masked by kk, stated in HandlerFacts.RandomMasked; only Vx changes, stated in HandlerFacts.RegisterFrames |
| Handlers.DrawSprite | src/core/Instructions.cpp:239-298 | DRW Vx, Vy, n: fails exactly when a drawing sprite reads past memory, XORs the sprite in and sets VF exactly on a collision, stated in HandlerFacts.DrawSpriteFaults, HandlerFacts.DrawNothingInLowRes, HandlerFacts.DrawSpriteEffect and HandlerFacts.DrawTwice; only VF, the display and its flag change, stated in HandlerFacts.DrawSpriteFrame |
| Handlers.SkipIfKey | src/core/Instructions.cpp:300-307 | SKP Vx: fails for a key index of 16 or more and otherwise skips exactly when the key is held, stated in HandlerFacts.KeySkipsComplement; only PC changes, stated in HandlerFacts.PointerFrames |
| Handlers.SkipIfNotKey | src/core/Instructions.cpp:309-316 | SKNP Vx: fails for a key index of 16 or more and otherwise skips exactly when SKP does not, stated in HandlerFacts.KeySkipsComplement; only PC changes, stated in HandlerFacts.PointerFrames |
| Handlers.ReadDelay | src/core/Instructions.cpp:318-321 | LD Vx, DT: Vx becomes DT and nothing else changes, stated in HandlerFacts.RegisterLoads |
| Handlers.WaitKey | src/core/Instructions.cpp:323-336 | LD Vx, K: the lowest held key goes to Vx, or PC steps back when none is held, stated in HandlerFacts.WaitKeyOutcome |
| Handlers.SetDelay | src/core/Instructions.cpp:338-341 | LD DT, Vx: DT becomes Vx and nothing else changes, stated in HandlerFacts.SingleFieldWrites |
| Handlers.SetSound | src/core/Instructions.cpp:343-346 | LD ST, Vx: ST becomes Vx and nothing else changes, stated in HandlerFacts.SingleFieldWrites |
| Handlers.AddIndex | src/core/Instructions.cpp:348-353 | ADD I, Vx: I wraps mod 2^16 and VF is set when I + Vx exceeds 255, stated in HandlerFacts.AddIndexFlag; only I and VF change, stated in HandlerFacts.AddIndexFrame |
| Handlers.LoadGlyph | src/core/Instructions.cpp:355-362 | LD F, Vx: I is the small glyph of digit Vx, failing exactly for Vx >= 16, stated in HandlerFacts.GlyphAddress; only I changes, stated in HandlerFacts.PointerFrames |
| Handlers.StoreBcd | src/core/Instructions.cpp:364-374 | LD B, Vx: three decimal digits of Vx at I..I+2, failing exactly past memory, stated in HandlerFacts.BcdDigits |
| Handlers.StoreRegisters | src/core/Instructions.cpp:376-383 | LD [I], Vx: V0..Vx copied to I..I+X, failing exactly past memory, stated in HandlerFacts.StoreRegistersCopies and HandlerFacts.StoreThenLoadRegisters |
| Handlers.LoadRegisters | src/core/Instructions.cpp:385-392 | LD Vx, [I]: I..I+X copied to V0..Vx, failing exactly past memory, stated in HandlerFacts.LoadRegistersCopies |
| Handlers.ScrollDown | src/core/Instructions.cpp:396-423 | SCD n: the buffer becomes Screen.Shifted by n rows (the in-place loop is Screen.ScrollDownInPlace), and scrolls compose, stated in HandlerFacts.ScrollsCompose |
| Handlers.ScrollRight | src/core/Instructions.cpp:425-443 | SCR: the buffer becomes Screen.Shifted by 4 columns (the in-place loop is Screen.ScrollRightInPlace), stated in HandlerFacts.ScrollsCompose |
| Handlers.ScrollLeft | src/core/Instructions.cpp:445-463 | SCL: the buffer becomes Screen.Shifted by -4 columns (the in-place loop is Screen.ScrollLeftInPlace), stated in HandlerFacts.ScrollsCompose |
| Handlers.Halt | src/core/Instructions.cpp:465-468 | EXIT: only Exited is set, stated in HandlerFacts.SingleFieldWrites, and later steps do nothing, stated in EngineFacts.ExitHalts |
| Handlers.LowRes | src/core/Instructions.cpp:470-477 | LOW: leaves extended mode, flagging the display only on a switch, stated in HandlerFacts.ModeSwitches |
| Handlers.HighRes | src/core/Instructions.cpp:479-486 | HIGH: enters extended mode, flagging the display only on a switch, stated in HandlerFacts.ModeSwitches |
| Handlers.LoadLargeGlyph | src/core/Instructions.cpp:488-495 | LD HF, Vx: I is the large glyph of digit Vx, failing exactly for Vx >= 16, stated in HandlerFacts.LargeGlyphAddress; only I changes, stated in HandlerFacts.PointerFrames |
| Handlers.SaveFlags | src/core/Instructions.cpp:497-503 | LD R, Vx: V0..Vx copied to R0..Rx, failing exactly for X >= 8, stated in HandlerFacts.FlagCopies and HandlerFacts.SaveThenRestoreFlags |
| Handlers.RestoreFlags | src/core/Instructions.cpp:505-511 | LD Vx, R: R0..Rx copied to V0..Vx, failing exactly for X >= 8, stated in HandlerFacts.FlagCopies |
| Handlers.Execute | src/core/Instructions.cpp:518-565 | runs the handler of the decoded entry; what every handler keeps is stated in HandlerFacts.ExecuteDisciplined and which handlers fail in HandlerFacts.ExecuteFailures |
| HandlerFacts.AddRegCarry | src/core/Instructions.cpp:171-177 | ADD Vx,Vy leaves the sum mod 256 in Vx and the carry in VF, with Vx + 256*VF equal to the true sum, and changes nothing else |
| HandlerFacts.AddRegIntoFlag | src/core/Instructions.cpp:171-177 | with X = F the flag is overwritten by the wrapped sum of the carry and Vy |
| HandlerFacts.AddRegExamples | src/core/Instructions.cpp:880-922 | 0x10 + 0x20 gives 0x30 without carry; 0xA0 + 0xB0 gives 0x50 with carry; 0x10 + 0xF0 gives 0 with carry; Vy is unchanged |
| HandlerFacts.SubRegBorrow | src/core/Instructions.cpp:179-185 | SUB leaves Vx - Vy mod 256 and VF = 1 exactly when Vx > Vy, and changes nothing but V |
| HandlerFacts.SubReversedBorrow | src/core/Instructions.cpp:194-200 | SUBN leaves Vy - Vx mod 256 and VF = 1 exactly when Vy > Vx |
| HandlerFacts.SubIntoFlag | src/core/Instructions.cpp:179-200 | with X = F, SUB and SUBN use the freshly written flag as Vx |
| HandlerFacts.AddThenSubRestores | src/core/Instructions.cpp:171-185 | ADD Vx,Vy followed by SUB Vx,Vy restores Vx (with X, Y, F distinct) |
| HandlerFacts.ShiftsKeepBits | src/core/Instructions.cpp:187-207 | SHR keeps the shifted-out low bit in VF and SHL the high bit, so value and flag recompose the original; SHL then SHR clears only the top bit |
| HandlerFacts.ShiftIntoFlag | src/core/Instructions.cpp:187-207 | with X = F the shifted value overwrites the flag |
| HandlerFacts.BitwiseLaws | src/core/Instructions.cpp:156-169 | XOR Vx,Vy twice is the identity; with X = Y, OR and AND change nothing and XOR clears Vx |
| HandlerFacts.RegisterFrames | src/core/Instructions.cpp:156-237 | SUB, SUBN, SHR and SHL write only Vx and VF; OR, AND, XOR and RND write only Vx; nothing outside the registers changes |
| HandlerFacts.RandomMasked | src/core/Instructions.cpp:227-237 | RND leaves in Vx only bits of KK, and exactly the random byte when that byte fits the mask |
| HandlerFacts.AddIndexFlag | src/core/Instructions.cpp:348-353 | ADD I,Vx adds modulo 2^16 and sets VF when I + Vx exceeds 255 |
| HandlerFacts.AddIndexFrame | src/core/Instructions.cpp:348-353 | ADD I, Vx changes only I and VF |
| HandlerFacts.StackFaults | src/core/Instructions.cpp:97-115 | CALL fails exactly on a full stack; RET fails exactly on an empty (or corrupt) SP |
| HandlerFacts.CallThenReturn | src/core/Instructions.cpp:97-115 | CALL pushes the return address and jumps to NNN; RET right after it returns to the caller with SP restored |
| HandlerFacts.ReturnPops | src/core/Instructions.cpp:97-102 | RET with 0 < SP <= 16 succeeds, drops SP by one, loads PC from the entry below it and changes nothing else |
| HandlerFacts.ReturnExample | src/core/Instructions.cpp:646-665 | two RETs from a two-deep stack return to 0x2222 and then 0x1111, and a third fails |
| HandlerFacts.StepBackUndoesStep | src/core/Instructions.cpp:323-336 | moving PC back by one instruction undoes moving it forward, with 16-bit wrap-around |
| HandlerFacts.SkipPairsComplement | src/core/Instructions.cpp:117-215 | of SE and SNE on the same operands exactly one skips, and SE skips exactly on equality |
| HandlerFacts.PointerFrames | src/core/Instructions.cpp:117-362 | SE, SNE, SKP, SKNP and JP V0 change only PC; LD F and LD HF (lines 488-495) change only I |
| HandlerFacts.KeySkipsComplement | src/core/Instructions.cpp:300-316 | SKP and SKNP fail exactly for a key index of 16 or more; otherwise exactly one skips, SKP when the key is held |
| HandlerFacts.JumpOffsetNoWrap | src/core/Instructions.cpp:222-225 | JP V0,nnn jumps to NNN + V0 without wrap-around |
| HandlerFacts.WaitKeyOutcome | src/core/Instructions.cpp:323-336 | with a key held, Vx gets the lowest held key and nothing else changes; with none held, only PC moves back one instruction |
| HandlerFacts.RegisterLoads | src/core/Instructions.cpp:141-154 | LD Vx,kk, ADD Vx,kk, LD Vx,Vy and (at lines 318-321) LD Vx,DT write Vx alone, with ADD Vx,kk wrapping and writing no carry to VF |
| HandlerFacts.SingleFieldWrites | src/core/Instructions.cpp:104-107 | JP nnn and (at lines 217-220, 338-346, 465-468) LD I, LD DT, LD ST and EXIT each change exactly one field, and the address loaded lies inside memory |
| HandlerFacts.BcdDigits | src/core/Instructions.cpp:364-374 | LD B writes three decimal digits of Vx at I..I+2 and nothing else; it fails exactly when I+2 is past memory |
| HandlerFacts.StoreRegistersCopies | src/core/Instructions.cpp:376-383 | LD [I],Vx copies V0..Vx to I..I+X, leaves the rest of memory, and fails exactly when I+X is past memory |
| HandlerFacts.LoadRegistersCopies | src/core/Instructions.cpp:385-392 | LD Vx,[I] copies I..I+X into V0..Vx, leaves the higher registers, and fails exactly when I+X is past memory |
| HandlerFacts.StoreThenLoadRegisters | src/core/Instructions.cpp:376-392 | loading right after storing changes nothing further |
| HandlerFacts.FlagCopies | src/core/Instructions.cpp:497-511 | LD R,Vx and LD Vx,R copy the first X+1 entries between V and R, leave the rest, and fail exactly when X ≥ 8 |
| HandlerFacts.SaveThenRestoreFlags | src/core/Instructions.cpp:497-511 | restoring the RPL flags right after saving them changes nothing further |
| HandlerFacts.GlyphAddress | src/core/Instructions.cpp:355-362 | LD F points I at the 5-byte glyph of the digit, inside the small font, and fails exactly for digits ≥ 16 |
| HandlerFacts.LargeGlyphAddress | src/core/Instructions.cpp:488-495 | LD HF points I at the 10-byte glyph inside the large-font area and fails for digits ≥ 16; reset memory holds zeros there |
| HandlerFacts.DrawSpriteFaults | src/core/Instructions.cpp:239-298 | DRW fails exactly when it draws and the sprite bytes run past memory |
| HandlerFacts.DrawNothingInLowRes | src/core/Instructions.cpp:245-270 | DRW with n = 0 in low resolution only clears VF |
| HandlerFacts.DrawSpriteEffect | src/core/Instructions.cpp:239-298 | DRW sets VF exactly when a set sprite bit lands on a lit pixel, XORs every covered pixel, keeps the others and marks the display changed |
| HandlerFacts.DrawSpriteFrame | src/core/Instructions.cpp:239-298 | DRW changes only VF, the display and its flag; memory, I, PC, the stack, the timers and the other registers are kept |
| HandlerFacts.DrawTwice | src/core/Instructions.cpp:239-298 | drawing the same sprite twice restores the display, and reports a collision when the first draw lit a pixel |
| HandlerFacts.ClearScreenBlank | src/core/Instructions.cpp:91-95 | CLS blanks every pixel, marks the display changed, touches nothing else and is idempotent |
| HandlerFacts.ScrollsCompose | src/core/Instructions.cpp:396-463 | two SCDs shift by 2n rows, two SCRs by 8 columns, two SCLs by 8 columns the other way |
| HandlerFacts.ModeSwitches | src/core/Instructions.cpp:470-486 | LOW and HIGH set the mode, are idempotent, mark the display changed only on a real switch and keep the pixels |
| HandlerFacts.ExecuteDisciplined | src/core/Instructions.cpp:91-511 | every handler keeps IR and the keyboard, writes R only for LD R and Exited only for EXIT, never clears DisplayChanged and sets it on any display change, and moves PC only for control flow or a key wait |
| HandlerFacts.DisciplinedPart1 | src/core/Instructions.cpp:91-131 | the same discipline for CLS, RET, JP, CALL, SE Vx,kk and SNE Vx,kk |
| HandlerFacts.DisciplinedPart2 | src/core/Instructions.cpp:133-164 | the same discipline for SE Vx,Vy, LD Vx,kk, ADD Vx,kk, LD Vx,Vy, OR and AND |
| HandlerFacts.DisciplinedPart3 | src/core/Instructions.cpp:166-207 | the same discipline for XOR, ADD Vx,Vy, SUB, SHR, SUBN and SHL |
| HandlerFacts.DisciplinedPart4 | src/core/Instructions.cpp:209-307 | the same discipline for SNE Vx,Vy, LD I, JP V0, RND, DRW and SKP |
| HandlerFacts.DisciplinedPart5 | src/core/Instructions.cpp:309-353 | the same discipline for SKNP, LD Vx,DT, LD Vx,K, LD DT, LD ST and ADD I |
| HandlerFacts.DisciplinedPart6 | src/core/Instructions.cpp:355-443 | the same discipline for LD F, LD B, LD [I], LD Vx,[I], SCD and SCR |
| HandlerFacts.DisciplinedPart7 | src/core/Instructions.cpp:445-503 | the same discipline for SCL, EXIT, LOW, HIGH, LD HF and LD R |
| HandlerFacts.DisciplinedPart8 | src/core/Instructions.cpp:505-511 | the same discipline for LD Vx,R |
| HandlerFacts.ExecuteFrame | src/core/Instructions.cpp:91-511 | no handler changes IR or the keyboard |
| HandlerFacts.ExecuteFlags | src/core/Instructions.cpp:465-503 | only LD R writes the RPL flags and only EXIT sets Exited |
| HandlerFacts.ExecuteReportsDisplay | src/core/Instructions.cpp:91-511 | a handler never clears DisplayChanged and sets it whenever it changes the display |
| HandlerFacts.ExecuteKeepsPC | src/core/Instructions.cpp:91-511 | non-control-flow handlers leave PC alone, except LD Vx,K which may move it back one instruction |
| HandlerFacts.ExecuteFailures | src/core/Instructions.cpp:91-511 | only the twelve bounds-checked handlers can fail |
| Screen.SpriteBit | src/core/Instructions.cpp:254 | a sprite bit is 0 or 1 |
| Screen.XorBit | src/core/Instructions.cpp:265 | XOR with bit 0 keeps the pixel; with bit 1 it flips the low bit only |
| Screen.XorBitCompose | src/core/Instructions.cpp:265 | two XORs with bits a and b equal one XOR with a + b mod 2 |
| Screen.Mask | src/core/Instructions.cpp:248-267 | the parity of the sprite bits landing on one pixel is 0 or 1 |
| Screen.Target | src/core/Instructions.cpp:255-257 | the pixel a sprite cell lands on lies within the active screen |
| Screen.BlitIsXor | src/core/Instructions.cpp:248-267 | after the drawing loop each pixel is its old value XOR the parity of the sprite bits landing on it |
| Screen.TargetInjective | src/core/Instructions.cpp:255-257 | two cells of one sprite never land on the same pixel, even with wrap-around |
| Screen.MaskAtTarget | src/core/Instructions.cpp:248-267 | the bits landing on a cell's pixel from a point of the loop on are that cell's bit alone, if the loop has yet to reach it |
| Screen.MaskUncovered | src/core/Instructions.cpp:248-267 | no bit lands on a pixel the sprite does not cover |
| Screen.BlitCollision | src/core/Instructions.cpp:259-263 | the loop reports a collision exactly when some remaining set bit lands on a pixel lit before the draw |
| Screen.DrawCollision | src/core/Instructions.cpp:245-297 | a draw collides exactly when some set sprite bit lands on a lit pixel |
| Screen.DrawPixels | src/core/Instructions.cpp:245-297 | a draw XORs each covered pixel with its sprite bit and keeps every other pixel |
| Screen.MaskModeOnly | src/core/Instructions.cpp:255-257 | where bits land depends only on the resolution, not on the pixels |
| Screen.DrawTwiceRestores | src/core/Instructions.cpp:245-297 | drawing the same sprite twice restores the pixel buffer |
| Screen.DrawTwiceCollides | src/core/Instructions.cpp:259-263 | the second draw collides when the first lit a previously dark pixel |
| Screen.Cleared | src/core/Instructions.cpp:93 | the cleared buffer is all zero |
| Screen.Fits | src/core/Instructions.cpp:248-250 | the sprite's bytes lie inside memory; DRW fails exactly when a drawing sprite does not fit, stated in HandlerFacts.DrawSpriteFaults |
| Screen.BlitOne | src/core/Instructions.cpp:253-265 | one cell of the drawing loop: collision test then pixel XOR; its cumulative effect is stated in Screen.BlitIsXor and Screen.BlitCollision |
| Screen.BlitFrom | src/core/Instructions.cpp:247-294 | the drawing loop from one cell on; its result is stated in Screen.BlitIsXor and Screen.BlitCollision |
| Screen.Draw | src/core/Instructions.cpp:245-297 | the whole drawing loop; collision and pixels are stated in Screen.DrawCollision and Screen.DrawPixels |
| Screen.Shifted | src/core/Instructions.cpp:396-463 | each on-screen pixel takes the value at the shifted position, or 0 when that falls off screen; the unused buffer tail is kept |
| Screen.ShiftedCompose | src/core/Instructions.cpp:396-463 | two shifts in the same direction equal one shift by the sum |
| Screen.ScrollRightThenLeft | src/core/Instructions.cpp:425-463 | SCR then SCL restores the picture except the 4 leftmost columns, which go blank |
| Screen.ScrollDownInPlace | src/core/Instructions.cpp:396-423 | the row-by-row in-place copy of SCD computes the shift by n rows |
| Screen.ScrollRightInPlace | src/core/Instructions.cpp:425-443 | the left-to-right in-place copy of SCR computes the shift by 4 columns |
| Screen.ScrollLeftInPlace | src/core/Instructions.cpp:445-463 | the right-to-left in-place copy of SCL computes the shift by -4 columns |
| Formatting.HexDigit | src/core/Instructions.cpp:19-20 | a nibble prints as an upper-case hex digit |
| Formatting.Hex | src/core/Instructions.cpp:19-20 | zero-padded upper-case hex has exactly the requested width |
| Formatting.ReadHex | src/core/Instructions.cpp:19-20 | a hex string reads back as a value below 16^length |
| Formatting.DigitValue | src/core/Instructions.cpp:19-20 | any character reads as a nibble value |
| Formatting.DigitRoundTrip | src/core/Instructions.cpp:19-20 | each printed digit reads back as its value |
| Formatting.ReadHexOfHex | src/core/Instructions.cpp:17-23 | printing with a width and reading back is the identity |
| Formatting.Render | src/core/Instructions.cpp:12-89 | every formatter succeeds except the SCD one, which fails as not implemented |
| Formatting.ToString | src/core/Instructions.cpp:518-565 | formatting an instruction fails exactly for SCD |
| Formatting.ReadsBackNnn | src/core/Instructions.cpp:17-23 | "NAME nnn" has length name+4 and its field reads back as NNN |
| Formatting.ReadsBackVxKk | src/core/Instructions.cpp:25-32 | "NAME Vx, kk" reads back X and KK |
| Formatting.ReadsBackVxVy | src/core/Instructions.cpp:34-40 | "NAME Vx, Vy" reads back X and Y |
| Formatting.ReadsBackVx | src/core/Instructions.cpp:42-48 | "NAME Vx" reads back X |
| Formatting.ReadsBackDstNnn | src/core/Instructions.cpp:50-57 | "NAME dst, nnn" shows the destination name and reads back NNN |
| Formatting.ReadsBackVxVyN | src/core/Instructions.cpp:59-66 | "NAME Vx, Vy, n" reads back X, Y and N |
| Formatting.ReadsBackVxSrc | src/core/Instructions.cpp:68-75 | "NAME Vx, src" reads back X and ends with the source name |
| Formatting.ReadsBackDstVx | src/core/Instructions.cpp:77-84 | "NAME dst, Vx" shows the destination name and reads back X |
| Formatting.RenderInjective | src/core/Instructions.cpp:12-84 | two opcodes format the same exactly when they agree on the fields the format shows |
| Formatting.RenderExamples | src/core/Instructions.cpp:569-629 | each formatter yields the expected text for the test opcodes |
| Formatting.ExampleNnn | src/core/Instructions.cpp:582-586 | "A 012" for 0x0012 |
| Formatting.ExampleVxKk | src/core/Instructions.cpp:588-592 | "A V1, 23" for 0x0123 |
| Formatting.ExampleVxVy | src/core/Instructions.cpp:594-598 | "A V1, V2" for 0x0120 |
| Formatting.ExampleVx | src/core/Instructions.cpp:600-604 | "A V1" for 0x0100 |
| Formatting.ExampleDstNnn | src/core/Instructions.cpp:606-610 | "A D, 012" for 0x0012 |
| Formatting.ExampleVxVyN | src/core/Instructions.cpp:612-616 | "A V1, V2, 3" for 0x0123 |
| Formatting.ExampleVxSrc | src/core/Instructions.cpp:618-622 | "A V1, S" for 0x0100 |
| Formatting.ExampleDstVx | src/core/Instructions.cpp:624-628 | "A D, V1" for 0x0100 |
| Formatting.ToStringExamples | src/core/Instructions.cpp:518-565 | the table's formatters print JP, DRW, LD [I] and JP V0 as expected, and SCD fails |
| Formatting.ExampleJp | src/core/Instructions.cpp:522 | the JP entry prints 0x1ABC as "JP ABC" |
| Formatting.RenderJp | src/core/Instructions.cpp:17-23 | the nnn formatter prints 0x1ABC under the name JP as "JP ABC" |
| Formatting.ExampleDrw | src/core/Instructions.cpp:542 | the DRW entry prints 0xD12F as "DRW V1, V2, F" |
| Formatting.RenderDrw | src/core/Instructions.cpp:59-66 | the Vx, Vy, n formatter prints 0xD12F under the name DRW as "DRW V1, V2, F" |
| Formatting.ExampleStore | src/core/Instructions.cpp:552 | the LD [I], Vx entry prints 0xFA55 as "LD [I], VA" |
| Formatting.RenderStore | src/core/Instructions.cpp:77-84 | the dst, Vx formatter prints 0xFA55 with destination [I] as "LD [I], VA" |
| Formatting.ExampleJpOffset | src/core/Instructions.cpp:540 | the JP V0 entry prints 0xB00F as "JP V0, 00F" |
| Formatting.RenderJpOffset | src/core/Instructions.cpp:50-57 | the dst, nnn formatter prints 0xB00F with destination V0 as "JP V0, 00F" |
| Interpreter.NewEngine | src/core/Interpreter.cpp:15-18 | a new interpreter holds a new context and is not paused |
| Interpreter.Pause | src/core/Interpreter.cpp:20 | pausing sets the flag and nothing else |
| Interpreter.Fetch | src/core/Interpreter.cpp:63-64 | the opcode is the big-endian word at PC; fetching fails exactly when its second byte is past memory |
| Interpreter.Cycle | src/core/Interpreter.cpp:54-80 | an exited machine does nothing; a completed cycle leaves DisplayChanged cleared; that a cycle is its decoded handler is EngineFacts.CycleExecutes, and when it fails is EngineFacts.CycleFaults |
| Interpreter.TimerTick | src/core/Interpreter.cpp:82-102 | an exited machine does not tick |
| Interpreter.Step | src/core/Interpreter.cpp:30-52 | an exited machine does nothing; that a fired gate runs the cycle and the timer tick is EngineFacts.StepRuns |
| Interpreter.Update | src/core/Interpreter.cpp:22-28 | a paused interpreter does nothing; otherwise update is a step |
| Interpreter.LoadProgram | src/core/Interpreter.cpp:106-121 | loading fails exactly for images over 3584 bytes and changes only the context |
| EngineFacts.CycleFetches | src/core/Interpreter.cpp:63-72 | after a cycle IR holds the fetched opcode and the keyboard is unchanged |
| EngineFacts.CycleReports | src/core/Interpreter.cpp:74-79 | a cycle pushes the display exactly when the handler left it marked changed, at most once and with the final display, which happens whenever it was dirty or changed |
| EngineFacts.CycleFaults | src/core/Interpreter.cpp:63-72 | a cycle fails exactly when the fetch reads past memory, no entry matches the opcode, or the handler fails; the first two give MemoryOutOfRange and UnknownOpcode |
| EngineFacts.CycleExecutes | src/core/Interpreter.cpp:63-79 | after a successful fetch and decode, the cycle fails with the handler's fault, and otherwise its state is the handler's result with DisplayChanged cleared, so every handler fact holds for the cycle |
| EngineFacts.CycleAdvancesPC | src/core/Interpreter.cpp:67-72 | an ordinary instruction leaves PC one instruction further on |
| EngineFacts.ExitHalts | src/core/Interpreter.cpp:30-35 | after EXIT the machine is exited and every later step does nothing |
| EngineFacts.TickCountsDown | src/core/Interpreter.cpp:82-102 | a tick decrements non-zero timers and beeps exactly when the sound timer goes from 1 to 0 |
| EngineFacts.TicksCountDown | src/core/Interpreter.cpp:82-102 | k ticks lower both timers by k, stopping at 0, with one beep exactly when the sound timer runs out within them |
| EngineFacts.StepGates | src/core/Interpreter.cpp:37-51 | a step takes the new keyboard and records the time of a cycle or tick exactly when its period has elapsed |
| EngineFacts.StepIdle | src/core/Interpreter.cpp:37-51 | when neither period has elapsed a step only takes the keyboard |
| EngineFacts.StepRuns | src/core/Interpreter.cpp:37-51 | a step runs DoCycle exactly when CyclesRate has elapsed and then DoTimerTick exactly when TimersRate has elapsed; it fails exactly when the cycle fails, and otherwise yields the tick's machine with the cycle's effects followed by the tick's |
| EngineFacts.PauseResume | src/core/Interpreter.cpp:20-28 | pausing and resuming restores the interpreter, and a paused update does nothing |
| EngineFacts.LoadProgramLayout | src/core/Interpreter.cpp:106-121 | the image lands at 0x200, the font below it, zeros elsewhere, PC at 0x200, the rest as after reset |
| EngineFacts.LoadThenFetch | src/core/Interpreter.cpp:106-121 | the first fetch after loading reads the image's first two bytes |
| SaveState.Word | src/core/Interpreter.cpp:136-137 | a 16-bit field is two bytes, low byte first |
| SaveState.StackBytes | src/core/Interpreter.cpp:178-179 | each stack entry is written low byte first at twice its index |
| SaveState.RegisterImage | src/core/Interpreter.cpp:172-179 | the registers, I, PC, SP, timers and stack take the first 55 bytes |
| SaveState.MemoryImage | src/core/Interpreter.cpp:180-186 | memory, R, the mode, the pixels and Exited take the remaining bytes |
| SaveState.Encode | src/core/Interpreter.cpp:171-186 | a save state is 12353 bytes |
| SaveState.EncodeLayout | src/core/Interpreter.cpp:171-186 | every field of the state sits at its fixed offset, in the writing order |
| SaveState.Decode | src/core/Interpreter.cpp:134-151 | decoding keeps IR and the keyboard and marks the display changed |
| SaveState.Overlay | src/core/Interpreter.cpp:135-149 | the bytes present in the file replace the leading bytes, the rest stays as it was |
| SaveState.LoadState | src/core/Interpreter.cpp:123-152 | a loaded state has IR 0, no keys held and the display marked changed |
| SaveState.WordBytes | src/core/Interpreter.cpp:136-137 | splitting a word into bytes and joining them gives it back |
| SaveState.DecodeEncodeStack | src/core/Interpreter.cpp:141-142 | the stack survives a save and load |
| SaveState.DecodeEncodeRegisters | src/core/Interpreter.cpp:135-140 | V, I, PC, SP, DT and ST survive a save and load |
| SaveState.DecodeEncodeRest | src/core/Interpreter.cpp:143-149 | memory, R, the display and Exited survive a save and load |
| SaveState.DecodeEncode | src/core/Interpreter.cpp:134-151 | decoding an encoding restores every saved field |
| SaveState.DecodeEncodeSelf | src/core/Interpreter.cpp:134-186 | a state whose display is marked changed is a fixed point of save then load |
| SaveState.OverlayCases | src/core/Interpreter.cpp:135-149 | an empty file changes nothing and a full-length file replaces everything |
| SaveState.SaveThenLoad | src/core/Interpreter.cpp:123-186 | loading a saved state gives back the saved machine, except IR 0, no keys held, display marked changed |
| SaveState.LoadEmpty | src/core/Interpreter.cpp:130-151 | loading an empty file is a reset |
| SaveState.TrailingBytesIgnored | src/core/Interpreter.cpp:135-149 | bytes beyond the state size are ignored |
| SaveState.TruncatedBeforeMemory | src/core/Interpreter.cpp:135-142 | a file cut before the memory image sets the registers and stack and leaves the rest reset |
| Disassembler.WordAt | src/core/Disassembler.cpp:25 | the word at an address is its two bytes, big-endian |
| Disassembler.VisitShrinks | src/core/Disassembler.cpp:19-30 | listing a fresh in-memory address strictly shrinks the set of unlisted addresses, which bounds the walk |
| Disassembler.Explore | src/core/Disassembler.cpp:17-80 | the walk only appends lines, lists the start address unless there is nothing to disassemble there, and fails only for SCD |
| Disassembler.ExploreEach | src/core/Disassembler.cpp:17-80 | exploring targets in order appends lines that cover every target |
| Disassembler.EachPair | src/core/Disassembler.cpp:52-78 | exploring two targets explores the first and then the second from the grown listing, stopping at a failure |
| Disassembler.ExploreStops | src/core/Disassembler.cpp:19-23 | an address already listed, past memory or undecodable adds nothing |
| Disassembler.ExploreScdFails | src/core/Disassembler.cpp:30 | reaching a fresh SCD makes the walk fail |
| Disassembler.SuccessorsByKind | src/core/Disassembler.cpp:32-78 | ordinary instructions continue, JP goes to nnn, JP V0/RET/EXIT stop, CALL explores nnn then continues, skips explore the instruction after next then continue |
| Disassembler.Successors | src/core/Disassembler.cpp:32-78 | the addresses explored after a line, in order; stated case by case in Disassembler.SuccessorsByKind |
| Disassembler.ExploreFallsThrough | src/core/Disassembler.cpp:32-78 | an ordinary instruction is listed and the walk continues 2 bytes on |
| Disassembler.ExploreJump | src/core/Disassembler.cpp:35-41 | JP nnn is listed and the walk continues at nnn |
| Disassembler.ExploreEndsPath | src/core/Disassembler.cpp:42-73 | JP V0, RET and EXIT are listed and end the path |
| Disassembler.ExploreBranch | src/core/Disassembler.cpp:52-78 | a branch explores its target first and then the next instruction |
| Disassembler.ExploreUnfolds | src/core/Disassembler.cpp:25-78 | a fresh decodable address is listed and the walk proceeds with its successors from the extended listing |
| Disassembler.ExploreDistinct | src/core/Disassembler.cpp:19-23 | the walk never lists an address twice |
| Disassembler.EachDistinct | src/core/Disassembler.cpp:19-23 | exploring several targets never lists an address twice |
| Disassembler.ExploreDecoded | src/core/Disassembler.cpp:25-30 | every line the walk adds holds the word at its address and that word's formatted text |
| Disassembler.EachDecoded | src/core/Disassembler.cpp:25-30 | every line added while exploring several targets holds the word at its address and that word's text |
| Disassembler.ExploreClosed | src/core/Disassembler.cpp:32-78 | every successor of every added line is covered by the final listing |
| Disassembler.EachClosed | src/core/Disassembler.cpp:32-78 | every successor of every line added while exploring several targets is covered by the final listing |
| Disassembler.ExploreReached | src/core/Disassembler.cpp:17-80 | every added line is the start or a successor of an earlier added line |
| Disassembler.EachReached | src/core/Disassembler.cpp:17-80 | every line added while exploring several targets is a target or a successor of an earlier added line |
| Disassembler.Insert | src/core/Disassembler.cpp:13 | inserting into a sorted listing keeps it sorted and adds exactly that line |
| Disassembler.SortByAddress | src/core/Disassembler.cpp:13 | the result is sorted by address and a permutation of the input |
| Disassembler.MultisetAddresses | src/core/Disassembler.cpp:13 | reordering a listing keeps its set of addresses |
| Disassembler.InsertStrict | src/core/Disassembler.cpp:13 | inserting a line with a new address into a strictly sorted listing keeps it strictly sorted |
| Disassembler.SortStrict | src/core/Disassembler.cpp:13 | sorting a listing with distinct addresses gives a strictly increasing listing |
| Disassembler.SortedUnique | src/core/Disassembler.cpp:13 | two strictly sorted permutations of the same lines are equal |
| Disassembler.Disassemble | src/core/Disassembler.cpp:9-15 | disassembly fails only for SCD |
| Disassembler.DisassembleOrdered | src/core/Disassembler.cpp:9-15 | the listing is strictly increasing by address and holds exactly the lines the walk found |
| Disassembler.DisassembleDecoded | src/core/Disassembler.cpp:9-30 | every line holds the word at its address and that word's text |
| Disassembler.DisassembleClosed | src/core/Disassembler.cpp:9-78 | the start and every successor of every line are covered by the listing |
| Disassembler.DisassembleReached | src/core/Disassembler.cpp:9-78 | the lines can be ordered so each is the start or a successor of an earlier one |
| Disassembler.SelfJump | src/core/Disassembler.cpp:35-41 | a jump to itself disassembles to exactly one line |

## Left out

- File-system checks and stream I/O of `LoadProgram`, `LoadState` and `SaveState` (`Interpreter.cpp:108-111`, `125-128`, `156-169`): the model works on byte sequences; a missing file or a bad path is not modelled.
- `Clock::now`, the Mersenne-Twister random source and the platform keyboard read are inputs to `Step` / `Update`; their values are not modelled.
- `IPlatform::UpdateDisplay` and `IPlatform::Beep` are returned as effects; how the platform renders or sounds them is not modelled.
- The save-state byte order assumes a little-endian host, as the reinterpret-cast writes produce on the usual targets; a big-endian host is not modelled.
- `std::sort`'s algorithm: the model sorts by insertion and proves that every sort gives the same listing, since addresses are distinct.
- `SInstruction::FindInstruction` / `TryFindInstruction` bodies are not part of this model; they are modelled as first-match over the table, and an unmatched opcode in a cycle as `Failure(UnknownOpcode)`.
- `ToString_NAME_n` throws; it is modelled as `Failure(NotImplemented)`, so the disassembler fails when it reaches a fresh SCD.
- `SDisplay`'s constructor and `Reset` are not part of this model; a new context starts from `Reset` applied to zero R, low resolution and not exited.
- The front end under `src/interpreter` and `src/application` (windows, debugger, sound, keyboard mapping) is not part of this model.
- The handler unit tests are used as expected values only where a lemma states them (ADD, RET, LD Vx,K and the formatter tests).
- Interpreter.TimerTick: states only the exited case in its own contract; the countdown and beep are stated by `EngineFacts.TickCountsDown` and `EngineFacts.TicksCountDown`.
- Interpreter.Step: states only the exited case in its own contract; that a fired gate runs the cycle and then the timer tick, with the failure and effects that follow, is stated by `EngineFacts.StepRuns`, and when the time stamps move by `EngineFacts.StepGates`.
