/** Sizes, addresses, glyph sets and clock periods of the CHIP-8 / Super-CHIP
    machine, as fixed by `src/core/Constants.h`. */
module Constants {

  /** An unsigned 8-bit value (`std::uint8_t`). */
  type byte = x: int | 0 <= x < 0x100
  /** An unsigned 16-bit value (`std::uint16_t`). */
  type word = x: int | 0 <= x < 0x1_0000

  const NumberOfRegisters: nat := 16
  const StackSize: nat := 16
  const MemorySize: nat := 4096

  const ProgramStartAddress: nat := 0x200
  /** Size of an instruction in bytes. */
  const InstructionByteSize: nat := 2

  const FontsetAddress: nat := 0x0
  const FontsetCharByteSize: nat := 5
  const FontsetCharCount: nat := 16
  const FontsetTotalByteSize: nat := FontsetCharCount * FontsetCharByteSize

  /** The 4x5 hexadecimal digit glyphs, one row per byte, digits 0..F. */
  const Fontset: seq<byte> := [
    0xF0, 0x90, 0x90, 0x90, 0xF0, // 0
    0x20, 0x60, 0x20, 0x20, 0x70, // 1
    0xF0, 0x10, 0xF0, 0x80, 0xF0, // 2
    0xF0, 0x10, 0xF0, 0x10, 0xF0, // 3
    0x90, 0x90, 0xF0, 0x10, 0x10, // 4
    0xF0, 0x80, 0xF0, 0x10, 0xF0, // 5
    0xF0, 0x80, 0xF0, 0x90, 0xF0, // 6
    0xF0, 0x10, 0x20, 0x40, 0x40, // 7
    0xF0, 0x90, 0xF0, 0x90, 0xF0, // 8
    0xF0, 0x90, 0xF0, 0x10, 0xF0, // 9
    0xF0, 0x90, 0xF0, 0x90, 0x90, // A
    0xE0, 0x90, 0xE0, 0x90, 0xE0, // B
    0xF0, 0x80, 0x80, 0x80, 0xF0, // C
    0xE0, 0x90, 0x90, 0x90, 0xE0, // D
    0xF0, 0x80, 0xF0, 0x80, 0xF0, // E
    0xF0, 0x80, 0xF0, 0x80, 0x80  // F
  ]

  const CyclesHz: nat := 600
  const TimersHz: nat := 60

  /** The period, in whole milliseconds, of a process running `hz` times per
      second: the C++ computes `(1.0 / hz) * 1000.0 + 0.5` and truncates, that
      is, it rounds 1000/hz to the nearest integer, halves rounding up. */
  function RoundedPeriodMs(hz: nat): (ms: nat)
    requires hz > 0
    ensures 2 * ms * hz <= 2000 + hz < 2 * (ms + 1) * hz
  {
    (2000 + hz) / (2 * hz)
  }

  /** Milliseconds between two instruction cycles. */
  const CyclesRate: nat := RoundedPeriodMs(CyclesHz)
  /** Milliseconds between two timer ticks. */
  const TimersRate: nat := RoundedPeriodMs(TimersHz)

  /** The beep requested when the sound timer expires (550.0 Hz in the C++). */
  const BeepFrequencyHz: nat := 550
  const BeepDurationMs: nat := 50

  const KeyboardKeyCount: nat := 16

  const DisplayResolutionWidth: nat := 64
  const DisplayResolutionHeight: nat := 32

  // Super-CHIP

  const NumberOfRPLFlags: nat := 8

  const SchipFontsetAddress: nat := FontsetAddress + FontsetTotalByteSize
  const SchipFontsetCharByteSize: nat := 10
  const SchipFontsetCharCount: nat := 16
  const SchipFontsetTotalByteSize: nat := SchipFontsetCharCount * SchipFontsetCharByteSize

  /** The 8x10 hexadecimal digit glyphs, one row per byte, digits 0..F. */
  const SchipFontset: seq<byte> := [
    0xFF, 0xFF, 0xC3, 0xC3, 0xC3, 0xC3, 0xC3, 0xC3, 0xFF, 0xFF, // 0
    0x1C, 0x7C, 0xFC, 0x3C, 0x3C, 0x3C, 0x3C, 0x3C, 0xFF, 0xFF, // 1
    0x7C, 0xEE, 0x07, 0x07, 0x0F, 0x1E, 0x3C, 0x78, 0xFF, 0xFF, // 2
    0x7C, 0xEE, 0x07, 0x07, 0x1F, 0x1F, 0x07, 0x07, 0xEE, 0x7C, // 3
    0x06, 0x3E, 0x6E, 0xCE, 0xFE, 0xFE, 0x0E, 0x0E, 0x0E, 0x0E, // 4
    0xFF, 0xFF, 0xE0, 0xE0, 0xFC, 0xFE, 0x07, 0x07, 0xFE, 0xFC, // 5
    0x3F, 0x7F, 0xE0, 0xE0, 0xFC, 0xFE, 0xE7, 0xE7, 0x7E, 0x3C, // 6
    0xFF, 0xFF, 0x07, 0x0F, 0x1E, 0x3C, 0x78, 0xF0, 0xF0, 0xF0, // 7
    0x7E, 0xE7, 0xC3, 0xE6, 0x7E, 0x7E, 0xE7, 0xC3, 0xE7, 0x7E, // 8
    0x3C, 0x7E, 0xE7, 0xE7, 0x7F, 0x3F, 0x07, 0x07, 0xEE, 0x7C, // 9
    0x3C, 0x7E, 0xE7, 0xC3, 0xFF, 0xFF, 0xC3, 0xC3, 0xC3, 0xC3, // A
    0xFC, 0xFE, 0xC7, 0xC3, 0xFE, 0xFE, 0xC3, 0xC7, 0xFE, 0xFC, // B
    0x3F, 0x7F, 0xE0, 0xC0, 0xC0, 0xC0, 0xC0, 0xE0, 0x7F, 0x3F, // C
    0xFC, 0xFE, 0xC7, 0xC3, 0xC3, 0xC3, 0xC3, 0xC7, 0xFE, 0xFC, // D
    0xFF, 0xFF, 0xE0, 0xC0, 0xFF, 0xFF, 0xC0, 0xC0, 0xFF, 0xFF, // E
    0xFF, 0xFF, 0xE0, 0xC0, 0xFF, 0xFF, 0xC0, 0xC0, 0xC0, 0xC0  // F
  ]

  const ExtendedDisplayResolutionWidth: nat := 128
  const ExtendedDisplayResolutionHeight: nat := 64

  /** Number of pixels in the one buffer that serves both resolutions. */
  const PixelBufferSize: nat := ExtendedDisplayResolutionWidth * ExtendedDisplayResolutionHeight

  /** Both glyph sets fit, one after the other, below the program area:
      the small set is 16 glyphs of 5 bytes at address 0, the large set is
      16 glyphs of 10 bytes starting right after it, and together they end at
      240 < 0x200. */
  lemma FontsetLayout()
    ensures |Fontset| == FontsetTotalByteSize == 80 && FontsetAddress == 0
    ensures |SchipFontset| == SchipFontsetTotalByteSize == 160
    ensures SchipFontsetAddress == FontsetAddress + |Fontset| == 80
    ensures SchipFontsetAddress + |SchipFontset| == 240 < ProgramStartAddress
  {
  }

  /** The rounded cycle period is 2 ms, the timer period 17 ms, so cycles run
      strictly more often than timer ticks. */
  lemma ClockPeriods()
    ensures CyclesRate == 2 && TimersRate == 17
    ensures CyclesRate < TimersRate
  {
  }

  /** Width x Height of both resolutions never exceeds the pixel buffer. */
  lemma ResolutionsFitBuffer()
    ensures DisplayResolutionWidth * DisplayResolutionHeight <= PixelBufferSize
    ensures ExtendedDisplayResolutionWidth * ExtendedDisplayResolutionHeight == PixelBufferSize == 8192
  {
  }
}
