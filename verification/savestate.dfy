/** `SaveState` / `LoadState`: the context's fields written one after the
    other as raw bytes, multi-byte words least significant byte first (the
    byte order of the platforms the program targets), booleans as 0 or 1. */
module SaveState {
  import opened Constants
  import opened Context

  /** Offsets of the fields in a state image, in write order. */
  const OffsetI: nat := NumberOfRegisters                 // 16
  const OffsetPC: nat := OffsetI + 2                      // 18
  const OffsetSP: nat := OffsetPC + 2                     // 20
  const OffsetDT: nat := OffsetSP + 1                     // 21
  const OffsetST: nat := OffsetDT + 1                     // 22
  const OffsetStack: nat := OffsetST + 1                  // 23
  const OffsetMemory: nat := OffsetStack + 2 * StackSize  // 55
  const OffsetR: nat := OffsetMemory + MemorySize         // 4151
  const OffsetExtended: nat := OffsetR + NumberOfRPLFlags // 4159
  const OffsetPixels: nat := OffsetExtended + 1           // 4160
  const OffsetExited: nat := OffsetPixels + PixelBufferSize // 12352
  const StateSize: nat := OffsetExited + 1                // 12353

  function LowByte(w: word): byte { w % 0x100 }
  function HighByte(w: word): byte { w / 0x100 }

  function Word(lo: byte, hi: byte): (w: word)
    ensures LowByte(w) == lo && HighByte(w) == hi
  {
    lo + hi * 0x100
  }

  function BoolByte(b: bool): byte { if b then 1 else 0 }

  /** The return stack, two bytes per entry. */
  function StackBytes(s: ReturnStack): (b: seq<byte>)
    ensures |b| == 2 * StackSize
    ensures forall k :: 0 <= k < StackSize ==> b[2 * k] == LowByte(s[k]) && b[2 * k + 1] == HighByte(s[k])
  {
    seq(2 * StackSize, j requires 0 <= j < 2 * StackSize =>
      if j % 2 == 0 then LowByte(s[j / 2]) else HighByte(s[j / 2]))
  }

  /** The leading part of an image: registers, timers and return stack. */
  function RegisterImage(c: Context): (b: seq<byte>)
    ensures |b| == OffsetMemory
  {
    c.V
    + [LowByte(c.I), HighByte(c.I)]
    + [LowByte(c.PC), HighByte(c.PC)]
    + [c.SP, c.DT, c.ST]
    + StackBytes(c.Stack)
  }

  /** The rest: memory, RPL flags, display and the Exited flag. */
  function MemoryImage(c: Context): (b: seq<byte>)
    ensures |b| == StateSize - OffsetMemory
  {
    c.Memory
    + c.R
    + [BoolByte(c.Display.ExtendedMode)]
    + c.Display.PixelBuffer
    + [BoolByte(c.Exited)]
  }

  /** `SaveState`: the bytes written, in order. */
  function Encode(c: Context): (b: seq<byte>)
    ensures |b| == StateSize
  {
    RegisterImage(c) + MemoryImage(c)
  }

  /** Where each field sits in the image. */
  lemma EncodeLayout(c: Context)
    ensures var b := Encode(c);
      && b[..OffsetI] == c.V
      && b[OffsetI] == LowByte(c.I) && b[OffsetI + 1] == HighByte(c.I)
      && b[OffsetPC] == LowByte(c.PC) && b[OffsetPC + 1] == HighByte(c.PC)
      && b[OffsetSP] == c.SP && b[OffsetDT] == c.DT && b[OffsetST] == c.ST
      && b[OffsetStack..OffsetMemory] == StackBytes(c.Stack)
      && b[OffsetMemory..OffsetR] == c.Memory
      && b[OffsetR..OffsetExtended] == c.R
      && b[OffsetExtended] == BoolByte(c.Display.ExtendedMode)
      && b[OffsetPixels..OffsetExited] == c.Display.PixelBuffer
      && b[OffsetExited] == BoolByte(c.Exited)
  {
    var b := Encode(c);
    assert b == RegisterImage(c) + MemoryImage(c);
    var head := c.V + [LowByte(c.I), HighByte(c.I)] + [LowByte(c.PC), HighByte(c.PC)] + [c.SP, c.DT, c.ST];
    var withStack := head + StackBytes(c.Stack);
    var withMemory := withStack + c.Memory;
    var withR := withMemory + c.R;
    var withMode := withR + [BoolByte(c.Display.ExtendedMode)];
    var withPixels := withMode + c.Display.PixelBuffer;
    assert b == withPixels + [BoolByte(c.Exited)];
    assert b[..OffsetI] == c.V by {
      assert b[..OffsetI] == head[..OffsetI];
    }
    assert b[OffsetStack..OffsetMemory] == StackBytes(c.Stack) by {
      assert b[OffsetStack..OffsetMemory] == withStack[OffsetStack..];
    }
    assert b[OffsetMemory..OffsetR] == c.Memory by {
      assert b[OffsetMemory..OffsetR] == withMemory[OffsetMemory..];
    }
    assert b[OffsetR..OffsetExtended] == c.R by {
      assert b[OffsetR..OffsetExtended] == withR[OffsetR..];
    }
    assert b[OffsetPixels..OffsetExited] == c.Display.PixelBuffer by {
      assert b[OffsetPixels..OffsetExited] == withPixels[OffsetPixels..];
    }
  }

  /** Reads a context back from a full image; the opcode register and the
      keyboard are not saved and come from `base`. */
  function Decode(b: seq<byte>, base: Context): (c: Context)
    requires |b| == StateSize
    ensures c.IR == base.IR && c.Keyboard == base.Keyboard && c.DisplayChanged
  {
    Context(
      V := b[..OffsetI],
      I := Word(b[OffsetI], b[OffsetI + 1]),
      PC := Word(b[OffsetPC], b[OffsetPC + 1]),
      SP := b[OffsetSP], DT := b[OffsetDT], ST := b[OffsetST],
      IR := base.IR,
      Stack := seq(StackSize, k requires 0 <= k < StackSize =>
                 Word(b[OffsetStack + 2 * k], b[OffsetStack + 2 * k + 1])),
      Memory := b[OffsetMemory..OffsetR],
      R := b[OffsetR..OffsetExtended],
      Display := Display(b[OffsetExtended] != 0, b[OffsetPixels..OffsetExited]),
      DisplayChanged := true,
      Keyboard := base.Keyboard,
      Exited := b[OffsetExited] != 0)
  }

  /** A file read field by field over the reset context: a short file fills
      only the leading bytes, whatever comes after the image is not read. */
  function Overlay(file: seq<byte>, base: seq<byte>): (b: seq<byte>)
    ensures |b| == |base|
    ensures forall k :: 0 <= k < |b| ==> b[k] == if k < |file| then file[k] else base[k]
  {
    if |file| >= |base| then file[..|base|] else file + base[|file|..]
  }

  /** `LoadState` given the file's bytes: reset, read the fields in save
      order, and mark the display changed. */
  function LoadState(c: Context, file: seq<byte>): (r: Context)
    ensures r.IR == 0 && r.DisplayChanged
    ensures forall k :: 0 <= k < KeyboardKeyCount ==> !r.Keyboard[k]
  {
    var reset := Reset(c);
    Decode(Overlay(file, Encode(reset)), reset)
  }

  lemma WordBytes(w: word)
    ensures Word(LowByte(w), HighByte(w)) == w
  {
  }

  lemma EncodeStackEntry(c: Context, k: nat)
    requires k < StackSize
    ensures Encode(c)[OffsetStack + 2 * k] == LowByte(c.Stack[k])
    ensures Encode(c)[OffsetStack + 2 * k + 1] == HighByte(c.Stack[k])
  {
    EncodeLayout(c);
    var b := Encode(c);
    assert b[OffsetStack + 2 * k] == b[OffsetStack..OffsetMemory][2 * k];
    assert b[OffsetStack + 2 * k + 1] == b[OffsetStack..OffsetMemory][2 * k + 1];
  }

  lemma DecodeEncodeStack(c: Context, base: Context)
    ensures Decode(Encode(c), base).Stack == c.Stack
  {
    var d := Decode(Encode(c), base);
    forall k | 0 <= k < StackSize
      ensures d.Stack[k] == c.Stack[k]
    {
      EncodeStackEntry(c, k);
      WordBytes(c.Stack[k]);
    }
  }

  lemma DecodeEncodeRegisters(c: Context, base: Context)
    ensures var d := Decode(Encode(c), base);
      d.V == c.V && d.I == c.I && d.PC == c.PC && d.SP == c.SP && d.DT == c.DT && d.ST == c.ST
  {
    EncodeLayout(c);
    WordBytes(c.I);
    WordBytes(c.PC);
  }

  lemma DecodeEncodeRest(c: Context, base: Context)
    ensures var d := Decode(Encode(c), base);
      d.Memory == c.Memory && d.R == c.R && d.Display == c.Display && d.Exited == c.Exited
  {
    EncodeLayout(c);
  }

  /** Decoding what Encode wrote restores every saved field. */
  lemma DecodeEncode(c: Context, base: Context)
    ensures Decode(Encode(c), base) == c.(IR := base.IR, Keyboard := base.Keyboard, DisplayChanged := true)
  {
    DecodeEncodeStack(c, base);
    DecodeEncodeRegisters(c, base);
    DecodeEncodeRest(c, base);
  }

  lemma DecodeEncodeSelf(c: Context)
    requires c.DisplayChanged
    ensures Decode(Encode(c), c) == c
  {
    DecodeEncode(c, c);
  }

  lemma OverlayCases(file: seq<byte>, base: seq<byte>)
    ensures file == [] ==> Overlay(file, base) == base
    ensures |file| == |base| ==> Overlay(file, base) == file
  {
  }

  /** Loading a saved state restores the saved context, whatever context it
      is loaded into; only IR (0), the keyboard (released) and the dirty flag
      (set) are not carried over. */
  lemma SaveThenLoad(c: Context, into: Context)
    ensures LoadState(into, Encode(c))
         == c.(IR := 0, Keyboard := seq(KeyboardKeyCount, _ => false), DisplayChanged := true)
  {
    var reset := Reset(into);
    OverlayCases(Encode(c), Encode(reset));
    DecodeEncode(c, reset);
  }

  /** An empty file leaves the reset context. */
  lemma LoadEmpty(c: Context)
    ensures LoadState(c, []) == Reset(c)
  {
    var reset := Reset(c);
    var image := Encode(reset);
    var empty: seq<byte> := [];
    assert Overlay(empty, image) == image by { OverlayCases(empty, image); }
    assert Decode(image, reset) == reset by { DecodeEncodeSelf(reset); }
    assert LoadState(c, empty) == Decode(Overlay(empty, image), reset);
  }

  /** Bytes after a full image are never read. */
  lemma TrailingBytesIgnored(c: Context, file: seq<byte>)
    requires |file| >= StateSize
    ensures LoadState(c, file) == LoadState(c, file[..StateSize])
  {
    var base := Encode(Reset(c));
    assert Overlay(file, base) == Overlay(file[..StateSize], base);
  }

  /** A file cut off right before the memory restores the registers, timers
      and stack, and leaves the memory, flags and screen as Reset left them. */
  lemma TruncatedBeforeMemory(c: Context, into: Context)
    ensures LoadState(into, Encode(c)[..OffsetMemory])
         == Reset(into).(V := c.V, I := c.I, PC := c.PC, SP := c.SP, DT := c.DT, ST := c.ST, Stack := c.Stack)
  {
    var reset := Reset(into);
    var file := Encode(c)[..OffsetMemory];
    var mixed := reset.(V := c.V, I := c.I, PC := c.PC, SP := c.SP, DT := c.DT, ST := c.ST, Stack := c.Stack);
    assert file == RegisterImage(c) by {
      assert Encode(c) == RegisterImage(c) + MemoryImage(c);
    }
    assert Overlay(file, Encode(reset)) == Encode(mixed) by {
      assert Encode(reset)[|file|..] == MemoryImage(reset) by {
        assert Encode(reset) == RegisterImage(reset) + MemoryImage(reset);
      }
      assert RegisterImage(mixed) == RegisterImage(c);
      assert MemoryImage(mixed) == MemoryImage(reset);
    }
    assert Decode(Encode(mixed), reset) == mixed by {
      DecodeEncodeSelf(mixed);
    }
  }
}
