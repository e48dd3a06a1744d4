/** Display mutations of the instruction set: the XOR sprite blit of DRW (in
    both resolutions), CLS and the Super-CHIP scrolls SCD / SCR / SCL. */
module Screen {
  import opened Constants
  import opened Context
  import opened Bits

  // ---------------------------------------------------------------- sprites

  /** A sprite drawn at (x, y) from `rows` bytes of memory starting at `base`.
      A narrow sprite is 8 pixels wide, one byte per row; a wide one is the
      extended-mode 16x16 sprite, two contiguous bytes per row. */
  datatype Sprite = Sprite(x: nat, y: nat, rows: nat, wide: bool, base: nat)

  function Cols(s: Sprite): nat {
    if s.wide then 16 else 8
  }

  /** Number of memory bytes the sprite reads. */
  function ByteCount(s: Sprite): nat {
    if s.wide then 2 * s.rows else s.rows
  }

  /** A sprite of at most 16 rows whose bytes all lie inside memory. */
  predicate Fits(s: Sprite) {
    s.rows <= 16 && s.base + ByteCount(s) <= MemorySize
  }

  /** Offset from `base` of the byte holding pixel (row, col). */
  function ByteIndex(s: Sprite, row: nat, col: nat): nat {
    if s.wide then 2 * row + col / 8 else row
  }

  /** Pixel (row, col) of the sprite: bit 7 - (col mod 8) of its byte,
      `(byte >> (7 - col % 8)) & 1`, so the most significant bit is the
      leftmost pixel. */
  function SpriteBit(mem: Memory, s: Sprite, row: nat, col: nat): (b: nat)
    requires Fits(s) && row < s.rows && col < Cols(s)
    ensures b < 2
  {
    (mem[s.base + ByteIndex(s, row, col)] / Pow2(7 - col % 8)) % 2
  }

  /** `pixel ^ bit` on a byte, for a bit that is 0 or 1: the lowest bit of
      the pixel flips when the bit is set. */
  function XorBit(pixel: byte, bit: nat): (r: byte)
    requires bit < 2
    ensures bit == 0 ==> r == pixel
    ensures bit == 1 ==> r / 2 == pixel / 2 && r % 2 != pixel % 2
  {
    if bit == 0 then pixel
    else if pixel % 2 == 0 then pixel + 1
    else pixel - 1
  }

  /** Flipping by one bit and then another is flipping by their sum mod 2;
      in particular flipping twice by the same bit restores the pixel. */
  lemma XorBitCompose(pixel: byte, a: nat, b: nat)
    requires a < 2 && b < 2
    ensures XorBit(XorBit(pixel, a), b) == XorBit(pixel, (a + b) % 2)
  {
  }

  /** Buffer index of the display pixel that sprite pixel (row, col) lands on:
      coordinates wrap around modulo the current Width and Height. */
  function Target(d: Display, s: Sprite, row: nat, col: nat): (p: nat)
    ensures p < d.Width() * d.Height() <= PixelBufferSize
  {
    PixelIndex(d, (s.x + col) % d.Width(), (s.y + row) % d.Height())
  }

  /** Buffer and collision flag while a sprite is being drawn. */
  datatype Blit = Blit(pixels: PixelBuffer, collided: bool)

  /** One pass of the inner body of the blit loop: the sprite bit is XORed
      into its display pixel, and the flag is raised when a set bit meets a
      lit pixel. */
  function BlitOne(d: Display, mem: Memory, s: Sprite, acc: Blit, row: nat, col: nat): Blit
    requires Fits(s) && row < s.rows && col < Cols(s)
  {
    var p := Target(d, s, row, col);
    var bit := SpriteBit(mem, s, row, col);
    Blit(acc.pixels[p := XorBit(acc.pixels[p], bit)],
         acc.collided || (bit != 0 && acc.pixels[p] != 0))
  }

  /** The blit loop of DRW from sprite pixel (row, col) on, in the C++ order:
      rows outer, columns inner. */
  function BlitFrom(d: Display, mem: Memory, s: Sprite, acc: Blit, row: nat, col: nat): Blit
    requires Fits(s) && col < Cols(s)
    decreases s.rows - row, Cols(s) - col
  {
    if row >= s.rows then acc
    else if col + 1 < Cols(s) then BlitFrom(d, mem, s, BlitOne(d, mem, s, acc, row, col), row, col + 1)
    else BlitFrom(d, mem, s, BlitOne(d, mem, s, acc, row, col), row + 1, 0)
  }

  /** Draws the whole sprite onto the display's buffer with a cleared flag. */
  function Draw(d: Display, mem: Memory, s: Sprite): Blit
    requires Fits(s)
  {
    BlitFrom(d, mem, s, Blit(d.PixelBuffer, false), 0, 0)
  }

  /** Sprite pixel (r, c) comes at or after (row, col) in drawing order. */
  predicate After(r: nat, c: nat, row: nat, col: nat) {
    r > row || (r == row && c >= col)
  }

  /** The parity of the set sprite bits, from (row, col) on, that land on
      pixel q. It does not depend on the buffer being drawn on. */
  ghost function Mask(d: Display, mem: Memory, s: Sprite, row: nat, col: nat, q: nat): (m: nat)
    requires Fits(s) && col < Cols(s)
    ensures m < 2
    decreases s.rows - row, Cols(s) - col
  {
    if row >= s.rows then 0
    else
      var here := if Target(d, s, row, col) == q then SpriteBit(mem, s, row, col) else 0;
      if col + 1 < Cols(s) then (here + Mask(d, mem, s, row, col + 1, q)) % 2
      else (here + Mask(d, mem, s, row + 1, 0, q)) % 2
  }

  /** Row of the sprite pixel drawn after (row, col). */
  function NextRow(s: Sprite, row: nat, col: nat): nat {
    if col + 1 < Cols(s) then row else row + 1
  }

  /** Column of the sprite pixel drawn after (row, col). */
  function NextCol(s: Sprite, row: nat, col: nat): (c: nat)
    ensures c < Cols(s)
  {
    if col + 1 < Cols(s) then col + 1 else 0
  }

  /** One step of the blit loop: draw (row, col), then go on from the next
      pixel. */
  lemma BlitStep(d: Display, mem: Memory, s: Sprite, acc: Blit, row: nat, col: nat)
    requires Fits(s) && col < Cols(s) && row < s.rows
    ensures BlitFrom(d, mem, s, acc, row, col)
         == BlitFrom(d, mem, s, BlitOne(d, mem, s, acc, row, col), NextRow(s, row, col), NextCol(s, row, col))
  {
  }

  /** One step of the mask: the bit of (row, col) if it lands on q, plus the
      mask from the next pixel. */
  lemma MaskStep(d: Display, mem: Memory, s: Sprite, row: nat, col: nat, q: nat)
    requires Fits(s) && col < Cols(s) && row < s.rows
    ensures Mask(d, mem, s, row, col, q)
         == ((if Target(d, s, row, col) == q then SpriteBit(mem, s, row, col) else 0)
             + Mask(d, mem, s, NextRow(s, row, col), NextCol(s, row, col), q)) % 2
  {
  }

  /** The blit XORs every pixel with its mask, whatever was on the buffer. */
  lemma {:induction false} BlitIsXor(d: Display, mem: Memory, s: Sprite, acc: Blit, row: nat, col: nat, q: nat)
    requires Fits(s) && col < Cols(s) && q < PixelBufferSize
    ensures BlitFrom(d, mem, s, acc, row, col).pixels[q] == XorBit(acc.pixels[q], Mask(d, mem, s, row, col, q))
    decreases s.rows - row, Cols(s) - col
  {
    if row < s.rows {
      var next := BlitOne(d, mem, s, acc, row, col);
      var here := if Target(d, s, row, col) == q then SpriteBit(mem, s, row, col) else 0;
      var nrow, ncol := NextRow(s, row, col), NextCol(s, row, col);
      assert next.pixels[q] == XorBit(acc.pixels[q], here);
      BlitStep(d, mem, s, acc, row, col);
      MaskStep(d, mem, s, row, col, q);
      BlitIsXor(d, mem, s, next, nrow, ncol, q);
      XorBitCompose(acc.pixels[q], here, Mask(d, mem, s, nrow, ncol, q));
    }
  }

  /** Distinct sprite pixels land on distinct display pixels: a sprite is at
      most 16 x 16 and the display at least 64 x 32, so wrap-around never
      folds a sprite onto itself. */
  lemma TargetInjective(d: Display, s: Sprite, r1: nat, c1: nat, r2: nat, c2: nat)
    requires Fits(s) && r1 < s.rows && r2 < s.rows && c1 < Cols(s) && c2 < Cols(s)
    requires Target(d, s, r1, c1) == Target(d, s, r2, c2)
    ensures r1 == r2 && c1 == c2
  {
    ModShiftInjective(s.x, c1, c2, d.Width());
    ModShiftInjective(s.y, r1, r2, d.Height());
  }

  /** The mask at the landing pixel of sprite pixel (r, c) is that pixel's
      bit if it is still to be drawn, and 0 otherwise. */
  lemma {:induction false} MaskAtTarget(d: Display, mem: Memory, s: Sprite, row: nat, col: nat, r: nat, c: nat)
    requires Fits(s) && col < Cols(s) && r < s.rows && c < Cols(s)
    ensures Mask(d, mem, s, row, col, Target(d, s, r, c))
         == if After(r, c, row, col) then SpriteBit(mem, s, r, c) else 0
    decreases s.rows - row, Cols(s) - col
  {
    if row < s.rows {
      if (row != r || col != c) && Target(d, s, row, col) == Target(d, s, r, c) {
        TargetInjective(d, s, row, col, r, c);
      }
      MaskStep(d, mem, s, row, col, Target(d, s, r, c));
      MaskAtTarget(d, mem, s, NextRow(s, row, col), NextCol(s, row, col), r, c);
    }
  }

  /** Pixel q is the landing pixel of some sprite pixel. */
  ghost predicate Covered(d: Display, s: Sprite, q: nat) {
    exists r: nat, c: nat :: r < s.rows && c < Cols(s) && Target(d, s, r, c) == q
  }

  /** Pixels the sprite does not cover have mask 0. */
  lemma {:induction false} MaskUncovered(d: Display, mem: Memory, s: Sprite, row: nat, col: nat, q: nat)
    requires Fits(s) && col < Cols(s) && !Covered(d, s, q)
    ensures Mask(d, mem, s, row, col, q) == 0
    decreases s.rows - row, Cols(s) - col
  {
    if row < s.rows {
      if col + 1 < Cols(s) {
        MaskUncovered(d, mem, s, row, col + 1, q);
      } else {
        MaskUncovered(d, mem, s, row + 1, 0, q);
      }
    }
  }

  /** Sprite pixel (r, c) is set and lands on a lit pixel of `pixels`. */
  ghost predicate HitsLit(d: Display, mem: Memory, s: Sprite, pixels: PixelBuffer, r: nat, c: nat) {
    Fits(s) && r < s.rows && c < Cols(s) && SpriteBit(mem, s, r, c) != 0
    && pixels[Target(d, s, r, c)] != 0
  }

  /** The flag after the blit loop is the flag before it, or a set bit still
      to be drawn meeting a pixel lit on the buffer the draw started from. */
  lemma {:induction false} BlitCollision(d: Display, mem: Memory, s: Sprite, start: PixelBuffer, acc: Blit, row: nat, col: nat)
    requires Fits(s) && col < Cols(s)
    requires forall r: nat, c: nat :: r < s.rows && c < Cols(s) && After(r, c, row, col) ==>
      acc.pixels[Target(d, s, r, c)] == start[Target(d, s, r, c)]
    ensures BlitFrom(d, mem, s, acc, row, col).collided
      <==> acc.collided || exists r: nat, c: nat :: After(r, c, row, col) && HitsLit(d, mem, s, start, r, c)
    decreases s.rows - row, Cols(s) - col
  {
    if row < s.rows {
      var p := Target(d, s, row, col);
      var next := BlitOne(d, mem, s, acc, row, col);
      var nrow, ncol := NextRow(s, row, col), NextCol(s, row, col);
      BlitStep(d, mem, s, acc, row, col);
      forall r: nat, c: nat | r < s.rows && c < Cols(s) && After(r, c, nrow, ncol)
        ensures next.pixels[Target(d, s, r, c)] == start[Target(d, s, r, c)]
      {
        if Target(d, s, r, c) == p {
          TargetInjective(d, s, r, c, row, col);
        }
      }
      BlitCollision(d, mem, s, start, next, nrow, ncol);
      if next.collided && !acc.collided {
        assert HitsLit(d, mem, s, start, row, col);
      }
      if exists r: nat, c: nat :: After(r, c, row, col) && HitsLit(d, mem, s, start, r, c) {
        var r: nat, c: nat :| After(r, c, row, col) && HitsLit(d, mem, s, start, r, c);
        if r == row && c == col {
          assert next.collided;
        } else {
          assert After(r, c, nrow, ncol);
        }
      }
    }
  }

  /** DRW's collision flag: set iff some set sprite bit lands on a lit pixel. */
  lemma DrawCollision(d: Display, mem: Memory, s: Sprite)
    requires Fits(s)
    ensures Draw(d, mem, s).collided
      <==> exists r: nat, c: nat :: HitsLit(d, mem, s, d.PixelBuffer, r, c)
  {
    BlitCollision(d, mem, s, d.PixelBuffer, Blit(d.PixelBuffer, false), 0, 0);
  }

  /** DRW toggles exactly the pixels under the set sprite bits: a covered
      pixel is XORed with the bit landing on it, every other pixel (including
      those past Width x Height) keeps its value. */
  lemma DrawPixels(d: Display, mem: Memory, s: Sprite)
    requires Fits(s)
    ensures forall r: nat, c: nat :: r < s.rows && c < Cols(s) ==>
      Draw(d, mem, s).pixels[Target(d, s, r, c)] == XorBit(d.PixelBuffer[Target(d, s, r, c)], SpriteBit(mem, s, r, c))
    ensures forall q :: 0 <= q < PixelBufferSize && !Covered(d, s, q) ==>
      Draw(d, mem, s).pixels[q] == d.PixelBuffer[q]
  {
    forall r: nat, c: nat | r < s.rows && c < Cols(s)
      ensures Draw(d, mem, s).pixels[Target(d, s, r, c)] == XorBit(d.PixelBuffer[Target(d, s, r, c)], SpriteBit(mem, s, r, c))
    {
      BlitIsXor(d, mem, s, Blit(d.PixelBuffer, false), 0, 0, Target(d, s, r, c));
      MaskAtTarget(d, mem, s, 0, 0, r, c);
    }
    forall q | 0 <= q < PixelBufferSize && !Covered(d, s, q)
      ensures Draw(d, mem, s).pixels[q] == d.PixelBuffer[q]
    {
      BlitIsXor(d, mem, s, Blit(d.PixelBuffer, false), 0, 0, q);
      MaskUncovered(d, mem, s, 0, 0, q);
    }
  }

  /** The mask depends on the display only through its mode. */
  lemma {:induction false} MaskModeOnly(d1: Display, d2: Display, mem: Memory, s: Sprite, row: nat, col: nat, q: nat)
    requires Fits(s) && col < Cols(s) && d1.ExtendedMode == d2.ExtendedMode
    ensures Mask(d1, mem, s, row, col, q) == Mask(d2, mem, s, row, col, q)
    decreases s.rows - row, Cols(s) - col
  {
    if row < s.rows {
      if col + 1 < Cols(s) {
        MaskModeOnly(d1, d2, mem, s, row, col + 1, q);
      } else {
        MaskModeOnly(d1, d2, mem, s, row + 1, 0, q);
      }
    }
  }

  /** Drawing the same sprite twice at the same spot restores every pixel. */
  lemma DrawTwiceRestores(d: Display, mem: Memory, s: Sprite)
    requires Fits(s)
    ensures Draw(d.(PixelBuffer := Draw(d, mem, s).pixels), mem, s).pixels == d.PixelBuffer
  {
    var once := Draw(d, mem, s).pixels;
    var d1 := d.(PixelBuffer := once);
    forall q | 0 <= q < PixelBufferSize
      ensures Draw(d1, mem, s).pixels[q] == d.PixelBuffer[q]
    {
      BlitIsXor(d, mem, s, Blit(d.PixelBuffer, false), 0, 0, q);
      BlitIsXor(d1, mem, s, Blit(once, false), 0, 0, q);
      MaskModeOnly(d, d1, mem, s, 0, 0, q);
      var m := Mask(d, mem, s, 0, 0, q);
      XorBitCompose(d.PixelBuffer[q], m, m);
    }
  }

  /** On the second of two identical draws the flag is set as soon as some set
      sprite bit landed on a pixel that was unlit before the first draw (on a
      blank screen: as soon as the sprite has a set bit). */
  lemma DrawTwiceCollides(d: Display, mem: Memory, s: Sprite, r: nat, c: nat)
    requires Fits(s) && r < s.rows && c < Cols(s)
    requires SpriteBit(mem, s, r, c) != 0 && d.PixelBuffer[Target(d, s, r, c)] == 0
    ensures Draw(d.(PixelBuffer := Draw(d, mem, s).pixels), mem, s).collided
  {
    var d1 := d.(PixelBuffer := Draw(d, mem, s).pixels);
    DrawPixels(d, mem, s);
    assert Target(d1, s, r, c) == Target(d, s, r, c);
    assert HitsLit(d1, mem, s, d1.PixelBuffer, r, c);
    DrawCollision(d1, mem, s);
  }

  // ------------------------------------------------------ clear and scrolls

  /** CLS: every byte of the buffer, including the part past the current
      resolution, becomes 0. */
  function Cleared(): (p: PixelBuffer)
    ensures forall q :: 0 <= q < PixelBufferSize ==> p[q] == 0
  {
    seq(PixelBufferSize, _ => 0)
  }

  /** The current-resolution pixel (x, y) exists. */
  predicate OnScreen(d: Display, x: int, y: int) {
    0 <= x < d.Width() && 0 <= y < d.Height()
  }

  /** Value of buffer index q after every on-screen pixel (x, y) is replaced
      by pixel (x + dx, y + dy), or by 0 when that one is off screen. */
  function ShiftedPixel(d: Display, dx: int, dy: int, q: nat): byte
    requires q < PixelBufferSize
  {
    if q < d.Width() * d.Height() then
      var x := q % d.Width();
      var y := q / d.Width();
      if OnScreen(d, x + dx, y + dy) then d.PixelBuffer[PixelIndex(d, x + dx, y + dy)] else 0
    else d.PixelBuffer[q]
  }

  /** The buffer with the picture moved by (-dx, -dy): the common shape of
      SCD n (dy = n), SCR (dx = 4) and SCL (dx = -4). Pixels past the current
      resolution keep their value. The in-place copy loops of the three
      handlers are written out separately below (ScrollDownInPlace,
      ScrollRightInPlace, ScrollLeftInPlace) and proved to compute it. */
  function Shifted(d: Display, dx: int, dy: int): (p: PixelBuffer)
    ensures forall x, y :: OnScreen(d, x, y) ==>
      p[PixelIndex(d, x, y)]
        == if OnScreen(d, x + dx, y + dy) then d.PixelBuffer[PixelIndex(d, x + dx, y + dy)] else 0
    ensures forall q :: d.Width() * d.Height() <= q < PixelBufferSize ==> p[q] == d.PixelBuffer[q]
  {
    seq(PixelBufferSize, q requires 0 <= q < PixelBufferSize => ShiftedPixel(d, dx, dy, q))
  }

  /** Two shifts in the same direction add up: SCD a then SCD b is SCD a+b,
      and two SCR (SCL) are one scroll by 8 pixels. */
  lemma ShiftedCompose(d: Display, dx1: int, dy1: int, dx2: int, dy2: int)
    requires (dx1 >= 0 && dx2 >= 0) || (dx1 <= 0 && dx2 <= 0)
    requires (dy1 >= 0 && dy2 >= 0) || (dy1 <= 0 && dy2 <= 0)
    ensures Shifted(d.(PixelBuffer := Shifted(d, dx1, dy1)), dx2, dy2) == Shifted(d, dx1 + dx2, dy1 + dy2)
  {
    var a := Shifted(d.(PixelBuffer := Shifted(d, dx1, dy1)), dx2, dy2);
    var b := Shifted(d, dx1 + dx2, dy1 + dy2);
    forall q | 0 <= q < PixelBufferSize
      ensures a[q] == b[q]
    {
      if q < d.Width() * d.Height() {
        PixelCoordinates(d, q);
        ShiftedComposeAt(d, dx1, dy1, dx2, dy2, q % d.Width(), q / d.Width());
      }
    }
  }

  /** ShiftedCompose at one on-screen pixel. */
  lemma ShiftedComposeAt(d: Display, dx1: int, dy1: int, dx2: int, dy2: int, x: nat, y: nat)
    requires (dx1 >= 0 && dx2 >= 0) || (dx1 <= 0 && dx2 <= 0)
    requires (dy1 >= 0 && dy2 >= 0) || (dy1 <= 0 && dy2 <= 0)
    requires OnScreen(d, x, y)
    ensures Shifted(d.(PixelBuffer := Shifted(d, dx1, dy1)), dx2, dy2)[PixelIndex(d, x, y)]
         == Shifted(d, dx1 + dx2, dy1 + dy2)[PixelIndex(d, x, y)]
  {
    var d1 := d.(PixelBuffer := Shifted(d, dx1, dy1));
    assert PixelIndex(d1, x, y) == PixelIndex(d, x, y);
    if OnScreen(d, x + dx2, y + dy2) {
      assert PixelIndex(d1, x + dx2, y + dy2) == PixelIndex(d, x + dx2, y + dy2);
    }
  }

  /** SCL after SCR brings back every column except the four leftmost, which
      end up blank. */
  lemma ScrollRightThenLeft(d: Display)
    ensures forall x, y :: OnScreen(d, x, y) ==>
      Shifted(d.(PixelBuffer := Shifted(d, 4, 0)), -4, 0)[PixelIndex(d, x, y)]
        == if x < 4 then 0 else d.PixelBuffer[PixelIndex(d, x, y)]
  {
  }

  // The C++ scrolls work in place on the buffer. Each loop below follows the
  // C++ iteration order and is proved to compute the functional picture
  // above: every read hits a pixel the loop has not overwritten yet.

  /** SCD n as written: rows top to bottom, each row copied left to right
      from n rows below, or zero-filled when that row is off screen. */
  method ScrollDownInPlace(d: Display, n: nat) returns (buf: PixelBuffer)
    ensures buf == Shifted(d, 0, n)
  {
    var w, h := d.Width(), d.Height();
    var target := Shifted(d, 0, n);
    buf := d.PixelBuffer;
    var y := 0;
    while y < h
      invariant 0 <= y <= h
      invariant forall x', y' :: OnScreen(d, x', y') ==>
        buf[PixelIndex(d, x', y')] == if y' < y then target[PixelIndex(d, x', y')] else d.PixelBuffer[PixelIndex(d, x', y')]
      invariant forall q :: w * h <= q < PixelBufferSize ==> buf[q] == d.PixelBuffer[q]
    {
      var x := 0;
      while x < w
        invariant 0 <= x <= w
        invariant forall x', y' :: OnScreen(d, x', y') ==>
          buf[PixelIndex(d, x', y')]
            == if y' < y || (y' == y && x' < x) then target[PixelIndex(d, x', y')] else d.PixelBuffer[PixelIndex(d, x', y')]
        invariant forall q :: w * h <= q < PixelBufferSize ==> buf[q] == d.PixelBuffer[q]
      {
        var v := if y + n < h then buf[PixelIndex(d, x, y + n)] else 0;
        buf := buf[PixelIndex(d, x, y) := v];
        x := x + 1;
      }
      y := y + 1;
    }
    SameOnScreen(d, buf, target);
  }

  /** SCR as written: columns left to right, each column top to bottom,
      taking the pixel four columns to the right or 0. */
  method ScrollRightInPlace(d: Display) returns (buf: PixelBuffer)
    ensures buf == Shifted(d, 4, 0)
  {
    var w, h := d.Width(), d.Height();
    var target := Shifted(d, 4, 0);
    buf := d.PixelBuffer;
    var x := 0;
    while x < w
      invariant 0 <= x <= w
      invariant forall x', y' :: OnScreen(d, x', y') ==>
        buf[PixelIndex(d, x', y')] == if x' < x then target[PixelIndex(d, x', y')] else d.PixelBuffer[PixelIndex(d, x', y')]
      invariant forall q :: w * h <= q < PixelBufferSize ==> buf[q] == d.PixelBuffer[q]
    {
      var y := 0;
      while y < h
        invariant 0 <= y <= h
        invariant forall x', y' :: OnScreen(d, x', y') ==>
          buf[PixelIndex(d, x', y')]
            == if x' < x || (x' == x && y' < y) then target[PixelIndex(d, x', y')] else d.PixelBuffer[PixelIndex(d, x', y')]
        invariant forall q :: w * h <= q < PixelBufferSize ==> buf[q] == d.PixelBuffer[q]
      {
        var v := if x + 4 >= w then 0 else buf[PixelIndex(d, x + 4, y)];
        buf := buf[PixelIndex(d, x, y) := v];
        y := y + 1;
      }
      x := x + 1;
    }
    SameOnScreen(d, buf, target);
  }

  /** SCL as written: columns right to left, each column top to bottom,
      taking the pixel four columns to the left, or 0 in the first four. */
  method ScrollLeftInPlace(d: Display) returns (buf: PixelBuffer)
    ensures buf == Shifted(d, -4, 0)
  {
    var w, h := d.Width(), d.Height();
    var target := Shifted(d, -4, 0);
    buf := d.PixelBuffer;
    var k := w;
    while k > 0
      invariant 0 <= k <= w
      invariant forall x', y' :: OnScreen(d, x', y') ==>
        buf[PixelIndex(d, x', y')] == if x' >= k then target[PixelIndex(d, x', y')] else d.PixelBuffer[PixelIndex(d, x', y')]
      invariant forall q :: w * h <= q < PixelBufferSize ==> buf[q] == d.PixelBuffer[q]
    {
      var x := k - 1;
      var y := 0;
      while y < h
        invariant 0 <= y <= h
        invariant forall x', y' :: OnScreen(d, x', y') ==>
          buf[PixelIndex(d, x', y')]
            == if x' > x || (x' == x && y' < y) then target[PixelIndex(d, x', y')] else d.PixelBuffer[PixelIndex(d, x', y')]
        invariant forall q :: w * h <= q < PixelBufferSize ==> buf[q] == d.PixelBuffer[q]
      {
        var v := if x < 4 then 0 else buf[PixelIndex(d, x - 4, y)];
        buf := buf[PixelIndex(d, x, y) := v];
        y := y + 1;
      }
      k := x;
    }
    SameOnScreen(d, buf, target);
  }

  /** Two buffers that agree on every on-screen pixel and past the screen
      are equal. */
  lemma SameOnScreen(d: Display, a: PixelBuffer, b: PixelBuffer)
    requires forall x, y :: OnScreen(d, x, y) ==> a[PixelIndex(d, x, y)] == b[PixelIndex(d, x, y)]
    requires forall q :: d.Width() * d.Height() <= q < PixelBufferSize ==> a[q] == b[q]
    ensures a == b
  {
    forall q | 0 <= q < PixelBufferSize
      ensures a[q] == b[q]
    {
      if q < d.Width() * d.Height() {
        PixelCoordinates(d, q);
        assert a[PixelIndex(d, q % d.Width(), q / d.Width())] == b[PixelIndex(d, q % d.Width(), q / d.Width())];
      }
    }
  }
}
