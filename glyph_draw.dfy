/** The drawing shared by both display adapters (`drawCombinedGlyph` and
    `getPixelFromGlyph` of `HangulDisp/HangulDisp.h` and `hangulDisp.h`):
    up to three 32-byte glyphs, addressed by offsets into read-only font
    memory, are OR-ed pixel by pixel, and each lit pixel is drawn as a
    scaleX x scaleY block through the pixel callback.

    The callback is a `PixelSink` object that records every call it receives,
    in order; what a display does with the calls is not modelled. */
module GlyphDraw {
  import opened Bytes
  import opened FontLayout

  /** `HangulSize`: normal, double width, double height, both. */
  datatype HangulSize = Normal | H2 | V2 | X4

  /** `HangulColor`. */
  datatype HangulColor = Black | White | Invert

  /** The enumerators' values: `HG_COLOR_BLACK = 0`, `HG_COLOR_WHITE = 1`, `HG_COLOR_INVERT = 2`. */
  function ColorCode(c: HangulColor): uint16
  {
    match c
    case Black => 0
    case White => 1
    case Invert => 2
  }

  /** Horizontal scale: 2 for H2 and X4. */
  function ScaleX(size: HangulSize): (s: nat)
    ensures s == 1 || s == 2
    ensures s == 2 <==> size == H2 || size == X4
  {
    if size == H2 || size == X4 then 2 else 1
  }

  /** Vertical scale: 2 for V2 and X4. */
  function ScaleY(size: HangulSize): (s: nat)
    ensures s == 1 || s == 2
    ensures s == 2 <==> size == V2 || size == X4
  {
    if size == V2 || size == X4 then 2 else 1
  }

  /** One call of the pixel callback. */
  datatype PixelCall = PixelCall(x: int, y: int, color: nat)

  /** The pixel callback: it records the calls it receives. */
  class PixelSink {
    var calls: seq<PixelCall>

    constructor()
      ensures calls == []
    {
      calls := [];
    }

    method DrawPixel(x: int, y: int, color: nat)
      modifies this
      ensures calls == old(calls) + [PixelCall(x, y, color)]
    {
      calls := calls + [PixelCall(x, y, color)];
    }
  }

  /** `HangulGlyphSet`: the offsets of the lead, vowel and trail glyphs; None is a null pointer. */
  datatype GlyphSet = GlyphSet(cho: Option<nat>, jung: Option<nat>, jong: Option<nat>)

  /** A 32-byte glyph record at offset g lies inside the memory. */
  predicate GlyphFits(rom: seq<byte>, g: Option<nat>)
  {
    g.Some? ==> g.value + BYTES_PER_GLYPH <= |rom|
  }

  predicate SetFits(rom: seq<byte>, gs: GlyphSet)
  {
    GlyphFits(rom, gs.cho) && GlyphFits(rom, gs.jung) && GlyphFits(rom, gs.jong)
  }

  /** getPixelFromGlyph: bit `0x8000 >> col` of the big-endian row word `rom[g+2row] << 8 | rom[g+2row+1]`. */
  predicate GetPixelFromGlyph(rom: seq<byte>, g: nat, row: nat, col: nat)
    requires g + BYTES_PER_GLYPH <= |rom| && row < 16 && col < 16
  {
    BitSet((rom[g + 2 * row] as nat) * 256 + rom[g + 2 * row + 1], 15 - col)
  }

  /** The powers of two below 2^16. */
  lemma SmallPowers()
    ensures Pow2(0) == 1 && Pow2(1) == 2 && Pow2(2) == 4 && Pow2(3) == 8
    ensures Pow2(4) == 16 && Pow2(5) == 32 && Pow2(6) == 64 && Pow2(7) == 128
    ensures Pow2(8) == 256 && Pow2(9) == 512 && Pow2(10) == 1024 && Pow2(11) == 2048
    ensures Pow2(12) == 4096 && Pow2(13) == 8192 && Pow2(14) == 16384 && Pow2(15) == 32768
  {
  }

  /** Bit k of a byte, placed as the high byte of a word, is bit k + 8 of the word. */
  lemma HighByteBit(hi: byte, lo: byte, k: nat)
    requires k < 8
    ensures BitSet((hi as nat) * 256 + lo, k + 8) <==> BitSet(hi, k)
  {
    SmallPowers();
    var w: nat := (hi as nat) * 256 + lo;
    var p := Pow2(k);
    assert Pow2(k + 8) == p * 256;
    var q, r := hi / p, hi % p;
    assert w == q * (p * 256) + (r * 256 + lo);
    DivModOfSum(q, r * 256 + lo, p * 256);
  }

  /** Bit k of a byte, placed as the low byte of a word, is bit k of the word. */
  lemma LowByteBit(hi: byte, lo: byte, k: nat)
    requires k < 8
    ensures BitSet((hi as nat) * 256 + lo, k) <==> BitSet(lo, k)
  {
    ByteScale(k);
    EvenMultipleDiv(hi, lo, Pow2(k), Pow2(7 - k));
  }

  /** Adding h * 256 does not change bit 0 of the quotient by a p dividing 256 evenly. */
  lemma EvenMultipleDiv(h: nat, lo: nat, p: nat, m: nat)
    requires p >= 1 && p * (2 * m) == 256
    ensures ((h * 256 + lo) / p) % 2 == (lo / p) % 2
  {
    var t, q, r := h * m, lo / p, lo % p;
    assert lo == q * p + r;
    Regroup(h, p, m);
    assert h * 256 == (2 * t) * p;
    Distribute(2 * t, q, p, r);
    assert h * 256 + lo == (2 * t + q) * p + r;
    DivModOfSum(2 * t + q, r, p);
    EvenPlus(t, q);
  }

  /** Adding an even number keeps the parity. */
  lemma EvenPlus(t: nat, q: nat)
    ensures (2 * t + q) % 2 == q % 2
  {
  }

  /** Products regroup: h * (p * 2m) is (2 * hm) * p. */
  lemma Regroup(h: nat, p: nat, m: nat)
    ensures h * (p * (2 * m)) == (2 * (h * m)) * p
  {
  }

  /** Multiplication distributes over a sum of quotients. */
  lemma Distribute(a: nat, q: nat, p: nat, r: nat)
    ensures (a + q) * p + r == a * p + (q * p + r)
  {
  }

  /** 256 is 2^k times the even number 2 * 2^(7-k). */
  lemma ByteScale(k: nat)
    requires k < 8
    ensures Pow2(k) * (2 * Pow2(7 - k)) == 256
  {
    Pow2Add(k, 8 - k);
    assert Pow2(8) == 256;
  }

  /** Powers of two multiply by adding exponents. */
  lemma {:induction false} Pow2Add(i: nat, j: nat)
    ensures Pow2(i + j) == Pow2(i) * Pow2(j)
  {
    if i > 0 {
      Pow2Add(i - 1, j);
    }
  }

  /** The word test of the adapters reads the same bit as the byte test of the desktop
      renderer: bit `7 - col % 8` of byte `col / 8` of the row. */
  lemma PixelIsByteBit(rom: seq<byte>, g: nat, row: nat, col: nat)
    requires g + BYTES_PER_GLYPH <= |rom| && row < 16 && col < 16
    ensures GetPixelFromGlyph(rom, g, row, col) <==> BitSet(rom[g + 2 * row + col / 8], 7 - col % 8)
  {
    var hi, lo := rom[g + 2 * row], rom[g + 2 * row + 1];
    if col < 8 {
      HighByteBit(hi, lo, 7 - col);
    } else {
      LowByteBit(hi, lo, 15 - col);
    }
  }

  /** The OR of the present glyphs at (row, col). */
  predicate Lit(rom: seq<byte>, gs: GlyphSet, row: nat, col: nat)
    requires SetFits(rom, gs) && row < 16 && col < 16
  {
    (gs.cho.Some? && GetPixelFromGlyph(rom, gs.cho.value, row, col)) ||
    (gs.jung.Some? && GetPixelFromGlyph(rom, gs.jung.value, row, col)) ||
    (gs.jong.Some? && GetPixelFromGlyph(rom, gs.jong.value, row, col))
  }

  /** The calls drawing one horizontal run of n pixels starting at (px, py). */
  function SpanCalls(px: int, py: int, n: nat, color: nat): (cs: seq<PixelCall>)
    ensures |cs| == n
    ensures forall i :: 0 <= i < n ==> cs[i] == PixelCall(px + i, py, color)
  {
    if n == 0 then [] else SpanCalls(px, py, n - 1, color) + [PixelCall(px + n - 1, py, color)]
  }

  /** The calls drawing the first m rows of a block sX pixels wide at (px, py). */
  function BlockCalls(px: int, py: int, sX: nat, m: nat, color: nat): seq<PixelCall>
  {
    if m == 0 then [] else BlockCalls(px, py, sX, m - 1, color) + SpanCalls(px, py + m - 1, sX, color)
  }

  /** A block of m rows sX pixels wide makes sX * m calls. */
  lemma {:induction false} BlockCallsLength(px: int, py: int, sX: nat, m: nat, color: nat)
    ensures |BlockCalls(px, py, sX, m, color)| == sX * m
  {
    if m > 0 {
      BlockCallsLength(px, py, sX, m - 1, color);
      MulDistributes(sX, m - 1, 1);
    }
  }

  /** The calls for glyph pixel (row, col): a block when it is lit, nothing otherwise. */
  function CellCalls(rom: seq<byte>, gs: GlyphSet, x: int, y: int, sX: nat, sY: nat, color: nat,
                     row: nat, col: nat): seq<PixelCall>
    requires SetFits(rom, gs) && row < 16 && col < 16
  {
    if Lit(rom, gs, row, col) then BlockCalls(x + col * sX, y + row * sY, sX, sY, color) else []
  }

  /** The calls for the first n pixels of glyph row `row`. */
  function RowCalls(rom: seq<byte>, gs: GlyphSet, x: int, y: int, sX: nat, sY: nat, color: nat,
                    row: nat, n: nat): seq<PixelCall>
    requires SetFits(rom, gs) && row < 16 && n <= 16
  {
    if n == 0 then [] else RowCalls(rom, gs, x, y, sX, sY, color, row, n - 1) + CellCalls(rom, gs, x, y, sX, sY, color, row, n - 1)
  }

  /** The calls for the first m glyph rows. */
  function GlyphCalls(rom: seq<byte>, gs: GlyphSet, x: int, y: int, sX: nat, sY: nat, color: nat,
                      m: nat): seq<PixelCall>
    requires SetFits(rom, gs) && m <= 16
  {
    if m == 0 then [] else GlyphCalls(rom, gs, x, y, sX, sY, color, m - 1) + RowCalls(rom, gs, x, y, sX, sY, color, m - 1, 16)
  }

  /** drawCombinedGlyph's loops: row, column, then the scaled block row by row. */
  method DrawGlyphSet(sink: PixelSink, rom: seq<byte>, x: int, y: int, gs: GlyphSet,
                      sX: nat, sY: nat, color: nat)
    requires SetFits(rom, gs)
    modifies sink
    ensures sink.calls == old(sink.calls) + GlyphCalls(rom, gs, x, y, sX, sY, color, 16)
  {
    for row := 0 to GLYPH_HEIGHT
      invariant sink.calls == old(sink.calls) + GlyphCalls(rom, gs, x, y, sX, sY, color, row)
    {
      DrawGlyphRow(sink, rom, x, y, gs, sX, sY, color, row);
    }
  }

  /** The column loop of drawCombinedGlyph for one glyph row. */
  method DrawGlyphRow(sink: PixelSink, rom: seq<byte>, x: int, y: int, gs: GlyphSet,
                      sX: nat, sY: nat, color: nat, row: nat)
    requires SetFits(rom, gs) && row < 16
    modifies sink
    ensures sink.calls == old(sink.calls) + RowCalls(rom, gs, x, y, sX, sY, color, row, 16)
  {
    for col := 0 to GLYPH_WIDTH
      invariant sink.calls == old(sink.calls) + RowCalls(rom, gs, x, y, sX, sY, color, row, col)
    {
      DrawCell(sink, rom, x, y, gs, sX, sY, color, row, col);
      AppendAssoc(old(sink.calls), RowCalls(rom, gs, x, y, sX, sY, color, row, col),
                  CellCalls(rom, gs, x, y, sX, sY, color, row, col));
    }
  }

  /** The body of the column loop of drawCombinedGlyph: a scaled block for a lit pixel. */
  method DrawCell(sink: PixelSink, rom: seq<byte>, x: int, y: int, gs: GlyphSet,
                  sX: nat, sY: nat, color: nat, row: nat, col: nat)
    requires SetFits(rom, gs) && row < 16 && col < 16
    modifies sink
    ensures sink.calls == old(sink.calls) + CellCalls(rom, gs, x, y, sX, sY, color, row, col)
  {
    var pixel := CombinedPixel(rom, gs, row, col);
    if pixel {
      DrawBlock(sink, x + col * sX, y + row * sY, sX, sY, color);
    }
  }

  /** The pixel test of drawCombinedGlyph: the OR of the pixels of the present glyphs. */
  method CombinedPixel(rom: seq<byte>, gs: GlyphSet, row: nat, col: nat) returns (pixel: bool)
    requires SetFits(rom, gs) && row < 16 && col < 16
    ensures pixel == Lit(rom, gs, row, col)
  {
    pixel := false;
    if gs.cho.Some? {
      pixel := pixel || GetPixelFromGlyph(rom, gs.cho.value, row, col);
    }
    if gs.jung.Some? {
      pixel := pixel || GetPixelFromGlyph(rom, gs.jung.value, row, col);
    }
    if gs.jong.Some? {
      pixel := pixel || GetPixelFromGlyph(rom, gs.jong.value, row, col);
    }
  }

  /** The two scale loops of drawCombinedGlyph for one lit pixel. */
  method DrawBlock(sink: PixelSink, px: int, py: int, sX: nat, sY: nat, color: nat)
    modifies sink
    ensures sink.calls == old(sink.calls) + BlockCalls(px, py, sX, sY, color)
  {
    for sy := 0 to sY
      invariant sink.calls == old(sink.calls) + BlockCalls(px, py, sX, sy, color)
    {
      for sx := 0 to sX
        invariant sink.calls == old(sink.calls) + BlockCalls(px, py, sX, sy, color) + SpanCalls(px, py + sy, sx, color)
      {
        sink.DrawPixel(px + sx, py + sy, color);
      }
    }
  }

  /** Number of lit pixels among the first n of row `row`. */
  function LitInRow(rom: seq<byte>, gs: GlyphSet, row: nat, n: nat): (k: nat)
    requires SetFits(rom, gs) && row < 16 && n <= 16
    ensures k <= n
  {
    if n == 0 then 0 else LitInRow(rom, gs, row, n - 1) + (if Lit(rom, gs, row, n - 1) then 1 else 0)
  }

  /** Number of lit pixels in the first m rows. */
  function LitCount(rom: seq<byte>, gs: GlyphSet, m: nat): (k: nat)
    requires SetFits(rom, gs) && m <= 16
    ensures k <= 16 * m
  {
    if m == 0 then 0 else LitCount(rom, gs, m - 1) + LitInRow(rom, gs, m - 1, 16)
  }

  /** Every lit pixel gives exactly sX * sY calls, an unlit one none. */
  lemma {:induction false} GlyphCallCount(rom: seq<byte>, gs: GlyphSet, x: int, y: int, sX: nat, sY: nat,
                                          color: nat, m: nat)
    requires SetFits(rom, gs) && m <= 16
    ensures |GlyphCalls(rom, gs, x, y, sX, sY, color, m)| == sX * sY * LitCount(rom, gs, m)
  {
    if m > 0 {
      var b := sX * sY;
      GlyphCallCount(rom, gs, x, y, sX, sY, color, m - 1);
      RowCallCount(rom, gs, x, y, sX, sY, color, m - 1, 16);
      var l1, l2 := LitCount(rom, gs, m - 1), LitInRow(rom, gs, m - 1, 16);
      assert |GlyphCalls(rom, gs, x, y, sX, sY, color, m)| ==
             |GlyphCalls(rom, gs, x, y, sX, sY, color, m - 1)| + |RowCalls(rom, gs, x, y, sX, sY, color, m - 1, 16)|;
      MulDistributes(b, l1, l2);
    }
  }

  lemma {:induction false} RowCallCount(rom: seq<byte>, gs: GlyphSet, x: int, y: int, sX: nat, sY: nat,
                                        color: nat, row: nat, n: nat)
    requires SetFits(rom, gs) && row < 16 && n <= 16
    ensures |RowCalls(rom, gs, x, y, sX, sY, color, row, n)| == sX * sY * LitInRow(rom, gs, row, n)
  {
    if n > 0 {
      var b := sX * sY;
      RowCallCount(rom, gs, x, y, sX, sY, color, row, n - 1);
      var l1 := LitInRow(rom, gs, row, n - 1);
      var cell := CellCalls(rom, gs, x, y, sX, sY, color, row, n - 1);
      var lit := Lit(rom, gs, row, n - 1);
      BlockCallsLength(x + (n - 1) * sX, y + row * sY, sX, sY, color);
      CountStep(|RowCalls(rom, gs, x, y, sX, sY, color, row, n)|, b, l1, lit, |cell|, LitInRow(rom, gs, row, n));
    }
  }

  /** Appending a cell of b calls when it is lit, none otherwise, keeps the count at b
      times the number of lit pixels. */
  lemma CountStep(len: int, b: int, l1: int, lit: bool, cellLen: int, l: int)
    requires len == b * l1 + cellLen
    requires cellLen == if lit then b else 0
    requires l == l1 + (if lit then 1 else 0)
    ensures len == b * l
  {
    MulDistributes(b, l1, if lit then 1 else 0);
  }

  lemma MulDistributes(b: int, u: int, v: int)
    ensures b * u + b * v == b * (u + v)
  {
  }

  /** A block's calls are exactly the pixels (px + sx, py + sy) with sx < sX, sy < m. */
  lemma {:induction false} BlockCallsContents(px: int, py: int, sX: nat, m: nat, color: nat, call: PixelCall)
    ensures call in BlockCalls(px, py, sX, m, color) <==>
              call.color == color && px <= call.x < px + sX && py <= call.y < py + m
  {
    if m > 0 {
      BlockCallsContents(px, py, sX, m - 1, color, call);
      var sp := SpanCalls(px, py + m - 1, sX, color);
      if call.color == color && px <= call.x < px + sX && call.y == py + m - 1 {
        assert sp[call.x - px] == call;
      }
    }
  }

  /** The call is one of those drawing the block of the lit glyph pixel (row, col). */
  predicate InCell(rom: seq<byte>, gs: GlyphSet, x: int, y: int, sX: nat, sY: nat, color: nat,
                   row: nat, col: nat, call: PixelCall)
    requires SetFits(rom, gs) && row < 16 && col < 16
  {
    Lit(rom, gs, row, col) && call in BlockCalls(x + col * sX, y + row * sY, sX, sY, color)
  }

  /** The calls of a row are exactly those in the blocks of its lit pixels. */
  lemma {:induction false} RowCallsContents(rom: seq<byte>, gs: GlyphSet, x: int, y: int, sX: nat, sY: nat,
                                            color: nat, row: nat, n: nat, call: PixelCall)
    requires SetFits(rom, gs) && row < 16 && n <= 16
    ensures call in RowCalls(rom, gs, x, y, sX, sY, color, row, n) <==>
              exists col :: 0 <= col < n && InCell(rom, gs, x, y, sX, sY, color, row, col, call)
  {
    if n > 0 {
      RowCallsContents(rom, gs, x, y, sX, sY, color, row, n - 1, call);
      var before := RowCalls(rom, gs, x, y, sX, sY, color, row, n - 1);
      var cell := CellCalls(rom, gs, x, y, sX, sY, color, row, n - 1);
      assert RowCalls(rom, gs, x, y, sX, sY, color, row, n) == before + cell;
      assert call in cell <==> InCell(rom, gs, x, y, sX, sY, color, row, n - 1, call);
      if call in before {
        var col :| 0 <= col < n - 1 && InCell(rom, gs, x, y, sX, sY, color, row, col, call);
        assert 0 <= col < n && InCell(rom, gs, x, y, sX, sY, color, row, col, call);
      } else if call in cell {
        assert 0 <= n - 1 < n && InCell(rom, gs, x, y, sX, sY, color, row, n - 1, call);
      }
      if exists col :: 0 <= col < n && InCell(rom, gs, x, y, sX, sY, color, row, col, call) {
        var col :| 0 <= col < n && InCell(rom, gs, x, y, sX, sY, color, row, col, call);
        if col < n - 1 {
          assert call in before;
        } else {
          assert call in cell;
        }
      }
    }
  }

  /** drawCombinedGlyph calls the callback exactly within the blocks of the lit pixels:
      the block of (row, col) is the sX x sY square at (x + col*sX, y + row*sY), and
      BlockCallsContents says which calls it holds. */
  lemma {:induction false} GlyphCallsContents(rom: seq<byte>, gs: GlyphSet, x: int, y: int, sX: nat, sY: nat,
                                              color: nat, m: nat, call: PixelCall)
    requires SetFits(rom, gs) && m <= 16
    ensures call in GlyphCalls(rom, gs, x, y, sX, sY, color, m) <==>
              exists row, col :: 0 <= row < m && 0 <= col < 16 && InCell(rom, gs, x, y, sX, sY, color, row, col, call)
  {
    if m > 0 {
      GlyphCallsContents(rom, gs, x, y, sX, sY, color, m - 1, call);
      RowCallsContents(rom, gs, x, y, sX, sY, color, m - 1, 16, call);
      var before := GlyphCalls(rom, gs, x, y, sX, sY, color, m - 1);
      var last := RowCalls(rom, gs, x, y, sX, sY, color, m - 1, 16);
      assert GlyphCalls(rom, gs, x, y, sX, sY, color, m) == before + last;
      if exists row, col :: 0 <= row < m && 0 <= col < 16 && InCell(rom, gs, x, y, sX, sY, color, row, col, call) {
        var row, col :| 0 <= row < m && 0 <= col < 16 && InCell(rom, gs, x, y, sX, sY, color, row, col, call);
        if row < m - 1 {
          assert call in before;
        } else {
          assert call in last;
        }
      }
    }
  }
}
