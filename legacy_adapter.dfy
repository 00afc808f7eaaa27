/** The older template adapter `hangulDisp<FontNamespace>` of `hangulDisp.h`.

    The font is a compile-time namespace whose tables CHO_DATA[20][8],
    JUNG_DATA[22][4] and JONG_DATA[28][4] hold one glyph per (index, variant);
    here each entry is the offset of its 32-byte glyph in the read-only memory
    `rom`. There is no font-ready flag, no raw colour and no ASCII font. */
module LegacyAdapter {
  import opened Bytes
  import opened FontLayout
  import opened HangulCore
  import opened GlyphDraw
  import opened PrintScan
  import Adapter

  datatype FontTables = FontTables(choData: seq<seq<nat>>, jungData: seq<seq<nat>>, jongData: seq<seq<nat>>)

  /** A table of `count` rows of `bulCount` glyph offsets, each glyph inside the memory. */
  predicate TableFits(rom: seq<byte>, t: seq<seq<nat>>, count: nat, bulCount: nat)
  {
    |t| == count &&
    forall i :: 0 <= i < count ==>
      (|t[i]| == bulCount && forall b :: 0 <= b < bulCount ==> t[i][b] + BYTES_PER_GLYPH <= |rom|)
  }

  predicate TablesFit(rom: seq<byte>, f: FontTables)
  {
    TableFits(rom, f.choData, CHO_COUNT, CHO_BUL) && TableFits(rom, f.jungData, JUNG_COUNT, JUNG_BUL) &&
    TableFits(rom, f.jongData, JONG_COUNT, FontLayout.JONG_BUL)
  }

  /** getGlyphSet: the table entries of the lead and the vowel, and of the trail when there is one. */
  function LegacyGlyphSet(rom: seq<byte>, f: FontTables, b1: byte, b2: byte, b3: byte): (gs: GlyphSet)
    requires TablesFit(rom, f)
    ensures gs.cho.Some? && gs.jung.Some?
    ensures gs.jong.None? <==> Decompose(b1, b2, b3).jong == 0
    ensures SetFits(rom, gs)
  {
    var c := Decompose(b1, b2, b3);
    GlyphSet(Some(f.choData[c.cho][c.choBul]), Some(f.jungData[c.jung][c.jungBul]),
             if c.jong > 0 then Some(f.jongData[c.jong][c.jongBul]) else None)
  }

  /** Tables that list a contiguous font index-major: entry (i, b) is record i*bulCount + b
      of the section at `base`. */
  predicate TableOfSection(t: seq<seq<nat>>, base: nat, count: nat, bulCount: nat)
  {
    |t| == count &&
    forall i :: 0 <= i < count ==>
      (|t[i]| == bulCount && forall b :: 0 <= b < bulCount ==> t[i][b] == base + (i * bulCount + b) * BYTES_PER_GLYPH)
  }

  /** For such tables the template adapter picks the same glyphs as the run-time adapter given the
      three section pointers. */
  lemma LegacyAgreesWithPointers(rom: seq<byte>, f: FontTables, cho: nat, jung: nat, jong: nat,
                                 b1: byte, b2: byte, b3: byte)
    requires TablesFit(rom, f)
    requires TableOfSection(f.choData, cho, CHO_COUNT, CHO_BUL)
    requires TableOfSection(f.jungData, jung, JUNG_COUNT, JUNG_BUL)
    requires TableOfSection(f.jongData, jong, JONG_COUNT, FontLayout.JONG_BUL)
    ensures LegacyGlyphSet(rom, f, b1, b2, b3) ==
            Adapter.GlyphSetFor(Some(cho), Some(jung), Some(jong), Decompose(b1, b2, b3))
  {
  }

  /** The colour handed to the callback: 1 for white, 0 for black and for invert. */
  function LegacyColor(c: HangulColor): (code: nat)
    ensures code <= 1
    ensures code == 1 <==> c == White
    ensures c != Invert ==> code == ColorCode(c)
  {
    if c == White then 1 else 0
  }

  /** The callback calls of one 3-byte group drawn at (x, y). */
  function LegacyCharCalls(rom: seq<byte>, f: FontTables, b1: byte, b2: byte, b3: byte,
                           x: int, y: int, sX: nat, sY: nat, color: nat): seq<PixelCall>
    requires TablesFit(rom, f)
  {
    GlyphCalls(rom, LegacyGlyphSet(rom, f, b1, b2, b3), x, y, sX, sY, color, GLYPH_HEIGHT)
  }

  /** The callback calls of a run of print events drawn from cursor (cx, cy). */
  function LegacyEventCalls(rom: seq<byte>, f: FontTables, es: seq<Event>, cx: int, cy: int,
                           sX: nat, sY: nat, color: nat): seq<PixelCall>
    requires TablesFit(rom, f)
  {
    if es == [] then []
    else
      var init, e := es[..|es| - 1], es[|es| - 1];
      LegacyEventCalls(rom, f, init, cx, cy, sX, sY, color) +
      LegacyEventTail(rom, f, e, cx + Adapter.Advance(init, sX), cy, sX, sY, color)
  }

  /** The calls of one event drawn at (x, y): a glyph event's glyphs, nothing for ASCII. */
  function LegacyEventTail(rom: seq<byte>, f: FontTables, e: Event, x: int, y: int,
                           sX: nat, sY: nat, color: nat): seq<PixelCall>
    requires TablesFit(rom, f)
  {
    match e
    case AsciiByte => []
    case Glyph(b1, b2, b3) => LegacyCharCalls(rom, f, b1, b2, b3, x, y, sX, sY, color)
  }

  /** One more glyph event appends its glyph's calls at the cursor reached so far. */
  lemma LegacyEventCallsSnocGlyph(rom: seq<byte>, f: FontTables, es: seq<Event>, b1: byte, b2: byte, b3: byte,
                                  cx: int, x: int, cy: int, sX: nat, sY: nat, color: nat)
    requires TablesFit(rom, f) && x == cx + Adapter.Advance(es, sX)
    ensures LegacyEventCalls(rom, f, es + [Glyph(b1, b2, b3)], cx, cy, sX, sY, color) ==
            LegacyEventCalls(rom, f, es, cx, cy, sX, sY, color) + LegacyCharCalls(rom, f, b1, b2, b3, x, cy, sX, sY, color)
  {
    var full := es + [Glyph(b1, b2, b3)];
    assert full[..|full| - 1] == es;
    assert full[|full| - 1] == Glyph(b1, b2, b3);
  }

  /** The calls after drawing one more glyph at the cursor reached so far. */
  lemma LegacyGlyphStep(rom: seq<byte>, f: FontTables, es: seq<Event>, b1: byte, b2: byte, b3: byte,
                        x0: int, cx: int, cy: int, sX: nat, sY: nat, color: nat,
                        calls0: seq<PixelCall>, before: seq<PixelCall>, after: seq<PixelCall>)
    requires TablesFit(rom, f)
    requires cx == x0 + Adapter.Advance(es, sX)
    requires before == calls0 + LegacyEventCalls(rom, f, es, x0, cy, sX, sY, color)
    requires after == before + LegacyCharCalls(rom, f, b1, b2, b3, cx, cy, sX, sY, color)
    ensures after == calls0 + LegacyEventCalls(rom, f, es + [Glyph(b1, b2, b3)], x0, cy, sX, sY, color)
  {
    var e := LegacyEventCalls(rom, f, es, x0, cy, sX, sY, color);
    var c := LegacyCharCalls(rom, f, b1, b2, b3, cx, cy, sX, sY, color);
    calc {
      calls0 + LegacyEventCalls(rom, f, es + [Glyph(b1, b2, b3)], x0, cy, sX, sY, color);
    == { LegacyEventCallsSnocGlyph(rom, f, es, b1, b2, b3, x0, cx, cy, sX, sY, color); }
      calls0 + (e + c);
    == { AppendAssoc(calls0, e, c); }
      after;
    }
  }

  /** One more ASCII event draws nothing. */
  lemma LegacyEventCallsSnocAscii(rom: seq<byte>, f: FontTables, es: seq<Event>,
                                  cx: int, cy: int, sX: nat, sY: nat, color: nat)
    requires TablesFit(rom, f)
    ensures LegacyEventCalls(rom, f, es + [AsciiByte], cx, cy, sX, sY, color) ==
            LegacyEventCalls(rom, f, es, cx, cy, sX, sY, color)
  {
    var full := es + [AsciiByte];
    assert full[..|full| - 1] == es;
    assert full[|full| - 1] == AsciiByte;
  }

  /** The settings the cursor and drawing operations leave alone. */
  datatype LegacySettings = LegacySettings(textSize: HangulSize, textColor: HangulColor)

  class LegacyDisp {
    var cursorX: int
    var cursorY: int
    var textSize: HangulSize
    var textColor: HangulColor
    const drawPixelCallback: PixelSink?
    /** The compile-time font: its tables and the memory they point into. */
    const font: FontTables
    const rom: seq<byte>

    function CurrentSettings(): LegacySettings
      reads this
    {
      LegacySettings(textSize, textColor)
    }

    constructor(callback: PixelSink?, tables: FontTables, memory: seq<byte>)
      ensures cursorX == 0 && cursorY == 0 && textSize == Normal && textColor == Black
      ensures drawPixelCallback == callback && font == tables && rom == memory
    {
      cursorX, cursorY := 0, 0;
      textSize := Normal;
      textColor := Black;
      drawPixelCallback := callback;
      font := tables;
      rom := memory;
    }

    function GetCursorX(): int
      reads this
    {
      cursorX
    }

    function GetCursorY(): int
      reads this
    {
      cursorY
    }

    method SetCursor(x: int, y: int)
      modifies this
      ensures GetCursorX() == x && GetCursorY() == y
      ensures CurrentSettings() == old(CurrentSettings())
    {
      cursorX := x;
      cursorY := y;
    }

    method SetTextSize(size: HangulSize)
      modifies this
      ensures CurrentSettings() == old(CurrentSettings()).(textSize := size)
      ensures cursorX == old(cursorX) && cursorY == old(cursorY)
    {
      textSize := size;
    }

    method SetTextColor(color: HangulColor)
      modifies this
      ensures CurrentSettings() == old(CurrentSettings()).(textColor := color)
      ensures cursorX == old(cursorX) && cursorY == old(cursorY)
    {
      textColor := color;
    }

    /** advanceCursor: one glyph width, doubled for the double-width sizes. */
    method AdvanceCursor()
      modifies this
      ensures cursorX == old(cursorX) + GLYPH_WIDTH * ScaleX(textSize)
      ensures cursorY == old(cursorY) && CurrentSettings() == old(CurrentSettings())
    {
      var scaleX := if textSize == H2 || textSize == X4 then 2 else 1;
      cursorX := cursorX + GLYPH_WIDTH * scaleX;
    }

    /** drawCombinedGlyph: the OR of the glyph set at (x, y), in colour 1 only for white. */
    method DrawCombinedGlyph(x: int, y: int, glyphs: GlyphSet)
      requires drawPixelCallback != null && SetFits(rom, glyphs)
      modifies drawPixelCallback
      ensures drawPixelCallback.calls == old(drawPixelCallback.calls) +
                GlyphCalls(rom, glyphs, x, y, ScaleX(textSize), ScaleY(textSize), LegacyColor(textColor), GLYPH_HEIGHT)
    {
      var scaleX := if textSize == H2 || textSize == X4 then 2 else 1;
      var scaleY := if textSize == V2 || textSize == X4 then 2 else 1;
      var color := if textColor == White then 1 else 0;
      DrawGlyphSet(drawPixelCallback, rom, x, y, glyphs, scaleX, scaleY, color);
    }

    /** printHangulChar: the glyphs of the decomposed bytes at the cursor, then the cursor
        advances; the callback is not checked here (print checks it). */
    method PrintHangulChar(b1: byte, b2: byte, b3: byte)
      requires TablesFit(rom, font) && drawPixelCallback != null
      modifies this, drawPixelCallback
      ensures cursorY == old(cursorY) && CurrentSettings() == old(CurrentSettings())
      ensures cursorX == old(cursorX) + GLYPH_WIDTH * ScaleX(textSize)
      ensures drawPixelCallback.calls == old(drawPixelCallback.calls) +
                LegacyCharCalls(rom, font, b1, b2, b3, old(cursorX), cursorY,
                                ScaleX(textSize), ScaleY(textSize), LegacyColor(textColor))
    {
      var glyphs := LegacyGlyphSet(rom, font, b1, b2, b3);
      DrawCombinedGlyph(cursorX, cursorY, glyphs);
      AdvanceCursor();
    }

    /** print: nothing for a null text or a null callback; otherwise the events of the text are
        drawn from the cursor on and the cursor ends after them. */
    method Print(text: Option<seq<byte>>)
      requires text.Some? ==> CString(text.value)
      requires TablesFit(rom, font)
      modifies this, drawPixelCallback
      ensures cursorY == old(cursorY) && CurrentSettings() == old(CurrentSettings())
      ensures text.None? || drawPixelCallback == null ==> cursorX == old(cursorX)
      ensures text.None? && drawPixelCallback != null ==>
                drawPixelCallback.calls == old(drawPixelCallback.calls)
      ensures text.Some? && drawPixelCallback != null ==>
                cursorX == old(cursorX) + Adapter.Advance(Events(text.value, 0), ScaleX(textSize)) &&
                drawPixelCallback.calls == old(drawPixelCallback.calls) +
                  LegacyEventCalls(rom, font, Events(text.value, 0), old(cursorX), cursorY,
                                   ScaleX(textSize), ScaleY(textSize), LegacyColor(textColor))
    {
      if text.None? || drawPixelCallback == null {
        return;
      }
      var s := text.value;
      var p := 0;
      ghost var done: seq<Event> := [];
      while p < |s|
        invariant p <= |s|
        invariant cursorY == old(cursorY) && CurrentSettings() == old(CurrentSettings())
        invariant Events(s, 0) == done + Events(s, p)
        invariant cursorX == old(cursorX) + Adapter.Advance(done, ScaleX(textSize))
        invariant drawPixelCallback.calls == old(drawPixelCallback.calls) +
                    LegacyEventCalls(rom, font, done, old(cursorX), cursorY,
                                     ScaleX(textSize), ScaleY(textSize), LegacyColor(textColor))
        decreases |s| - p
      {
        if s[p] >= 0xE0 {
          if At(s, p + 1) != 0 && At(s, p + 2) != 0 {
            GlyphEventStep(s, p, done);
            PrintGlyphEvent(done, old(cursorX), old(drawPixelCallback.calls), s[p], s[p + 1], s[p + 2]);
            done := done + [Glyph(s[p], s[p + 1], s[p + 2])];
            p := p + 3;
          } else {
            TruncatedLeadStops(s, p);
            break;
          }
        } else if s[p] < 0x80 {
          AsciiEventStep(s, p, done);
          AsciiEvent(done, old(cursorX), old(drawPixelCallback.calls));
          done := done + [AsciiByte];
          p := p + 1;
        } else if 0xC0 <= s[p] {
          SkipStep(s, p);
          p := if p + 1 < |s| then p + 2 else p + 1;
        } else {
          SkipStep(s, p);
          p := p + 1;
        }
      }
      assert done == Events(s, 0);
    }

    /** The glyph branch of print's loop. */
    method PrintGlyphEvent(ghost done: seq<Event>, ghost x0: int, ghost calls0: seq<PixelCall>,
                           b1: byte, b2: byte, b3: byte)
      requires TablesFit(rom, font) && drawPixelCallback != null
      requires cursorX == x0 + Adapter.Advance(done, ScaleX(textSize))
      requires drawPixelCallback.calls == calls0 +
                 LegacyEventCalls(rom, font, done, x0, cursorY, ScaleX(textSize), ScaleY(textSize), LegacyColor(textColor))
      modifies this, drawPixelCallback
      ensures cursorY == old(cursorY) && CurrentSettings() == old(CurrentSettings())
      ensures cursorX == x0 + Adapter.Advance(done + [Glyph(b1, b2, b3)], ScaleX(textSize))
      ensures drawPixelCallback.calls == calls0 +
                LegacyEventCalls(rom, font, done + [Glyph(b1, b2, b3)], x0, cursorY,
                                 ScaleX(textSize), ScaleY(textSize), LegacyColor(textColor))
    {
      ghost var before := drawPixelCallback.calls;
      ghost var cx := cursorX;
      PrintHangulChar(b1, b2, b3);
      Adapter.AdvanceSnoc(done, Glyph(b1, b2, b3), ScaleX(textSize));
      LegacyGlyphStep(rom, font, done, b1, b2, b3, x0, cx, cursorY, ScaleX(textSize), ScaleY(textSize),
                      LegacyColor(textColor), calls0, before, drawPixelCallback.calls);
    }

    /** The ASCII branch of print's loop: the cursor moves by 8, nothing is drawn. */
    method AsciiEvent(ghost done: seq<Event>, ghost x0: int, ghost calls0: seq<PixelCall>)
      requires TablesFit(rom, font) && drawPixelCallback != null
      requires cursorX == x0 + Adapter.Advance(done, ScaleX(textSize))
      requires drawPixelCallback.calls == calls0 +
                 LegacyEventCalls(rom, font, done, x0, cursorY, ScaleX(textSize), ScaleY(textSize), LegacyColor(textColor))
      modifies this
      ensures cursorY == old(cursorY) && CurrentSettings() == old(CurrentSettings())
      ensures cursorX == x0 + Adapter.Advance(done + [AsciiByte], ScaleX(textSize))
      ensures drawPixelCallback.calls == calls0 +
                LegacyEventCalls(rom, font, done + [AsciiByte], x0, cursorY,
                                 ScaleX(textSize), ScaleY(textSize), LegacyColor(textColor))
    {
      cursorX := cursorX + 8;
      Adapter.AdvanceSnoc(done, AsciiByte, ScaleX(textSize));
      LegacyEventCallsSnocAscii(rom, font, done, x0, cursorY, ScaleX(textSize), ScaleY(textSize), LegacyColor(textColor));
    }
  }
}
