/** The display adapter class `hangulDisp` of `HangulDisp/HangulDisp.h`.

    The font is given at run time by three section pointers; a pointer is
    an offset into the read-only font memory `rom` (PROGMEM), None being
    the null pointer. The pixel callback is a `PixelSink` (or null). The
    cursor is an unbounded integer: `int16_t` wrap-around is not modelled. */
module Adapter {
  import opened Bytes
  import opened FontLayout
  import opened HangulCore
  import opened GlyphDraw
  import opened PrintScan

  /** `HangulFontInfo`: the name, size and ASCII flag are carried but not used here. */
  datatype HangulFontInfo = HangulFontInfo(name: string, width: byte, height: byte, hasAscii: bool,
                                           choData: Option<nat>, jungData: Option<nat>, jongData: Option<nat>)

  /** getGlyphPointer: null for a null base; otherwise the glyph record `index*bulCount + bul`
      of the section, index-major. The record number fits `uint16_t` for byte arguments. */
  function GetGlyphPointer(base: Option<nat>, index: byte, bul: byte, bulCount: byte): (p: Option<nat>)
    ensures p.None? <==> base.None?
    ensures p.Some? ==> p.value >= base.value && (p.value - base.value) % BYTES_PER_GLYPH == 0
    ensures p.Some? && bul < bulCount ==>
              (p.value - base.value) / BYTES_PER_GLYPH / bulCount == index &&
              (p.value - base.value) / BYTES_PER_GLYPH % bulCount == bul
  {
    if base.None? then None
    else
      var glyphIndex := index * bulCount + bul;
      assert glyphIndex < 0x1_0000 by {
        MulMonotone(index, 255, bulCount);
        MulMonotone(bulCount, 255, 255);
      }
      DivModOfSum(glyphIndex, 0, BYTES_PER_GLYPH);
      RecordDecodes(index, bul, bulCount);
      Some(base.value + glyphIndex * BYTES_PER_GLYPH)
  }

  /** The record number `index*bulCount + bul` determines index and bul. */
  lemma RecordDecodes(index: nat, bul: nat, bulCount: nat)
    ensures bul < bulCount ==> (index * bulCount + bul) / bulCount == index &&
                               (index * bulCount + bul) % bulCount == bul
  {
    if bul < bulCount {
      DivModOfSum(index, bul, bulCount);
    }
  }

  /** A glyph of a section with `count` entries of `bulCount` variants lies inside the section. */
  lemma GlyphPointerInSection(base: nat, index: byte, bul: byte, bulCount: byte, count: nat)
    requires index < count && bul < bulCount
    ensures GetGlyphPointer(Some(base), index, bul, bulCount).value + BYTES_PER_GLYPH
            <= base + count * bulCount * BYTES_PER_GLYPH
  {
    var g := index * bulCount + bul;
    MulMonotone(index + 1, count, bulCount);
    assert g + 1 <= count * bulCount;
    MulMonotone(g + 1, count * bulCount, BYTES_PER_GLYPH);
  }

  /** Different (index, bul) pairs of one section give disjoint 32-byte records. */
  lemma GlyphPointersDisjoint(base: nat, i1: byte, v1: byte, i2: byte, v2: byte, bulCount: byte)
    requires v1 < bulCount && v2 < bulCount && (i1, v1) != (i2, v2)
    ensures var p1 := GetGlyphPointer(Some(base), i1, v1, bulCount).value;
            var p2 := GetGlyphPointer(Some(base), i2, v2, bulCount).value;
            p1 + BYTES_PER_GLYPH <= p2 || p2 + BYTES_PER_GLYPH <= p1
  {
    var p1 := GetGlyphPointer(Some(base), i1, v1, bulCount).value;
    var p2 := GetGlyphPointer(Some(base), i2, v2, bulCount).value;
    var g1, g2 := (p1 - base) / BYTES_PER_GLYPH, (p2 - base) / BYTES_PER_GLYPH;
    assert g1 != g2;
    assert p1 == base + g1 * BYTES_PER_GLYPH && p2 == base + g2 * BYTES_PER_GLYPH;
    if g1 < g2 {
      MulMonotone(g1 + 1, g2, BYTES_PER_GLYPH);
    } else {
      MulMonotone(g2 + 1, g1, BYTES_PER_GLYPH);
    }
  }

  /** A section of `count` entries of `bulCount` glyphs at `base` lies in the memory. */
  predicate SectionFits(rom: seq<byte>, base: Option<nat>, count: nat, bulCount: nat)
  {
    base.Some? ==> base.value + count * bulCount * BYTES_PER_GLYPH <= |rom|
  }

  /** All three sections of a font lie in the memory. */
  predicate FontFits(rom: seq<byte>, cho: Option<nat>, jung: Option<nat>, jong: Option<nat>)
  {
    SectionFits(rom, cho, CHO_COUNT, CHO_BUL) && SectionFits(rom, jung, JUNG_COUNT, JUNG_BUL) &&
    SectionFits(rom, jong, JONG_COUNT, FontLayout.JONG_BUL)
  }

  /** getGlyphSet: lead and vowel glyphs from their sections, the trail glyph only when there
      is a trail. */
  function GlyphSetFor(cho: Option<nat>, jung: Option<nat>, jong: Option<nat>, comp: Components): (gs: GlyphSet)
    ensures gs.cho.None? <==> cho.None?
    ensures gs.jung.None? <==> jung.None?
    ensures gs.jong.None? <==> comp.jong == 0 || jong.None?
  {
    GlyphSet(GetGlyphPointer(cho, comp.cho, comp.choBul, CHO_BUL as byte),
             GetGlyphPointer(jung, comp.jung, comp.jungBul, JUNG_BUL as byte),
             if comp.jong > 0 then GetGlyphPointer(jong, comp.jong, comp.jongBul, FontLayout.JONG_BUL as byte) else None)
  }

  /** The glyphs chosen for any three bytes lie inside their sections. */
  lemma GlyphSetInSections(rom: seq<byte>, cho: Option<nat>, jung: Option<nat>, jong: Option<nat>,
                           b1: byte, b2: byte, b3: byte)
    requires FontFits(rom, cho, jung, jong)
    ensures SetFits(rom, GlyphSetFor(cho, jung, jong, Decompose(b1, b2, b3)))
  {
    var c := Decompose(b1, b2, b3);
    if cho.Some? {
      GlyphPointerInSection(cho.value, c.cho, c.choBul, CHO_BUL as byte, CHO_COUNT);
    }
    if jung.Some? {
      GlyphPointerInSection(jung.value, c.jung, c.jungBul, JUNG_BUL as byte, JUNG_COUNT);
    }
    if jong.Some? && c.jong > 0 {
      GlyphPointerInSection(jong.value, c.jong, c.jongBul, FontLayout.JONG_BUL as byte, JONG_COUNT);
    }
  }

  /** Three bytes that are not a syllable still draw: the placeholder glyphs at the start of
      the lead and vowel sections, and no trail. */
  lemma NonSyllableDrawsPlaceholders(cho: Option<nat>, jung: Option<nat>, jong: Option<nat>,
                                     b1: byte, b2: byte, b3: byte)
    requires !IsHangul(b1, b2, b3)
    ensures GlyphSetFor(cho, jung, jong, Decompose(b1, b2, b3)) == GlyphSet(cho, jung, None)
  {
  }

  /** The callback calls of one 3-byte group drawn at (x, y). */
  function CharCalls(rom: seq<byte>, cho: Option<nat>, jung: Option<nat>, jong: Option<nat>,
                     b1: byte, b2: byte, b3: byte, x: int, y: int, sX: nat, sY: nat, color: nat): seq<PixelCall>
    requires FontFits(rom, cho, jung, jong)
  {
    GlyphSetInSections(rom, cho, jung, jong, b1, b2, b3);
    GlyphCalls(rom, GlyphSetFor(cho, jung, jong, Decompose(b1, b2, b3)), x, y, sX, sY, color, GLYPH_HEIGHT)
  }

  /** The cursor advance of a run of events: 16*scaleX per glyph, 8 per ASCII byte. */
  function Advance(es: seq<Event>, sX: nat): int
  {
    if es == [] then 0
    else Advance(es[..|es| - 1], sX) + if es[|es| - 1].Glyph? then GLYPH_WIDTH * sX else 8
  }

  /** Advancing over one more event. */
  lemma AdvanceSnoc(es: seq<Event>, e: Event, sX: nat)
    ensures Advance(es + [e], sX) == Advance(es, sX) + if e.Glyph? then GLYPH_WIDTH * sX else 8
  {
    assert (es + [e])[..|es|] == es;
  }

  /** The advance of a run is 16*scaleX times its glyph events plus 8 times its ASCII events. */
  lemma {:induction false} AdvanceCounts(es: seq<Event>, sX: nat)
    ensures Advance(es, sX) == GLYPH_WIDTH * sX * GlyphCount(es) + 8 * AsciiCount(es)
  {
    if es != [] {
      var init := es[..|es| - 1];
      AdvanceCounts(init, sX);
      if es[|es| - 1].Glyph? {
        MulDistributes(GLYPH_WIDTH * sX, GlyphCount(init), 1);
      }
    }
  }

  /** The callback calls of a run of events printed from cursor (cx, cy): each glyph
      event draws its glyph set at the cursor reached so far. */
  function EventCalls(rom: seq<byte>, cho: Option<nat>, jung: Option<nat>, jong: Option<nat>,
                      es: seq<Event>, cx: int, cy: int, sX: nat, sY: nat, color: nat): seq<PixelCall>
    requires FontFits(rom, cho, jung, jong)
  {
    if es == [] then []
    else
      var init, e := es[..|es| - 1], es[|es| - 1];
      EventCalls(rom, cho, jung, jong, init, cx, cy, sX, sY, color) +
      EventTail(rom, cho, jung, jong, e, cx + Advance(init, sX), cy, sX, sY, color)
  }

  /** The calls of one event drawn at (x, y): a glyph event's glyph set, nothing for ASCII. */
  function EventTail(rom: seq<byte>, cho: Option<nat>, jung: Option<nat>, jong: Option<nat>,
                     e: Event, x: int, y: int, sX: nat, sY: nat, color: nat): seq<PixelCall>
    requires FontFits(rom, cho, jung, jong)
  {
    match e
    case AsciiByte => []
    case Glyph(b1, b2, b3) => CharCalls(rom, cho, jung, jong, b1, b2, b3, x, y, sX, sY, color)
  }

  /** Printing one more glyph event appends its glyph's calls, drawn at the cursor reached so far. */
  lemma EventCallsSnocGlyph(rom: seq<byte>, cho: Option<nat>, jung: Option<nat>, jong: Option<nat>,
                            es: seq<Event>, b1: byte, b2: byte, b3: byte, cx: int, x: int, cy: int,
                            sX: nat, sY: nat, color: nat)
    requires FontFits(rom, cho, jung, jong) && x == cx + Advance(es, sX)
    ensures EventCalls(rom, cho, jung, jong, es + [Glyph(b1, b2, b3)], cx, cy, sX, sY, color) ==
            EventCalls(rom, cho, jung, jong, es, cx, cy, sX, sY, color) +
            CharCalls(rom, cho, jung, jong, b1, b2, b3, x, cy, sX, sY, color)
  {
    var full := es + [Glyph(b1, b2, b3)];
    assert full[..|full| - 1] == es;
    assert full[|full| - 1] == Glyph(b1, b2, b3);
  }

  /** Printing one more ASCII byte draws nothing. */
  lemma EventCallsSnocAscii(rom: seq<byte>, cho: Option<nat>, jung: Option<nat>, jong: Option<nat>,
                            es: seq<Event>, cx: int, cy: int, sX: nat, sY: nat, color: nat)
    requires FontFits(rom, cho, jung, jong)
    ensures EventCalls(rom, cho, jung, jong, es + [AsciiByte], cx, cy, sX, sY, color) ==
            EventCalls(rom, cho, jung, jong, es, cx, cy, sX, sY, color)
  {
    var full := es + [AsciiByte];
    assert full[..|full| - 1] == es;
    assert full[|full| - 1] == AsciiByte;
  }

  /** The calls after drawing one more glyph at the cursor reached so far. */
  lemma GlyphStep(rom: seq<byte>, cho: Option<nat>, jung: Option<nat>, jong: Option<nat>, es: seq<Event>,
                  b1: byte, b2: byte, b3: byte, x0: int, cx: int, cy: int, sX: nat, sY: nat, color: nat,
                  calls0: seq<PixelCall>, before: seq<PixelCall>, after: seq<PixelCall>)
    requires FontFits(rom, cho, jung, jong)
    requires cx == x0 + Advance(es, sX)
    requires before == calls0 + EventCalls(rom, cho, jung, jong, es, x0, cy, sX, sY, color)
    requires after == before + CharCalls(rom, cho, jung, jong, b1, b2, b3, cx, cy, sX, sY, color)
    ensures after == calls0 + EventCalls(rom, cho, jung, jong, es + [Glyph(b1, b2, b3)], x0, cy, sX, sY, color)
  {
    var e := EventCalls(rom, cho, jung, jong, es, x0, cy, sX, sY, color);
    var c := CharCalls(rom, cho, jung, jong, b1, b2, b3, cx, cy, sX, sY, color);
    calc {
      calls0 + EventCalls(rom, cho, jung, jong, es + [Glyph(b1, b2, b3)], x0, cy, sX, sY, color);
    == { EventCallsSnocGlyph(rom, cho, jung, jong, es, b1, b2, b3, x0, cx, cy, sX, sY, color); }
      calls0 + (e + c);
    == { AppendAssoc(calls0, e, c); }
      after;
    }
  }

  /** A text of ASCII bytes only moves the cursor, by 8 per byte, and draws nothing. */
  lemma {:induction false} AsciiRunDrawsNothing(rom: seq<byte>, cho: Option<nat>, jung: Option<nat>, jong: Option<nat>,
                                               es: seq<Event>, cx: int, cy: int, sX: nat, sY: nat, color: nat)
    requires FontFits(rom, cho, jung, jong)
    requires forall i :: 0 <= i < |es| ==> es[i] == AsciiByte
    ensures EventCalls(rom, cho, jung, jong, es, cx, cy, sX, sY, color) == []
    ensures Advance(es, sX) == 8 * |es|
  {
    if es != [] {
      AsciiRunDrawsNothing(rom, cho, jung, jong, es[..|es| - 1], cx, cy, sX, sY, color);
    }
  }

  /** The settings that the cursor operations leave alone. */
  datatype Settings = Settings(textSize: HangulSize, textColor: HangulColor, textColorRaw: uint16,
                               useRawColor: bool, choData: Option<nat>, jungData: Option<nat>,
                               jongData: Option<nat>, fontReady: bool)

  class HangulDisp {
    var cursorX: int
    var cursorY: int
    var textSize: HangulSize
    var textColor: HangulColor
    var textColorRaw: uint16
    var useRawColor: bool
    const drawPixelCallback: PixelSink?
    var choData: Option<nat>
    var jungData: Option<nat>
    var jongData: Option<nat>
    var fontReady: bool
    /** The read-only memory the font pointers address. */
    const rom: seq<byte>

    /** fontReady records that all three section pointers are set. */
    ghost predicate Valid()
      reads this
    {
      fontReady <==> (choData.Some? && jungData.Some? && jongData.Some?)
    }

    function CurrentSettings(): Settings
      reads this
    {
      Settings(textSize, textColor, textColorRaw, useRawColor, choData, jungData, jongData, fontReady)
    }

    constructor(callback: PixelSink?, memory: seq<byte>)
      ensures Valid()
      ensures cursorX == 0 && cursorY == 0 && textSize == Normal && textColor == Black
      ensures textColorRaw == 0 && !useRawColor && drawPixelCallback == callback
      ensures choData.None? && jungData.None? && jongData.None? && !fontReady && rom == memory
    {
      cursorX, cursorY := 0, 0;
      textSize := Normal;
      textColor := Black;
      textColorRaw := 0;
      useRawColor := false;
      drawPixelCallback := callback;
      choData, jungData, jongData := None, None, None;
      fontReady := false;
      rom := memory;
    }

    function GetCursorX(): int
      reads this
    {
      cursorX
    }

    function GetCursorY(): int
      reads this
    {
      cursorY
    }

    method SetCursor(x: int, y: int)
      modifies this
      ensures GetCursorX() == x && GetCursorY() == y
      ensures CurrentSettings() == old(CurrentSettings())
    {
      cursorX := x;
      cursorY := y;
    }

    method SetTextSize(size: HangulSize)
      modifies this
      ensures textSize == size
      ensures cursorX == old(cursorX) && cursorY == old(cursorY)
      ensures CurrentSettings() == old(CurrentSettings()).(textSize := size)
    {
      textSize := size;
    }

    /** setTextColor(HangulColor): the enumerated colour is used from now on. */
    method SetTextColor(color: HangulColor)
      modifies this
      ensures ResolveColor() == ColorCode(color)
      ensures cursorX == old(cursorX) && cursorY == old(cursorY)
      ensures CurrentSettings() == old(CurrentSettings()).(textColor := color, useRawColor := false)
    {
      textColor := color;
      useRawColor := false;
    }

    /** setTextColor(uint16_t): the raw colour value is used from now on. */
    method SetTextColorRaw(color: uint16)
      modifies this
      ensures ResolveColor() == color
      ensures cursorX == old(cursorX) && cursorY == old(cursorY)
      ensures CurrentSettings() == old(CurrentSettings()).(textColorRaw := color, useRawColor := true)
    {
      textColorRaw := color;
      useRawColor := true;
    }

    /** setFont: the font is ready exactly when all three section pointers are non-null. */
    method SetFont(font: HangulFontInfo)
      modifies this
      ensures Valid()
      ensures choData == font.choData && jungData == font.jungData && jongData == font.jongData
      ensures fontReady <==> font.choData.Some? && font.jungData.Some? && font.jongData.Some?
      ensures cursorX == old(cursorX) && cursorY == old(cursorY)
      ensures textSize == old(textSize) && textColor == old(textColor)
      ensures textColorRaw == old(textColorRaw) && useRawColor == old(useRawColor)
    {
      choData := font.choData;
      jungData := font.jungData;
      jongData := font.jongData;
      fontReady := choData.Some? && jungData.Some? && jongData.Some?;
    }

    /** resolveColor: the raw colour when one was set last, else the enumerator's value. */
    function ResolveColor(): (c: uint16)
      reads this
      ensures useRawColor ==> c == textColorRaw
      ensures !useRawColor ==> c == ColorCode(textColor) && c <= 2
    {
      if useRawColor then textColorRaw
      else if textColor == Invert then 2
      else if textColor == White then 1 else 0
    }

    /** advanceCursor: one glyph width, doubled for the double-width sizes. */
    method AdvanceCursor()
      modifies this
      ensures cursorX == old(cursorX) + GLYPH_WIDTH * ScaleX(textSize)
      ensures cursorY == old(cursorY) && CurrentSettings() == old(CurrentSettings())
    {
      var scaleX := if textSize == H2 || textSize == X4 then 2 else 1;
      cursorX := cursorX + GLYPH_WIDTH * scaleX;
    }

    /** drawCombinedGlyph: the OR of the glyph set drawn at (x, y) in the size and the
        resolved colour. */
    method DrawCombinedGlyph(x: int, y: int, glyphs: GlyphSet)
      requires drawPixelCallback != null && SetFits(rom, glyphs)
      modifies drawPixelCallback
      ensures drawPixelCallback.calls == old(drawPixelCallback.calls) +
                GlyphCalls(rom, glyphs, x, y, ScaleX(textSize), ScaleY(textSize), ResolveColor(), GLYPH_HEIGHT)
    {
      var scaleX := if textSize == H2 || textSize == X4 then 2 else 1;
      var scaleY := if textSize == V2 || textSize == X4 then 2 else 1;
      DrawGlyphSet(drawPixelCallback, rom, x, y, glyphs, scaleX, scaleY, ResolveColor());
    }

    /** printHangulChar: nothing without a font; otherwise the glyphs of the decomposed
        bytes are drawn at the cursor and the cursor advances, syllable or not. */
    method PrintHangulChar(b1: byte, b2: byte, b3: byte)
      requires Valid() && FontFits(rom, choData, jungData, jongData)
      requires fontReady ==> drawPixelCallback != null
      modifies this, drawPixelCallback
      ensures cursorY == old(cursorY) && CurrentSettings() == old(CurrentSettings())
      ensures !fontReady ==> cursorX == old(cursorX)
      ensures !fontReady && drawPixelCallback != null ==>
                drawPixelCallback.calls == old(drawPixelCallback.calls)
      ensures fontReady ==> cursorX == old(cursorX) + GLYPH_WIDTH * ScaleX(textSize)
      ensures fontReady ==>
                drawPixelCallback.calls == old(drawPixelCallback.calls) +
                  CharCalls(rom, choData, jungData, jongData, b1, b2, b3,
                            old(cursorX), cursorY, ScaleX(textSize), ScaleY(textSize), ResolveColor())
    {
      if !fontReady {
        return;
      }
      var comp := Decompose(b1, b2, b3);
      var glyphs := GlyphSetFor(choData, jungData, jongData, comp);
      GlyphSetInSections(rom, choData, jungData, jongData, b1, b2, b3);
      DrawCombinedGlyph(cursorX, cursorY, glyphs);
      AdvanceCursor();
    }

    /** print: nothing for a null text, a null callback or a font that is not ready;
        otherwise the events of the text are drawn from the cursor on and the cursor
        ends after them. */
    method Print(text: Option<seq<byte>>)
      requires text.Some? ==> CString(text.value)
      requires Valid() && FontFits(rom, choData, jungData, jongData)
      modifies this, drawPixelCallback
      ensures cursorY == old(cursorY) && CurrentSettings() == old(CurrentSettings())
      ensures text.None? || drawPixelCallback == null || !fontReady ==> cursorX == old(cursorX)
      ensures (text.None? || !fontReady) && drawPixelCallback != null ==>
                drawPixelCallback.calls == old(drawPixelCallback.calls)
      ensures text.Some? && drawPixelCallback != null && fontReady ==>
                cursorX == old(cursorX) + Advance(Events(text.value, 0), ScaleX(textSize)) &&
                drawPixelCallback.calls == old(drawPixelCallback.calls) +
                  EventCalls(rom, choData, jungData, jongData, Events(text.value, 0), old(cursorX), cursorY,
                             ScaleX(textSize), ScaleY(textSize), ResolveColor())
    {
      if text.None? || drawPixelCallback == null || !fontReady {
        return;
      }
      var s := text.value;
      var p := 0;
      ghost var done: seq<Event> := [];
      while p < |s|
        invariant p <= |s|
        invariant cursorY == old(cursorY) && CurrentSettings() == old(CurrentSettings())
        invariant Events(s, 0) == done + Events(s, p)
        invariant cursorX == old(cursorX) + Advance(done, ScaleX(textSize))
        invariant drawPixelCallback.calls == old(drawPixelCallback.calls) +
                    EventCalls(rom, choData, jungData, jongData, done, old(cursorX), cursorY,
                               ScaleX(textSize), ScaleY(textSize), ResolveColor())
        decreases |s| - p
      {
        if s[p] >= 0xE0 {
          if At(s, p + 1) != 0 && At(s, p + 2) != 0 {
            GlyphEventStep(s, p, done);
            PrintGlyphEvent(done, old(cursorX), old(drawPixelCallback.calls), s[p], s[p + 1], s[p + 2]);
            done := done + [Glyph(s[p], s[p + 1], s[p + 2])];
            p := p + 3;
          } else {
            TruncatedLeadStops(s, p);
            break;
          }
        } else if s[p] < 0x80 {
          AsciiEventStep(s, p, done);
          AsciiEvent(done, old(cursorX), old(drawPixelCallback.calls));
          done := done + [AsciiByte];
          p := p + 1;
        } else if 0xC0 <= s[p] {
          SkipStep(s, p);
          p := if p + 1 < |s| then p + 2 else p + 1;
        } else {
          SkipStep(s, p);
          p := p + 1;
        }
      }
      assert done == Events(s, 0);
    }

    /** The glyph branch of print's loop: one more glyph event drawn and passed. */
    method PrintGlyphEvent(ghost done: seq<Event>, ghost x0: int, ghost calls0: seq<PixelCall>,
                           b1: byte, b2: byte, b3: byte)
      requires Valid() && FontFits(rom, choData, jungData, jongData)
      requires fontReady && drawPixelCallback != null
      requires cursorX == x0 + Advance(done, ScaleX(textSize))
      requires drawPixelCallback.calls == calls0 +
                 EventCalls(rom, choData, jungData, jongData, done, x0, cursorY,
                            ScaleX(textSize), ScaleY(textSize), ResolveColor())
      modifies this, drawPixelCallback
      ensures cursorY == old(cursorY) && CurrentSettings() == old(CurrentSettings())
      ensures cursorX == x0 + Advance(done + [Glyph(b1, b2, b3)], ScaleX(textSize))
      ensures drawPixelCallback.calls == calls0 +
                EventCalls(rom, choData, jungData, jongData, done + [Glyph(b1, b2, b3)], x0, cursorY,
                           ScaleX(textSize), ScaleY(textSize), ResolveColor())
    {
      ghost var before := drawPixelCallback.calls;
      ghost var cx := cursorX;
      PrintHangulChar(b1, b2, b3);
      AdvanceSnoc(done, Glyph(b1, b2, b3), ScaleX(textSize));
      GlyphStep(rom, choData, jungData, jongData, done, b1, b2, b3, x0, cx, cursorY, ScaleX(textSize), ScaleY(textSize),
                ResolveColor(), calls0, before, drawPixelCallback.calls);
    }

    /** The ASCII branch of print's loop: the cursor moves by 8, nothing is drawn. */
    method AsciiEvent(ghost done: seq<Event>, ghost x0: int, ghost calls0: seq<PixelCall>)
      requires Valid() && FontFits(rom, choData, jungData, jongData) && drawPixelCallback != null
      requires cursorX == x0 + Advance(done, ScaleX(textSize))
      requires drawPixelCallback.calls == calls0 +
                 EventCalls(rom, choData, jungData, jongData, done, x0, cursorY,
                            ScaleX(textSize), ScaleY(textSize), ResolveColor())
      modifies this
      ensures cursorY == old(cursorY) && CurrentSettings() == old(CurrentSettings())
      ensures cursorX == x0 + Advance(done + [AsciiByte], ScaleX(textSize))
      ensures drawPixelCallback.calls == calls0 +
                EventCalls(rom, choData, jungData, jongData, done + [AsciiByte], x0, cursorY,
                           ScaleX(textSize), ScaleY(textSize), ResolveColor())
    {
      cursorX := cursorX + 8;
      AdvanceSnoc(done, AsciiByte, ScaleX(textSize));
      EventCallsSnocAscii(rom, choData, jungData, jongData, done, x0, cursorY, ScaleX(textSize), ScaleY(textSize),
                          ResolveColor());
    }

    /** print(x, y, text, uint16_t color). */
    method PrintAtRaw(x: int, y: int, text: Option<seq<byte>>, color: uint16)
      requires text.Some? ==> CString(text.value)
      requires Valid() && FontFits(rom, choData, jungData, jongData)
      modifies this, drawPixelCallback
      ensures CurrentSettings() == old(CurrentSettings()).(textColorRaw := color, useRawColor := true)
      ensures cursorY == y
      ensures text.None? || drawPixelCallback == null || !fontReady ==> cursorX == x
      ensures (text.None? || !fontReady) && drawPixelCallback != null ==>
                drawPixelCallback.calls == old(drawPixelCallback.calls)
      ensures text.Some? && drawPixelCallback != null && fontReady ==>
                cursorX == x + Advance(Events(text.value, 0), ScaleX(textSize)) && cursorY == y &&
                drawPixelCallback.calls == old(drawPixelCallback.calls) +
                  EventCalls(rom, choData, jungData, jongData, Events(text.value, 0), x, y,
                             ScaleX(textSize), ScaleY(textSize), color)
    {
      SetCursor(x, y);
      SetTextColorRaw(color);
      Print(text);
    }

    /** print(x, y, text, HangulColor color). */
    method PrintAt(x: int, y: int, text: Option<seq<byte>>, color: HangulColor)
      requires text.Some? ==> CString(text.value)
      requires Valid() && FontFits(rom, choData, jungData, jongData)
      modifies this, drawPixelCallback
      ensures CurrentSettings() == old(CurrentSettings()).(textColor := color, useRawColor := false)
      ensures cursorY == y
      ensures text.None? || drawPixelCallback == null || !fontReady ==> cursorX == x
      ensures (text.None? || !fontReady) && drawPixelCallback != null ==>
                drawPixelCallback.calls == old(drawPixelCallback.calls)
      ensures text.Some? && drawPixelCallback != null && fontReady ==>
                cursorX == x + Advance(Events(text.value, 0), ScaleX(textSize)) && cursorY == y &&
                drawPixelCallback.calls == old(drawPixelCallback.calls) +
                  EventCalls(rom, choData, jungData, jongData, Events(text.value, 0), x, y,
                             ScaleX(textSize), ScaleY(textSize), ColorCode(color))
    {
      SetCursor(x, y);
      SetTextColor(color);
      Print(text);
    }
  }
}
