/** The desktop renderer of `tools/render_hangul.py` (class `HangulRenderer`):
    a Hangul syllable is decomposed into 1-based lead/vowel and 0-based trail
    font indices, a style variant ("bul") is chosen for each, three 16x16
    glyphs are located bul-major in the flat store and OR-composited, and a
    text is laid out as a strip of inverted glyph slots.

    The font bytes are a parameter (loading the file is not modelled).
    Grids are `seq<seq<nat>>` indexed [row][column]. */
module Renderer {
  import opened Bytes
  import opened FontLayout

  /** Lead consonants in Unicode order (19). */
  const CHO_TABLE: seq<char> := ['ㄱ', 'ㄲ', 'ㄴ', 'ㄷ', 'ㄸ', 'ㄹ', 'ㅁ', 'ㅂ', 'ㅃ', 'ㅅ',
                                 'ㅆ', 'ㅇ', 'ㅈ', 'ㅉ', 'ㅊ', 'ㅋ', 'ㅌ', 'ㅍ', 'ㅎ']

  /** Vowels in Unicode order (21). */
  const JUNG_TABLE: seq<char> := ['ㅏ', 'ㅐ', 'ㅑ', 'ㅒ', 'ㅓ', 'ㅔ', 'ㅕ', 'ㅖ', 'ㅗ', 'ㅘ',
                                  'ㅙ', 'ㅚ', 'ㅛ', 'ㅜ', 'ㅝ', 'ㅞ', 'ㅟ', 'ㅠ', 'ㅡ', 'ㅢ', 'ㅣ']

  /** Trailing consonants in Unicode order, entry 0 meaning "none" (28). */
  const JONG_TABLE: seq<string> := ["", "ㄱ", "ㄲ", "ㄳ", "ㄴ", "ㄵ", "ㄶ", "ㄷ", "ㄹ", "ㄺ",
                                    "ㄻ", "ㄼ", "ㄽ", "ㄾ", "ㄿ", "ㅀ", "ㅁ", "ㅂ", "ㅄ", "ㅅ",
                                    "ㅆ", "ㅇ", "ㅈ", "ㅊ", "ㅋ", "ㅌ", "ㅍ", "ㅎ"]

  /** Font indices of a syllable: lead and vowel 1-based, trail 0-based (0 = no trail). */
  datatype FontIndices = FontIndices(cho: int, jung: int, jong: int)

  /** The chosen style variant of each component, 0-based. */
  datatype Buls = Buls(cho: nat, jung: nat, jong: nat)

  /** Absolute glyph indices in the flat store. */
  datatype GlyphIndices = GlyphIndices(cho: int, jung: int, jong: int)

  const SBASE: int := 0xAC00
  const SLAST: int := 0xD7A3

  /** '가' <= c <= '힣': a precomposed Hangul syllable. */
  predicate IsSyllable(c: char)
  {
    '가' <= c <= '힣'
  }

  /** decompose_hangul */
  function DecomposeHangul(c: char): (r: Option<FontIndices>)
    ensures r.None? <==> !(SBASE <= c as int <= SLAST)
    ensures r.Some? ==> 1 <= r.value.cho <= 19 && 1 <= r.value.jung <= 21 && 0 <= r.value.jong <= 27
    ensures r.Some? ==> (r.value.cho - 1) * 588 + (r.value.jung - 1) * 28 + r.value.jong + SBASE == c as int
  {
    if !IsSyllable(c) then None
    else
      var code := c as int - '가' as int;
      var choUnicode := code / (21 * 28);
      var jungUnicode := (code % (21 * 28)) / 28;
      var jongUnicode := code % 28;
      Some(FontIndices(choUnicode + 1, jungUnicode + 1, jongUnicode))
  }

  /** Python's `s[i]`, where a negative index counts from the end. */
  function PyIndex<T>(s: seq<T>, i: int): T
    requires -|s| <= i < |s|
  {
    if i >= 0 then s[i] else s[|s| + i]
  }

  /** The vowel a font vowel index stands for (`JUNG_TABLE[jung_index - 1]`). */
  function JungChar(jung: int): char
    requires -20 <= jung <= 21
  {
    PyIndex(JUNG_TABLE, jung - 1)
  }

  /** get_bul_indices: the literal vowel-group rules. */
  function GetBulIndices(cho: int, jung: int, jong: int): (b: Buls)
    requires -20 <= jung <= 21
    ensures jong <= 0 ==> b.cho <= 4
    ensures jong > 0 ==> 5 <= b.cho <= 7
    ensures b.jung <= 1 <==> jong <= 0
    ensures b.jung <= 3 && (b.jung % 2 == 0 <==> (cho == 1 || cho == 16))
    ensures b.jong <= 3 && (jong == 0 ==> b.jong == 0)
  {
    var jungChar := JungChar(jung);
    var hasJong := jong > 0;
    var choBul :=
      if !hasJong then
        if jungChar in ['ㅏ', 'ㅐ', 'ㅑ', 'ㅒ', 'ㅓ', 'ㅔ', 'ㅕ', 'ㅖ', 'ㅣ'] then 0
        else if jungChar in ['ㅗ', 'ㅛ', 'ㅡ'] then 1
        else if jungChar in ['ㅜ', 'ㅠ'] then 2
        else if jungChar in ['ㅘ', 'ㅙ', 'ㅚ', 'ㅢ'] then 3
        else 4
      else
        if jungChar in ['ㅏ', 'ㅐ', 'ㅑ', 'ㅒ', 'ㅓ', 'ㅔ', 'ㅕ', 'ㅖ', 'ㅣ'] then 5
        else if jungChar in ['ㅗ', 'ㅛ', 'ㅜ', 'ㅠ', 'ㅡ'] then 6
        else 7;
    var isGiyeokOrKieuk := cho == 1 || cho == 16;
    var jungBul :=
      if !hasJong then (if isGiyeokOrKieuk then 0 else 1)
      else (if isGiyeokOrKieuk then 2 else 3);
    var jongBul :=
      if jong == 0 then 0
      else if jungChar in ['ㅏ', 'ㅑ', 'ㅘ'] then 0
      else if jungChar in ['ㅓ', 'ㅕ', 'ㅚ', 'ㅝ', 'ㅟ', 'ㅢ', 'ㅣ'] then 1
      else if jungChar in ['ㅐ', 'ㅒ', 'ㅔ', 'ㅖ', 'ㅙ', 'ㅞ'] then 2
      else 3;
    Buls(choBul, jungBul, jongBul)
  }

  /** Only the presence of a trail matters to the variants, not which trail it is. */
  lemma BulsIgnoreTrailIdentity(cho: int, jung: int, jong1: int, jong2: int)
    requires -20 <= jung <= 21
    requires jong1 > 0 && jong2 > 0
    ensures GetBulIndices(cho, jung, jong1) == GetBulIndices(cho, jung, jong2)
  {
  }

  /** The glyph locator of render_char: `offset + bul * COUNT + index`, bul-major. */
  function LocateGlyphs(t: FontIndices, b: Buls): GlyphIndices
  {
    GlyphIndices(CHO_OFFSET + b.cho * CHO_COUNT + t.cho,
                 JUNG_OFFSET + b.jung * JUNG_COUNT + t.jung,
                 JONG_OFFSET + b.jong * JONG_COUNT + t.jong)
  }

  /** The glyph indices render_char computes for a syllable. */
  function SyllableGlyphs(c: char): GlyphIndices
    requires IsSyllable(c)
  {
    var t := DecomposeHangul(c).value;
    LocateGlyphs(t, GetBulIndices(t.cho, t.jung, t.jong))
  }

  /** Every decomposable syllable is located inside the three disjoint sections. */
  lemma GlyphsInSections(c: char)
    requires IsSyllable(c)
    ensures 0 <= SyllableGlyphs(c).cho < JUNG_OFFSET
    ensures JUNG_OFFSET <= SyllableGlyphs(c).jung < JONG_OFFSET
    ensures JONG_OFFSET <= SyllableGlyphs(c).jong < TOTAL_GLYPHS
  {
  }

  // ---------------------------------------------------------------------------
  // Glyph bitmaps and compositing

  predicate IsGrid(g: seq<seq<nat>>, width: nat)
  {
    |g| == GLYPH_HEIGHT && forall r :: 0 <= r < |g| ==> |g[r]| == width
  }

  /** Every pixel is 0 (background) or 255 (ink). */
  predicate IsBinary(g: seq<seq<nat>>)
  {
    forall r, c :: 0 <= r < |g| && 0 <= c < |g[r]| ==> g[r][c] == 0 || g[r][c] == 255
  }

  /** Glyph i is present in the store. */
  predicate HasGlyph(font: seq<byte>, i: int)
  {
    0 <= i && BYTES_PER_GLYPH * i + BYTES_PER_GLYPH <= |font|
  }

  /** Pixel (r, c) of glyph i: bit `0x80 >> (c % 8)` of byte `32i + 2r + c/8` gives ink (255). */
  function GlyphPixel(font: seq<byte>, i: int, r: nat, c: nat): (v: nat)
    requires HasGlyph(font, i) && r < 16 && c < 16
  {
    if BitSet(font[BYTES_PER_GLYPH * i + 2 * r + c / 8], 7 - c % 8) then 255 else 0
  }

  /** The 16x16 bitmap of glyph i: row r is bytes 2r and 2r+1 of the glyph, MSB first. */
  function GlyphBitmap(font: seq<byte>, i: int): (bm: seq<seq<nat>>)
    requires HasGlyph(font, i)
    ensures IsGrid(bm, GLYPH_WIDTH) && IsBinary(bm)
    ensures forall r, c :: 0 <= r < 16 && 0 <= c < 16 ==> bm[r][c] == GlyphPixel(font, i, r, c)
  {
    seq(16, r requires 0 <= r < 16 => seq(16, c requires 0 <= c < 16 => GlyphPixel(font, i, r, c)))
  }

  /** get_glyph_bitmap: fills a zeroed 16x16 array row by row, high byte then low byte. */
  method GetGlyphBitmap(font: seq<byte>, glyphIndex: int) returns (bitmap: array2<nat>)
    requires HasGlyph(font, glyphIndex)
    ensures bitmap.Length0 == GLYPH_HEIGHT && bitmap.Length1 == GLYPH_WIDTH
    ensures forall r, c :: 0 <= r < 16 && 0 <= c < 16 ==>
              bitmap[r, c] == (if BitSet(font[BYTES_PER_GLYPH * glyphIndex + 2 * r + c / 8], 7 - c % 8) then 255 else 0)
  {
    var offset := glyphIndex * BYTES_PER_GLYPH;
    bitmap := new nat[GLYPH_HEIGHT, GLYPH_WIDTH]((_, _) => 0);
    for row := 0 to GLYPH_HEIGHT
      invariant forall r, c :: 0 <= r < 16 && 0 <= c < 16 ==>
                  bitmap[r, c] == (if r < row then GlyphPixel(font, glyphIndex, r, c) else 0)
    {
      var byteOffset := row * 2;
      var highByte := font[offset + byteOffset];
      var lowByte := font[offset + byteOffset + 1];
      for col := 0 to 8
        invariant forall r, c :: 0 <= r < 16 && 0 <= c < 16 ==>
                    bitmap[r, c] == (if r < row || (r == row && c < col) then GlyphPixel(font, glyphIndex, r, c) else 0)
      {
        HighBytePixel(font, glyphIndex, row, col);
        if BitSet(highByte, 7 - col) {
          bitmap[row, col] := 255;
        }
      }
      for col := 0 to 8
        invariant forall r, c :: 0 <= r < 16 && 0 <= c < 16 ==>
                    bitmap[r, c] == (if r < row || (r == row && c < col + 8) then GlyphPixel(font, glyphIndex, r, c) else 0)
      {
        LowBytePixel(font, glyphIndex, row, col);
        if BitSet(lowByte, 7 - col) {
          bitmap[row, col + 8] := 255;
        }
      }
    }
  }

  /** Column col < 8 of row r is bit 7 - col of the row's first byte. */
  lemma HighBytePixel(font: seq<byte>, i: int, r: nat, col: nat)
    requires HasGlyph(font, i) && r < 16 && col < 8
    ensures GlyphPixel(font, i, r, col) == if BitSet(font[i * BYTES_PER_GLYPH + r * 2], 7 - col) then 255 else 0
  {
    assert col / 8 == 0 && col % 8 == col;
  }

  /** Column col + 8 of row r is bit 7 - col of the row's second byte. */
  lemma LowBytePixel(font: seq<byte>, i: int, r: nat, col: nat)
    requires HasGlyph(font, i) && r < 16 && col < 8
    ensures GlyphPixel(font, i, r, col + 8) == if BitSet(font[i * BYTES_PER_GLYPH + r * 2 + 1], 7 - col) then 255 else 0
  {
    assert (col + 8) / 8 == 1 && (col + 8) % 8 == col;
  }

  /** numpy's `|` on two uint8 pixels. */
  function OrPixel(a: nat, b: nat): (r: nat)
    requires a < 256 && b < 256
  {
    ((a as bv8) | (b as bv8)) as nat
  }

  /** On binary pixels `|` is ink when either input is ink. */
  lemma OrPixelBinary(a: nat, b: nat)
    requires a == 0 || a == 255
    requires b == 0 || b == 255
    ensures OrPixel(a, b) == (if a == 255 || b == 255 then 255 else 0)
  {
  }

  /** The pixel-wise OR of two binary 16x16 grids. */
  function OrGrid(a: seq<seq<nat>>, b: seq<seq<nat>>): (g: seq<seq<nat>>)
    requires IsGrid(a, 16) && IsGrid(b, 16) && IsBinary(a) && IsBinary(b)
    ensures IsGrid(g, 16) && IsBinary(g)
    ensures forall r, c :: 0 <= r < 16 && 0 <= c < 16 ==> (g[r][c] == 255 <==> a[r][c] == 255 || b[r][c] == 255)
  {
    var g := seq(16, r requires 0 <= r < 16 =>
               seq(16, c requires 0 <= c < 16 => OrPixel(a[r][c], b[r][c])));
    assert forall r, c :: 0 <= r < 16 && 0 <= c < 16 ==>
             g[r][c] == (if a[r][c] == 255 || b[r][c] == 255 then 255 else 0) by {
      forall r, c | 0 <= r < 16 && 0 <= c < 16
        ensures g[r][c] == (if a[r][c] == 255 || b[r][c] == 255 then 255 else 0)
      {
        OrPixelBinary(a[r][c], b[r][c]);
      }
    }
    g
  }

  /** The all-background 16x16 grid. */
  function BlankGrid(): (g: seq<seq<nat>>)
    ensures IsGrid(g, 16) && IsBinary(g)
  {
    seq(16, _ => seq(16, _ => 0))
  }

  /** Every glyph render_char fetches for c is present in the store. */
  predicate CanRender(font: seq<byte>, c: char)
  {
    IsSyllable(c) ==>
      var g := SyllableGlyphs(c);
      HasGlyph(font, g.cho) && HasGlyph(font, g.jung) &&
      (DecomposeHangul(c).value.jong > 0 ==> HasGlyph(font, g.jong))
  }

  /** A complete 11520-byte store can render every character. */
  lemma FullStoreRendersAll(font: seq<byte>, c: char)
    requires |font| >= EXPECTED_FILE_SIZE
    ensures CanRender(font, c)
  {
    if IsSyllable(c) {
      GlyphsInSections(c);
    }
  }

  /** render_char: blank for non-Hangul; otherwise lead | vowel, and | trail only when there is one. */
  function RenderChar(font: seq<byte>, c: char): (bm: seq<seq<nat>>)
    requires CanRender(font, c)
    ensures IsGrid(bm, 16) && IsBinary(bm)
  {
    match DecomposeHangul(c)
    case None => BlankGrid()
    case Some(t) =>
      var b := GetBulIndices(t.cho, t.jung, t.jong);
      var g := LocateGlyphs(t, b);
      var result := OrGrid(GlyphBitmap(font, g.cho), GlyphBitmap(font, g.jung));
      if t.jong > 0 then OrGrid(result, GlyphBitmap(font, g.jong)) else result
  }

  /** Ink of glyph i at (r, c). */
  predicate Ink(font: seq<byte>, i: int, r: nat, c: nat)
    requires HasGlyph(font, i) && r < 16 && c < 16
  {
    BitSet(font[BYTES_PER_GLYPH * i + 2 * r + c / 8], 7 - c % 8)
  }

  /** What render_char draws, pixel by pixel. */
  lemma RenderCharPixels(font: seq<byte>, c: char, r: nat, col: nat)
    requires CanRender(font, c) && r < 16 && col < 16
    ensures !IsSyllable(c) ==> RenderChar(font, c)[r][col] == 0
    ensures IsSyllable(c) ==>
      var g := SyllableGlyphs(c);
      (RenderChar(font, c)[r][col] == 255 <==>
         Ink(font, g.cho, r, col) || Ink(font, g.jung, r, col) ||
         (DecomposeHangul(c).value.jong > 0 && Ink(font, g.jong, r, col)))
    ensures RenderChar(font, c)[r][col] == 0 || RenderChar(font, c)[r][col] == 255
  {
    if IsSyllable(c) {
      var t := DecomposeHangul(c).value;
      var g := LocateGlyphs(t, GetBulIndices(t.cho, t.jung, t.jong));
      var lead := GlyphBitmap(font, g.cho);
      var vowel := GlyphBitmap(font, g.jung);
      var both := OrGrid(lead, vowel);
      assert both[r][col] == 255 <==> Ink(font, g.cho, r, col) || Ink(font, g.jung, r, col);
      if t.jong > 0 {
        var trail := GlyphBitmap(font, g.jong);
        assert RenderChar(font, c) == OrGrid(both, trail);
        assert trail[r][col] == 255 <==> Ink(font, g.jong, r, col);
      } else {
        assert RenderChar(font, c) == both;
      }
    }
  }

  /** The same 32-byte glyph record in two stores. */
  predicate SameGlyph(f1: seq<byte>, f2: seq<byte>, i: int)
    requires HasGlyph(f1, i) && HasGlyph(f2, i)
  {
    f1[BYTES_PER_GLYPH * i .. BYTES_PER_GLYPH * i + BYTES_PER_GLYPH] ==
    f2[BYTES_PER_GLYPH * i .. BYTES_PER_GLYPH * i + BYTES_PER_GLYPH]
  }

  lemma SameGlyphBitmap(f1: seq<byte>, f2: seq<byte>, i: int)
    requires HasGlyph(f1, i) && HasGlyph(f2, i) && SameGlyph(f1, f2, i)
    ensures GlyphBitmap(f1, i) == GlyphBitmap(f2, i)
  {
    var base := BYTES_PER_GLYPH * i;
    forall j | base <= j < base + BYTES_PER_GLYPH
      ensures f1[j] == f2[j]
    {
      assert f1[base .. base + BYTES_PER_GLYPH][j - base] == f2[base .. base + BYTES_PER_GLYPH][j - base];
    }
    forall r | 0 <= r < 16
      ensures GlyphBitmap(f1, i)[r] == GlyphBitmap(f2, i)[r]
    {
      assert forall c :: 0 <= c < 16 ==> GlyphPixel(f1, i, r, c) == GlyphPixel(f2, i, r, c);
    }
  }

  /** render_char reads only the glyphs it fetches: the lead and vowel glyphs,
      and the trail glyph only when the syllable has a trail. */
  lemma {:induction false} RenderCharReadsOnlyFetched(f1: seq<byte>, f2: seq<byte>, c: char)
    requires IsSyllable(c) && CanRender(f1, c) && CanRender(f2, c)
    requires SameGlyph(f1, f2, SyllableGlyphs(c).cho) && SameGlyph(f1, f2, SyllableGlyphs(c).jung)
    requires DecomposeHangul(c).value.jong > 0 ==> SameGlyph(f1, f2, SyllableGlyphs(c).jong)
    ensures RenderChar(f1, c) == RenderChar(f2, c)
  {
    var g := SyllableGlyphs(c);
    SameGlyphBitmap(f1, f2, g.cho);
    SameGlyphBitmap(f1, f2, g.jung);
    if DecomposeHangul(c).value.jong > 0 {
      SameGlyphBitmap(f1, f2, g.jong);
    }
  }

  // ---------------------------------------------------------------------------
  // Text strips

  /** The `chars` list of render_text: the Hangul syllables and spaces of the text, in order. */
  function KeptChars(text: string): (chars: string)
    ensures |chars| <= |text|
    ensures forall k :: 0 <= k < |chars| ==> IsSyllable(chars[k]) || chars[k] == ' '
    ensures forall ch :: ch in chars ==> ch in text
  {
    if text == [] then []
    else
      var last := text[|text| - 1];
      KeptChars(text[..|text| - 1]) + (if IsSyllable(last) || last == ' ' then [last] else [])
  }

  /** Keeping characters is a filter: it distributes over concatenation. */
  lemma {:induction false} KeptCharsAppend(a: string, b: string)
    ensures KeptChars(a + b) == KeptChars(a) + KeptChars(b)
  {
    if b == [] {
      assert a + b == a;
    } else {
      var b' := b[..|b| - 1];
      assert (a + b)[..|a + b| - 1] == a + b';
      KeptCharsAppend(a, b');
    }
  }

  /** A single character is kept exactly when it is a syllable or a space. */
  lemma KeptCharsSingle(c: char)
    ensures KeptChars([c]) == (if IsSyllable(c) || c == ' ' then [c] else [])
  {
    assert [c][..0] == [];
  }

  /** Width of a strip of n slots: `n*16 + (n-1)*spacing`. */
  function StripWidth(n: nat, spacing: nat): int
  {
    n * GLYPH_WIDTH + (n - 1) * spacing
  }

  /** Every entry is a binary 16x16 grid. */
  predicate Grids(gs: seq<seq<seq<nat>>>)
  {
    forall k :: 0 <= k < |gs| ==> IsGrid(gs[k], 16) && IsBinary(gs[k])
  }

  /** The bitmaps render_char gives the kept characters, slot by slot. */
  function RenderAll(font: seq<byte>, chars: string): (gs: seq<seq<seq<nat>>>)
    requires forall ch :: ch in chars ==> CanRender(font, ch)
    ensures |gs| == |chars| && Grids(gs)
    ensures forall k :: 0 <= k < |chars| ==> gs[k] == RenderChar(font, chars[k])
  {
    seq(|chars|, k requires 0 <= k < |chars| => RenderChar(font, chars[k]))
  }

  /** A space renders as the blank grid. */
  lemma SpaceRendersBlank(font: seq<byte>)
    ensures RenderChar(font, ' ') == BlankGrid()
  {
  }

  /** The strip at (r, x) of slots holding the bitmaps gs: slot x / (16 + spacing),
      column x % (16 + spacing) inside it; a glyph column shows `255 - bitmap`, a
      spacing column or a column past the last slot stays 255. */
  function StripPixel(gs: seq<seq<seq<nat>>>, spacing: nat, r: nat, x: nat): nat
    requires r < 16 && Grids(gs)
  {
    SlotPixel(gs, r, x / (GLYPH_WIDTH + spacing), x % (GLYPH_WIDTH + spacing))
  }

  /** Column c of slot k. */
  function SlotPixel(gs: seq<seq<seq<nat>>>, r: nat, k: nat, c: nat): nat
    requires r < 16 && Grids(gs)
  {
    if k < |gs| && c < GLYPH_WIDTH then 255 - gs[k][r][c] else 255
  }

  /** Slot k of the strip occupies columns [k*(16+spacing), (k+1)*(16+spacing)): its first 16
      columns show `255 - bitmap`, the spacing columns stay 255. */
  lemma StripSlot(gs: seq<seq<seq<nat>>>, spacing: nat, k: nat, c: nat, r: nat)
    requires r < 16 && Grids(gs) && k < |gs| && c < GLYPH_WIDTH + spacing
    ensures StripPixel(gs, spacing, r, k * (GLYPH_WIDTH + spacing) + c) ==
              if c < GLYPH_WIDTH then 255 - gs[k][r][c] else 255
  {
    var step := GLYPH_WIDTH + spacing;
    var x := k * step + c;
    DivModOfSum(k, c, step);
    assert x / step == k && x % step == c;
  }

  /** Every column of the strip lies in one of its slots. */
  lemma StripColumnsInSlots(n: nat, spacing: nat, x: nat)
    requires x < StripWidth(n, spacing)
    ensures x / (GLYPH_WIDTH + spacing) < n
  {
    var step := GLYPH_WIDTH + spacing;
    assert x == (x / step) * step + x % step;
    if x / step >= n {
      MulMonotone(n, x / step, step);
    }
  }

  /** The strip of a text, pixel by pixel: black (0) exactly where the character of its
      slot has ink, white (255) in spacing columns and in space slots. */
  lemma StripOfText(font: seq<byte>, chars: string, spacing: nat, k: nat, c: nat, r: nat)
    requires forall ch :: ch in chars ==> CanRender(font, ch)
    requires r < 16 && k < |chars| && c < GLYPH_WIDTH + spacing
    ensures var gs := RenderAll(font, chars);
            var v := StripPixel(gs, spacing, r, k * (GLYPH_WIDTH + spacing) + c);
            (v == 0 || v == 255) &&
            (v == 0 <==> c < GLYPH_WIDTH && gs[k][r][c] == 255) &&
            (chars[k] == ' ' ==> v == 255)
  {
    var gs := RenderAll(font, chars);
    StripSlot(gs, spacing, k, c, r);
    if c < GLYPH_WIDTH {
      RenderCharPixels(font, chars[k], r, c);
    }
  }

  /** `255 - bitmap`: ink becomes 0, background 255. */
  function Invert(g: seq<seq<nat>>): (inv: seq<seq<nat>>)
    requires IsGrid(g, 16) && IsBinary(g)
    ensures IsGrid(inv, 16) && IsBinary(inv)
    ensures forall r, c :: 0 <= r < 16 && 0 <= c < 16 ==> inv[r][c] == 255 - g[r][c]
  {
    seq(16, r requires 0 <= r < 16 => seq(16, c requires 0 <= c < 16 => 255 - g[r][c]))
  }

  /** `pixels[:, x:x+16] = np.minimum(pixels[:, x:x+16], glyph)` */
  method PasteMin(pixels: array2<nat>, xOffset: nat, glyph: seq<seq<nat>>)
    requires pixels.Length0 == GLYPH_HEIGHT && xOffset + GLYPH_WIDTH <= pixels.Length1
    requires IsGrid(glyph, 16)
    modifies pixels
    ensures forall r, x :: 0 <= r < 16 && 0 <= x < pixels.Length1 ==>
              pixels[r, x] == if xOffset <= x < xOffset + GLYPH_WIDTH
                              then Min(old(pixels[r, x]), glyph[r][x - xOffset]) else old(pixels[r, x])
  {
    for row := 0 to GLYPH_HEIGHT
      invariant forall r, x :: 0 <= r < 16 && 0 <= x < pixels.Length1 ==>
                  pixels[r, x] == if r < row && xOffset <= x < xOffset + GLYPH_WIDTH
                                  then Min(old(pixels[r, x]), glyph[r][x - xOffset]) else old(pixels[r, x])
    {
      for col := 0 to GLYPH_WIDTH
        invariant forall r, x :: 0 <= r < 16 && 0 <= x < pixels.Length1 ==>
                    pixels[r, x] == if (r < row || (r == row && x < xOffset + col)) && xOffset <= x < xOffset + GLYPH_WIDTH
                                    then Min(old(pixels[r, x]), glyph[r][x - xOffset]) else old(pixels[r, x])
      {
        pixels[row, xOffset + col] := Min(pixels[row, xOffset + col], glyph[row][col]);
      }
    }
  }

  /** The columns left of `upto` already hold the strip, the rest still hold the background 255. */
  ghost predicate StripPrefix(pixels: array2<nat>, gs: seq<seq<seq<nat>>>, spacing: nat, upto: nat)
    requires Grids(gs)
    reads pixels
  {
    pixels.Length0 == GLYPH_HEIGHT &&
    forall r, x :: 0 <= r < 16 && 0 <= x < pixels.Length1 ==>
      pixels[r, x] == (if x < upto then StripPixel(gs, spacing, r, x) else 255)
  }

  /** One iteration of render_text's loop: a space slot is skipped, any other slot
      gets the inverted bitmap of its character pasted with `np.minimum`. */
  method PaintSlot(pixels: array2<nat>, gs: seq<seq<seq<nat>>>, isSpace: bool, spacing: nat, k: nat, xOffset: nat)
    requires Grids(gs) && k < |gs| && (isSpace ==> gs[k] == BlankGrid())
    requires xOffset == k * (GLYPH_WIDTH + spacing) && xOffset + GLYPH_WIDTH <= pixels.Length1
    requires StripPrefix(pixels, gs, spacing, xOffset)
    modifies pixels
    ensures StripPrefix(pixels, gs, spacing, xOffset + GLYPH_WIDTH + spacing)
  {
    var step := GLYPH_WIDTH + spacing;
    forall r, x | 0 <= r < 16 && xOffset <= x < xOffset + step
      ensures StripPixel(gs, spacing, r, x) ==
                if x < xOffset + GLYPH_WIDTH then 255 - gs[k][r][x - xOffset] else 255
    {
      StripSlot(gs, spacing, k, x - xOffset, r);
    }
    if isSpace {
      return;
    }
    var inverted := Invert(gs[k]);
    PasteMin(pixels, xOffset, inverted);
  }

  /** Slot k of n ends inside the strip. */
  lemma SlotFits(n: nat, spacing: nat, k: nat)
    requires k < n
    ensures k * (GLYPH_WIDTH + spacing) + GLYPH_WIDTH <= StripWidth(n, spacing)
    ensures k + 1 == n ==> StripWidth(n, spacing) <= (k + 1) * (GLYPH_WIDTH + spacing)
    ensures (k + 1) * (GLYPH_WIDTH + spacing) == k * (GLYPH_WIDTH + spacing) + GLYPH_WIDTH + spacing
  {
    MulMonotone(k, n - 1, GLYPH_WIDTH + spacing);
  }

  /** Once every column is left of `upto`, the array is the strip. */
  lemma StripFilled(pixels: array2<nat>, gs: seq<seq<seq<nat>>>, spacing: nat, upto: nat)
    requires Grids(gs) && StripPrefix(pixels, gs, spacing, upto) && pixels.Length1 <= upto
    ensures forall r, x :: 0 <= r < pixels.Length0 && 0 <= x < pixels.Length1 ==>
              pixels[r, x] == StripPixel(gs, spacing, r, x)
  {
  }

  /** The `chars` loop of render_text. */
  method CollectChars(text: string) returns (chars: string)
    ensures chars == KeptChars(text)
  {
    chars := [];
    for i := 0 to |text|
      invariant chars == KeptChars(text[..i])
    {
      assert text[..i + 1][..i] == text[..i];
      var ch := text[i];
      if IsSyllable(ch) {
        chars := chars + [ch];
      } else if ch == ' ' {
        chars := chars + [' '];
      }
    }
    assert text[..|text|] == text;
  }

  /** render_text: null when no syllable or space remains; otherwise a 16-row strip of
      StripWidth columns whose every pixel is the StripPixel of the kept characters' bitmaps. */
  method RenderText(font: seq<byte>, text: string, spacing: nat) returns (img: array2?<nat>)
    requires forall ch :: ch in text ==> CanRender(font, ch)
    ensures img == null <==> KeptChars(text) == []
    ensures img != null ==> img.Length0 == GLYPH_HEIGHT && img.Length1 == StripWidth(|KeptChars(text)|, spacing)
    ensures img != null ==> forall r, x :: 0 <= r < img.Length0 && 0 <= x < img.Length1 ==>
              img[r, x] == StripPixel(RenderAll(font, KeptChars(text)), spacing, r, x)
  {
    var chars := CollectChars(text);
    if chars == [] {
      return null;
    }
    var gs := RenderAll(font, chars);
    var n := |chars|;
    var step := GLYPH_WIDTH + spacing;
    var totalWidth := n * GLYPH_WIDTH + (n - 1) * spacing;
    var pixels := new nat[GLYPH_HEIGHT, totalWidth]((_, _) => 255);
    var xOffset := 0;
    for k := 0 to n
      invariant xOffset == k * step
      invariant StripPrefix(pixels, gs, spacing, xOffset)
    {
      SlotFits(n, spacing, k);
      if chars[k] == ' ' {
        SpaceRendersBlank(font);
      }
      PaintSlot(pixels, gs, chars[k] == ' ', spacing, k, xOffset);
      xOffset := xOffset + step;
    }
    SlotFits(n, spacing, n - 1);
    StripFilled(pixels, gs, spacing, xOffset);
    img := pixels;
  }

  /** "가 나" keeps its space as a slot: three slots, so 48 + 2*spacing columns. */
  lemma ExampleStripWidth(spacing: nat)
    ensures KeptChars("가 나") == "가 나"
    ensures StripWidth(|KeptChars("가 나")|, spacing) == 3 * GLYPH_WIDTH + 2 * spacing
  {
    KeptCharsAppend("가 ", "나");
    KeptCharsAppend("가", " ");
    KeptCharsSingle('가');
    KeptCharsSingle(' ');
    KeptCharsSingle('나');
  }

  /** Characters other than syllables and spaces are dropped, not drawn blank. */
  lemma OtherCharactersDropped()
    ensures KeptChars("가A") == "가"
  {
    KeptCharsAppend("가", "A");
    KeptCharsSingle('가');
    KeptCharsSingle('A');
  }

  /** The two concrete syllables of the design notes: '가' and '강'. */
  lemma ExampleSyllables()
    ensures DecomposeHangul('가') == Some(FontIndices(1, 1, 0))
    ensures GetBulIndices(1, 1, 0) == Buls(0, 0, 0)
    ensures SyllableGlyphs('가') == GlyphIndices(1, 161, 248)
    ensures DecomposeHangul('강') == Some(FontIndices(1, 1, 21))
    ensures GetBulIndices(1, 1, 21) == Buls(5, 2, 0)
    ensures SyllableGlyphs('강') == GlyphIndices(101, 205, 269)
  {
  }
}
