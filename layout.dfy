/** The layout of the combinatorial ("compound") Hangul font: 16x16
    one-bit glyphs of 32 bytes, stored in three sections (lead, vowel,
    trail), each holding several style variants ("bul") of every jamo.
    The same constants are defined by the renderer, both display headers
    and both converters. */
module FontLayout {

  const GLYPH_WIDTH: nat := 16
  const GLYPH_HEIGHT: nat := 16
  const BYTES_PER_GLYPH: nat := 32

  /** Entries per variant (index 0 of each section is the empty placeholder) and variant counts. */
  const CHO_COUNT: nat := 20
  const CHO_BUL: nat := 8
  const JUNG_COUNT: nat := 22
  const JUNG_BUL: nat := 4
  const JONG_COUNT: nat := 28
  const JONG_BUL: nat := 4

  const CHO_OFFSET: nat := 0
  const JUNG_OFFSET: nat := CHO_COUNT * CHO_BUL
  const JONG_OFFSET: nat := JUNG_OFFSET + JUNG_COUNT * JUNG_BUL

  const TOTAL_GLYPHS: nat := CHO_COUNT * CHO_BUL + JUNG_COUNT * JUNG_BUL + JONG_COUNT * JONG_BUL
  const EXPECTED_FILE_SIZE: nat := TOTAL_GLYPHS * BYTES_PER_GLYPH

  /** The ASCII companion store: one glyph per code point 0..127, no variants. */
  const ASCII_COUNT: nat := 128
  const ASCII_EXPECTED_FILE_SIZE: nat := ASCII_COUNT * BYTES_PER_GLYPH

  /** The section offsets and sizes the converters print in the generated header. */
  lemma SectionLayout()
    ensures JUNG_OFFSET == 160 && JONG_OFFSET == 248 && TOTAL_GLYPHS == 360
    ensures EXPECTED_FILE_SIZE == 11520
    ensures JONG_OFFSET + JONG_COUNT * JONG_BUL == TOTAL_GLYPHS
  {
  }

  /** The ASCII store holds 128 glyphs of 32 bytes. */
  lemma AsciiLayout()
    ensures ASCII_EXPECTED_FILE_SIZE == 4096
  {
  }
}
