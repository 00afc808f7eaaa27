/** The header converters `tools/easyview-font-converter/han_to_h.py`
    (class `HangulFontConverter`) and `tools/eng_to_h.py` (class
    `EnglishFontConverter`): the layout constants, the jamo name tables,
    the bounds-checked glyph slice and the loop that formats a byte array
    as the body of a C array initialiser (its text is specified in
    `ArrayText`). Reading the font file and writing the header are not
    modelled. */
module FontConverter {
  import opened Bytes
  import opened FontLayout
  import opened ArrayText

  /** Names of the lead consonants, index 0 being the empty placeholder. */
  const CHO_NAMES: seq<string> := ["empty", "g", "gg", "n", "d", "dd", "r", "m", "b", "bb",
                                   "s", "ss", "ng", "j", "jj", "ch", "k", "t", "p", "h"]

  /** Names of the vowels, index 0 being the empty placeholder. */
  const JUNG_NAMES: seq<string> := ["empty", "a", "ae", "ya", "yae", "eo", "e", "yeo", "ye",
                                    "o", "wa", "wae", "oe", "yo", "u", "wo", "we", "wi", "yu",
                                    "eu", "ui", "i"]

  /** Names of the trailing consonants, index 0 being "no trail". */
  const JONG_NAMES: seq<string> := ["empty", "g", "gg", "gs", "n", "nj", "nh", "d", "r", "rg",
                                    "rm", "rb", "rs", "rt", "rp", "rh", "m", "b", "bs", "s",
                                    "ss", "ng", "j", "ch", "k", "t", "p", "h"]

  /** One name per entry of a section, "empty" only for the placeholder at index 0. */
  predicate NamesSection(names: seq<string>, count: nat)
  {
    |names| == count && count > 0 && names[0] == "empty" &&
    forall i :: 1 <= i < |names| ==> names[i] != "empty"
  }

  /** The name tables follow the section sizes of the layout. */
  lemma NameTables()
    ensures NamesSection(CHO_NAMES, CHO_COUNT)
    ensures NamesSection(JUNG_NAMES, JUNG_COUNT)
    ensures NamesSection(JONG_NAMES, JONG_COUNT)
  {
  }

  // ---------------------------------------------------------------------------
  // get_glyph_data

  /** Python's `s[lo:hi]` for 0 <= lo <= hi: bounds past the end are clipped. */
  function PySlice(s: seq<byte>, lo: nat, hi: nat): (r: seq<byte>)
    requires lo <= hi
    ensures |r| == (if hi <= |s| then hi - lo else if lo <= |s| then |s| - lo else 0)
    ensures forall k :: 0 <= k < |r| ==> r[k] == s[lo + k]
  {
    if lo >= |s| then [] else s[lo .. if hi <= |s| then hi else |s|]
  }

  /** get_glyph_data: None outside 0..359; otherwise the glyph's 32-byte record, cut short
      when the font data is shorter than the layout (a short file only warns). */
  function GetGlyphData(fontData: seq<byte>, glyphIndex: int): (r: Option<seq<byte>>)
    ensures r.None? <==> glyphIndex < 0 || glyphIndex >= TOTAL_GLYPHS
    ensures r.Some? ==> |r.value| == if |fontData| >= (glyphIndex + 1) * BYTES_PER_GLYPH then BYTES_PER_GLYPH
                                     else if |fontData| >= glyphIndex * BYTES_PER_GLYPH then |fontData| - glyphIndex * BYTES_PER_GLYPH
                                     else 0
    ensures r.Some? ==> forall k :: 0 <= k < |r.value| ==> r.value[k] == fontData[glyphIndex * BYTES_PER_GLYPH + k]
    ensures r.Some? && |fontData| >= EXPECTED_FILE_SIZE ==> |r.value| == BYTES_PER_GLYPH
  {
    if glyphIndex < 0 || glyphIndex >= TOTAL_GLYPHS then None
    else
      var offset := glyphIndex * BYTES_PER_GLYPH;
      Some(PySlice(fontData, offset, offset + BYTES_PER_GLYPH))
  }

  // ---------------------------------------------------------------------------
  // format_byte_array

  /** format_byte_array: the `for` loop appending one line per chunk, then the join. */
  method FormatByteArray(data: seq<byte>, bytesPerLine: nat) returns (text: string)
    requires bytesPerLine > 0
    ensures text == FormatText(data, bytesPerLine)
  {
    var lines: seq<string> := [];
    var i := 0;
    ProgressStart(data, bytesPerLine);
    while i < |data|
      invariant Progress(data, bytesPerLine, i, lines)
      decreases |data| - i
    {
      var chunk := data[i .. Min(i + bytesPerLine, |data|)];
      var hexValues := Join(HexTokens(chunk), ", ");
      var line := "  " + hexValues;
      ProgressStep(data, bytesPerLine, i, lines, line);
      lines := lines + [line];
      i := i + bytesPerLine;
    }
    ProgressDone(data, bytesPerLine, i, lines);
    text := Join(lines, ",\n");
  }
}
