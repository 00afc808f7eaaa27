/** The ASCII converter `tools/eng_to_h.py`: a 4096-byte store of 128 glyphs and its own
    copy of the array formatter. */
module EngConverter {
  import opened Bytes
  import opened FontLayout
  import ArrayText

  /** EXPECTED_FILE_SIZE = ASCII_COUNT * BYTES_PER_GLYPH. */
  lemma ExpectedFileSize()
    ensures ASCII_EXPECTED_FILE_SIZE == ASCII_COUNT * BYTES_PER_GLYPH == 128 * 32 == 4096
  {
  }

  /** format_byte_array of the ASCII converter: the same loop, so the same text as the
      Hangul converter's for the same data and line width. */
  method FormatByteArray(data: seq<byte>, bytesPerLine: nat) returns (text: string)
    requires bytesPerLine > 0
    ensures text == ArrayText.FormatText(data, bytesPerLine)
  {
    var lines: seq<string> := [];
    var i := 0;
    ArrayText.ProgressStart(data, bytesPerLine);
    while i < |data|
      invariant ArrayText.Progress(data, bytesPerLine, i, lines)
      decreases |data| - i
    {
      var chunk := data[i .. Min(i + bytesPerLine, |data|)];
      var hexValues := ArrayText.Join(ArrayText.HexTokens(chunk), ", ");
      var line := "  " + hexValues;
      ArrayText.ProgressStep(data, bytesPerLine, i, lines, line);
      lines := lines + [line];
      i := i + bytesPerLine;
    }
    ArrayText.ProgressDone(data, bytesPerLine, i, lines);
    text := ArrayText.Join(lines, ",\n");
  }
}
