# Hangul glyph selection and composition, modelled in Dafny

A modern Hangul syllable (U+AC00..U+D7A3) is not stored as a whole in the
bitmap font. It is built from three 16x16 glyphs: a lead consonant (초성),
a vowel (중성) and an optional trailing consonant (종성). Each component has
several style variants ("벌", *bul*): 8 for the lead, 4 for the vowel and 4
for the trail. Which variant is used depends on the other two components. The
font file holds 360 glyphs of 32 bytes each, 11 520 bytes in all, laid out in
three sections: lead at glyph 0, vowel at 160, trail at 248.

This project models the code that makes that choice and composes the glyphs:

- **Renderer** (`tools/render_hangul.py`). The desktop renderer.
  - It decomposes a syllable into a 1-based lead and vowel and a 0-based trail.
  - It picks the variants by vowel-group rules and locates the glyphs bul-major.
  - It ORs the three bitmaps into one glyph.
  - It lays a text out as a strip of inverted 16-pixel slots.
- **HangulCore** (`HangulDisp/HangulDisp.h`, namespace `HangulCore`). The
  firmware's engine.
  - Three 21-entry variant tables.
  - The UTF-8 syllable test and decomposition.
  - `findNextHangul`.
- **GlyphDraw**. The pixel loop `drawCombinedGlyph` and `getPixelFromGlyph`, which
  both display adapters share. Every call to the pixel callback is recorded in a
  `PixelSink`.
- **PrintScan**. The UTF-8 stepping of the two `print` loops, as a list of events.
- **Adapter**. The class `hangulDisp` of `HangulDisp/HangulDisp.h`: cursor, size,
  colour, a font installed at run time through three section pointers, and `print`.
- **LegacyAdapter**. The template class `hangulDisp` of `hangulDisp.h`. It
  draws from compile-time pointer tables.
- **FontConverter** (`tools/easyview-font-converter/han_to_h.py`) and
  **EngConverter** (`tools/eng_to_h.py`). Glyph extraction and the loops of the
  C byte-array formatter.
- **ArrayText**. The text both formatters produce, specified chunk by chunk,
  with a reader that parses the formatted text back.
- **FontLayout** and **Bytes**. The shared constants, the byte and bit
  arithmetic, and C strings as byte sequences whose terminator is implicit.
- **Agreement**. Relates the two engines:
  - the firmware tables equal the renderer's rules;
  - the 0-based and 1-based decompositions choose the same variants;
  - the two syllable tests accept the same characters.

Pointers are offsets into a read-only font memory `rom`, and `None` is the null
pointer. The pixel callback is a `PixelSink` object, possibly null, whose `calls`
field grows with every call. Cursor coordinates are unbounded integers.

Where the code and its comments disagree, the model follows the code:

- `render_text` keeps a space as a full glyph slot, so "가 나" lays out three
  slots of width 16 separated by two gaps, not two.
- The `HangulComponents` field comments describe 1-based lead and vowel
  indices, but `decompose` produces 0-based ones (0..18, 0..20), and the tables
  and the pointer arithmetic use them 0-based.

## Model

| member | source | states |
|---|---|---|
| FontLayout.SectionLayout | tools/easyview-font-converter/han_to_h.py:27-36 | sections start at glyphs 160 and 248; 360 glyphs fill 11 520 bytes exactly |
| FontLayout.AsciiLayout | tools/eng_to_h.py:20-23 | the ASCII font is 128 glyphs of 32 bytes, 4 096 bytes |
| Bytes.LeadByteMasks | HangulDisp/HangulDisp.h:180 | the masks `&0xE0==0xE0`, `&0x80==0` and `&0xE0==0xC0` are the byte ranges >=0xE0, <0x80 and 0xC0..0xDF |
| Bytes.Utf8FieldsDisjoint | HangulDisp/HangulDisp.h:182 | the 16-bit OR of the three shifted UTF-8 fields equals their arithmetic sum, with no overflow |
| Renderer.DecomposeHangul | tools/render_hangul.py:105-129 | None exactly outside 가..힣; otherwise lead 1..19, vowel 1..21, trail 0..27, and they recompose to the code point |
| Renderer.GetBulIndices | tools/render_hangul.py:131-216 | lead variant 0..4 without a trail and 5..7 with one; vowel variant 0/1 without a trail and 2/3 with one, even exactly for ㄱ/ㅋ; trail variant 0..3, and 0 when there is no trail |
| Renderer.BulsIgnoreTrailIdentity | tools/render_hangul.py:152-214 | the variants depend only on whether a trail exists, not on which trail it is |
| Renderer.GlyphsInSections | tools/render_hangul.py:236-242 | for every syllable, each located glyph lies in its own section of the 360-glyph store |
| Renderer.ExampleSyllables | tools/render_hangul.py:114-242 | '가' gives indices (1,1,0), variants (0,0,0) and glyphs 1/161/248; '강' gives (1,1,21), (5,2,0) and glyphs 101/205/269 |
| Renderer.GetGlyphBitmap | tools/render_hangul.py:75-103 | a 16x16 array whose pixel (r,c) is 255 exactly when bit 7-c%8 of byte 2r+c/8 of the glyph is set, else 0 |
| Renderer.OrPixelBinary | tools/render_hangul.py:250-252 | the bitwise OR of two 0/255 pixels is 255 exactly when either is 255 |
| Renderer.OrGrid | tools/render_hangul.py:250-252 | the OR of two binary grids is binary and lit exactly where either is lit |
| Renderer.FullStoreRendersAll | tools/render_hangul.py:245-247 | with a full 11 520-byte font, every character can be rendered without reading past the end |
| Renderer.RenderChar | tools/render_hangul.py:218-254 | the result is a 16x16 grid of 0/255 pixels |
| Renderer.RenderCharPixels | tools/render_hangul.py:227-252 | a non-syllable renders blank; a syllable's pixel is lit exactly when it is lit in the lead or the vowel glyph, or in the trail glyph when there is a trail |
| Renderer.SpaceRendersBlank | tools/render_hangul.py:227-230 | a space renders as the blank grid |
| Renderer.RenderCharReadsOnlyFetched | tools/render_hangul.py:245-252 | two fonts that agree on a syllable's two or three fetched glyphs render it identically |
| Renderer.KeptChars | tools/render_hangul.py:267-272 | the kept characters are syllables or spaces, all taken from the text, no more of them than the text has |
| Renderer.KeptCharsAppend | tools/render_hangul.py:267-272 | filtering distributes over concatenation |
| Renderer.OtherCharactersDropped | tools/render_hangul.py:268-272 | "가A" keeps only "가" |
| Renderer.CollectChars | tools/render_hangul.py:267-272 | the loop collects exactly the filtered characters |
| Renderer.SlotFits | tools/render_hangul.py:278-304 | every slot's 16 columns fit in the strip, and the last slot ends where the strip ends |
| Renderer.StripColumnsInSlots | tools/render_hangul.py:278 | every column of the strip belongs to one of the slots |
| Renderer.StripSlot | tools/render_hangul.py:286-304 | column c of slot k shows the inverted glyph for c < 16 and white in the gap |
| Renderer.StripOfText | tools/render_hangul.py:286-304 | a strip pixel is black exactly where the character's rendered glyph is lit, and a space slot is all white |
| Renderer.Invert | tools/render_hangul.py:296 | every pixel v becomes 255 - v, and the grid stays binary |
| Renderer.PasteMin | tools/render_hangul.py:299-302 | inside the slot, each pixel becomes the minimum of the old pixel and the glyph's; outside it, nothing changes |
| Renderer.PaintSlot | tools/render_hangul.py:287-304 | after slot k is painted, every column up to the next slot holds its final strip value |
| Renderer.StripFilled | tools/render_hangul.py:286-304 | once every slot is painted, the whole array is the strip |
| Renderer.RenderText | tools/render_hangul.py:256-306 | None exactly when no character is kept; otherwise a 16-row strip of width n*16+(n-1)*spacing whose pixels are the strip of the kept characters |
| Renderer.ExampleStripWidth | tools/render_hangul.py:267-278 | "가 나" keeps three characters, so the strip is 48 + 2*spacing wide |
| HangulCore.TablesHaveOneEntryPerVowel | HangulDisp/HangulDisp.h:130-153 | each of the three tables has one entry per vowel (21) |
| HangulCore.GetChosungBul | HangulDisp/HangulDisp.h:156-159 | 0 for an out-of-range vowel; 0..4 without a trail, 5..7 with one |
| HangulCore.GetJungsungBul | HangulDisp/HangulDisp.h:162-169 | 0..3; even exactly for leads ㄱ (0) and ㅋ (15); 2 or more exactly with a trail |
| HangulCore.GetJongsungBul | HangulDisp/HangulDisp.h:172-175 | 0..3, and 0 for an out-of-range vowel |
| HangulCore.CodePoint | HangulDisp/HangulDisp.h:182 | the 16-bit value whose three fields are the low 4, 6 and 6 bits of the bytes |
| HangulCore.Encode3 | HangulDisp/HangulDisp.h:178-184 | a 3-byte UTF-8 form: a lead byte >= 0xE0 and two continuation bytes |
| HangulCore.EncodeDecode | HangulDisp/HangulDisp.h:178-184 | every syllable's UTF-8 bytes decode back to it and pass `isHangul` |
| HangulCore.ContinuationBytesNotValidated | HangulDisp/HangulDisp.h:178-184 | `isHangul` accepts 0xEA 0x30 0x40 as U+AC00: continuation bytes are masked, not checked |
| HangulCore.Decompose | HangulDisp/HangulDisp.h:187-212 | all zeros for a non-syllable; otherwise 0-based lead/vowel/trail that recompose to the code point, and the variant rules hold for them |
| HangulCore.SyllableSplit | HangulDisp/HangulDisp.h:199-201 | code/588, (code%588)/28 and code%28 are in range and recompose the code |
| HangulCore.SyllableParts | HangulDisp/HangulDisp.h:195-209 | lead < 19, vowel < 21 and trail < 28 recompose the offset; the vowel variant is even exactly for ㄱ/ㅋ and 2 or more exactly with a trail; lead variant 0..4 without a trail, 5..7 with one |
| HangulCore.SyllablePartsRecompose | HangulDisp/HangulDisp.h:199-201 | splitting cho*588 + jung*28 + jong gives back cho, jung and jong |
| HangulCore.DecomposeEncoded | HangulDisp/HangulDisp.h:187-209 | `decompose` on a syllable's UTF-8 bytes gives the parts of its offset from U+AC00 |
| HangulCore.VariantsIgnoreWhichTrail | HangulDisp/HangulDisp.h:204-209 | two syllables with the same lead and vowel, both with a trail, decompose to that lead and vowel and get the same three variants |
| HangulCore.NextStep | HangulDisp/HangulDisp.h:219-231 | the corrected scan steps by 1 to 3 and never past the terminator |
| HangulCore.ScanPositions | HangulDisp/HangulDisp.h:219-231 | the visited positions start at p, strictly increase and stay inside the string |
| HangulCore.FirstHangulSpec | HangulDisp/HangulDisp.h:215-234 | the first visited position that starts a syllable, if any; none exactly when no visited position qualifies |
| HangulCore.FindNextHangul | HangulDisp/HangulDisp.h:215-234 | null for a null string; otherwise the loop returns the first qualifying visited position |
| HangulCore.FindNextHangulOverrun | HangulDisp/HangulDisp.h:227-228 | as written, "\xC3" steps past the terminator; the corrected scan reports no syllable |
| HangulCore.FindNextHangulAgrees | HangulDisp/HangulDisp.h:215-234 | whenever the as-written loop stays inside the string, it returns what the corrected one returns |
| PrintScan.Events | HangulDisp/HangulDisp.h:307-325 | at most one event per byte, and every glyph event carries a lead byte >= 0xE0 and two non-NUL bytes |
| PrintScan.PrintOverrun | HangulDisp/HangulDisp.h:320-321 | as written, "\xC3" steps past the terminator; the corrected loop prints nothing |
| PrintScan.EventsAgree | HangulDisp/HangulDisp.h:307-325 | whenever the as-written loop stays inside the string, it produces the corrected events |
| PrintScan.AsciiTextEvents | HangulDisp/HangulDisp.h:316-319 | pure ASCII text gives one ASCII event per byte |
| PrintScan.LeadTripleIsGlyph | HangulDisp/HangulDisp.h:309-312 | a lead byte followed by two non-NUL bytes is one glyph event |
| PrintScan.TruncatedLeadStops | HangulDisp/HangulDisp.h:309-315 | a lead byte whose next or next-but-one byte is the terminator ends printing |
| PrintScan.ExampleEvents | HangulDisp/HangulDisp.h:304-326 | "한A" gives a glyph and an ASCII event; a trailing lone lead byte is dropped |
| GlyphDraw.ScaleX | HangulDisp/HangulDisp.h:376 | 2 exactly for sizes H2 and X4, else 1 |
| GlyphDraw.ScaleY | HangulDisp/HangulDisp.h:377 | 2 exactly for sizes V2 and X4, else 1 |
| GlyphDraw.PixelSink.DrawPixel | HangulDisp/HangulDisp.h:243 | one call is appended to the record |
| GlyphDraw.PixelIsByteBit | HangulDisp/HangulDisp.h:407-411 | bit 15-col of the big-endian row word is bit 7-col%8 of byte 2*row+col/8 |
| GlyphDraw.HighByteBit | HangulDisp/HangulDisp.h:408-409 | bit k+8 of the row word is bit k of the high byte |
| GlyphDraw.LowByteBit | HangulDisp/HangulDisp.h:408-409 | bit k of the row word is bit k of the low byte |
| GlyphDraw.DrawBlock | HangulDisp/HangulDisp.h:395-401 | the sX-by-sY block of calls for one lit pixel is appended |
| GlyphDraw.CombinedPixel | HangulDisp/HangulDisp.h:381-391 | the pixel is set exactly when some present glyph has (row, col) set |
| GlyphDraw.DrawCell | HangulDisp/HangulDisp.h:381-402 | a lit pixel appends its sX-by-sY block, an unlit one appends nothing |
| GlyphDraw.BlockCallsLength | HangulDisp/HangulDisp.h:395-401 | a block of sY rows makes sX*sY calls |
| GlyphDraw.DrawGlyphRow | HangulDisp/HangulDisp.h:380-404 | the calls of one glyph row are appended |
| GlyphDraw.DrawGlyphSet | HangulDisp/HangulDisp.h:375-405 | the calls of the whole composed glyph are appended, in row-major order |
| GlyphDraw.BlockCallsContents | HangulDisp/HangulDisp.h:395-401 | a call is in a block exactly when it has the colour and lies in the sX-by-sY rectangle |
| GlyphDraw.RowCallsContents | HangulDisp/HangulDisp.h:380-404 | a call is drawn for a row exactly when it lies in the scaled cell of some lit column |
| GlyphDraw.GlyphCallsContents | HangulDisp/HangulDisp.h:379-405 | a call is drawn exactly when it lies in the scaled cell of a pixel lit in any of the present glyphs |
| GlyphDraw.RowCallCount | HangulDisp/HangulDisp.h:380-404 | a row draws sX*sY calls per lit pixel |
| GlyphDraw.GlyphCallCount | HangulDisp/HangulDisp.h:379-405 | a glyph draws sX*sY calls per lit pixel, none for unlit ones |
| Adapter.GetGlyphPointer | HangulDisp/HangulDisp.h:366-373 | null exactly for a null base; otherwise a whole number of glyphs past the base, from which index and variant decode back |
| Adapter.GlyphPointerInSection | HangulDisp/HangulDisp.h:366-373 | an in-range index and variant address a glyph wholly inside its section |
| Adapter.GlyphPointersDisjoint | HangulDisp/HangulDisp.h:366-373 | different (index, variant) pairs address non-overlapping glyphs |
| Adapter.GlyphSetFor | HangulDisp/HangulDisp.h:354-364 | lead and vowel pointers are null exactly when their section is; the trail pointer is null exactly when there is no trail or no trail section |
| Adapter.GlyphSetInSections | HangulDisp/HangulDisp.h:354-373 | for any three bytes, every glyph fetched lies inside a font that fits in memory |
| Adapter.NonSyllableDrawsPlaceholders | HangulDisp/HangulDisp.h:188-191 | a non-syllable decomposes to zeros, so glyph 0 of the lead and vowel sections is drawn and no trail |
| Adapter.AsciiRunDrawsNothing | HangulDisp/HangulDisp.h:316-319 | a run of ASCII events draws nothing and moves the cursor 8 per byte |
| Adapter.HangulDisp.constructor | HangulDisp/HangulDisp.h:261-271 | cursor at the origin, normal size, black, palette colour, no font, not ready |
| Adapter.HangulDisp.SetCursor | HangulDisp/HangulDisp.h:274-277 | the cursor moves; no other setting changes |
| Adapter.HangulDisp.SetTextSize | HangulDisp/HangulDisp.h:279-281 | only the size changes |
| Adapter.HangulDisp.SetTextColor | HangulDisp/HangulDisp.h:283-286 | the palette colour is set and then used: the resolved colour is its code |
| Adapter.HangulDisp.SetTextColorRaw | HangulDisp/HangulDisp.h:288-291 | the raw colour is set and then used: the resolved colour is that value |
| Adapter.HangulDisp.SetFont | HangulDisp/HangulDisp.h:296-301 | the three sections are installed; ready exactly when none is null; nothing else changes |
| Adapter.HangulDisp.ResolveColor | HangulDisp/HangulDisp.h:418-426 | the raw colour when it is in use; otherwise 0, 1 or 2 for black, white or invert |
| Adapter.HangulDisp.AdvanceCursor | HangulDisp/HangulDisp.h:413-416 | the cursor moves right 16 times the horizontal scale |
| Adapter.HangulDisp.DrawCombinedGlyph | HangulDisp/HangulDisp.h:375-405 | the composed glyph's calls, at the current scale and resolved colour, are appended |
| Adapter.HangulDisp.PrintHangulChar | HangulDisp/HangulDisp.h:343-351 | without a font, nothing happens; with one, the character is drawn at the cursor and the cursor advances one glyph |
| Adapter.HangulDisp.Print | HangulDisp/HangulDisp.h:304-326 | with a null text, callback or font nothing happens; otherwise each event is drawn in turn, and the cursor moves 16*scale per glyph and 8 per ASCII byte |
| Adapter.HangulDisp.PrintGlyphEvent | HangulDisp/HangulDisp.h:309-312 | one glyph step extends the drawn calls and the advance by one event |
| Adapter.HangulDisp.AsciiEvent | HangulDisp/HangulDisp.h:316-319 | one ASCII step moves the cursor 8 and draws nothing |
| Adapter.HangulDisp.PrintAtRaw | HangulDisp/HangulDisp.h:329-333 | the cursor moves to (x, y) and the raw colour stays in use; with text, a callback and a font, the text is printed from (x, y); with no text or no font, the cursor stays at (x, y) and the callback is not called |
| Adapter.HangulDisp.PrintAt | HangulDisp/HangulDisp.h:336-340 | the cursor moves to (x, y) and the palette colour stays in use; with text, a callback and a font, the text is printed from (x, y); with no text or no font, the cursor stays at (x, y) and the callback is not called |
| LegacyAdapter.LegacyGlyphSet | hangulDisp.h:225-235 | lead and vowel glyphs are always present, the trail exactly when there is one, and all lie in memory |
| LegacyAdapter.LegacyAgreesWithPointers | hangulDisp.h:225-235 | when the tables list a section's glyphs index-major, the legacy lookup selects the same glyphs as the pointer arithmetic |
| LegacyAdapter.LegacyColor | hangulDisp.h:256 | 1 exactly for white, otherwise 0 (invert draws as black) |
| LegacyAdapter.LegacyDisp.constructor | hangulDisp.h:168-172 | cursor at the origin, normal size, black |
| LegacyAdapter.LegacyDisp.SetCursor | hangulDisp.h:175-178 | the cursor moves; no other setting changes |
| LegacyAdapter.LegacyDisp.SetTextSize | hangulDisp.h:180-182 | only the size changes |
| LegacyAdapter.LegacyDisp.SetTextColor | hangulDisp.h:184-186 | only the colour changes |
| LegacyAdapter.LegacyDisp.AdvanceCursor | hangulDisp.h:275-278 | the cursor moves right 16 times the horizontal scale |
| LegacyAdapter.LegacyDisp.DrawCombinedGlyph | hangulDisp.h:237-267 | the composed glyph's calls, in the legacy colour, are appended |
| LegacyAdapter.LegacyDisp.PrintHangulChar | hangulDisp.h:217-222 | the character is drawn at the cursor and the cursor advances one glyph |
| LegacyAdapter.LegacyDisp.Print | hangulDisp.h:192-214 | with a null text or callback nothing happens; otherwise each event is drawn and the cursor advances as in the runtime adapter |
| LegacyAdapter.LegacyDisp.PrintGlyphEvent | hangulDisp.h:197-200 | one glyph step extends the drawn calls and the advance by one event |
| LegacyAdapter.LegacyDisp.AsciiEvent | hangulDisp.h:204-207 | one ASCII step moves the cursor 8 and draws nothing |
| FontConverter.NameTables | tools/easyview-font-converter/han_to_h.py:39-56 | 20, 22 and 28 names, each with the empty slot "empty" first |
| FontConverter.PySlice | tools/easyview-font-converter/han_to_h.py:100 | a slice past the end is clipped, never an error, and keeps the bytes in order |
| FontConverter.GetGlyphData | tools/easyview-font-converter/han_to_h.py:87-100 | None exactly outside 0..359; otherwise the glyph's bytes, clipped by a short file, and all 32 from a full one |
| ArrayText.HexByte | tools/easyview-font-converter/han_to_h.py:115 | "0x" followed by two upper-case hex digits |
| ArrayText.HexByteRoundTrip | tools/easyview-font-converter/han_to_h.py:115 | reading a formatted byte back gives the byte |
| FontConverter.FormatByteArray | tools/easyview-font-converter/han_to_h.py:102-118 | the loop builds exactly the comma-joined lines of the chunks |
| ArrayText.ChunkCount | tools/easyview-font-converter/han_to_h.py:112-114 | ceil(n/k) chunks, all full except a last one of 1..k bytes, and together the data |
| ArrayText.FormatRoundTrip | tools/easyview-font-converter/han_to_h.py:112-118 | parsing the formatted text gives back the data |
| ArrayText.FormatEmpty | tools/easyview-font-converter/han_to_h.py:112-118 | the text is empty exactly when the data is |
| ArrayText.ExampleFormat | tools/easyview-font-converter/han_to_h.py:112-118 | [0x00, 0xAB, 0x7F] at 2 per line is "  0x00, 0xAB,\n  0x7F" |
| EngConverter.ExpectedFileSize | tools/eng_to_h.py:20-23 | 128 glyphs of 32 bytes are 4 096 bytes |
| EngConverter.FormatByteArray | tools/eng_to_h.py:54-70 | the ASCII converter's loop builds the same text as the Hangul converter's: the comma-joined lines of the chunks |
| Agreement.TablesMatchRules | HangulDisp/HangulDisp.h:130-153 | each entry of the three firmware tables is what the renderer's vowel-group rules give for that vowel |
| Agreement.SelectorsMatchRules | HangulDisp/HangulDisp.h:156-175 | the three firmware selectors agree with the renderer for every lead and vowel, with or without a trail |
| Agreement.DecompositionsAgree | HangulDisp/HangulDisp.h:187-212 | for every syllable, the firmware decomposition is the renderer's shifted to 0-based lead and vowel, with the same variants |
| Agreement.SyllableTestsAgree | HangulDisp/HangulDisp.h:178-184 | a character with a 3-byte UTF-8 form is a syllable for the renderer exactly when those bytes pass `isHangul` |

## Left out

- Font loading and file I/O are not modelled. The font bytes are a parameter. This covers `load_font`,
  `read_font_file` with its size warning, `generate_header_file`, every `main`, and the batch scripts.
- Image output is not modelled. PIL's `Image.new` and `Image.fromarray` are replaced by a 16-row `array2` of grey levels.
- numpy is not modelled: arrays are Dafny sequences and arrays.
- Renderer.GetGlyphBitmap requires the glyph to lie inside the font. A short file makes the
  Python code raise IndexError, and the model does not represent that exception.
- Renderer.GetBulIndices requires a vowel index in -20..21. Python wraps negative
  list indices and raises IndexError outside that range. Out-of-range indices never come from `decompose_hangul`.
- Renderer.RenderText takes a non-negative spacing. A negative spacing makes slots overlap,
  and that case is not modelled.
- The renderer's `JUNG_BUL_MAP` and the lead and trail name tables are informational and
  unused by the code. `CHO_TABLE` and `JONG_TABLE` are kept only as constants.
- FontConverter.FormatByteArray and EngConverter.FormatByteArray require `bytes_per_line > 0`.
  With 0, Python's `range` raises ValueError. With a negative value, the result is "".
- Adapter.HangulDisp.PrintHangulChar requires a non-null pixel callback when the font is ready.
  The code does not check the callback. With a null callback, a glyph with no lit pixel still
  advances the cursor, and the first lit pixel calls through a null pointer. That case is not modelled.
- LegacyAdapter.LegacyDisp.PrintHangulChar requires a non-null pixel callback. The code does not
  check it. With a null callback, a glyph with no lit pixel still advances the cursor, and the
  first lit pixel calls through a null pointer. That case is not modelled.
- The Python default arguments are explicit parameters in the model. These are `spacing=2`
  (tools/render_hangul.py:256) in Renderer.RenderText, and `bytes_per_line=12`
  (tools/easyview-font-converter/han_to_h.py:102, tools/eng_to_h.py:54) in the two FormatByteArray functions.
- `int16_t` wrap-around of the cursor and of pixel coordinates is not modelled. Coordinates
  are unbounded integers.
- The display libraries behind the pixel callback are not modelled. Only the sequence of callback calls is recorded.
- PROGMEM reads are plain sequence reads.
- `HangulFontInfo`'s name, width, height and ASCII flag are carried but not used, as in the code.
- `printComponents` in `hangulDisp.h` is a debug routine. It is declared but not defined, so it is not modelled.
- `hangulDisp.h` only declares the `HangulCore` functions. The model uses the definitions from
  `HangulDisp/HangulDisp.h`.
- The legacy `FontNamespace` tables (`CHO_DATA`, `JUNG_DATA`, `JONG_DATA`) are modelled as tables of
  non-null glyph offsets into the font memory. The generated font headers that fill them are not part of this model.
- The ASCII glyphs are not modelled. Neither adapter draws them: an ASCII byte only moves the cursor by 8.
- The AimHangul library is not part of this model.
- Adapter.HangulDisp.Print, LegacyAdapter.LegacyDisp.Print and HangulCore.FindNextHangul use the
  corrected stepping described under Findings. The code as written is modelled separately by
  PrintScan.EventsAsWritten and HangulCore.FindNextHangulAsWritten.

## Findings

| source | as written | input that shows it | evidently intended | confidence | as-written member | corrected member |
|---|---|---|---|---|---|---|
| HangulDisp/HangulDisp.h:227-228 | a byte 0xC0..0xDF always advances `p` by 2 | the C string "\xC3" (one byte, then NUL): `p` jumps over the terminator and the loop reads past the string | stop at the terminator, as the 3-byte branch does by checking `p[1] && p[2]` | high; not executed | HangulCore.FindNextHangulOverrun | HangulCore.FindNextHangul |
| HangulDisp/HangulDisp.h:320-321 | `print` advances `p` by 2 after a 0xC0..0xDF byte | "\xC3": `p` passes the NUL and printing continues in memory after the string | stop at the terminator | high; not executed | PrintScan.PrintOverrun | PrintScan.Events |
| hangulDisp.h:208-209 | the legacy `print` has the same `p += 2` | "\xC3", as above | stop at the terminator | high; not executed | PrintScan.PrintOverrun | LegacyAdapter.LegacyDisp.Print |
