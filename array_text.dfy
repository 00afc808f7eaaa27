/** The text of a C array initialiser, as `format_byte_array` of both header converters
    (`tools/easyview-font-converter/han_to_h.py` and `tools/eng_to_h.py`) writes it:
    `"  0x12, 0x34,\n  0x56"`, the bytes in lines of `bytes_per_line`, each byte as `0x`
    and two upper-case hex digits; and a reader that parses such a text back. */
module ArrayText {
  import opened Bytes

  const HEX_DIGITS: string := "0123456789ABCDEF"

  /** `f'0x{b:02X}'`. */
  function HexByte(b: byte): (t: string)
    ensures |t| == 4 && t[0] == '0' && t[1] == 'x'
    ensures t[2] in HEX_DIGITS && t[3] in HEX_DIGITS
  {
    "0x" + [HEX_DIGITS[b / 16], HEX_DIGITS[b % 16]]
  }

  /** The value of an upper-case hex digit. */
  function HexValue(d: char): (v: nat)
    ensures v < 16
  {
    if '0' <= d <= '9' then d as int - '0' as int
    else if 'A' <= d <= 'F' then d as int - 'A' as int + 10
    else 0
  }

  /** Every digit is read back as its own value. */
  lemma HexDigitValue(v: nat)
    requires v < 16
    ensures HexValue(HEX_DIGITS[v]) == v
  {
    if v < 10 {
      assert HEX_DIGITS[v] as int == '0' as int + v by {
        assert HEX_DIGITS[v] == ['0', '1', '2', '3', '4', '5', '6', '7', '8', '9'][v];
      }
    } else {
      assert HEX_DIGITS[v] as int == 'A' as int + (v - 10) by {
        assert HEX_DIGITS[10..] == "ABCDEF";
        assert HEX_DIGITS[v] == HEX_DIGITS[10..][v - 10];
        assert "ABCDEF"[v - 10] as int == 'A' as int + (v - 10);
      }
    }
  }

  /** A token `0xHL` read as a byte. */
  function ParseHexByte(t: string): (b: byte)
    requires |t| >= 4
  {
    HexValue(t[2]) * 16 + HexValue(t[3])
  }

  /** Reading a formatted byte gives the byte back. */
  lemma HexByteRoundTrip(b: byte)
    ensures ParseHexByte(HexByte(b)) == b
  {
    HexDigitValue(b / 16);
    HexDigitValue(b % 16);
  }

  /** A reader of the generated text: every `0x` followed by two more characters is a byte,
      every other character (separators, indentation, line breaks) is skipped. */
  function Parse(s: string): (bs: seq<byte>)
    decreases |s|
  {
    if |s| >= 4 && s[0] == '0' && s[1] == 'x' then [ParseHexByte(s)] + Parse(s[4..])
    else if s == [] then []
    else Parse(s[1..])
  }

  /** `sep.join(parts)`. */
  function Join(parts: seq<string>, sep: string): (r: string)
    decreases |parts|
  {
    if |parts| == 0 then ""
    else if |parts| == 1 then parts[0]
    else parts[0] + sep + Join(parts[1..], sep)
  }

  /** The tokens of a chunk, one per byte. */
  function HexTokens(chunk: seq<byte>): (ts: seq<string>)
    ensures |ts| == |chunk|
    ensures forall j :: 0 <= j < |chunk| ==> ts[j] == HexByte(chunk[j])
  {
    if chunk == [] then [] else [HexByte(chunk[0])] + HexTokens(chunk[1..])
  }

  /** `f'  {hex_values}'`: one line of the array body. */
  function LineOf(chunk: seq<byte>): string
  {
    "  " + Join(HexTokens(chunk), ", ")
  }

  /** The lines of a run of chunks. */
  function LineTexts(chunks: seq<seq<byte>>): (ls: seq<string>)
    ensures |ls| == |chunks|
  {
    if chunks == [] then [] else [LineOf(chunks[0])] + LineTexts(chunks[1..])
  }

  /** `data[i:i + k]` for i in `range(start, len(data), k)`. */
  function ChunksFrom(data: seq<byte>, k: nat, start: nat): (cs: seq<seq<byte>>)
    requires k > 0
    decreases |data| - start
  {
    if start >= |data| then [] else [data[start .. Min(start + k, |data|)]] + ChunksFrom(data, k, start + k)
  }

  /** The chunks of the whole array. */
  function Chunks(data: seq<byte>, k: nat): seq<seq<byte>>
    requires k > 0
  {
    ChunksFrom(data, k, 0)
  }

  /** The whole text format_byte_array returns. */
  function FormatText(data: seq<byte>, k: nat): string
    requires k > 0
  {
    Join(LineTexts(Chunks(data, k)), ",\n")
  }

  /** The lines of the chunks from `start`, chunk by chunk as the loop produces them. */
  function LinesFrom(data: seq<byte>, k: nat, start: nat): seq<string>
    requires k > 0
    decreases |data| - start
  {
    if start >= |data| then [] else [LineOf(data[start .. Min(start + k, |data|)])] + LinesFrom(data, k, start + k)
  }

  /** Producing the lines chunk by chunk gives the lines of the chunks. */
  lemma {:induction false} LinesFromChunks(data: seq<byte>, k: nat, start: nat)
    requires k > 0
    ensures LinesFrom(data, k, start) == LineTexts(ChunksFrom(data, k, start))
    decreases |data| - start
  {
    if start < |data| {
      var head := data[start .. Min(start + k, |data|)];
      var rest := ChunksFrom(data, k, start + k);
      LinesFromChunks(data, k, start + k);
      LineTextsCons(head, rest);
    }
  }

  /** The lines of one more chunk in front. */
  lemma LineTextsCons(c: seq<byte>, rest: seq<seq<byte>>)
    ensures LineTexts([c] + rest) == [LineOf(c)] + LineTexts(rest)
  {
    var cs := [c] + rest;
    assert cs[0] == c && cs[1..] == rest;
  }

  /** The invariant of the formatting loop at position i: the lines built so far, followed
      by the lines of the chunks from i on, are the lines of the whole array. */
  predicate Progress(data: seq<byte>, k: nat, i: nat, lines: seq<string>)
    requires k > 0
  {
    lines + LinesFrom(data, k, i) == LinesFrom(data, k, 0)
  }

  /** Before the loop: no line built, every line still to come. */
  lemma ProgressStart(data: seq<byte>, k: nat)
    requires k > 0
    ensures Progress(data, k, 0, [])
  {
    assert [] + LinesFrom(data, k, 0) == LinesFrom(data, k, 0);
  }

  /** One turn of the loop: the line of the chunk at i moves from the lines still to come
      to the lines built. */
  lemma ProgressStep(data: seq<byte>, k: nat, i: nat, lines: seq<string>, line: string)
    requires k > 0 && i < |data| && Progress(data, k, i, lines)
    requires line == LineOf(data[i .. Min(i + k, |data|)])
    ensures Progress(data, k, i + k, lines + [line])
  {
    AppendAssoc(lines, [line], LinesFrom(data, k, i + k));
  }

  /** After the loop: every line has been built. */
  lemma ProgressDone(data: seq<byte>, k: nat, i: nat, lines: seq<string>)
    requires k > 0 && i >= |data| && Progress(data, k, i, lines)
    ensures lines == LineTexts(Chunks(data, k))
  {
    assert lines + [] == lines;
    LinesFromChunks(data, k, 0);
  }

  // ---------------------------------------------------------------------------
  // The shape of the chunks

  /** The bytes of a run of chunks, in order. */
  function Flatten(cs: seq<seq<byte>>): seq<byte>
  {
    if cs == [] then [] else cs[0] + Flatten(cs[1..])
  }

  /** ceil(n / k) by division. */
  lemma CeilStep(n: nat, k: nat)
    requires k > 0
    ensures n > k ==> (n + k - 1) / k == 1 + (n - k + k - 1) / k
    ensures 0 < n <= k ==> (n + k - 1) / k == 1
    ensures n == 0 ==> (n + k - 1) / k == 0
  {
    if n > k {
      var m := n - k + k - 1;
      DivModOfSum(m / k, m % k, k);
      assert m == (m / k) * k + m % k;
      assert n + k - 1 == (m / k + 1) * k + m % k;
      DivModOfSum(m / k + 1, m % k, k);
    } else if 0 < n {
      DivModOfSum(1, n - 1, k);
    } else {
      DivModOfSum(0, k - 1, k);
    }
  }

  /** There are ceil((len - start) / k) chunks from `start`. */
  lemma {:induction false} ChunksLength(data: seq<byte>, k: nat, start: nat)
    requires k > 0 && start <= |data|
    ensures |ChunksFrom(data, k, start)| == (|data| - start + k - 1) / k
    decreases |data| - start
  {
    CeilStep(|data| - start, k);
    if start + k <= |data| {
      ChunksLength(data, k, start + k);
    } else if start < |data| {
      assert ChunksFrom(data, k, start + k) == [];
    }
  }

  /** All chunks from `start` but the last hold exactly k bytes, the last between 1 and k. */
  lemma {:induction false} ChunksSizes(data: seq<byte>, k: nat, start: nat)
    requires k > 0 && start <= |data|
    ensures var cs := ChunksFrom(data, k, start);
            (forall j :: 0 <= j < |cs| - 1 ==> |cs[j]| == k) &&
            (|cs| > 0 ==> 1 <= |cs[|cs| - 1]| <= k)
    decreases |data| - start
  {
    if start < |data| {
      var cs := ChunksFrom(data, k, start);
      var rest := ChunksFrom(data, k, start + k);
      assert cs == [data[start .. Min(start + k, |data|)]] + rest;
      if start + k <= |data| {
        ChunksSizes(data, k, start + k);
        forall j | 0 <= j < |cs| - 1
          ensures |cs[j]| == k
        {
          if j > 0 {
            assert cs[j] == rest[j - 1];
          }
        }
        if |rest| > 0 {
          assert cs[|cs| - 1] == rest[|rest| - 1];
        }
      } else {
        assert rest == [];
      }
    }
  }

  /** Together the chunks from `start` are the data from `start` on. */
  lemma {:induction false} ChunksFlatten(data: seq<byte>, k: nat, start: nat)
    requires k > 0 && start <= |data|
    ensures Flatten(ChunksFrom(data, k, start)) == data[start..]
    decreases |data| - start
  {
    if start < |data| {
      var cs := ChunksFrom(data, k, start);
      var head := data[start .. Min(start + k, |data|)];
      assert cs == [head] + ChunksFrom(data, k, start + k);
      assert cs[1..] == ChunksFrom(data, k, start + k);
      if start + k <= |data| {
        ChunksFlatten(data, k, start + k);
        assert data[start..] == head + data[start + k..];
      } else {
        assert ChunksFrom(data, k, start + k) == [];
        assert head == data[start..];
        assert Flatten(cs) == head + Flatten([]);
      }
    } else {
      assert data[start..] == [];
    }
  }

  /** Chunking the whole array: ceil(len / k) chunks of k bytes, the last one possibly
      shorter but never empty, that together are the data. */
  lemma ChunkCount(data: seq<byte>, k: nat)
    requires k > 0
    ensures var cs := Chunks(data, k);
            |cs| == (|data| + k - 1) / k &&
            (forall j :: 0 <= j < |cs| - 1 ==> |cs[j]| == k) &&
            (|cs| > 0 ==> 1 <= |cs[|cs| - 1]| <= k) &&
            Flatten(cs) == data
  {
    ChunksLength(data, k, 0);
    ChunksSizes(data, k, 0);
    ChunksFlatten(data, k, 0);
  }

  // ---------------------------------------------------------------------------
  // Reading the text back

  /** Characters other than '0' are skipped by the reader. */
  lemma {:induction false} ParseSkips(sep: string, x: string)
    requires forall i :: 0 <= i < |sep| ==> sep[i] != '0'
    ensures Parse(sep + x) == Parse(x)
    decreases |sep|
  {
    if sep != [] {
      var s := sep + x;
      assert s[0] == sep[0] && s[0] != '0' && s != [];
      assert s[1..] == sep[1..] + x;
      assert Parse(s) == Parse(s[1..]);
      ParseSkips(sep[1..], x);
    } else {
      assert sep + x == x;
    }
  }

  /** A token is read as its byte, whatever follows it. */
  lemma ParseToken(b: byte, x: string)
    ensures Parse(HexByte(b) + x) == [b] + Parse(x)
  {
    var t := HexByte(b);
    var s := t + x;
    assert s[0] == '0' && s[1] == 'x' && s[2] == t[2] && s[3] == t[3];
    assert ParseHexByte(s) == ParseHexByte(t);
    HexByteRoundTrip(b);
    assert s[4..] == x;
  }

  /** Joining more than one part: the first part, the separator, then the rest joined. */
  lemma JoinCons(parts: seq<string>, sep: string, x: string)
    requires |parts| > 1
    ensures Join(parts, sep) + x == parts[0] + (sep + (Join(parts[1..], sep) + x))
  {
    var rest := Join(parts[1..], sep);
    assert Join(parts, sep) == parts[0] + sep + rest;
    AppendAssoc(parts[0], sep, rest);
    AppendAssoc(parts[0] + sep, rest, x);
    AppendAssoc(parts[0], sep, rest + x);
    AppendAssoc(sep, rest, x);
  }

  /** A line's tokens are read back as its chunk. */
  lemma {:induction false} ParseTokens(chunk: seq<byte>, x: string)
    ensures Parse(Join(HexTokens(chunk), ", ") + x) == chunk + Parse(x)
    decreases |chunk|
  {
    var ts := HexTokens(chunk);
    if |chunk| == 0 {
      assert Join(ts, ", ") + x == x;
    } else if |chunk| == 1 {
      assert Join(ts, ", ") == HexByte(chunk[0]);
      ParseToken(chunk[0], x);
    } else {
      assert ts[0] == HexByte(chunk[0]) && ts[1..] == HexTokens(chunk[1..]);
      var rest := Join(HexTokens(chunk[1..]), ", ");
      JoinCons(ts, ", ", x);
      calc {
        Parse(Join(ts, ", ") + x);
        Parse(HexByte(chunk[0]) + (", " + (rest + x)));
        { ParseToken(chunk[0], ", " + (rest + x)); }
        [chunk[0]] + Parse(", " + (rest + x));
        { ParseSkips(", ", rest + x); }
        [chunk[0]] + Parse(rest + x);
        { ParseTokens(chunk[1..], x); }
        [chunk[0]] + (chunk[1..] + Parse(x));
        { AppendAssoc([chunk[0]], chunk[1..], Parse(x));
          assert [chunk[0]] + chunk[1..] == chunk; }
        chunk + Parse(x);
      }
    }
  }

  /** A line is read back as its chunk. */
  lemma ParseLine(chunk: seq<byte>, x: string)
    ensures Parse(LineOf(chunk) + x) == chunk + Parse(x)
  {
    var tokens := Join(HexTokens(chunk), ", ");
    AppendAssoc("  ", tokens, x);
    ParseSkips("  ", tokens + x);
    ParseTokens(chunk, x);
  }

  /** Lines joined by ",\n" are read back as their chunks, in order. */
  lemma {:induction false} ParseLines(cs: seq<seq<byte>>, x: string)
    ensures Parse(Join(LineTexts(cs), ",\n") + x) == Flatten(cs) + Parse(x)
    decreases |cs|
  {
    var ls := LineTexts(cs);
    if |cs| == 0 {
      assert Join(ls, ",\n") + x == x;
    } else if |cs| == 1 {
      assert Join(ls, ",\n") == LineOf(cs[0]);
      ParseLine(cs[0], x);
      assert Flatten(cs) == cs[0] + Flatten([]);
    } else {
      assert ls[0] == LineOf(cs[0]) && ls[1..] == LineTexts(cs[1..]);
      var rest := Join(LineTexts(cs[1..]), ",\n");
      JoinCons(ls, ",\n", x);
      calc {
        Parse(Join(ls, ",\n") + x);
        Parse(LineOf(cs[0]) + (",\n" + (rest + x)));
        { ParseLine(cs[0], ",\n" + (rest + x)); }
        cs[0] + Parse(",\n" + (rest + x));
        { ParseSkips(",\n", rest + x); }
        cs[0] + Parse(rest + x);
        { ParseLines(cs[1..], x); }
        cs[0] + (Flatten(cs[1..]) + Parse(x));
        { AppendAssoc(cs[0], Flatten(cs[1..]), Parse(x)); }
        Flatten(cs) + Parse(x);
      }
    }
  }

  /** Reading the formatted text back gives the data, byte for byte and in order. */
  lemma FormatRoundTrip(data: seq<byte>, k: nat)
    requires k > 0
    ensures Parse(FormatText(data, k)) == data
  {
    ParseLines(Chunks(data, k), "");
    ChunkCount(data, k);
    assert FormatText(data, k) + "" == FormatText(data, k);
  }

  /** Only the empty array is formatted as the empty text. */
  lemma FormatEmpty(data: seq<byte>, k: nat)
    requires k > 0
    ensures FormatText(data, k) == "" <==> data == []
  {
    if data != [] {
      var ls := LineTexts(Chunks(data, k));
      assert |ls| > 0;
      assert ls[0][..2] == "  ";
      assert Join(ls, ",\n")[..2] == "  ";
    }
  }

  /** The chunks of the example: a full line of two bytes, then the last byte. */
  lemma ExampleChunks()
    ensures Chunks([0x00, 0xAB, 0x7F], 2) == [[0x00, 0xAB], [0x7F]]
  {
    var data: seq<byte> := [0x00, 0xAB, 0x7F];
    assert ChunksFrom(data, 2, 4) == [];
    assert data[2 .. Min(4, 3)] == [0x7F];
    assert ChunksFrom(data, 2, 2) == [[0x7F]];
    assert data[0 .. Min(2, 3)] == [0x00, 0xAB];
  }

  /** The example's bytes as tokens. */
  lemma ExampleTokens()
    ensures HexTokens([0x00, 0xAB]) == ["0x00", "0xAB"]
    ensures HexTokens([0x7F]) == ["0x7F"]
  {
    assert HEX_DIGITS[0] == '0' && HEX_DIGITS[10] == 'A' && HEX_DIGITS[11] == 'B';
    assert HEX_DIGITS[7] == '7' && HEX_DIGITS[15] == 'F';
    assert HexByte(0x00) == "0x00" && HexByte(0xAB) == "0xAB" && HexByte(0x7F) == "0x7F";
  }

  /** The example's two lines, one at a time. */
  lemma ExampleLineOf()
    ensures LineOf([0x00, 0xAB]) == "  0x00, 0xAB"
    ensures LineOf([0x7F]) == "  0x7F"
  {
    ExampleTokens();
    var ts := ["0x00", "0xAB"];
    assert ts[1..] == ["0xAB"];
    assert Join(ts, ", ") == "0x00" + ", " + "0xAB";
  }

  /** The lines of the example's chunks. */
  lemma ExampleLines()
    ensures LineTexts([[0x00, 0xAB], [0x7F]]) == ["  0x00, 0xAB", "  0x7F"]
  {
    ExampleLineOf();
    var cs: seq<seq<byte>> := [[0x00, 0xAB], [0x7F]];
    assert cs[1..] == [[0x7F]];
    assert LineTexts(cs[1..]) == ["  0x7F"];
  }

  /** The example's lines joined. */
  lemma ExampleJoin()
    ensures Join(["  0x00, 0xAB", "  0x7F"], ",\n") == "  0x00, 0xAB,\n  0x7F"
  {
    var ls := ["  0x00, 0xAB", "  0x7F"];
    assert ls[1..] == ["  0x7F"];
    assert Join(ls, ",\n") == "  0x00, 0xAB" + ",\n" + "  0x7F";
  }

  /** Three bytes in lines of two: a full line, then the rest. */
  lemma ExampleFormat()
    ensures FormatText([0x00, 0xAB, 0x7F], 2) == "  0x00, 0xAB,\n  0x7F"
  {
    ExampleChunks();
    ExampleLines();
    ExampleJoin();
  }
}
