/** The `HangulCore` namespace of `HangulDisp/HangulDisp.h`: the three literal
    variant tables, the variant selectors, the 3-byte UTF-8 decoder of a
    precomposed syllable and the scanner that finds the next syllable in a
    C string.

    Unlike the desktop renderer, `decompose` here yields 0-based lead and
    vowel indices (0..18, 0..20). Byte arguments are `uint8_t`; the mask and
    shift forms of the source are written as the arithmetic that the lemmas
    `LeadByteMasks`, `LowBitsMasks` and `Utf8FieldsDisjoint` of module Bytes
    show equal to them. */
module HangulCore {
  import opened Bytes

  /** Lead variant by vowel (0-based), syllable without a trail. */
  const CHO_BUL_NO_JONG: seq<byte> := [0, 0, 0, 0, 0, 0, 0, 0,
                                       1, 3, 3, 3, 1,
                                       2, 4, 4, 4, 2,
                                       1, 3, 0]

  /** Lead variant by vowel (0-based), syllable with a trail. */
  const CHO_BUL_WITH_JONG: seq<byte> := [5, 5, 5, 5, 5, 5, 5, 5,
                                         6, 7, 7, 7, 6,
                                         6, 7, 7, 7, 6,
                                         6, 7, 5]

  /** Trail variant by vowel (0-based). */
  const JONG_BUL: seq<byte> := [0, 2, 0, 2, 1, 2, 1, 2,
                                3, 0, 2, 1, 3,
                                3, 1, 2, 1, 3,
                                3, 1, 1]

  /** First and last code point of the precomposed syllables. */
  const SYLLABLE_FIRST: nat := 0xAC00
  const SYLLABLE_LAST: nat := 0xD7A3

  /** Lead variant: 0 for an out-of-range vowel, else the table entry chosen by `hasJong`. */
  function GetChosungBul(jung: byte, hasJong: bool): (b: byte)
    ensures jung >= 21 ==> b == 0
    ensures !hasJong ==> b <= 4
    ensures hasJong && jung < 21 ==> 5 <= b <= 7
  {
    if jung >= 21 then 0
    else if hasJong then CHO_BUL_WITH_JONG[jung] else CHO_BUL_NO_JONG[jung]
  }

  /** Vowel variant: the even variants (0, 2) go with the leads ㄱ and ㅋ (0-based 0
      and 15), the upper pair (2, 3) with a trail. */
  function GetJungsungBul(cho: byte, hasJong: bool): (b: byte)
    ensures b <= 3
    ensures (b == 0 || b == 2) <==> (cho == 0 || cho == 15)
    ensures b >= 2 <==> hasJong
  {
    if cho == 0 || cho == 15 then (if hasJong then 2 else 0)
    else (if hasJong then 3 else 1)
  }

  /** Trail variant: 0 for an out-of-range vowel, else the table entry. */
  function GetJongsungBul(jung: byte): (b: byte)
    ensures b <= 3
    ensures jung >= 21 ==> b == 0
  {
    if jung >= 21 then 0 else JONG_BUL[jung]
  }

  /** Every table has one entry per vowel. */
  lemma TablesHaveOneEntryPerVowel()
    ensures |CHO_BUL_NO_JONG| == 21 && |CHO_BUL_WITH_JONG| == 21 && |JONG_BUL| == 21
  {
  }

  /** `((b1 & 0x0F) << 12) | ((b2 & 0x3F) << 6) | (b3 & 0x3F)`: the payload bits of a
      3-byte UTF-8 sequence, whatever the tag bits of the bytes are. */
  function CodePoint(b1: byte, b2: byte, b3: byte): (u: nat)
    ensures u <= 0xFFFF
    ensures u / 4096 == b1 % 16 && (u / 64) % 64 == b2 % 64 && u % 64 == b3 % 64
  {
    PayloadFields(b1 % 16, b2 % 64, b3 % 64);
    (b1 % 16) * 4096 + (b2 % 64) * 64 + b3 % 64
  }

  /** A 4-bit and two 6-bit fields packed into 16 bits are read back by division. */
  lemma PayloadFields(a: nat, b: nat, c: nat)
    requires a < 16 && b < 64 && c < 64
    ensures var u := a * 4096 + b * 64 + c;
            u <= 0xFFFF && u / 4096 == a && (u / 64) % 64 == b && u % 64 == c
  {
    var u := a * 4096 + b * 64 + c;
    MulMonotone(b, 63, 64);
    DivModOfSum(a, b * 64 + c, 4096);
    assert u == (a * 64 + b) * 64 + c;
    DivModOfSum(a * 64 + b, c, 64);
    DivModOfSum(a, b, 64);
    MulMonotone(a, 15, 4096);
  }

  /** isHangul: the lead byte has its top three bits set and the payload is a syllable.
      The continuation bytes' tag bits are not checked. */
  predicate IsHangul(b1: byte, b2: byte, b3: byte)
  {
    b1 >= 0xE0 && SYLLABLE_FIRST <= CodePoint(b1, b2, b3) <= SYLLABLE_LAST
  }

  /** The UTF-8 encoding of code point u in 3 bytes. */
  function Encode3(u: nat): (bs: (byte, byte, byte))
    requires 0x0800 <= u <= 0xFFFF
    ensures bs.0 >= 0xE0 && 0x80 <= bs.1 < 0xC0 && 0x80 <= bs.2 < 0xC0
  {
    (0xE0 + u / 4096, 0x80 + (u / 64) % 64, 0x80 + u % 64)
  }

  /** Decoding inverts encoding: a syllable's UTF-8 bytes are recognised and give it back. */
  lemma EncodeDecode(u: nat)
    requires SYLLABLE_FIRST <= u <= SYLLABLE_LAST
    ensures var (b1, b2, b3) := Encode3(u); CodePoint(b1, b2, b3) == u && IsHangul(b1, b2, b3)
  {
    var a, b, c := u / 4096, (u / 64) % 64, u % 64;
    assert u == a * 4096 + b * 64 + c;
    assert (0xE0 + a) % 16 == a;
    assert (0x80 + b) % 64 == b;
    assert (0x80 + c) % 64 == c;
  }

  /** The continuation bytes are not validated: "\xEA" followed by the ASCII digits
      '0' and '@' is taken for the syllable U+AC00. */
  lemma ContinuationBytesNotValidated()
    ensures IsHangul(0xEA, 0x30, 0x40) && CodePoint(0xEA, 0x30, 0x40) == 0xAC00
  {
  }

  /** `HangulComponents`: 0-based lead, vowel, trail and the three variants. */
  datatype Components = Components(cho: byte, jung: byte, jong: byte,
                                   choBul: byte, jungBul: byte, jongBul: byte)

  /** decompose: all zeros for a non-syllable; otherwise the Unicode decomposition
      (section 3.12 of The Unicode Standard) with 0-based indices and the variants. */
  function Decompose(b1: byte, b2: byte, b3: byte): (c: Components)
    ensures !IsHangul(b1, b2, b3) ==> c == Components(0, 0, 0, 0, 0, 0)
    ensures IsHangul(b1, b2, b3) ==>
              c.cho < 19 && c.jung < 21 && c.jong < 28 &&
              c.cho * 588 + c.jung * 28 + c.jong + SYLLABLE_FIRST == CodePoint(b1, b2, b3)
    ensures IsHangul(b1, b2, b3) ==> ((c.jungBul == 0 || c.jungBul == 2) <==> (c.cho == 0 || c.cho == 15))
    ensures IsHangul(b1, b2, b3) ==> (c.jong > 0 <==> c.jungBul >= 2)
    ensures c.jong == 0 ==> c.choBul <= 4 && c.jongBul == 0
    ensures c.jong > 0 ==> 5 <= c.choBul <= 7 && c.jongBul <= 3
  {
    if !IsHangul(b1, b2, b3) then Components(0, 0, 0, 0, 0, 0)
    else SyllableParts(CodePoint(b1, b2, b3) - SYLLABLE_FIRST)
  }

  /** The components of the syllable at offset `code` from U+AC00. */
  function SyllableParts(code: nat): (c: Components)
    requires code <= SYLLABLE_LAST - SYLLABLE_FIRST
    ensures c.cho < 19 && c.jung < 21 && c.jong < 28 && c.cho * 588 + c.jung * 28 + c.jong == code
    ensures (c.jungBul == 0 || c.jungBul == 2) <==> (c.cho == 0 || c.cho == 15)
    ensures c.jong > 0 <==> c.jungBul >= 2
    ensures c.jong == 0 ==> c.choBul <= 4 && c.jongBul == 0
    ensures c.jong > 0 ==> 5 <= c.choBul <= 7 && c.jongBul <= 3
  {
    SyllableSplit(code);
    var cho := code / 588;
    var jung := (code % 588) / 28;
    var jong := code % 28;
    var hasJong := jong > 0;
    Components(cho, jung, jong,
               GetChosungBul(jung, hasJong),
               GetJungsungBul(cho, hasJong),
               if hasJong then GetJongsungBul(jung) else 0)
  }

  /** A syllable offset splits into lead, vowel and trail by 588 = 21 * 28 and 28. */
  lemma SyllableSplit(code: nat)
    requires code <= SYLLABLE_LAST - SYLLABLE_FIRST
    ensures code / 588 < 19 && (code % 588) / 28 < 21 && code % 28 < 28
    ensures (code / 588) * 588 + ((code % 588) / 28) * 28 + code % 28 == code
  {
    var q, r := code / 588, code % 588;
    assert code == q * 588 + r;
    assert r == (r / 28) * 28 + r % 28;
    assert r % 28 == code % 28;
  }

  /** Decomposing a composed syllable offset gives back its lead, vowel and trail. */
  lemma SyllablePartsRecompose(cho: nat, jung: nat, jong: nat)
    requires cho < 19 && jung < 21 && jong < 28
    ensures cho * 588 + jung * 28 + jong <= SYLLABLE_LAST - SYLLABLE_FIRST
    ensures var c := SyllableParts(cho * 588 + jung * 28 + jong);
            c.cho == cho && c.jung == jung && c.jong == jong
  {
    var k := cho * 588 + jung * 28 + jong;
    DivModOfSum(cho, jung * 28 + jong, 588);
    DivModOfSum(jung, jong, 28);
    assert k == (cho * 21 + jung) * 28 + jong;
    DivModOfSum(cho * 21 + jung, jong, 28);
  }

  /** The variants depend on the trail only through whether there is one: two syllables
      with the same lead and vowel, both with a trail, decompose to that lead and vowel
      and the same three variants. */
  lemma VariantsIgnoreWhichTrail(cho: nat, jung: nat, t1: nat, t2: nat)
    requires cho < 19 && jung < 21 && 0 < t1 < 28 && 0 < t2 < 28
    ensures var x, y := SyllableParts(cho * 588 + jung * 28 + t1), SyllableParts(cho * 588 + jung * 28 + t2);
            x.cho == y.cho == cho && x.jung == y.jung == jung && x.jong == t1 && y.jong == t2 &&
            x.choBul == y.choBul && x.jungBul == y.jungBul && x.jongBul == y.jongBul
  {
    SyllablePartsRecompose(cho, jung, t1);
    SyllablePartsRecompose(cho, jung, t2);
  }

  /** The bytes of a syllable decompose as its offset from U+AC00. */
  lemma DecomposeEncoded(u: nat)
    requires SYLLABLE_FIRST <= u <= SYLLABLE_LAST
    ensures var (b1, b2, b3) := Encode3(u); Decompose(b1, b2, b3) == SyllableParts(u - SYLLABLE_FIRST)
  {
    EncodeDecode(u);
  }

  // ---------------------------------------------------------------------------
  // findNextHangul

  /** The loop test of the scanner at position p: a lead byte with two nonzero
      successors that decodes to a syllable. */
  predicate Qualifies(s: seq<byte>, p: nat)
  {
    At(s, p) >= 0xE0 && At(s, p + 1) != 0 && At(s, p + 2) != 0 &&
    IsHangul(At(s, p), At(s, p + 1), At(s, p + 2))
  }

  /** The scanner's step at p: 3 over a lead byte with two nonzero successors, 1 over
      ASCII, 2 over a `110xxxxx` byte, 1 otherwise; a `110xxxxx` byte right before the
      terminator steps onto the terminator. */
  function NextStep(s: seq<byte>, p: nat): (st: nat)
    requires CString(s) && p < |s|
    ensures 1 <= st <= 3 && p + st <= |s|
  {
    var b := s[p];
    if b >= 0xE0 && At(s, p + 1) != 0 && At(s, p + 2) != 0 then 3
    else if b < 0x80 then 1
    else if 0xC0 <= b < 0xE0 then (if p + 1 < |s| then 2 else 1)
    else 1
  }

  /** The positions the scanner visits from p, in order. */
  function ScanPositions(s: seq<byte>, p: nat): (ps: seq<nat>)
    requires CString(s) && p <= |s|
    ensures forall i :: 0 <= i < |ps| ==> p <= ps[i] < |s|
    ensures forall i, j :: 0 <= i < j < |ps| ==> ps[i] < ps[j]
    ensures p < |s| ==> |ps| > 0 && ps[0] == p
    decreases |s| - p
  {
    if p == |s| then [] else [p] + ScanPositions(s, p + NextStep(s, p))
  }

  /** The first visited position from p that qualifies. */
  function FirstHangul(s: seq<byte>, p: nat): (r: Option<nat>)
    requires CString(s) && p <= |s|
    decreases |s| - p
  {
    if p == |s| then None
    else if Qualifies(s, p) then Some(p)
    else FirstHangul(s, p + NextStep(s, p))
  }

  /** FirstHangul finds a visited position that qualifies and none before it, and finds
      nothing exactly when no visited position qualifies. */
  lemma {:induction false} FirstHangulSpec(s: seq<byte>, p: nat)
    requires CString(s) && p <= |s|
    ensures var r := FirstHangul(s, p);
            (r.Some? ==> r.value in ScanPositions(s, p) && Qualifies(s, r.value)) &&
            (r.Some? ==> forall q :: q in ScanPositions(s, p) && q < r.value ==> !Qualifies(s, q)) &&
            (r.None? <==> forall q :: q in ScanPositions(s, p) ==> !Qualifies(s, q))
    decreases |s| - p
  {
    if p < |s| && !Qualifies(s, p) {
      var next := p + NextStep(s, p);
      FirstHangulSpec(s, next);
      assert ScanPositions(s, p) == [p] + ScanPositions(s, next);
    }
  }

  /** findNextHangul: null for a null string; otherwise the offset of the first visited
      position holding a 3-byte syllable, or null when there is none. */
  method FindNextHangul(text: Option<seq<byte>>) returns (r: Option<nat>)
    requires text.Some? ==> CString(text.value)
    ensures text.None? ==> r.None?
    ensures text.Some? ==> r == FirstHangul(text.value, 0)
  {
    if text.None? {
      return None;
    }
    var s := text.value;
    var p := 0;
    while p < |s|
      invariant p <= |s|
      invariant FirstHangul(s, 0) == FirstHangul(s, p)
      decreases |s| - p
    {
      if s[p] >= 0xE0 && At(s, p + 1) != 0 && At(s, p + 2) != 0 {
        if IsHangul(s[p], s[p + 1], s[p + 2]) {
          return Some(p);
        }
        SkipPosition(s, p, p + 3);
        p := p + 3;
      } else if s[p] < 0x80 {
        SkipPosition(s, p, p + 1);
        p := p + 1;
      } else if 0xC0 <= s[p] < 0xE0 {
        SkipPosition(s, p, if p + 1 < |s| then p + 2 else p + 1);
        p := if p + 1 < |s| then p + 2 else p + 1;
      } else {
        SkipPosition(s, p, p + 1);
        p := p + 1;
      }
    }
    return None;
  }

  /** A position that does not qualify hands the search on to the scanner's next one. */
  lemma SkipPosition(s: seq<byte>, p: nat, q: nat)
    requires CString(s) && p < |s| && !Qualifies(s, p) && q == p + NextStep(s, p)
    ensures FirstHangul(s, p) == FirstHangul(s, q)
  {
  }

  /** How the scan of the code as written ends: at a syllable, at the terminator, or
      with the pointer already past the terminator (reading outside the string). */
  datatype ScanOutcome = Found(pos: nat) | NotFound | PastTerminator

  /** The scan as written: a `110xxxxx` byte always steps 2, also over the terminator. */
  function FindNextHangulAsWritten(s: seq<byte>, p: nat): (o: ScanOutcome)
    requires CString(s) && p <= |s|
    decreases |s| - p
  {
    if p == |s| then NotFound
    else if Qualifies(s, p) then Found(p)
    else
      var b := s[p];
      var q := if b >= 0xE0 && At(s, p + 1) != 0 && At(s, p + 2) != 0 then p + 3
               else if 0xC0 <= b < 0xE0 then p + 2
               else p + 1;
      if q > |s| then PastTerminator else FindNextHangulAsWritten(s, q)
  }

  /** The string "\xC3": the code steps over the terminator, the corrected scan stops on it. */
  lemma FindNextHangulOverrun()
    ensures CString([0xC3])
    ensures FindNextHangulAsWritten([0xC3], 0) == PastTerminator
    ensures FirstHangul([0xC3], 0) == None
  {
  }

  /** Whenever the code as written stays inside the string, it answers as the corrected scan. */
  lemma {:induction false} FindNextHangulAgrees(s: seq<byte>, p: nat)
    requires CString(s) && p <= |s|
    requires FindNextHangulAsWritten(s, p) != PastTerminator
    ensures FindNextHangulAsWritten(s, p) == NotFound <==> FirstHangul(s, p).None?
    ensures FirstHangul(s, p).Some? ==> FindNextHangulAsWritten(s, p) == Found(FirstHangul(s, p).value)
    decreases |s| - p
  {
    if p < |s| && !Qualifies(s, p) {
      FindNextHangulAgrees(s, p + NextStep(s, p));
    }
  }
}
