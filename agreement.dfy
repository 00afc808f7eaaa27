/** The two implementations of the selection engine side by side: the
    literal 21-entry tables of `HangulDisp/HangulDisp.h` against the
    vowel-group conditionals of `tools/render_hangul.py`, and the 0-based
    decomposition of the display header against the 1-based one of the
    renderer. The glyph locators of the two differ (index-major and
    bul-major) and are not compared. */
module Agreement {
  import opened Bytes
  import HangulCore
  import Renderer

  /** Each table entry is what the renderer's grouping rules give the same vowel
      (0-based j in the table, 1-based j + 1 in the renderer), whatever the lead and,
      with a trail, whichever trail it is. */
  lemma TablesMatchRules(j: nat, cho: int, jong: int)
    requires j < 21 && jong > 0
    ensures HangulCore.CHO_BUL_NO_JONG[j] == Renderer.GetBulIndices(cho, j + 1, 0).cho
    ensures HangulCore.CHO_BUL_WITH_JONG[j] == Renderer.GetBulIndices(cho, j + 1, jong).cho
    ensures HangulCore.JONG_BUL[j] == Renderer.GetBulIndices(cho, j + 1, jong).jong
  {
    Renderer.BulsIgnoreTrailIdentity(cho, j + 1, jong, 1);
    if j < 7 {
      FirstVowelsMatch(j, cho);
    } else if j < 14 {
      MiddleVowelsMatch(j, cho);
    } else {
      LastVowelsMatch(j, cho);
    }
  }

  /** TablesMatchRules with trail 1, for the first seven vowels. */
  lemma FirstVowelsMatch(j: nat, cho: int)
    requires 0 <= j < 7
    ensures HangulCore.CHO_BUL_NO_JONG[j] == Renderer.GetBulIndices(cho, j + 1, 0).cho
    ensures HangulCore.CHO_BUL_WITH_JONG[j] == Renderer.GetBulIndices(cho, j + 1, 1).cho
    ensures HangulCore.JONG_BUL[j] == Renderer.GetBulIndices(cho, j + 1, 1).jong
  {
    if j == 0 {} else if j == 1 {} else if j == 2 {} else if j == 3 {}
    else if j == 4 {} else if j == 5 {} else {}
  }

  /** TablesMatchRules with trail 1, for the middle seven vowels. */
  lemma MiddleVowelsMatch(j: nat, cho: int)
    requires 7 <= j < 14
    ensures HangulCore.CHO_BUL_NO_JONG[j] == Renderer.GetBulIndices(cho, j + 1, 0).cho
    ensures HangulCore.CHO_BUL_WITH_JONG[j] == Renderer.GetBulIndices(cho, j + 1, 1).cho
    ensures HangulCore.JONG_BUL[j] == Renderer.GetBulIndices(cho, j + 1, 1).jong
  {
    if j == 7 {} else if j == 8 {} else if j == 9 {} else if j == 10 {}
    else if j == 11 {} else if j == 12 {} else {}
  }

  /** TablesMatchRules with trail 1, for the last seven vowels. */
  lemma LastVowelsMatch(j: nat, cho: int)
    requires 14 <= j < 21
    ensures HangulCore.CHO_BUL_NO_JONG[j] == Renderer.GetBulIndices(cho, j + 1, 0).cho
    ensures HangulCore.CHO_BUL_WITH_JONG[j] == Renderer.GetBulIndices(cho, j + 1, 1).cho
    ensures HangulCore.JONG_BUL[j] == Renderer.GetBulIndices(cho, j + 1, 1).jong
  {
    if j == 14 {} else if j == 15 {} else if j == 16 {} else if j == 17 {}
    else if j == 18 {} else if j == 19 {} else {}
  }

  /** The three selectors of the display header agree with the renderer's rules for every
      lead (0-based cho, 1-based cho + 1) and vowel. */
  lemma SelectorsMatchRules(cho: byte, jung: byte, hasJong: bool)
    requires jung < 21
    ensures var b := Renderer.GetBulIndices(cho + 1, jung + 1, if hasJong then 1 else 0);
            HangulCore.GetChosungBul(jung, hasJong) == b.cho &&
            HangulCore.GetJungsungBul(cho, hasJong) == b.jung &&
            (hasJong ==> HangulCore.GetJongsungBul(jung) == b.jong)
  {
    TablesMatchRules(jung, cho + 1, 1);
  }

  /** For every syllable, the display header's decomposition of its UTF-8 bytes is the
      renderer's decomposition shifted to 0-based lead and vowel, with the same three
      variants. */
  lemma DecompositionsAgree(c: char)
    requires Renderer.IsSyllable(c)
    ensures var t := Renderer.DecomposeHangul(c).value;
            var b := Renderer.GetBulIndices(t.cho, t.jung, t.jong);
            var (b1, b2, b3) := HangulCore.Encode3(c as int);
            var comp := HangulCore.Decompose(b1, b2, b3);
            HangulCore.IsHangul(b1, b2, b3) &&
            comp.cho == t.cho - 1 && comp.jung == t.jung - 1 && comp.jong == t.jong &&
            comp.choBul == b.cho && comp.jungBul == b.jung && comp.jongBul == b.jong
  {
    var u := c as int;
    HangulCore.EncodeDecode(u);
    var t := Renderer.DecomposeHangul(c).value;
    var (b1, b2, b3) := HangulCore.Encode3(u);
    var comp := HangulCore.Decompose(b1, b2, b3);
    HangulCore.SyllableSplit(u - HangulCore.SYLLABLE_FIRST);
    assert comp.cho == t.cho - 1 && comp.jung == t.jung - 1 && comp.jong == t.jong;
    if t.jong > 0 {
      TablesMatchRules(comp.jung, t.cho, t.jong);
    } else {
      TablesMatchRules(comp.jung, t.cho, 1);
    }
  }

  /** A character is a syllable for the renderer exactly when its UTF-8 bytes are one for
      the display header. */
  lemma SyllableTestsAgree(c: char)
    requires 0x0800 <= c as int <= 0xFFFF
    ensures var (b1, b2, b3) := HangulCore.Encode3(c as int);
            Renderer.IsSyllable(c) <==> HangulCore.IsHangul(b1, b2, b3)
  {
    var u := c as int;
    var (b1, b2, b3) := HangulCore.Encode3(u);
    assert HangulCore.CodePoint(b1, b2, b3) == u by {
      var a, b, d := u / 4096, (u / 64) % 64, u % 64;
      assert u == a * 4096 + b * 64 + d;
      assert (0xE0 + a) % 16 == a;
      assert (0x80 + b) % 64 == b;
      assert (0x80 + d) % 64 == d;
    }
  }
}
