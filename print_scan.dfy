/** The byte stepping of the `print` loops of both display adapters
    (`HangulDisp/HangulDisp.h` and `hangulDisp.h`), as the sequence of
    events the loop produces: a 3-byte group handed to `printHangulChar`,
    or an ASCII byte that advances the cursor by 8.

    A lead byte with its top three bits set is followed by two nonzero
    bytes or ends the loop; an ASCII byte is consumed alone; a `110xxxxx`
    byte skips two bytes; any other byte skips one. */
module PrintScan {
  import opened Bytes

  datatype Event = Glyph(b1: byte, b2: byte, b3: byte) | AsciiByte

  /** The events of the print loop from position p. A `110xxxxx` byte right before the
      terminator ends the loop on the terminator. */
  function Events(s: seq<byte>, p: nat): (es: seq<Event>)
    requires CString(s) && p <= |s|
    ensures |es| <= |s| - p
    ensures forall i :: 0 <= i < |es| && es[i].Glyph? ==>
              es[i].b1 >= 0xE0 && es[i].b2 != 0 && es[i].b3 != 0
    decreases |s| - p
  {
    if p == |s| then []
    else
      var b := s[p];
      if b >= 0xE0 then
        (if At(s, p + 1) != 0 && At(s, p + 2) != 0 then [Glyph(b, s[p + 1], s[p + 2])] + Events(s, p + 3) else [])
      else if b < 0x80 then [AsciiByte] + Events(s, p + 1)
      else if 0xC0 <= b then Events(s, if p + 1 < |s| then p + 2 else p + 1)
      else Events(s, p + 1)
  }

  /** The loop as written: a `110xxxxx` byte always skips two bytes, so before the
      terminator it leaves the pointer past the terminator (None: the next read is
      outside the string). */
  function EventsAsWritten(s: seq<byte>, p: nat): (r: Option<seq<Event>>)
    requires CString(s) && p <= |s|
    decreases |s| - p
  {
    if p == |s| then Some([])
    else
      var b := s[p];
      if b >= 0xE0 then
        (if At(s, p + 1) != 0 && At(s, p + 2) != 0 then
           match EventsAsWritten(s, p + 3)
           case None => None
           case Some(rest) => Some([Glyph(b, s[p + 1], s[p + 2])] + rest)
         else Some([]))
      else if b < 0x80 then
        match EventsAsWritten(s, p + 1)
        case None => None
        case Some(rest) => Some([AsciiByte] + rest)
      else if 0xC0 <= b then
        (if p + 2 > |s| then None else EventsAsWritten(s, p + 2))
      else EventsAsWritten(s, p + 1)
  }

  /** The string "\xC3": the loop as written steps over the terminator; the corrected
      loop stops on it with no event. */
  lemma PrintOverrun()
    ensures CString([0xC3])
    ensures EventsAsWritten([0xC3], 0) == None
    ensures Events([0xC3], 0) == []
  {
  }

  /** Whenever the loop as written stays inside the string, it produces the corrected events. */
  lemma {:induction false} EventsAgree(s: seq<byte>, p: nat)
    requires CString(s) && p <= |s|
    requires EventsAsWritten(s, p).Some?
    ensures EventsAsWritten(s, p) == Some(Events(s, p))
    decreases |s| - p
  {
    if p < |s| {
      var b := s[p];
      if b >= 0xE0 {
        if At(s, p + 1) != 0 && At(s, p + 2) != 0 {
          EventsAgree(s, p + 3);
        }
      } else if b < 0x80 {
        EventsAgree(s, p + 1);
      } else if 0xC0 <= b {
        EventsAgree(s, p + 2);
      } else {
        EventsAgree(s, p + 1);
      }
    }
  }

  /** Number of glyph events. */
  function GlyphCount(es: seq<Event>): (n: nat)
    ensures n <= |es|
  {
    if es == [] then 0 else GlyphCount(es[..|es| - 1]) + (if es[|es| - 1].Glyph? then 1 else 0)
  }

  /** Number of ASCII events. */
  function AsciiCount(es: seq<Event>): (n: nat)
    ensures n + GlyphCount(es) == |es|
  {
    if es == [] then 0 else AsciiCount(es[..|es| - 1]) + (if es[|es| - 1].AsciiByte? then 1 else 0)
  }

  /** One turn of the print loop on a lead byte with two nonzero successors: the glyph
      event moves from the events still to come to the events done. */
  lemma GlyphEventStep(s: seq<byte>, p: nat, done: seq<Event>)
    requires CString(s) && p < |s| && s[p] >= 0xE0 && At(s, p + 1) != 0 && At(s, p + 2) != 0
    ensures p + 3 <= |s|
    ensures done + Events(s, p) == (done + [Glyph(s[p], s[p + 1], s[p + 2])]) + Events(s, p + 3)
  {
    var e := Glyph(s[p], s[p + 1], s[p + 2]);
    assert Events(s, p) == [e] + Events(s, p + 3);
    AppendAssoc(done, [e], Events(s, p + 3));
  }

  /** One turn of the print loop on an ASCII byte. */
  lemma AsciiEventStep(s: seq<byte>, p: nat, done: seq<Event>)
    requires CString(s) && p < |s| && s[p] < 0x80
    ensures done + Events(s, p) == (done + [AsciiByte]) + Events(s, p + 1)
  {
    assert Events(s, p) == [AsciiByte] + Events(s, p + 1);
    AppendAssoc(done, [AsciiByte], Events(s, p + 1));
  }

  /** One turn of the print loop on a continuation or `110xxxxx` byte: no event. */
  lemma SkipStep(s: seq<byte>, p: nat)
    requires CString(s) && p < |s| && 0x80 <= s[p] < 0xE0
    ensures Events(s, p) == Events(s, if 0xC0 <= s[p] && p + 1 < |s| then p + 2 else p + 1)
  {
  }

  /** A text of ASCII bytes gives one ASCII event per byte. */
  lemma {:induction false} AsciiTextEvents(s: seq<byte>, p: nat)
    requires CString(s) && p <= |s|
    requires forall i :: p <= i < |s| ==> s[i] < 0x80
    ensures Events(s, p) == seq(|s| - p, _ => AsciiByte)
    decreases |s| - p
  {
    if p < |s| {
      AsciiTextEvents(s, p + 1);
    }
  }

  /** A lead byte with two nonzero successors always yields a glyph event, whether or not
      the three bytes form a syllable. */
  lemma LeadTripleIsGlyph(b1: byte, b2: byte, b3: byte)
    requires b1 >= 0xE0 && b2 != 0 && b3 != 0
    ensures Events([b1, b2, b3], 0) == [Glyph(b1, b2, b3)]
  {
    assert Events([b1, b2, b3], 3) == [];
  }

  /** A lead byte followed by a zero ends the loop: nothing of the rest is processed. */
  lemma TruncatedLeadStops(s: seq<byte>, p: nat)
    requires CString(s) && p < |s| && s[p] >= 0xE0
    requires At(s, p + 1) == 0 || At(s, p + 2) == 0
    ensures Events(s, p) == []
  {
  }

  /** The events of "한A" (UTF-8 ED 95 9C 41), and of "가" followed by a lone lead byte. */
  lemma ExampleEvents()
    ensures Events([0xED, 0x95, 0x9C, 0x41], 0) == [Glyph(0xED, 0x95, 0x9C), AsciiByte]
    ensures Events([0xEA, 0xB0, 0x80, 0xEA], 0) == [Glyph(0xEA, 0xB0, 0x80)]
  {
    assert Events([0xED, 0x95, 0x9C, 0x41], 3) == [AsciiByte];
    assert Events([0xEA, 0xB0, 0x80, 0xEA], 3) == [];
  }
}
