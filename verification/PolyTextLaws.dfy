/** The bytes of a PolyText item, and every glyph an item list draws, one by one. */
module PolyTextLaws {
  import opened Wire
  import opened PolyText

  // ---- Bytes

  /** The number that bytes spell, the least significant one first. */
  function Spelled(a: int, b: int, c: int, d: int): int { a + 0x100 * b + 0x1_0000 * c + 0x100_0000 * d }

  /** A string item is its length, its delta as a signed byte and its characters, most
      significant byte first when wide; a shift is 255 and the id in the
      connection's order. */
  lemma {:induction false} ItemBytes(item: Item, wide: bool, order: ByteOrder, fonts: map<Word32, nat>, k: nat)
    requires Sendable(item, wide, fonts)
    ensures var bytes := EncodeItem(item, wide, order, fonts);
            match item
            case Shift(id) =>
              && |bytes| == 5 && bytes[0] == 255
              && (order.Little? ==> Spelled(bytes[1], bytes[2], bytes[3], bytes[4]) == id)
              && (order.Big? ==> Spelled(bytes[4], bytes[3], bytes[2], bytes[1]) == id)
            case Text(delta, characters) =>
              && |bytes| == 2 + (if wide then 2 else 1) * |characters| && bytes[0] == |characters|
              && (if bytes[1] < 128 then bytes[1] == delta else bytes[1] == delta + 256)
              && (k < |characters| && wide ==> Spelled(bytes[2 + 2 * k + 1], bytes[2 + 2 * k], 0, 0) == characters[k])
              && (k < |characters| && !wide ==> bytes[2 + k] == characters[k])
  {
    match item
    case Shift(id) => ShiftBytes(order, id);
    case Text(delta, characters) =>
      if k < |characters| {
        CharacterBytes(characters, wide, k);
      }
  }

  lemma ShiftBytes(order: ByteOrder, id: Word32)
    ensures var bytes := Encode32(order, id);
            && (order.Little? ==> Spelled(bytes[0], bytes[1], bytes[2], bytes[3]) == id)
            && (order.Big? ==> Spelled(bytes[3], bytes[2], bytes[1], bytes[0]) == id)
  {
  }

  lemma {:induction false} CharacterBytes(characters: seq<Word16>, wide: bool, k: nat)
    requires k < |characters| && (!wide ==> forall i :: 0 <= i < |characters| ==> characters[i] < 256)
    ensures var bytes := EncodeCharacters(characters, wide);
            if wide then Spelled(bytes[2 * k + 1], bytes[2 * k], 0, 0) == characters[k] else bytes[k] == characters[k]
  {
    if k > 0 {
      CharacterBytes(characters[1..], wide, k - 1);
    }
  }

  // ---- Glyphs

  lemma {:induction false} WidthIsSum(widths: Widths, font: nat, characters: seq<Word16>)
    ensures TextWidth(widths, font, characters) == Sum(GlyphWidths(widths, font, characters))
  {
    if characters != [] {
      var n := |characters| - 1;
      WidthIsSum(widths, font, characters[..n]);
      SumOfMore(GlyphWidths(widths, font, characters[..n]), widths(font, characters[n]));
      assert GlyphWidths(widths, font, characters) ==
             GlyphWidths(widths, font, characters[..n]) + [widths(font, characters[n]) as int];
    } else {
      assert GlyphWidths(widths, font, characters) == [];
    }
  }

  function GlyphWidths(widths: Widths, font: nat, characters: seq<Word16>): seq<int> {
    seq(|characters|, i requires 0 <= i < |characters| => widths(font, characters[i]) as int)
  }

  /** The font of the last shift, or the first font while there is none. */
  ghost predicate InForce(items: seq<Item>, fonts: map<Word32, nat>, start: nat, font: nat) {
    || (font == start && forall i :: 0 <= i < |items| ==> !items[i].Shift?)
    || exists i :: 0 <= i < |items| && items[i].Shift? && items[i].font in fonts && font == fonts[items[i].font] &&
                   forall k :: i < k < |items| ==> !items[k].Shift?
  }

  predicate KnownShifts(items: seq<Item>, fonts: map<Word32, nat>) {
    forall i :: 0 <= i < |items| && items[i].Shift? ==> items[i].font in fonts
  }

  lemma {:induction false} FontIsInForce(items: seq<Item>, fonts: map<Word32, nat>, start: nat)
    requires KnownShifts(items, fonts)
    ensures InForce(items, fonts, start, FontAfter(items, fonts, start))
  {
    if items != [] {
      var n := |items| - 1;
      if !items[n].Shift? {
        FontIsInForce(items[..n], fonts, start);
        if i :| 0 <= i < n && items[..n][i].Shift? && items[..n][i].font in fonts &&
                FontAfter(items[..n], fonts, start) == fonts[items[..n][i].font] &&
                forall k :: i < k < n ==> !items[..n][k].Shift? {
          assert items[i].Shift?;
          assert forall k :: i < k < n ==> items[..n][k] == items[k];
        } else {
          assert forall k :: 0 <= k < n ==> items[..n][k] == items[k];
        }
      }
    }
  }

  /** How many characters some items hold. */
  function Count(items: seq<Item>): nat {
    if items == [] then 0
    else Count(items[..|items| - 1]) + match items[|items| - 1] case Shift(_) => 0 case Text(_, cs) => |cs|
  }

  /** Glyph j of string k: the character, in the font that the last shift before chose, at
      the start plus all that the items before added, plus the string's delta, plus
      the widths of the characters before it. */
  lemma {:induction false} GlyphsAreDrawn(items: seq<Item>, fonts: map<Word32, nat>, widths: Widths, start: nat,
                                          x: int, k: nat, j: nat) returns (font: nat)
    requires KnownShifts(items, fonts) && k < |items| && items[k].Text? && j < |items[k].characters|
    ensures InForce(items[..k], fonts, start, font)
    ensures |Glyphs(items, fonts, widths, start, x)| == Count(items) && Count(items[..k]) + j < Count(items)
    ensures Glyphs(items, fonts, widths, start, x)[Count(items[..k]) + j] ==
            Glyph(font, items[k].characters[j],
                  PenAfter(items[..k], fonts, widths, start, x) + items[k].delta
                  + Sum(GlyphWidths(widths, font, items[k].characters[..j])))
    decreases |items|
  {
    hide TextWidth, PenAfter, Line, InForce, FontAfter, Glyphs, Sum;
    var n := |items| - 1;
    var before := items[..n];
    GlyphCount(items, fonts, widths, start, x);
    GlyphCount(before, fonts, widths, start, x);
    LastGlyphs(items, fonts, widths, start, x);
    if k == n {
      font := FontAfter(before, fonts, start);
      FontIsInForce(before, fonts, start);
      LineGlyph(widths, font, items[k].characters, PenAfter(before, fonts, widths, start, x) + items[k].delta, j);
    } else {
      font := GlyphsAreDrawn(before, fonts, widths, start, x, k, j);
      assert before[..k] == items[..k];
    }
  }

  lemma {:induction false} LineGlyph(widths: Widths, font: nat, characters: seq<Word16>, x: int, j: nat)
    requires j < |characters|
    ensures |Line(widths, font, characters, x)| == |characters|
    ensures Line(widths, font, characters, x)[j] ==
            Glyph(font, characters[j], x + Sum(GlyphWidths(widths, font, characters[..j])))
  {
    LineSize(widths, font, characters, x);
    var n := |characters| - 1;
    LineSize(widths, font, characters[..n], x);
    if j < n {
      LineGlyph(widths, font, characters[..n], x, j);
      assert characters[..n][..j] == characters[..j];
    } else {
      WidthIsSum(widths, font, characters[..n]);
    }
  }

  lemma {:induction false} LineSize(widths: Widths, font: nat, characters: seq<Word16>, x: int)
    ensures |Line(widths, font, characters, x)| == |characters|
  {
    if characters != [] {
      LineSize(widths, font, characters[..|characters| - 1], x);
    }
  }

  lemma {:induction false} GlyphCount(items: seq<Item>, fonts: map<Word32, nat>, widths: Widths, start: nat, x: int)
    ensures |Glyphs(items, fonts, widths, start, x)| == Count(items)
  {
    hide TextWidth, PenAfter, FontAfter, Line;
    if items != [] {
      var n := |items| - 1;
      GlyphCount(items[..n], fonts, widths, start, x);
      if items[n].Text? {
        LineSize(widths, FontAfter(items[..n], fonts, start), items[n].characters,
                 PenAfter(items[..n], fonts, widths, start, x) + items[n].delta);
      }
    }
  }

  /** And the pen before a string is the start plus the deltas and widths of all strings before. */
  lemma {:induction false} PenMoves(items: seq<Item>, fonts: map<Word32, nat>, widths: Widths, start: nat, x: int)
    returns (font: nat)
    requires KnownShifts(items, fonts) && items != []
    ensures var n := |items| - 1;
            && InForce(items[..n], fonts, start, font)
            && PenAfter(items, fonts, widths, start, x) == PenAfter(items[..n], fonts, widths, start, x) +
               match items[n]
               case Shift(_) => 0
               case Text(delta, characters) => delta + Sum(GlyphWidths(widths, font, characters))
    ensures PenAfter([], fonts, widths, start, x) == x
  {
    var n := |items| - 1;
    font := FontAfter(items[..n], fonts, start);
    FontIsInForce(items[..n], fonts, start);
    if items[n].Text? {
      WidthIsSum(widths, font, items[n].characters);
    }
  }

  /** Only shifts to fonts that exist are decoded. */
  lemma {:induction false} DecodedShifts(body: seq<Byte>, wide: bool, order: ByteOrder, fonts: map<Word32, nat>)
    ensures KnownShifts(Decode(body, wide, order, fonts).items, fonts)
  {
    hide First;
    if !Padding(body) {
      var (item, size, error) := First(body, wide, order, fonts);
      if error.None? {
        DecodedShifts(body[size..], wide, order, fonts);
      }
    }
  }
}
