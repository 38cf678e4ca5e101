/** PolyText8 and PolyText16, font_protocol.cpp: a request body is a list of items,
    each a font shift or a delta and a string, followed by padding. */
module PolyText {
  import opened Options
  import opened Wire

  type Delta = d: int | -128 <= d <= 127
  type Int16 = w: int | -0x8000 <= w <= 0x7fff
  const INT32_MIN: int := -0x8000_0000
  const INT32_MAX: int := 0x7fff_ffff

  /** Fonts are known by number; glyph widths come from the font's tables. */
  type Widths = (nat, Word16) -> Int16

  datatype Item = Shift(font: Word32) | Text(delta: Delta, characters: seq<Word16>)

  datatype Error = BadLength | BadFont(id: Word32) | BadDrawable | BadMatch

  datatype Decoded = Decoded(items: seq<Item>, error: Option<Error>)

  function CharacterSize(wide: bool): nat { if wide then 2 else 1 }

  // ---- What a body means

  predicate Padding(body: seq<Byte>) { |body| <= 3 && forall i :: 0 <= i < |body| ==> body[i] == 0 }

  function DeltaOf(byte: Byte): Delta { if byte <= 0x7f then byte else byte - 256 }

  function CharacterAt(bytes: seq<Byte>, wide: bool, k: nat): Word16
    requires (k + 1) * CharacterSize(wide) <= |bytes|
  {
    if wide then Decode16(Big, bytes[2 * k..2 * k + 2]) else bytes[k]
  }

  function Characters(bytes: seq<Byte>, wide: bool, count: nat): seq<Word16>
    requires |bytes| == count * CharacterSize(wide)
  {
    seq(count, k requires 0 <= k < count => CharacterAt(bytes, wide, k))
  }

  /** The first item of a body that is not only padding, and its size. */
  function First(body: seq<Byte>, wide: bool, order: ByteOrder, fonts: map<Word32,
                 nat>): (r: (Option<Item>, nat, Option<Error>))
    requires !Padding(body)
    ensures r.0.Some? <==> r.2.None?
    ensures r.0.Some? ==> 2 <= r.1 <= |body|
    ensures r.0.Some? && r.0.value.Shift? ==> r.0.value.font in fonts
    ensures r.0.Some? && r.0.value.Text? ==> |r.0.value.characters| <= 254
  {
    var count := body[0];
    if count == 255 then
      if |body| < 5 then (None, 0, Some(BadLength))
      else
        var id := Decode32(order, body[1..5]);
        if id in fonts then (Some(Shift(id)), 5, None) else (None, 0, Some(BadFont(id)))
    else
      var size := count * CharacterSize(wide);
      if |body| < 2 + size then (None, 0, Some(BadLength))
      else (Some(Text(DeltaOf(body[1]), Characters(body[2..2 + size], wide, count))), 2 + size, None)
  }

  /** The items up to the padding or the first error. */
  function Decode(body: seq<Byte>, wide: bool, order: ByteOrder, fonts: map<Word32, nat>): Decoded {
    if Padding(body) then Decoded([], None)
    else
      var (item, size, error) := First(body, wide, order, fonts);
      if error.Some? then Decoded([], error)
      else
        var rest := Decode(body[size..], wide, order, fonts);
        Decoded([item.value] + rest.items, rest.error)
  }

  // ---- What a client sends

  predicate Sendable(item: Item, wide: bool, fonts: map<Word32, nat>) {
    match item
    case Shift(id) => id in fonts
    case Text(_, characters) =>
      |characters| <= 254 && (!wide ==> forall k :: 0 <= k < |characters| ==> characters[k] < 256)
  }

  function EncodeCharacters(characters: seq<Word16>, wide: bool): (bytes: seq<Byte>)
    requires !wide ==> forall k :: 0 <= k < |characters| ==> characters[k] < 256
    ensures |bytes| == |characters| * CharacterSize(wide)
  {
    if characters == [] then []
    else (if wide then Encode16(Big, characters[0]) else [characters[0]]) + EncodeCharacters(characters[1..], wide)
  }

  function EncodeItem(item: Item, wide: bool, order: ByteOrder, fonts: map<Word32, nat>): (bytes: seq<Byte>)
    requires Sendable(item, wide, fonts)
    ensures 2 <= |bytes|
  {
    match item
    case Shift(id) => [255] + Encode32(order, id)
    case Text(delta, characters) =>
      [|characters| as int, if delta < 0 then delta + 256 else delta] + EncodeCharacters(characters, wide)
  }

  function Encode(items: seq<Item>, wide: bool, order: ByteOrder, fonts: map<Word32, nat>): seq<Byte>
    requires forall i :: 0 <= i < |items| ==> Sendable(items[i], wide, fonts)
  {
    if items == [] then [] else EncodeItem(items[0], wide, order, fonts) + Encode(items[1..], wide, order, fonts)
  }

  function Zeros(n: nat): seq<Byte> { seq(n, _ => 0) }

  /** An item that neither moves the pen nor draws. */
  const NoOp: Item := Text(0, [])

  /** What the decoder makes of a padded list: the list, or the list less a no-op
      at its end that reads as padding. */
  function Received(items: seq<Item>, padding: nat): seq<Item> {
    if items != [] && items[|items| - 1] == NoOp && padding <= 1 then items[..|items| - 1] else items
  }

  lemma {:induction false} CharactersRoundTrip(characters: seq<Word16>, wide: bool)
    requires !wide ==> forall k :: 0 <= k < |characters| ==> characters[k] < 256
    ensures Characters(EncodeCharacters(characters, wide), wide, |characters|) == characters
  {
    if characters != [] {
      var rest := EncodeCharacters(characters[1..], wide);
      CharactersRoundTrip(characters[1..], wide);
      var bytes := EncodeCharacters(characters, wide);
      forall k | 0 <= k < |characters| ensures CharacterAt(bytes, wide, k) == characters[k] {
        if k == 0 {
          if wide {
            assert bytes[0..2] == Encode16(Big, characters[0]);
            Decode16Inverts(Big, characters[0], bytes[0..2]);
          }
        } else {
          assert Characters(rest, wide, |characters| - 1)[k - 1] == CharacterAt(rest, wide, k - 1);
          if wide {
            assert bytes[2 * k..2 * k + 2] == rest[2 * (k - 1)..2 * (k - 1) + 2];
          }
        }
      }
    }
  }

  /** An encoded item is read back as the first of any body it starts, unless it
      is a no-op that only padding follows. */
  lemma FirstRoundTrip(item: Item, rest: seq<Byte>, wide: bool, order: ByteOrder, fonts: map<Word32, nat>)
    requires Sendable(item, wide, fonts)
    ensures var body := EncodeItem(item, wide, order, fonts) + rest;
            && (Padding(body) <==> item == NoOp && |rest| <= 1 && Padding(rest))
            && (!Padding(body) ==>
                  First(body, wide, order, fonts) == (Some(item), |EncodeItem(item, wide, order, fonts)|, None))
  {
    var head := EncodeItem(item, wide, order, fonts);
    var body := head + rest;
    match item
    case Shift(id) =>
      assert body[1..5] == Encode32(order, id);
      Decode32Inverts(order, id, body[1..5]);
    case Text(delta, characters) =>
      var size := |characters| * CharacterSize(wide);
      assert body[2..2 + size] == EncodeCharacters(characters, wide);
      CharactersRoundTrip(characters, wide);
      assert body[0] == |characters|;
      if item == NoOp && |rest| <= 1 && Padding(rest) {
        assert body == [0, 0] + rest;
      }
  }

  /** Decoding what was encoded and padded gives the items back, up to a no-op at
      the end, and no error. */
  lemma {:induction false} RoundTrip(items: seq<Item>, padding: nat, wide: bool, order: ByteOrder, fonts: map<Word32,
                                     nat>)
    requires forall i :: 0 <= i < |items| ==> Sendable(items[i], wide, fonts)
    requires padding <= 3
    ensures Decode(Encode(items, wide, order, fonts) + Zeros(padding), wide, order, fonts) ==
            Decoded(Received(items, padding), None)
  {
    hide EncodeItem, First, Sendable;
    if items == [] {
      assert Encode(items, wide, order, fonts) + Zeros(padding) == Zeros(padding);
    } else {
      var head := EncodeItem(items[0], wide, order, fonts);
      var rest := Encode(items[1..], wide, order, fonts) + Zeros(padding);
      assert Encode(items, wide, order, fonts) + Zeros(padding) == head + rest;
      FirstRoundTrip(items[0], rest, wide, order, fonts);
      assert (head + rest)[|head|..] == rest;
      RoundTrip(items[1..], padding, wide, order, fonts);
      ReceivedNext(items, padding);
      if |items| == 1 {
        assert rest == Zeros(padding);
      } else {
        assert |rest| >= |Encode(items[1..], wide, order, fonts)| >= 2;
      }
    }
  }

  lemma ReceivedNext(items: seq<Item>, padding: nat)
    requires items != []
    ensures Received(items, padding) ==
            if |items| == 1 && items[0] == NoOp && padding <= 1 then [] else [items[0]] + Received(items[1..], padding)
  {
    if |items| > 1 {
      assert items[1..][|items| - 2] == items[|items| - 1];
      assert [items[0]] + items[1..][..|items| - 2] == items[..|items| - 1];
    }
  }

  // ---- The pen

  /** The width of a string. */
  function TextWidth(widths: Widths, font: nat, characters: seq<Word16>): int {
    if characters == [] then 0
    else TextWidth(widths, font, characters[..|characters| - 1]) + widths(font, characters[|characters| - 1])
  }

  /** The font in force after some items. */
  function FontAfter(items: seq<Item>, fonts: map<Word32, nat>, start: nat): nat {
    if items == [] then start
    else
      var last := items[|items| - 1];
      if last.Shift? && last.font in fonts then fonts[last.font] else FontAfter(items[..|items| - 1], fonts, start)
  }

  /** The pen after some items. */
  function PenAfter(items: seq<Item>, fonts: map<Word32, nat>, widths: Widths, font: nat, x: int): int {
    if items == [] then x
    else
      var n := |items| - 1;
      var pen := PenAfter(items[..n], fonts, widths, font, x);
      match items[n]
      case Shift(_) => pen
      case Text(delta, characters) => pen + delta + TextWidth(widths, FontAfter(items[..n], fonts, font), characters)
  }

  /** What one item adds: its delta, and its string in the font the shifts before
      it chose. */
  function Advance(items: seq<Item>, k: nat, fonts: map<Word32, nat>, widths: Widths, font: nat): int
    requires k < |items|
  {
    match items[k]
    case Shift(_) => 0
    case Text(delta, characters) => delta + TextWidth(widths, FontAfter(items[..k], fonts, font), characters)
  }

  function Sum(values: seq<int>): int { if values == [] then 0 else values[0] + Sum(values[1..]) }

  lemma {:induction false} SumOfMore(values: seq<int>, x: int)
    ensures Sum(values + [x]) == Sum(values) + x
  {
    if values != [] {
      assert (values + [x])[1..] == values[1..] + [x];
      SumOfMore(values[1..], x);
    }
  }

  /** The pen is the start plus everything the items add. */
  lemma {:induction false} PenIsSum(items: seq<Item>, fonts: map<Word32, nat>, widths: Widths, font: nat, x: int)
    ensures PenAfter(items, fonts, widths, font, x) ==
            x + Sum(seq(|items|, k requires 0 <= k < |items| => Advance(items, k, fonts, widths, font)))
  {
    if items != [] {
      var n := |items| - 1;
      var before := items[..n];
      PenIsSum(before, fonts, widths, font, x);
      var some := seq(n, k requires 0 <= k < n => Advance(before, k, fonts, widths, font));
      forall k | 0 <= k < n ensures Advance(before, k, fonts, widths, font) == Advance(items, k, fonts, widths, font) {
        assert before[..k] == items[..k];
      }
      assert seq(|items|, k requires 0 <= k < |items| => Advance(items, k, fonts, widths, font)) ==
             some + [Advance(items, n, fonts, widths, font)];
      SumOfMore(some, Advance(items, n, fonts, widths, font));
    }
  }

  /** A trailing no-op changes nothing that is drawn. */
  lemma NoOpsDoNothing(items: seq<Item>, fonts: map<Word32, nat>, widths: Widths, font: nat, x: int)
    ensures PenAfter(items + [NoOp], fonts, widths, font, x) == PenAfter(items, fonts, widths, font, x)
    ensures Glyphs(items + [NoOp], fonts, widths, font, x) == Glyphs(items, fonts, widths, font, x)
  {
    assert (items + [NoOp])[..|items|] == items;
  }

  /** A character drawn with its origin at x. */
  datatype Glyph = Glyph(font: nat, character: Word16, x: int)

  function Line(widths: Widths, font: nat, characters: seq<Word16>, x: int): seq<Glyph> {
    if characters == [] then []
    else
      var n := |characters| - 1;
      Line(widths, font, characters[..n], x) +
        [Glyph(font, characters[n], x + TextWidth(widths, font, characters[..n]))]
  }

  /** Everything some items draw. */
  function Glyphs(items: seq<Item>, fonts: map<Word32, nat>, widths: Widths, font: nat, x: int): seq<Glyph> {
    if items == [] then []
    else
      var n := |items| - 1;
      Glyphs(items[..n], fonts, widths, font, x)
      + match items[n]
        case Shift(_) => []
        case Text(delta, characters) =>
          Line(widths, FontAfter(items[..n], fonts, font), characters, PenAfter(items[..n], fonts, widths, font, x) +
               delta)
  }

  // ---- The pen stays within 32 bits

  /** Far wider than any glyph of the embedded fonts, which measure at most 17. */
  const WIDEST: int := 2047
  const REQUEST_LIMIT: nat := 1048576

  ghost predicate Narrow(widths: Widths) {
    forall font, character :: -WIDEST <= widths(font, character) <= WIDEST
  }

  /** What an item can move the pen, in units of the widest glyph: no more than
      it takes bytes. */
  function Cost(items: seq<Item>): nat {
    if items == [] then 0
    else
      var n := |items| - 1;
      Cost(items[..n]) + match items[n]
                         case Shift(_) => 0
                         case Text(_, characters) => 1 + |characters|
  }

  lemma {:induction false} CostOfRest(item: Item, rest: seq<Item>)
    ensures Cost([item] + rest) == Cost([item]) + Cost(rest)
  {
    if rest == [] {
      assert [item] + rest == [item];
    } else {
      var n := |rest| - 1;
      CostOfRest(item, rest[..n]);
      assert ([item] + rest)[..n + 1] == [item] + rest[..n];
    }
  }

  lemma {:induction false} CostOfBody(body: seq<Byte>, wide: bool, order: ByteOrder, fonts: map<Word32, nat>)
    ensures Cost(Decode(body, wide, order, fonts).items) <= |body|
  {
    if !Padding(body) {
      var (item, size, error) := First(body, wide, order, fonts);
      if error.None? {
        CostOfBody(body[size..], wide, order, fonts);
        CostOfRest(item.value, Decode(body[size..], wide, order, fonts).items);
        assert [item.value][..0] == [];
        assert Cost([item.value]) <= size;
      }
    }
  }

  lemma {:induction false} TextBound(widths: Widths, font: nat, characters: seq<Word16>)
    requires Narrow(widths)
    ensures -WIDEST * |characters| <= TextWidth(widths, font, characters) <= WIDEST * |characters|
  {
    if characters != [] {
      TextBound(widths, font, characters[..|characters| - 1]);
    }
  }

  lemma {:induction false} PenBound(items: seq<Item>, fonts: map<Word32, nat>, widths: Widths, font: nat, x: int)
    requires Narrow(widths)
    ensures -WIDEST * Cost(items) <= PenAfter(items, fonts, widths, font, x) - x <= WIDEST * Cost(items)
  {
    if items != [] {
      var n := |items| - 1;
      PenBound(items[..n], fonts, widths, font, x);
      if items[n].Text? {
        TextBound(widths, FontAfter(items[..n], fonts, font), items[n].characters);
      }
    }
  }

  /** All glyphs stand within a distance of x. */
  predicate Within(glyphs: seq<Glyph>, x: int, reach: int) {
    forall k :: 0 <= k < |glyphs| ==> -reach <= glyphs[k].x - x <= reach
  }

  lemma WithinJoins(a: seq<Glyph>, b: seq<Glyph>, x: int, pen: int, near: int, far: int, reach: int)
    requires Within(a, x, near) && Within(b, pen, far) && -(reach - far) <= pen - x <= reach - far && near <= reach
    ensures Within(a + b, x, reach)
  {
  }

  lemma {:induction false} LineBound(widths: Widths, font: nat, characters: seq<Word16>, x: int)
    requires Narrow(widths)
    ensures Within(Line(widths, font, characters, x), x, WIDEST * |characters|)
  {
    if characters != [] {
      var n := |characters| - 1;
      LineBound(widths, font, characters[..n], x);
      TextBound(widths, font, characters[..n]);
      hide TextWidth;
    }
  }

  lemma {:induction false} GlyphBound(items: seq<Item>, fonts: map<Word32, nat>, widths: Widths, font: nat, x: int)
    requires Narrow(widths)
    ensures Within(Glyphs(items, fonts, widths, font, x), x, WIDEST * Cost(items))
  {
    if items != [] {
      var before, last := items[..|items| - 1], items[|items| - 1];
      GlyphBound(before, fonts, widths, font, x);
      PenBound(before, fonts, widths, font, x);
      LastGlyphs(items, fonts, widths, font, x);
      hide Within, TextWidth, Line, PenAfter, FontAfter, Glyphs, Cost;
      if last.Text? {
        var pen := PenAfter(before, fonts, widths, font, x) + last.delta;
        LineBound(widths, FontAfter(before, fonts, font), last.characters, pen);
        WithinJoins(Glyphs(before, fonts, widths, font, x),
                    Line(widths, FontAfter(before, fonts, font), last.characters, pen),
                    x, pen, WIDEST * Cost(before), WIDEST * |last.characters|, WIDEST * Cost(items));
      }
    }
  }

  lemma LastGlyphs(items: seq<Item>, fonts: map<Word32, nat>, widths: Widths, font: nat, x: int)
    requires items != []
    ensures var before, last := items[..|items| - 1], items[|items| - 1];
            match last
            case Shift(_) => Glyphs(items, fonts, widths, font, x) ==
                 Glyphs(before, fonts, widths, font, x) && Cost(items) == Cost(before)
            case Text(delta, characters) =>
              && Glyphs(items, fonts, widths, font, x) == Glyphs(before, fonts, widths, font, x)
                   + Line(widths, FontAfter(before, fonts, font), characters,
                          PenAfter(before, fonts, widths, font, x) + delta)
              && Cost(items) == Cost(before) + 1 + |characters|
  {
    hide Line, PenAfter, FontAfter;
  }

  lemma {:induction false} CostOfPrefix(items: seq<Item>, k: nat)
    requires k <= |items|
    ensures Cost(items[..k]) <= Cost(items)
  {
    if k < |items| {
      CostOfPrefix(items[..|items| - 1], k);
      assert items[..|items| - 1][..k] == items[..k];
    } else {
      assert items[..k] == items;
    }
  }

  predicate InInt32(v: int) { INT32_MIN <= v <= INT32_MAX }

  /** In any request the server takes, with fonts no wider than that, the pen after
      every item and the origin of every glyph fit 32 bits, so the sums of the
      code never overflow. */
  lemma PenStaysIn32Bits(body: seq<Byte>, wide: bool, order: ByteOrder, fonts: map<Word32, nat>, widths: Widths,
                         font: nat, x: Int16)
    requires |body| <= REQUEST_LIMIT && Narrow(widths)
    ensures var items := Decode(body, wide, order, fonts).items;
            && (forall k :: 0 <= k <= |items| ==> InInt32(PenAfter(items[..k], fonts, widths, font, x)))
            && (forall g :: g in Glyphs(items, fonts, widths, font, x) ==> InInt32(g.x))
  {
    var items := Decode(body, wide, order, fonts).items;
    CostOfBody(body, wide, order, fonts);
    GlyphBound(items, fonts, widths, font, x);
    forall k | 0 <= k <= |items| ensures InInt32(PenAfter(items[..k], fonts, widths, font, x)) {
      CostOfPrefix(items, k);
      PenBound(items[..k], fonts, widths, font, x);
    }
  }

  // ---- The handler

  /** The drawable and its match with the graphics context. */
  datatype Target = Ready | Missing | WrongDepth

  function PaintErrors(target: Target): seq<Error> {
    match target
    case Ready => []
    case Missing => [BadDrawable]
    case WrongDepth => [BadMatch]
  }

  /** An error for every string: a failed paint answers, but does not stop. */
  function ItemErrors(items: seq<Item>, target: Target): seq<Error> {
    if items == [] then []
    else ItemErrors(items[..|items| - 1], target) + if items[|items| - 1].Text? then PaintErrors(target) else []
  }

  function Texts(items: seq<Item>): nat {
    if items == [] then 0 else Texts(items[..|items| - 1]) + if items[|items| - 1].Text? then 1 else 0
  }

  /** A request for a target that cannot be drawn on is answered with an error for
      each of its strings. */
  lemma {:induction false} OneErrorPerString(items: seq<Item>, target: Target)
    ensures |ItemErrors(items, target)| == if target.Ready? then 0 else Texts(items)
    ensures forall e :: e in ItemErrors(items, target) ==> e == if target.Missing? then BadDrawable else BadMatch
  {
    if items != [] {
      OneErrorPerString(items[..|items| - 1], target);
    }
  }

  class TextPainter {
    const widths: Widths
    var glyphs: seq<Glyph>
    var errors: seq<Error>

    constructor (widths: Widths)
      ensures this.widths == widths && glyphs == [] && errors == []
    {
      this.widths := widths;
      glyphs, errors := [], [];
    }

    /** The sum of at most 255 widths never meets the clamp. */
    method MeasureText(font: nat, characters: seq<Word16>) returns (width: int)
      requires |characters| <= 255
      ensures width == TextWidth(widths, font, characters)
    {
      width := 0;
      for n := 0 to |characters|
        invariant width == TextWidth(widths, font, characters[..n])
        invariant -0x8000 * n <= width <= 0x7fff * n
      {
        assert characters[..n + 1][..n] == characters[..n];
        width := width + widths(font, characters[n]);
      }
      assert characters[..|characters|] == characters;
      width := if width < INT32_MIN then INT32_MIN else if width > INT32_MAX then INT32_MAX else width;
    }

    /** Draws a string, or answers why it cannot. */
    method PaintText(target: Target, font: nat, characters: seq<Word16>, x: int)
      modifies this
      ensures errors == old(errors) + PaintErrors(target)
      ensures glyphs == old(glyphs) + if target.Ready? then Line(widths, font, characters, x) else []
    {
      if target.Missing? {
        errors := errors + [BadDrawable];
        return;
      }
      if target.WrongDepth? {
        errors := errors + [BadMatch];
        return;
      }
      var currentX := x;
      for n := 0 to |characters|
        invariant currentX == x + TextWidth(widths, font, characters[..n])
        invariant errors == old(errors)
        invariant glyphs == old(glyphs) + Line(widths, font, characters[..n], x)
      {
        assert characters[..n + 1][..n] == characters[..n];
        glyphs := glyphs + [Glyph(font, characters[n], currentX)];
        currentX := currentX + widths(font, characters[n]);
      }
      assert characters[..|characters|] == characters;
    }

    method ReadCharacters(body: seq<Byte>, at: nat, wide: bool, count: nat) returns (characters: seq<Word16>)
      requires at + count * CharacterSize(wide) <= |body|
      ensures characters == Characters(body[at..at + count * CharacterSize(wide)], wide, count)
    {
      characters := [];
      var offset := at;
      for n := 0 to count
        invariant offset == at + n * CharacterSize(wide)
        invariant |characters| == n
        invariant forall k :: 0 <= k < n ==>
                    characters[k] == CharacterAt(body[at..at + count * CharacterSize(wide)], wide, k)
      {
        var byte1: int := body[offset];
        offset := offset + 1;
        var byte2: int := 0;
        if wide {
          byte2 := body[offset];
          offset := offset + 1;
        }
        characters := characters + [if wide then 256 * byte1 + byte2 else byte1];
      }
    }

    /** Reads the item at an offset, or why there is none. */
    method ReadItem(body: seq<Byte>, offset: nat, wide: bool, order: ByteOrder, fonts: map<Word32, nat>)
      returns (item: Option<Item>, size: nat, error: Option<Error>)
      requires offset < |body| && !Padding(body[offset..])
      ensures (item, size, error) == First(body[offset..], wide, order, fonts)
    {
      var count := body[offset];
      if count == 255 {
        if |body| - offset - 1 < 4 {
          return None, 0, Some(BadLength);
        }
        assert body[offset..][1..5] == body[offset + 1..offset + 5];
        var id := Decode32(order, body[offset + 1..offset + 5]);
        if id !in fonts {
          return None, 0, Some(BadFont(id));
        }
        return Some(Shift(id)), 5, None;
      }
      size := count * CharacterSize(wide);
      if |body| - offset - 1 < 1 + size {
        return None, 0, Some(BadLength);
      }
      assert body[offset..][2..2 + size] == body[offset + 2..offset + 2 + size];
      var characters := ReadCharacters(body, offset + 2, wide, count);
      return Some(Text(DeltaOf(body[offset + 1]), characters)), 2 + size, None;
    }

    /** Follows one item: a shift changes the font, a string is drawn and moves the
        pen over its delta and its width. */
    method TakeItem(item: Item, target: Target, fonts: map<Word32, nat>, font: nat, x: int)
      returns (nextFont: nat, nextX: int)
      requires item.Shift? ==> item.font in fonts
      requires item.Text? ==> |item.characters| <= 254
      modifies this
      ensures nextFont == if item.Shift? then fonts[item.font] else font
      ensures nextX == x + if item.Text? then item.delta + TextWidth(widths, font, item.characters) else 0
      ensures glyphs == old(glyphs) +
              if item.Text? && target.Ready? then Line(widths, font, item.characters, x + item.delta) else []
      ensures errors == old(errors) + if item.Text? then PaintErrors(target) else []
    {
      nextFont, nextX := font, x;
      match item {
        case Shift(id) =>
          nextFont := fonts[id];
        case Text(delta, characters) =>
          nextX := x + delta;
          PaintText(target, font, characters, nextX);
          var width := MeasureText(font, characters);
          nextX := nextX + width;
      }
    }

    /** The item loop. It reads the body up to the padding or the first error,
        draws each string at the pen, and moves the pen by what it read. */
    method PolyText(target: Target, body: seq<Byte>, wide: bool, order: ByteOrder, fonts: map<Word32, nat>,
                    startFont: nat, startX: int)
      returns (x: int)
      modifies this
      ensures var read := Decode(body, wide, order, fonts);
              && x == PenAfter(read.items, fonts, widths, startFont, startX)
              && glyphs == old(glyphs) +
                (if target.Ready? then Glyphs(read.items, fonts, widths, startFont, startX) else [])
              && errors == old(errors) + ItemErrors(read.items, target)
                           + (if read.error.Some? then [read.error.value] else if target.Missing? then [BadDrawable]
                              else [])
    {
      hide First, Decode, Leads, Padding, FontAfter, PenAfter, Glyphs, ItemErrors, Line, TextWidth, PaintErrors;
      x := startX;
      var font := startFont;
      var offset := 0;
      ghost var start := Start(target, fonts, widths, startFont, startX, glyphs, errors);
      ghost var items: seq<Item> := [];
      ghost var read := Decode(body, wide, order, fonts);
      NothingYet(start);
      LeadsFirst(read);
      assert body[0..] == body;
      while offset < |body| && !Padding(body[offset..])
        invariant 0 <= offset <= |body|
        invariant Leads(read, items, Decode(body[offset..], wide, order, fonts))
        invariant Reached(start, items, font, x, glyphs, errors)
      {
        var item, size, error := ReadItem(body, offset, wide, order, fonts);
        LeadsOn(read, items, body[offset..], wide, order, fonts);
        if error.Some? {
          errors := errors + [error.value];
          return;
        }
        assert body[offset..][size..] == body[offset + size..];
        ghost var glyphsNow, errorsNow := glyphs, errors;
        var nextFont, nextX := TakeItem(item.value, target, fonts, font, x);
        NextReached(start, items, item.value, font, x, glyphsNow, errorsNow, nextFont, nextX, glyphs, errors);
        font, x := nextFont, nextX;
        items := items + [item.value];
        offset := offset + size;
      }
      assert offset == |body| ==> body[offset..] == [];
      LeadsEnd(read, items, body[offset..], wide, order, fonts);
      if target.Missing? {
        errors := errors + [BadDrawable];
      }
    }
  }

  /** What is still to be read follows what was read. */
  predicate Leads(all: Decoded, done: seq<Item>, rest: Decoded) { all == Decoded(done + rest.items, rest.error) }

  lemma LeadsFirst(all: Decoded)
    ensures Leads(all, [], all)
  {
  }

  lemma LeadsOn(all: Decoded, done: seq<Item>, body: seq<Byte>, wide: bool, order: ByteOrder, fonts: map<Word32, nat>)
    requires Leads(all, done, Decode(body, wide, order, fonts)) && !Padding(body)
    ensures var (item, size, error) := First(body, wide, order, fonts);
            if error.Some? then all == Decoded(done, error)
            else Leads(all, done + [item.value], Decode(body[size..], wide, order, fonts))
  {
    hide First;
  }

  lemma LeadsEnd(all: Decoded, done: seq<Item>, body: seq<Byte>, wide: bool, order: ByteOrder, fonts: map<Word32, nat>)
    ensures Leads(all, done, Decode(body, wide, order, fonts)) && (body == [] || Padding(body)) ==>
              all == Decoded(done, None)
  {
  }

  /** The state when the item loop starts. */
  datatype Start = Start(target: Target, fonts: map<Word32, nat>, widths: Widths, font: nat, x: int,
                         glyphs: seq<Glyph>, errors: seq<Error>)

  /** The state after some items. */
  predicate Reached(start: Start, items: seq<Item>, font: nat, x: int, glyphs: seq<Glyph>, errors: seq<Error>) {
    && font == FontAfter(items, start.fonts, start.font)
    && x == PenAfter(items, start.fonts, start.widths, start.font, start.x)
    && glyphs == start.glyphs +
      (if start.target.Ready? then Glyphs(items, start.fonts, start.widths, start.font, start.x) else [])
    && errors == start.errors + ItemErrors(items, start.target)
  }

  lemma NothingYet(start: Start)
    ensures Reached(start, [], start.font, start.x, start.glyphs, start.errors)
  {
  }

  lemma NextReached(start: Start, items: seq<Item>, item: Item, font: nat, x: int, glyphs: seq<Glyph>,
                    errors: seq<Error>, nextFont: nat, nextX: int, nextGlyphs: seq<Glyph>, nextErrors: seq<Error>)
    requires Reached(start, items, font, x, glyphs, errors)
    requires item.Shift? ==> item.font in start.fonts
    requires nextFont == if item.Shift? then start.fonts[item.font] else font
    requires nextX == x + if item.Text? then item.delta + TextWidth(start.widths, font, item.characters) else 0
    requires nextGlyphs == glyphs +
             if item.Text? && start.target.Ready? then Line(start.widths, font, item.characters, x + item.delta) else []
    requires nextErrors == errors + if item.Text? then PaintErrors(start.target) else []
    ensures Reached(start, items + [item], nextFont, nextX, nextGlyphs, nextErrors)
  {
    assert (items + [item])[..|items|] == items;
    var drawn := if item.Text? && start.target.Ready? then Line(start.widths, font, item.characters, x + item.delta)
        else [];
    var answered := if item.Text? then PaintErrors(start.target) else [];
    var before := Glyphs(items, start.fonts, start.widths, start.font, start.x);
    assert start.target.Ready? ==>
             Glyphs(items + [item], start.fonts, start.widths, start.font, start.x) == before + drawn;
    assert ItemErrors(items + [item], start.target) == ItemErrors(items, start.target) + answered;
    hide TextWidth, Line, PaintErrors, Glyphs, ItemErrors;
    Grouped(start.glyphs, if start.target.Ready? then before else [], drawn);
    Grouped(start.errors, ItemErrors(items, start.target), answered);
  }

  lemma Grouped<T>(a: seq<T>, b: seq<T>, c: seq<T>)
    ensures (a + b) + c == a + (b + c)
  {
  }

  /** Two one-letter strings for a drawable that does not exist are answered with
      three errors. */
  method TwoStringsThreeErrors(painter: TextPainter, font: nat) returns (x: int)
    modifies painter
    ensures painter.glyphs == old(painter.glyphs)
    ensures painter.errors == old(painter.errors) + [BadDrawable, BadDrawable, BadDrawable]
  {
    var body: seq<Byte> := [1, 0, 97, 1, 0, 97, 0, 0];
    ghost var item := Text(0, [97]);
    TwoStrings();
    x := painter.PolyText(Missing, body, false, Little, map[], font, 0);
    assert [item, item][..1] == [item] && [item][..0] == [];
    assert ItemErrors([item, item], Missing) == ItemErrors([item], Missing) + [BadDrawable];
  }

  lemma TwoStrings()
    ensures Decode([1, 0, 97, 1, 0, 97, 0, 0], false, Little, map[]) == Decoded([Text(0, [97]), Text(0, [97])], None)
  {
    var item := Text(0, [97]);
    assert [97][1..] == [] && EncodeCharacters([97], false) == [97];
    assert EncodeItem(item, false, Little, map[]) == [1, 0, 97];
    assert [item, item][1..] == [item] && [item][1..] == [];
    assert Encode([item], false, Little, map[]) == [1, 0, 97];
    assert Encode([item, item], false, Little, map[]) == [1, 0, 97, 1, 0, 97];
    RoundTrip([item, item], 2, false, Little, map[]);
    assert [1, 0, 97, 1, 0, 97] + Zeros(2) == [1, 0, 97, 1, 0, 97, 0, 0];
  }
}
