/** Packed 16-bit colours: texture_pack_packed_color and its inverse in
    src/objects/texture.c, the readback unpackers of src/context/sync.c, and the
    copy path that quantizes a read-back image into a packed texture. */
module PackedColor {
  import opened Arithmetic
  import opened ContextState

  datatype PackedFormat = Rgb565 | Rgba4 | Rgb5A1

  /** The stored components of one texel, at the format's own precision. */
  datatype Fields = Fields(r: nat, g: nat, b: nat, a: nat)

  /** The largest value of each component. */
  function Maxima(f: PackedFormat): Fields {
    match f
    case Rgb565 => Fields(31, 63, 31, 1)
    case Rgba4 => Fields(15, 15, 15, 15)
    case Rgb5A1 => Fields(31, 31, 31, 1)
  }

  predicate Fits(f: PackedFormat, c: Fields) {
    c.r <= Maxima(f).r && c.g <= Maxima(f).g && c.b <= Maxima(f).b && c.a <= Maxima(f).a
  }

  /** texture_unpack_packed_color. */
  function Split(f: PackedFormat, word: nat): Fields {
    match f
    case Rgb565 => Fields(word / 2048 % 32, word / 32 % 64, word % 32, 1)
    case Rgba4 => Fields(word / 4096 % 16, word / 256 % 16, word / 16 % 16, word % 16)
    case Rgb5A1 => Fields(word / 2048 % 32, word / 64 % 32, word / 2 % 32, word % 2)
  }

  /** texture_pack_packed_color: the shifted fields do not overlap because they fit. */
  function Join(f: PackedFormat, c: Fields): nat
    requires Fits(f, c)
  {
    match f
    case Rgb565 => c.r * 2048 + c.g * 32 + c.b
    case Rgba4 => c.r * 4096 + c.g * 256 + c.b * 16 + c.a
    case Rgb5A1 => c.r * 2048 + c.g * 64 + c.b * 2 + c.a
  }

  lemma Regrouped(word: nat, a: nat, b: nat, ab: nat, q: nat, m: nat, t: nat)
    requires ab == a * b && word == (q * b + m) * a + t
    ensures word == q * ab + (m * a + t)
  {
    Distribute(q * b, m, a);
    MulAssociates(q, b, a);
  }

  /** Two shifts are one longer shift. */
  lemma Nested(word: nat, a: nat, b: nat, ab: nat)
    requires 0 < a && 0 < b && ab == a * b
    ensures word / ab == word / a / b
    ensures word == word / ab * ab + word / a % b * a + word % a
  {
    var q, m, t := word / a / b, word / a % b, word % a;
    DivMod(word, a);
    DivMod(word / a, b);
    Regrouped(word, a, b, ab, q, m, t);
    MulMonotone(m + 1, b, a);
    Distribute(m, 1, a);
    QuotientIs(word, ab, q, m * a + t);
  }

  lemma Top(word: nat, a: nat, b: nat)
    requires 0 < a && 0 < b && word < b * a
    ensures word / a % b == word / a
  {
    QuotientBelow(word, a, b);
    QuotientIs(word / a, b, 0, word / a);
  }

  lemma JoinInvertsSplit(f: PackedFormat, word: nat)
    requires word < 0x1_0000
    ensures Fits(f, Split(f, word)) && Join(f, Split(f, word)) == word
  {
    match f {
      case Rgb565 =>
        Top(word, 2048, 32);
        Nested(word, 32, 64, 2048);
      case Rgba4 =>
        Top(word, 4096, 16);
        Nested(word, 16, 16, 256);
        Nested(word, 256, 16, 4096);
      case Rgb5A1 =>
        Top(word, 2048, 32);
        Nested(word, 2, 32, 64);
        Nested(word, 64, 32, 2048);
    }
  }

  /** No field spills into another: packing is injective on what the format stores. */
  lemma SplitInvertsJoin(f: PackedFormat, c: Fields)
    requires Fits(f, c)
    ensures Join(f, c) < 0x1_0000
    ensures Split(f, Join(f, c)) == if f == Rgb565 then c.(a := 1) else c
  {
    match f {
      case Rgb565 => Split565(c);
      case Rgba4 => Split4444(c);
      case Rgb5A1 => Split5551(c);
    }
  }

  lemma Split565(c: Fields)
    requires Fits(Rgb565, c)
    ensures Join(Rgb565, c) < 0x1_0000 && Split(Rgb565, Join(Rgb565, c)) == c.(a := 1)
  {
    var word := Join(Rgb565, c);
    QuotientIs(word, 32, c.r * 64 + c.g, c.b);
    QuotientIs(word, 2048, c.r, c.g * 32 + c.b);
    QuotientIs(c.r * 64 + c.g, 64, c.r, c.g);
  }

  lemma Split4444(c: Fields)
    requires Fits(Rgba4, c)
    ensures Join(Rgba4, c) < 0x1_0000 && Split(Rgba4, Join(Rgba4, c)) == c
  {
    var word := Join(Rgba4, c);
    QuotientIs(word, 16, c.r * 256 + c.g * 16 + c.b, c.a);
    QuotientIs(word, 256, c.r * 16 + c.g, c.b * 16 + c.a);
    QuotientIs(word, 4096, c.r, c.g * 256 + c.b * 16 + c.a);
    QuotientIs(c.r * 256 + c.g * 16 + c.b, 16, c.r * 16 + c.g, c.b);
    QuotientIs(c.r * 16 + c.g, 16, c.r, c.g);
  }

  lemma Split5551(c: Fields)
    requires Fits(Rgb5A1, c)
    ensures Join(Rgb5A1, c) < 0x1_0000 && Split(Rgb5A1, Join(Rgb5A1, c)) == c
  {
    var word := Join(Rgb5A1, c);
    QuotientIs(word, 2, c.r * 1024 + c.g * 32 + c.b, c.a);
    QuotientIs(word, 64, c.r * 32 + c.g, c.b * 2 + c.a);
    QuotientIs(word, 2048, c.r, c.g * 64 + c.b * 2 + c.a);
    QuotientIs(c.r * 1024 + c.g * 32 + c.b, 32, c.r * 32 + c.g, c.b);
    QuotientIs(c.r * 32 + c.g, 32, c.r, c.g);
  }

  // -------------------------------------------------------------- readback

  /** A component at eight bits; `max` is odd or one, so the C code's half is `max / 2`. */
  function Widen(c: nat, max: nat): (r: byte)
    requires 0 < max && c <= max
  {
    Widened(c, max);
    (c * 255 + max / 2) / max
  }

  lemma Widened(c: nat, max: nat)
    requires 0 < max && c <= max
    ensures 0 <= (c * 255 + max / 2) / max < 256
  {
    var n := c * 255 + max / 2;
    MulMonotone(c, max, 255);
    QuotientBelow(n, max, 256);
  }

  /** What unpack_rgb565_to_rgba, unpack_rgba4_to_rgba and unpack_rgb5_a1_to_rgba
      write for one pixel. */
  function Expand(f: PackedFormat, word: nat): (r: seq<byte>)
    ensures |r| == 4
  {
    var c, m := Split(f, word), Maxima(f);
    [Widen(c.r, m.r), Widen(c.g, m.g), Widen(c.b, m.b), if f == Rgb565 then 255 else Widen(c.a, m.a)]
  }

  /** Widening rounds to the nearest eight-bit value of the same fraction. */
  lemma WidenIsNearest(c: nat, max: nat)
    requires 0 < max && c <= max
    ensures -(max as int) <= 2 * (Widen(c, max) * max - c * 255) <= max
  {
    var n := c * 255 + max / 2;
    assert n == max * (n / max) + n % max;
    assert Widen(c, max) * max == max * (n / max);
  }

  function Word(bytes: seq<byte>, pixel: nat): (r: nat)
    requires 2 * pixel + 2 <= |bytes|
    ensures r < 0x1_0000
  {
    WordOf(bytes[2 * pixel], bytes[2 * pixel + 1])
  }

  function Texel(bytes: seq<byte>, pixel: nat): (r: seq<byte>)
    requires 4 * pixel + 4 <= |bytes|
    ensures |r| == 4
  {
    bytes[4 * pixel..4 * pixel + 4]
  }

  ghost predicate Expanded(f: PackedFormat, native: seq<byte>, rgba: seq<byte>, count: nat) {
    && 2 * count <= |native| && 4 * count <= |rgba|
    && forall p :: 0 <= p < count ==> Texel(rgba, p) == Expand(f, Word(native, p))
  }

  method ExpandPixels(f: PackedFormat, source: array<byte>, destination: array<byte>, count: nat)
    requires 2 * count <= source.Length && 4 * count <= destination.Length && source != destination
    modifies destination
    ensures Expanded(f, source[..], destination[..], count)
    ensures forall k :: 4 * count <= k < destination.Length ==> destination[k] == old(destination[k])
  {
    hide Split, Widen;
    var index := 0;
    while index < count
      invariant index <= count
      invariant Expanded(f, source[..], destination[..], index)
      invariant forall k :: 4 * index <= k < destination.Length ==> destination[k] == old(destination[k])
    {
      var word := WordOf(source[2 * index], source[2 * index + 1]);
      var rgba := Expand(f, word);
      destination[4 * index] := rgba[0];
      destination[4 * index + 1] := rgba[1];
      destination[4 * index + 2] := rgba[2];
      destination[4 * index + 3] := rgba[3];
      assert Texel(destination[..], index) == rgba;
      index := index + 1;
    }
  }

  // --------------------------------------------------------- copy to texture

  /** texture_float_to_unorm8, and the same rounding of a linear alpha in
      src/context/sync.c, with exact arithmetic. */
  function ToUnorm8(value: real): (r: byte) {
    if !(value > 0.0) then 0
    else if value >= 1.0 then 255
    else (value * 255.0 + 0.5).Floor
  }

  /** texture_unorm8_to_packed_component. */
  function Narrow(v: byte, max: nat): (r: nat)
    ensures r <= max
  {
    NarrowFits(v, max);
    (v * max + 127) / 255
  }

  lemma NarrowFits(v: nat, max: nat)
    requires v < 256
    ensures 0 <= (v * max + 127) / 255 <= max
  {
    MulMonotone(v, 255, max);
  }

  function Narrowed(f: PackedFormat, rgba: seq<byte>): (c: Fields)
    requires |rgba| == 4
    ensures Fits(f, c)
  {
    var m := Maxima(f);
    Fields(Narrow(rgba[0], m.r), Narrow(rgba[1], m.g), Narrow(rgba[2], m.b), if f == Rgb565 then 0 else Narrow(rgba[3], m.a))
  }

  /** What the typed copy stores for one eight-bit texel: it goes through floats. */
  function CopyTexel(f: PackedFormat, rgba: seq<byte>): (word: nat)
    requires |rgba| == 4
    ensures word < 0x1_0000
  {
    var floats := Floats(rgba);
    var c := Narrowed(f, [ToUnorm8(floats[0]), ToUnorm8(floats[1]), ToUnorm8(floats[2]), ToUnorm8(floats[3])]);
    SplitInvertsJoin(f, c);
    Join(f, c)
  }

  function Floats(rgba: seq<byte>): (r: seq<real>)
    requires |rgba| == 4
    ensures |r| == 4
  {
    [rgba[0] as real / 255.0, rgba[1] as real / 255.0, rgba[2] as real / 255.0, rgba[3] as real / 255.0]
  }

  lemma ToUnorm8Inverts(v: byte)
    ensures ToUnorm8(v as real / 255.0) == v
  {
  }

  /** Narrowing undoes widening for the maxima the packed formats have. */
  lemma NarrowInvertsWiden(c: nat, max: nat)
    requires 0 < max <= 63 && c <= max
    ensures Narrow(Widen(c, max), max) == c
  {
    var v := Widen(c, max);
    WidenIsNearest(c, max);
    assert v * max + 127 == c * 255 + (v * max - c * 255) + 127;
    QuotientIs(v * max + 127, 255, c, (v * max - c * 255) + 127);
  }

  ghost predicate Copied(f: PackedFormat, rgba: seq<byte>, native: seq<byte>, count: nat) {
    && 2 * count <= |native| && 4 * count <= |rgba|
    && forall p :: 0 <= p < count ==> Word(native, p) == CopyTexel(f, Texel(rgba, p))
  }

  /** The packed case of texture_copy_canonical_rgba_to_typed_copy_image_storage. */
  method CopyPixels(f: PackedFormat, source: array<byte>, destination: array<byte>, count: nat)
    requires 4 * count <= source.Length && 2 * count <= destination.Length && source != destination
    modifies destination
    ensures Copied(f, source[..], destination[..], count)
    ensures forall k :: 2 * count <= k < destination.Length ==> destination[k] == old(destination[k])
  {
    hide CopyTexel;
    var index := 0;
    while index < count
      invariant index <= count
      invariant Copied(f, source[..], destination[..], index)
      invariant forall k :: 2 * index <= k < destination.Length ==> destination[k] == old(destination[k])
    {
      assert source[4 * index..4 * index + 4] == Texel(source[..], index);
      var word := CopyTexel(f, source[4 * index..4 * index + 4]);
      destination[2 * index] := word % 256;
      destination[2 * index + 1] := word / 256;
      index := index + 1;
    }
  }

  /** Every 16-bit word survives a readback and a copy into its own format. */
  lemma CopyInvertsExpand(f: PackedFormat, word: nat)
    requires word < 0x1_0000
    ensures CopyTexel(f, Expand(f, word)) == word
  {
    hide Split, Join, Widen, Narrow, ToUnorm8;
    var c, m, rgba := Split(f, word), Maxima(f), Expand(f, word);
    JoinInvertsSplit(f, word);
    NarrowInvertsWiden(c.r, m.r);
    NarrowInvertsWiden(c.g, m.g);
    NarrowInvertsWiden(c.b, m.b);
    NarrowInvertsWiden(c.a, m.a);
    ToUnorm8Inverts(rgba[0]);
    ToUnorm8Inverts(rgba[1]);
    ToUnorm8Inverts(rgba[2]);
    ToUnorm8Inverts(rgba[3]);
    var floats := Floats(rgba);
    assert [ToUnorm8(floats[0]), ToUnorm8(floats[1]), ToUnorm8(floats[2]), ToUnorm8(floats[3])] == rgba;
    AlphaIsNotStored(f, c);
  }

  lemma AlphaIsNotStored(f: PackedFormat, c: Fields)
    requires Fits(f, c)
    ensures f == Rgb565 ==> Join(f, c.(a := 0)) == Join(f, c)
  {
  }

  /** Whole images, of any size: read back, then copied into a packed texture,
      every byte is reproduced. */
  lemma PackedImagesSurvive(f: PackedFormat, native: seq<byte>, rgba: seq<byte>, copy: seq<byte>, count: nat)
    requires Expanded(f, native, rgba, count) && Copied(f, rgba, copy, count)
    ensures copy[..2 * count] == native[..2 * count]
  {
    hide CopyTexel, Expand;
    forall k | 0 <= k < 2 * count
      ensures copy[k] == native[k]
    {
      var p := k / 2;
      CopyInvertsExpand(f, Word(native, p));
      assert Word(copy, p) == Word(native, p);
      SameWordSameBytes(copy[2 * p], copy[2 * p + 1], native[2 * p], native[2 * p + 1]);
    }
  }

  lemma SameWordSameBytes(a: byte, b: byte, c: byte, d: byte)
    requires WordOf(a, b) == WordOf(c, d)
    ensures a == c && b == d
  {
  }
}
