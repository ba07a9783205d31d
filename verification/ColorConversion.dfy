/** Native texels and the bytes glReadPixels shows for them: the converters of
    src/context/sync.c. */
module ColorConversion {
  import opened Arithmetic
  import opened ContextState
  import opened HalfFloat
  import opened PackedColor
  import Srgb

  /** The RinGPU image formats, as far as a readback tells them apart. */
  datatype Format = Rgba8 | Bgra8 | Packed(packed: PackedFormat) | Rgba32F | Rgba16F | Unreadable

  /** A resolved colour target: one level of an image. `texels[y][x]` holds the
      native bytes of a texel. */
  datatype Surface = Surface(format: Format, srgb: bool, hasAlpha: bool, width: nat, height: nat, texels: seq<seq<seq<byte>>>)

  function NativeBytes(format: Format): (r: nat)
    ensures 0 < r
  {
    match format
    case Packed(_) => 2
    case Rgba16F => 8
    case Rgba32F => 16
    case _ => 4
  }

  ghost predicate SurfaceValid(s: Surface) {
    && |s.texels| == s.height
    && (forall y :: 0 <= y < s.height ==> |s.texels[y]| == s.width)
    && (forall x, y :: 0 <= y < s.height && 0 <= x < s.width ==> |s.texels[y][x]| == NativeBytes(s.format))
  }

  /** ringl_color_target_readback_type_supported. */
  predicate Supported(s: Surface, pixelType: nat) {
    if s.srgb then s.format == Rgba32F && pixelType == UNSIGNED_BYTE_TYPE
    else if s.format.Packed? then pixelType == UNSIGNED_BYTE_TYPE
    else if s.format == Rgba32F || s.format == Rgba16F then pixelType == FLOAT_TYPE
    else pixelType == UNSIGNED_BYTE_TYPE && (s.format == Rgba8 || s.format == Bgra8)
  }

  /** The bits of the little-endian float in four bytes. */
  function FloatBits(bytes: seq<byte>, at: nat): (bits: nat)
    requires at + 4 <= |bytes|
    ensures bits < 0x1_0000_0000
  {
    WordOf(bytes[at], bytes[at + 1]) + 0x1_0000 * WordOf(bytes[at + 2], bytes[at + 3])
  }

  /** The four bytes of a float's bits. */
  function BytesOf(bits: nat): (r: seq<byte>)
    requires bits < 0x1_0000_0000
    ensures |r| == 4
  {
    [bits % 256, bits / 0x100 % 256, bits / 0x1_0000 % 256, bits / 0x100_0000]
  }

  predicate FiniteFloat(bits: nat) { Exponent32(bits) != 255 }

  /** The value of a finite float. */
  function FloatValue(bits: nat): real {
    var magnitude := Units32(bits) as real / Pow2(149) as real;
    if Negative32(bits) then -magnitude else magnitude
  }

  /** The bits are those of a NaN or compare below or equal to zero. */
  predicate NotAboveZero(bits: nat) {
    Negative32(bits) || (Exponent32(bits) == 255 && Mantissa32(bits) != 0)
  }

  /** ringl_srgb_encode_float on any float at all: NaN fails its first comparison. */
  function EncodeBits(bits: nat): (r: byte) {
    if NotAboveZero(bits) then 0
    else if !FiniteFloat(bits) then 255
    else Srgb.Encode(FloatValue(bits))
  }

  /** ringl_linear_alpha_to_unorm8. */
  function AlphaBits(bits: nat): (r: byte) {
    if NotAboveZero(bits) then 0
    else if !FiniteFloat(bits) then 255
    else ToUnorm8(FloatValue(bits))
  }

  function SrgbPixel(hasAlpha: bool, texel: seq<byte>): (r: seq<byte>)
    requires |texel| == 16
    ensures |r| == 4
  {
    [EncodeBits(FloatBits(texel, 0)), EncodeBits(FloatBits(texel, 4)), EncodeBits(FloatBits(texel, 8)),
     if hasAlpha then AlphaBits(FloatBits(texel, 12)) else 255]
  }

  function Half(texel: seq<byte>, component: nat): (r: nat)
    requires 2 * component + 2 <= |texel|
    ensures r < 0x1_0000
  {
    Word(texel, component)
  }

  /** unpack_rgba16f_to_rgba on one pixel. */
  function HalfPixel(texel: seq<byte>): (r: seq<byte>)
    requires |texel| == 8
    ensures |r| == 16
  {
    HalfBytes(Half(texel, 0)) + HalfBytes(Half(texel, 1)) + HalfBytes(Half(texel, 2)) + HalfBytes(Half(texel, 3))
  }

  function HalfBytes(half: nat): (r: seq<byte>)
    requires half < 0x1_0000
    ensures |r| == 4
  {
    FloatOfHalfFits(half);
    BytesOf(FloatOfHalf(half))
  }

  lemma FloatOfHalfFits(half: nat)
    requires half < 0x1_0000
    ensures FloatOfHalf(half) < 0x1_0000_0000
    ensures Finite16(half) ==> FiniteFloat(FloatOfHalf(half))
  {
    hide Pow2, Shift, Normalized;
    var m, e := Mantissa16(half), Exponent16(half);
    if e == 0 && m != 0 {
      NormalizedIsShifted(m);
      FloatFields(Negative16(half), 113 - Shift(m), (Normalized(m) - 1024) * 0x2000);
    } else {
      FloatFields(Negative16(half), if e == 0 then 0 else if e == 31 then 255 else e + 112, m * 0x2000);
    }
  }

  function Swapped(texel: seq<byte>): (r: seq<byte>)
    requires |texel| == 4
    ensures |r| == 4
  {
    [texel[2], texel[1], texel[0], texel[3]]
  }

  predicate TexelOk(s: Surface, texel: seq<byte>) { |texel| == NativeBytes(s.format) }

  /** The caller's bytes for one native texel. */
  function Convert(s: Surface, texel: seq<byte>): (r: seq<byte>)
    requires TexelOk(s, texel) && (s.srgb ==> s.format == Rgba32F)
    ensures |r| == if s.format == Rgba16F || (s.format == Rgba32F && !s.srgb) then 16 else 4
  {
    match s.format
    case Bgra8 => Swapped(texel)
    case Packed(f) => Expand(f, Word(texel, 0))
    case Rgba16F => HalfPixel(texel)
    case Rgba32F => if s.srgb then SrgbPixel(s.hasAlpha, texel) else texel
    case _ => texel
  }

  /** A readback as floats is refused when a component is infinite or NaN. */
  predicate Presentable(s: Surface, texel: seq<byte>)
    requires TexelOk(s, texel)
  {
    match s.format
    case Rgba16F => forall c :: 0 <= c < 4 ==> Finite16(Half(texel, c))
    case Rgba32F => s.srgb || forall c :: 0 <= c < 4 ==> FiniteFloat(FloatBits(texel, 4 * c))
    case _ => true
  }

  // ----------------------------------------------------------------- loops

  /** The first `n` pixels of `now` are those of `was` with red and blue exchanged;
      the rest is as it was. */
  ghost predicate SwizzledUpTo(was: seq<byte>, now: seq<byte>, n: nat) {
    && |now| == |was| && 4 * n <= |was|
    && (forall p :: 0 <= p < n ==> SwizzledAt(was, now, p))
    && forall k :: 4 * n <= k < |was| ==> now[k] == was[k]
  }

  ghost predicate SwizzledAt(was: seq<byte>, now: seq<byte>, p: nat) {
    4 * p + 4 <= |was| && 4 * p + 4 <= |now| && Texel(now, p) == Swapped(Texel(was, p))
  }

  lemma NoneSwizzled(bytes: seq<byte>)
    ensures SwizzledUpTo(bytes, bytes, 0)
  {
  }

  lemma OneMoreSwizzled(was: seq<byte>, before: seq<byte>, after: seq<byte>, n: nat)
    requires SwizzledUpTo(was, before, n) && 4 * n + 4 <= |was|
    requires after == before[4 * n + 2 := before[4 * n]][4 * n := before[4 * n + 2]]
    ensures SwizzledUpTo(was, after, n + 1)
  {
    forall p | 0 <= p < n + 1
      ensures SwizzledAt(was, after, p)
    {
      if p < n {
        assert SwizzledAt(was, before, p);
        assert Texel(after, p) == Texel(before, p);
      } else {
        assert Texel(after, n) == Swapped(Texel(was, n));
      }
    }
  }

  lemma SwizzledIs(was: seq<byte>, now: seq<byte>, n: nat)
    requires SwizzledUpTo(was, now, n)
    ensures |now| == |was| && 4 * n <= |was|
    ensures forall p :: 0 <= p < n ==> Texel(now, p) == Swapped(Texel(was, p))
    ensures forall k :: 4 * n <= k < |was| ==> now[k] == was[k]
  {
    forall p | 0 <= p < n
      ensures Texel(now, p) == Swapped(Texel(was, p))
    {
      assert SwizzledAt(was, now, p);
    }
  }

  /** swizzle_bgra_to_rgba, in place. */
  method SwizzleBgra(bytes: array<byte>, count: nat)
    requires 4 * count <= bytes.Length
    modifies bytes
    ensures forall p :: 0 <= p < count ==> Texel(bytes[..], p) == Swapped(Texel(old(bytes[..]), p))
    ensures forall k :: 4 * count <= k < bytes.Length ==> bytes[k] == old(bytes[k])
  {
    hide SwizzledUpTo;
    NoneSwizzled(bytes[..]);
    var index := 0;
    while index < count
      invariant index <= count
      invariant SwizzledUpTo(old(bytes[..]), bytes[..], index)
    {
      ghost var before := bytes[..];
      var red := bytes[4 * index + 2];
      bytes[4 * index + 2] := bytes[4 * index];
      bytes[4 * index] := red;
      OneMoreSwizzled(old(bytes[..]), before, bytes[..], index);
      index := index + 1;
    }
    SwizzledIs(old(bytes[..]), bytes[..], count);
  }

  /** The check that precedes the binary16 conversion: nothing is written before
      the whole image has passed it. */
  method HalvesAreFinite(source: array<byte>, count: nat) returns (finite: bool)
    requires 8 * count <= source.Length
    ensures finite <==> forall k :: 0 <= k < 4 * count ==> Finite16(Word(source[..], k))
  {
    hide Finite16;
    var pixel := 0;
    while pixel < count
      invariant pixel <= count
      invariant forall k :: 0 <= k < 4 * pixel ==> Finite16(Word(source[..], k))
    {
      var component := 0;
      while component < 4
        invariant component <= 4
        invariant forall k :: 0 <= k < 4 * pixel + component ==> Finite16(Word(source[..], k))
      {
        var half := WordOf(source[8 * pixel + 2 * component], source[8 * pixel + 2 * component + 1]);
        assert half == Word(source[..], 4 * pixel + component);
        if !Finite16(half) {
          return false;
        }
        component := component + 1;
      }
      pixel := pixel + 1;
    }
    return true;
  }

  /** unpack_rgba16f_to_rgba. */
  method UnpackHalves(source: array<byte>, destination: array<byte>, count: nat) returns (ok: bool)
    requires 8 * count <= source.Length && 16 * count <= destination.Length && source != destination
    modifies destination
    ensures ok <==> forall k :: 0 <= k < 4 * count ==> Finite16(Word(source[..], k))
    ensures ok ==> forall k :: 0 <= k < 4 * count ==> Texel(destination[..], k) == HalfBytes(Word(source[..], k))
    ensures !ok ==> destination[..] == old(destination[..])
    ensures forall k :: 16 * count <= k < destination.Length ==> destination[k] == old(destination[k])
  {
    hide HalfBytes, Finite16;
    ok := HalvesAreFinite(source, count);
    if !ok {
      return;
    }
    var pixel := 0;
    while pixel < count
      invariant pixel <= count
      invariant forall k :: 0 <= k < 4 * pixel ==> Texel(destination[..], k) == HalfBytes(Word(source[..], k))
      invariant forall k :: 16 * pixel <= k < destination.Length ==> destination[k] == old(destination[k])
    {
      var component := 0;
      while component < 4
        invariant component <= 4
        invariant forall k :: 0 <= k < 4 * pixel + component ==> Texel(destination[..], k) == HalfBytes(Word(source[..], k))
        invariant forall k :: 16 * pixel + 4 * component <= k < destination.Length ==> destination[k] == old(destination[k])
      {
        UnpackHalfAt(source, destination, 4 * pixel + component);
        component := component + 1;
      }
      pixel := pixel + 1;
    }
  }

  /** One component of the loop above. */
  method UnpackHalfAt(source: array<byte>, destination: array<byte>, k: nat)
    requires 2 * k + 2 <= source.Length && 4 * k + 4 <= destination.Length && source != destination
    requires Finite16(Word(source[..], k))
    modifies destination
    ensures Texel(destination[..], k) == HalfBytes(Word(source[..], k))
    ensures forall j :: 0 <= j < destination.Length && !(4 * k <= j < 4 * k + 4) ==> destination[j] == old(destination[j])
  {
    hide FloatOfHalf, Finite16;
    var half := WordOf(source[2 * k], source[2 * k + 1]);
    var bits := UnpackHalfComponent(half);
    FloatOfHalfFits(half);
    StoreBits(destination, 4 * k, bits);
    assert destination[4 * k..4 * k + 4] == BytesOf(bits);
  }

  method StoreBits(destination: array<byte>, at: nat, bits: nat)
    requires at + 4 <= destination.Length && bits < 0x1_0000_0000
    modifies destination
    ensures destination[at..at + 4] == BytesOf(bits)
    ensures forall j :: 0 <= j < destination.Length && !(at <= j < at + 4) ==> destination[j] == old(destination[j])
  {
    var bytes := BytesOf(bits);
    destination[at], destination[at + 1], destination[at + 2], destination[at + 3] := bytes[0], bytes[1], bytes[2], bytes[3];
  }

  lemma FourHalves(native: seq<byte>, out: seq<byte>, p: nat)
    requires 8 * p + 8 <= |native| && 16 * p + 16 <= |out|
    requires forall k :: 4 * p <= k < 4 * p + 4 ==> Texel(out, k) == HalfBytes(Word(native, k))
    ensures Wide(out, p) == HalfPixel(native[8 * p..8 * p + 8])
  {
    hide HalfBytes;
    var texel := native[8 * p..8 * p + 8];
    assert forall c :: 0 <= c < 4 ==> Half(texel, c) == Word(native, 4 * p + c);
    assert Wide(out, p)
        == Texel(out, 4 * p) + Texel(out, 4 * p + 1) + Texel(out, 4 * p + 2) + Texel(out, 4 * p + 3);
  }

  /** Pixel `p` of a Float32 image. */
  function Wide(bytes: seq<byte>, p: nat): (r: seq<byte>)
    requires 16 * p + 16 <= |bytes|
    ensures |r| == 16
  {
    bytes[16 * p..16 * p + 16]
  }

  /** ringl_encode_linear_rgba_to_srgb. */
  method EncodeSrgb(source: array<byte>, destination: array<byte>, count: nat, hasAlpha: bool)
    requires 16 * count <= source.Length && 4 * count <= destination.Length && source != destination
    modifies destination
    ensures forall p :: 0 <= p < count ==> Texel(destination[..], p) == SrgbPixel(hasAlpha, Wide(source[..], p))
    ensures forall k :: 4 * count <= k < destination.Length ==> destination[k] == old(destination[k])
  {
    hide EncodeBits, AlphaBits, FloatBits;
    var pixel := 0;
    while pixel < count
      invariant pixel <= count
      invariant forall p :: 0 <= p < pixel ==> Texel(destination[..], p) == SrgbPixel(hasAlpha, Wide(source[..], p))
      invariant forall k :: 4 * pixel <= k < destination.Length ==> destination[k] == old(destination[k])
    {
      var texel := source[16 * pixel..16 * pixel + 16];
      assert texel == Wide(source[..], pixel);
      var rgba := SrgbPixel(hasAlpha, texel);
      destination[4 * pixel] := rgba[0];
      destination[4 * pixel + 1] := rgba[1];
      destination[4 * pixel + 2] := rgba[2];
      destination[4 * pixel + 3] := rgba[3];
      assert Texel(destination[..], pixel) == rgba;
      pixel := pixel + 1;
    }
  }

  /** ringl_rgba_float_snapshot_is_finite. */
  method SnapshotIsFinite(bytes: array<byte>, count: nat) returns (finite: bool)
    requires 16 * count <= bytes.Length
    ensures finite <==> forall k :: 0 <= k < 4 * count ==> FiniteFloat(FloatBits(bytes[..], 4 * k))
  {
    hide FiniteFloat;
    var component := 0;
    while component < 4 * count
      invariant component <= 4 * count
      invariant forall k :: 0 <= k < component ==> FiniteFloat(FloatBits(bytes[..], 4 * k))
    {
      var bits := FloatBits(bytes[4 * component..4 * component + 4], 0);
      assert bits == FloatBits(bytes[..], 4 * component);
      if !FiniteFloat(bits) {
        return false;
      }
      component := component + 1;
    }
    return true;
  }
}
