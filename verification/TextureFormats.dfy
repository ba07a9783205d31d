/** The format tables of src/objects/texture.c and the bytes of one texel. */
module TextureFormats {
  import opened ContextState
  import opened HalfFloat
  import opened PackedColor
  import opened ColorConversion

  const ALPHA: nat := 0x1906
  const RGB: nat := 0x1907
  const RGBA: nat := 0x1908
  const LUMINANCE: nat := 0x1909
  const LUMINANCE_ALPHA: nat := 0x190a
  const RGBA4: nat := 0x8056
  const RGB5_A1: nat := 0x8057
  const RGB565: nat := 0x8d62
  const DEPTH_COMPONENT: nat := 0x1902
  const DEPTH_STENCIL: nat := 0x84f9
  const SRGB: nat := 0x8c40
  const SRGB_ALPHA: nat := 0x8c42

  const UNSIGNED_INT_TYPE: nat := 0x1405
  const UNSIGNED_SHORT_4_4_4_4: nat := 0x8033
  const UNSIGNED_SHORT_5_5_5_1: nat := 0x8034
  const UNSIGNED_SHORT_5_6_5: nat := 0x8363
  const UNSIGNED_INT_24_8: nat := 0x84fa
  const HALF_FLOAT: nat := 0x8d61

  predicate IsPacked(format: nat) { format == RGB565 || format == RGBA4 || format == RGB5_A1 }

  predicate IsColor(format: nat) {
    || format == RGBA || format == RGB || format == ALPHA || format == LUMINANCE
    || format == LUMINANCE_ALPHA || IsPacked(format)
  }

  predicate IsFloat(componentType: nat) { componentType == FLOAT_TYPE || componentType == HALF_FLOAT }

  function PackedOf(format: nat): PackedFormat {
    if format == RGB565 then Rgb565 else if format == RGBA4 then Rgba4 else Rgb5A1
  }

  /** texture_storage_texel_bytes. */
  function TexelBytes(format: nat, componentType: nat): (n: nat)
    ensures n == 2 || n == 4 || n == 8 || n == 16
  {
    if format == DEPTH24_STENCIL8 then 8
    else if componentType == FLOAT_TYPE then 16
    else if componentType == HALF_FLOAT then 8
    else if IsPacked(format) then 2 else 4
  }

  /** texture_external_texel_bytes. */
  function ExternalTexelBytes(format: nat, componentType: nat): nat {
    if format == DEPTH_COMPONENT && componentType == UNSIGNED_SHORT_TYPE then 2
    else if format == DEPTH_COMPONENT && (componentType == UNSIGNED_INT_TYPE || componentType == FLOAT_TYPE) then 4
    else if format == DEPTH_STENCIL && componentType == UNSIGNED_INT_24_8 then 4
    else if IsFloat(componentType) then Channels(format) * (if componentType == FLOAT_TYPE then 4 else 2)
    else if componentType == UNSIGNED_SHORT_5_6_5 || componentType == UNSIGNED_SHORT_4_4_4_4
            || componentType == UNSIGNED_SHORT_5_5_5_1 then 2
    else if format == RGB || format == SRGB then 3
    else if format == LUMINANCE_ALPHA then 2
    else if format == ALPHA || format == LUMINANCE then 1
    else 4
  }

  function Channels(format: nat): nat {
    if format == RGBA then 4 else if format == RGB then 3 else if format == LUMINANCE_ALPHA then 2
    else if format == ALPHA || format == LUMINANCE then 1 else 0
  }

  /** texture_upload_format_valid. */
  predicate UploadOk(t: TextureObject, format: nat, componentType: nat) {
    if t.srgb then
      && (t.format == RGB || t.format == RGBA)
      && format == (if t.format == RGB then SRGB else SRGB_ALPHA) && componentType == UNSIGNED_BYTE_TYPE
    else if IsFloat(t.componentType) then
      IsColor(t.format) && !IsPacked(t.format) && t.format == format && componentType == t.componentType
    else if t.format == RGB565 then format == RGB && componentType == UNSIGNED_SHORT_5_6_5
    else if t.format == RGBA4 then format == RGBA && componentType == UNSIGNED_SHORT_4_4_4_4
    else if t.format == RGB5_A1 then format == RGBA && componentType == UNSIGNED_SHORT_5_5_5_1
    else IsColor(t.format) && t.format == format && componentType == UNSIGNED_BYTE_TYPE
  }

  /** texture_depth_upload_format_valid. */
  predicate DepthUploadOk(storageFormat: nat, format: nat, componentType: nat) {
    if storageFormat == DEPTH_COMPONENT32F then
      format == DEPTH_COMPONENT
      && (componentType == UNSIGNED_SHORT_TYPE || componentType == UNSIGNED_INT_TYPE || componentType == FLOAT_TYPE)
    else storageFormat == DEPTH24_STENCIL8 && format == DEPTH_STENCIL && componentType == UNSIGNED_INT_24_8
  }

  // --------------------------------------------------------- canonical texels

  /** The four channels a source texel stands for; `zero` and `one` fill what its
      format omits. */
  function Spread<T>(format: nat, channels: seq<T>, zero: T, one: T): (r: seq<T>)
    requires |channels| == Channels(format) && 0 < |channels|
    ensures |r| == 4
  {
    if format == RGBA then channels
    else if format == RGB then channels + [one]
    else if format == ALPHA then [zero, zero, zero, channels[0]]
    else if format == LUMINANCE then [channels[0], channels[0], channels[0], one]
    else [channels[0], channels[0], channels[0], channels[1]]
  }

  const ONE_FLOAT: nat := 0x3f80_0000

  type Bits = b: nat | b < 0x1_0000_0000

  /** texture_read_float_component. */
  function ReadChannel(texel: seq<byte>, componentType: nat, c: nat): Bits
    requires IsFloat(componentType) && (c + 1) * (if componentType == FLOAT_TYPE then 4 else 2) <= |texel|
  {
    if componentType == FLOAT_TYPE then FloatBits(texel, 4 * c)
    else
      FloatOfHalfFits(Word(texel, c));
      FloatOfHalf(Word(texel, c))
  }

  function ReadChannels(texel: seq<byte>, componentType: nat, n: nat): (r: seq<Bits>)
    requires IsFloat(componentType) && n <= 4 && |texel| == n * (if componentType == FLOAT_TYPE then 4 else 2)
    ensures |r| == n
    ensures forall c :: 0 <= c < n ==> r[c] == ReadChannel(texel, componentType, c)
  {
    seq(n, c requires 0 <= c < n => ReadChannel(texel, componentType, c))
  }

  /** One component as it is stored: binary16 goes through float and back. */
  function StoredChannel(bits: Bits, componentType: nat): (r: seq<byte>)
    ensures |r| == if componentType == FLOAT_TYPE then 4 else 2
  {
    if componentType == FLOAT_TYPE then BytesOf(bits)
    else
      WriteHalfFits(bits);
      [WriteHalf(bits) % 256, WriteHalf(bits) / 256]
  }

  lemma WriteHalfFits(bits: Bits)
    ensures WriteHalf(bits) < 0x1_0000
  {
    AtMostMax(Exponent32(bits), Mantissa32(bits));
  }

  function Stored(channels: seq<Bits>, componentType: nat): (r: seq<byte>)
    requires |channels| == 4
    ensures |r| == if componentType == FLOAT_TYPE then 16 else 8
  {
    StoredChannel(channels[0], componentType) + StoredChannel(channels[1], componentType)
    + StoredChannel(channels[2], componentType) + StoredChannel(channels[3], componentType)
  }

  /** texture_copy_color_texels on one texel. */
  function ColorTexel(storageFormat: nat, format: nat, componentType: nat, texel: seq<byte>): (r: seq<byte>)
    requires IsPacked(storageFormat) ==> !IsFloat(componentType) && |texel| == 2
    requires !IsPacked(storageFormat) ==> 0 < Channels(format) && |texel| == ExternalTexelBytes(format, componentType)
    requires !IsPacked(storageFormat) && !IsFloat(componentType) ==> componentType == UNSIGNED_BYTE_TYPE
    ensures |r| == if componentType == FLOAT_TYPE then 16 else if componentType == HALF_FLOAT then 8
                   else if IsPacked(storageFormat) then 2 else 4
  {
    if IsFloat(componentType) then
      Stored(Spread(format, ReadChannels(texel, componentType, Channels(format)), 0, ONE_FLOAT), componentType)
    else if IsPacked(storageFormat) then texel
    else Spread(format, texel, 0, 255)
  }

  /** A finite binary16 component is stored unchanged, an infinity or NaN as the
      largest finite value of its sign. */
  lemma HalfUploadIsExact(texel: seq<byte>, c: nat)
    requires 2 * (c + 1) <= |texel|
    ensures Finite16(Word(texel, c)) ==> StoredChannel(ReadChannel(texel, HALF_FLOAT, c), HALF_FLOAT) == texel[2 * c..2 * c + 2]
  {
    hide FloatOfHalf, WriteHalf;
    var half := Word(texel, c);
    FloatOfHalfFits(half);
    if Finite16(half) {
      EncodingInvertsDecoding(half);
      assert half % 256 == texel[2 * c] && half / 256 == texel[2 * c + 1];
    }
  }

  function Fit(bytes: seq<byte>, n: nat): (r: seq<byte>)
    ensures |r| == n
  {
    if n <= |bytes| then bytes[..n] else bytes + seq(n - |bytes|, _ => 0)
  }

  /** glTexImage2D also takes a packed internal format as its own external format
      with bytes; its rows are then read as packed words. */
  predicate PackedAsBytes(t: TextureObject, format: nat, componentType: nat) {
    IsPacked(t.format) && !t.srgb && format == t.format && componentType == t.componentType == UNSIGNED_BYTE_TYPE
  }

  /** Everything a definition or an update accepts. */
  predicate SourceOk(t: TextureObject, format: nat, componentType: nat) {
    UploadOk(t, format, componentType) || DepthUploadOk(t.format, format, componentType) || PackedAsBytes(t, format, componentType)
  }

  /** The distance between source texels of a row. */
  function StepBytes(t: TextureObject, format: nat, componentType: nat): nat {
    if IsPacked(t.format) then 2 else ExternalTexelBytes(format, componentType)
  }

  lemma StepWithin(t: TextureObject, format: nat, componentType: nat)
    requires SourceOk(t, format, componentType)
    ensures 0 < StepBytes(t, format, componentType) <= ExternalTexelBytes(format, componentType)
    ensures UploadOk(t, format, componentType) ==> StepBytes(t, format, componentType) == ExternalTexelBytes(format, componentType)
  {
  }

  /** The bytes a level stores for one source texel. `rounded` gives the results of
      the sRGB table and the depth normalization, whose float division rounds. */
  function Converted(t: TextureObject, format: nat, componentType: nat, texel: seq<byte>, rounded: seq<byte> -> seq<byte>): (r: seq<byte>)
    requires SourceOk(t, format, componentType) && |texel| == StepBytes(t, format, componentType)
    ensures |r| == TexelBytes(t.format, t.componentType)
  {
    if IsColor(t.format) && !t.srgb then ColorTexel(t.format, format, componentType, texel)
    else if t.format == DEPTH24_STENCIL8 then Fit(rounded(texel), 4) + [texel[0], 0, 0, 0]
    else Fit(rounded(texel), TexelBytes(t.format, t.componentType))
  }
}
