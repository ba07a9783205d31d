/** glCompressedTexImage2D on the 2D target in src/objects/texture.c: the decoded
    image is uploaded as tight rows, but under the unpack alignment in force. */
module CompressedImages {
  import opened Limits
  import opened StagingBlocks
  import opened Arithmetic
  import opened Grids
  import opened ContextState
  import opened ContextLedger
  import opened TextureFormats
  import opened TexUpload
  import opened TextureStorage
  import opened TexImages
  import opened BlockDecoding
  import opened ImageDecoding
  import opened LinearImages
  import opened PackedColor
  import opened ColorConversion

  const ETC1_RGB8: nat := 0x8d64
  const RGB_DXT1: nat := 0x83f0
  const RGBA_DXT1: nat := 0x83f1
  const RGBA_DXT3: nat := 0x83f2
  const RGBA_DXT5: nat := 0x83f3

  const SRGB_DXT1: nat := 0x8c4c
  const SRGB_ALPHA_DXT1: nat := 0x8c4d
  const SRGB_ALPHA_DXT3: nat := 0x8c4e
  const SRGB_ALPHA_DXT5: nat := 0x8c4f

  predicate IsSrgb(format: nat) { SRGB_DXT1 <= format <= SRGB_ALPHA_DXT5 }

  predicate Known(format: nat) { format == ETC1_RGB8 || RGB_DXT1 <= format <= RGBA_DXT5 || IsSrgb(format) }

  function CodecOf(format: nat): Codec
    requires Known(format)
  {
    if format == ETC1_RGB8 then Etc1
    else if format == RGB_DXT1 || format == SRGB_DXT1 then S3tc(Dxt1Rgb)
    else if format == RGBA_DXT1 || format == SRGB_ALPHA_DXT1 then S3tc(Dxt1Rgba)
    else if format == RGBA_DXT3 || format == SRGB_ALPHA_DXT3 then S3tc(Dxt3)
    else S3tc(Dxt5)
  }

  function PictureOf(format: nat, tones: Tones): Picture
    requires Known(format)
  {
    Picture(CodecOf(format), IsSrgb(format), tones)
  }

  function OutputFormat(codec: Codec): nat { if OutBytes(codec) == 3 then RGB else RGBA }

  function OutputType(p: Picture): nat { if p.srgb then FLOAT_TYPE else UNSIGNED_BYTE_TYPE }

  /** The upload of a decoded image. */
  function DecodedUpload(p: Picture, alignment: nat, bytes: seq<byte>): Upload {
    Upload(OutputFormat(p.codec), OutputType(p), alignment, bytes, (texel: seq<byte>) => texel)
  }

  lemma OutSizes(p: Picture)
    ensures PictureTexel(p) == if p.srgb then (if OutputFormat(p.codec) == RGB then 12 else 16)
                               else (if OutputFormat(p.codec) == RGB then 3 else 4)
    ensures UploadTexel(DecodedUpload(p, 1, [])) == PictureTexel(p)
  {
  }

  /** Decoded rows are accepted. */
  predicate RowsAligned(p: Picture, w: nat, h: nat, alignment: nat)
    requires 0 < alignment
  {
    h <= 1 || w * PictureTexel(p) % alignment == 0
  }

  function OpaqueAlpha(p: Picture): seq<byte> { if p.srgb then BytesOf(ONE_FLOAT) else [255] }

  /** The stored texel for a pixel of the image: its bytes, opaque if it has no alpha. */
  function StoredPixel(p: Picture, data: seq<byte>, w: nat, h: nat, x: nat, y: nat): seq<byte>
    requires Decodable(p.codec, data, w, h) && x < w && y < h
  {
    PicturePixel(p, data, w, h, x, y) + if OutBytes(p.codec) == 3 then OpaqueAlpha(p) else []
  }

  function StoredTexelBytes(p: Picture): nat { if p.srgb then 16 else 4 }

  /** The defined level holds the decoded image. */
  ghost predicate HoldsImage(p: Picture, data: seq<byte>, w: nat, h: nat, bytes: seq<byte>)
    requires Decodable(p.codec, data, w, h)
  {
    && |bytes| == w * h * StoredTexelBytes(p)
    && forall x: nat, y: nat :: x < w && y < h ==> Cell(bytes, StoredTexelBytes(p), w, h, x, y) == StoredPixel(p, data, w, h, x, y)
  }

  lemma TightCell(bytes: seq<byte>, w: nat, h: nat, n: nat, alignment: nat, x: nat, y: nat)
    requires AlignmentOk(alignment) && x < w && y < h && 0 < n && |bytes| == w * h * n
    requires h <= 1 || w * n % alignment == 0
    ensures SourceBytes(w, h, n, alignment) <= |bytes|
    ensures SourceTexel(bytes, w, h, n, n, alignment, x, y) == Cell(bytes, n, w, h, x, y)
  {
    hide RowPitch, RoundUp, SourceBytes;
    TightRowsAccepted(w, h, n, alignment);
    CellFits(w, h, n, x, y);
    SourceFits(w, h, n, n, alignment, x, y);
    TightOffset(w, n, RowPitch(w, n, alignment), x, y);
    PieceFits(n, y * w + x);
  }

  lemma TightOffset(w: nat, n: nat, pitch: nat, x: nat, y: nat)
    requires y == 0 || pitch == w * n
    ensures y * pitch + x * n == (y * w + x) * n
  {
    Distribute(y * w, x, n);
    assert y * w * n == y * (w * n);
  }

  /** Under aligned rows, what the upload stores is the decoded image. */
  lemma DecodedIsStored(t: TextureObject, p: Picture, data: seq<byte>, w: nat, h: nat, alignment: nat, decoded: seq<byte>, bytes: seq<byte>)
    requires AlignmentOk(alignment) && Decodable(p.codec, data, w, h) && Pictured(p, data, w, h, decoded)
    requires 0 < w && 0 < h && RowsAligned(p, w, h, alignment)
    requires var u := DecodedUpload(p, alignment, decoded);
             var q := Requested(t, OutputFormat(p.codec), u);
             UploadFits(q, u, w, h) && DefinedContents(q, u, Pixels(false, |decoded|), bytes, w, h)
    ensures HoldsImage(p, data, w, h, bytes)
  {
    hide PicturePixel, Decodable, SourceBytes, RowPitch;
    var u := DecodedUpload(p, alignment, decoded);
    var q := Requested(t, OutputFormat(p.codec), u);
    RequestedFormat(t, p, alignment, decoded);
    forall x: nat, y: nat | x < w && y < h
      ensures Cell(bytes, StoredTexelBytes(p), w, h, x, y) == StoredPixel(p, data, w, h, x, y)
    {
      StoredTexel(t, p, data, w, h, alignment, decoded, x, y);
      assert Cell(bytes, TexelBytes(q.format, q.componentType), w, h, x, y) == Uploaded(q, u, w, h, x, y);
    }
  }

  lemma RequestedFormat(t: TextureObject, p: Picture, alignment: nat, decoded: seq<byte>)
    ensures var q := Requested(t, OutputFormat(p.codec), DecodedUpload(p, alignment, decoded));
            && q.format == OutputFormat(p.codec) && q.componentType == OutputType(p) && !q.srgb
            && TexelBytes(q.format, q.componentType) == StoredTexelBytes(p)
  {
  }

  lemma StoredTexel(t: TextureObject, p: Picture, data: seq<byte>, w: nat, h: nat, alignment: nat, decoded: seq<byte>, x: nat, y: nat)
    requires AlignmentOk(alignment) && Decodable(p.codec, data, w, h) && Pictured(p, data, w, h, decoded)
    requires x < w && y < h && RowsAligned(p, w, h, alignment)
    requires var u := DecodedUpload(p, alignment, decoded); UploadFits(Requested(t, OutputFormat(p.codec), u), u, w, h)
    ensures var u := DecodedUpload(p, alignment, decoded);
            Uploaded(Requested(t, OutputFormat(p.codec), u), u, w, h, x, y) == StoredPixel(p, data, w, h, x, y)
  {
    hide PicturePixel, Decodable, SourceBytes, RowPitch, Cell, SourceTexel, Stored, ReadChannels, Spread;
    OutSizes(p);
    RequestedFormat(t, p, alignment, decoded);
    TightCell(decoded, w, h, PictureTexel(p), alignment, x, y);
    TexelStays(p, Cell(decoded, PictureTexel(p), w, h, x, y));
  }

  /** Uploading a texel of the picture keeps its bytes and adds what is missing. */
  lemma TexelStays(p: Picture, texel: seq<byte>)
    requires |texel| == PictureTexel(p)
    ensures |texel| == ExternalTexelBytes(OutputFormat(p.codec), OutputType(p))
    ensures ColorTexel(OutputFormat(p.codec), OutputFormat(p.codec), OutputType(p), texel)
         == texel + if OutBytes(p.codec) == 3 then OpaqueAlpha(p) else []
  {
    hide FloatBits, BytesOf;
    if p.srgb {
      FloatsStay(texel, 0);
      FloatsStay(texel, 4);
      FloatsStay(texel, 8);
      if |texel| == 16 {
        FloatsStay(texel, 12);
      }
      ChannelsJoin(texel, 0, |texel| / 4);
    }
  }

  lemma LowByte(low: byte, rest: nat)
    ensures (low + 0x100 * rest) % 0x100 == low && (low + 0x100 * rest) / 0x100 == rest
  {
  }

  lemma ByteShifts(bits: nat)
    ensures bits / 0x1_0000 == bits / 0x100 / 0x100 && bits / 0x100_0000 == bits / 0x100 / 0x100 / 0x100
  {
  }

  lemma FloatsStay(bytes: seq<byte>, at: nat)
    requires at + 4 <= |bytes|
    ensures BytesOf(FloatBits(bytes, at)) == bytes[at..at + 4]
  {
    var a: nat, b: nat, c: nat, d: nat := bytes[at], bytes[at + 1], bytes[at + 2], bytes[at + 3];
    assert FloatBits(bytes, at) == a + 0x100 * (b + 0x100 * (c + 0x100 * d));
    LowByte(a, b + 0x100 * (c + 0x100 * d));
    LowByte(b, c + 0x100 * d);
    LowByte(c, d);
    ByteShifts(FloatBits(bytes, at));
  }

  // ------------------------------------------------------------------ the call

  predicate ArgumentsOk(level: int, width: int, height: int, border: int) {
    0 <= level <= MIP_STORAGES && border == 0 && 0 <= width <= MAX_TEXTURE_SIZE && 0 <= height <= MAX_TEXTURE_SIZE
  }

  /** The texture a compressed definition asks for. */
  function RequestedImage(t: TextureObject, p: Picture, alignment: nat): TextureObject {
    Requested(t, OutputFormat(p.codec), DecodedUpload(p, alignment, []))
  }

  /** What the enclosed definition says to the decoded image, before it allocates. */
  function DecodedError(t: TextureObject, bound: bool, level: nat, p: Picture, w: nat, h: nat, alignment: nat, format: nat): Error
    requires |t.mips| == MIP_STORAGES && AlignmentOk(alignment)
  {
    DefineError(t, bound, level, OutputFormat(p.codec), w, h, 0, DecodedUpload(p, alignment, []),
                Pixels(w == 0 || h == 0, PictureSize(p, w, h)), format)
  }

  /** The checks look at the format and the size of an upload, not at its bytes. */
  lemma BytesAreNotChecked(t: TextureObject, bound: bool, level: nat, p: Picture, w: nat, h: nat, alignment: nat, format: nat, bytes: seq<byte>)
    requires |t.mips| == MIP_STORAGES && AlignmentOk(alignment)
    ensures Requested(t, OutputFormat(p.codec), DecodedUpload(p, alignment, bytes)) == RequestedImage(t, p, alignment)
    ensures DefineError(t, bound, level, OutputFormat(p.codec), w, h, 0, DecodedUpload(p, alignment, bytes),
                        Pixels(w == 0 || h == 0, PictureSize(p, w, h)), format)
         == DecodedError(t, bound, level, p, w, h, alignment, format)
  {
    hide SourceBytes, JoinsBase, StorageFormat, DepthStorageFormat;
    assert UploadTexel(DecodedUpload(p, alignment, bytes)) == UploadTexel(DecodedUpload(p, alignment, []));
  }

  /** What a refused compressed definition reports. */
  ghost predicate Refused(was: Error, now: Error, acceptable: bool, error: Error) {
    || now == Context.Pending(was, OutOfMemory)
    || (!acceptable && now == Context.Pending(was, InvalidValue))
    || (acceptable && error != NoError && now == Context.Pending(was, error))
  }

  /** The upload of unaligned rows is refused for want of source bytes. */
  lemma UnalignedIsRefused(p: Picture, w: nat, h: nat, alignment: nat, decoded: seq<byte>)
    requires AlignmentOk(alignment) && |decoded| == PictureSize(p, w, h) && !RowsAligned(p, w, h, alignment) && 0 < w
    ensures SourceBad(DecodedUpload(p, alignment, decoded), w, h, Pixels(false, |decoded|))
  {
    hide RowPitch, RoundUp, SourceBytes;
    OutSizes(p);
    TightRowsAccepted(w, h, PictureTexel(p), alignment);
  }

  /** Decode, upload and free: the part after the checks. */
  method UploadDecoded(ctx: Context, sizeMax: nat, level: nat, format: nat, p: Picture, width: nat, height: nat,
                       alignment: nat, data: seq<byte>, isNull: bool)
    returns (defined: bool)
    requires TexturesValid(ctx) && AlignmentOk(alignment) && ArgumentsOk(level, width, height, 0)
    modifies ctx`active, ctx`cached, ctx`blocks, ctx`textures, ctx`pendingError, ctx.process, ctx.backend
    ensures StorageFrame(ctx)
    ensures Discarded(old(ctx.backend.objects), ctx.backend.objects, old(ctx.textures), ctx.textures, Bound2D(ctx))
    ensures !defined ==> ctx.textures == old(ctx.textures)
    ensures defined ==> FlatOnly(old(ctx.textures), ctx.textures, Bound2D(ctx))
    ensures defined ==> Acceptable(p.codec, data, isNull, width, height) && ctx.pendingError == old(ctx.pendingError)
    ensures defined && 0 < width && 0 < height ==>
              && RowsAligned(p, width, height, alignment) && Bound2D(ctx) < OBJECT_SLOT_COUNT
              && HoldsImage(p, data, width, height, LevelBytes(ctx.textures[Bound2D(ctx)], level))
    ensures var k := Bound2D(ctx);
            var t := if k < OBJECT_SLOT_COUNT then old(ctx.textures)[k] else ZeroTexture();
            var error := DecodedError(t, k < OBJECT_SLOT_COUNT, level, p, width, height, alignment, format);
            if defined then
              && error == NoError && k < OBJECT_SLOT_COUNT
              && ctx.textures == old(ctx.textures)[k := WithDefinition(t, RequestedImage(t, p, alignment), level,
                                                                       LevelBytes(ctx.textures[k], level), width, height, format)]
            else
              Refused(old(ctx.pendingError), ctx.pendingError, Acceptable(p.codec, data, isNull, width, height), error)
  {
    hide Sized, OwnedBytes, LedgerValid, Others, Acceptable, HoldsImage, Pictured, DefinedContents, UploadFits, SourceBytes, Decodable,
      RowsAligned, PictureSize, Requested, SourceBad, DefineError, Surplus, DecodedError, RequestedImage;
    var ok, u, source := DecodeForUpload(ctx, p, width, height, alignment, data, isNull, sizeMax);
    if !ok {
      return false;
    }
    ghost var t := if Bound2D(ctx) < OBJECT_SLOT_COUNT then ctx.textures[Bound2D(ctx)] else ZeroTexture();
    BytesAreNotChecked(t, Bound2D(ctx) < OBJECT_SLOT_COUNT, level, p, width, height, alignment, format, u.pixels);
    defined := TexImage2D(ctx, sizeMax, level, OutputFormat(p.codec), width, height, 0, u, source, format);
    if defined && 0 < width && 0 < height {
      AcceptedIsStored(t, p, data, isNull, width, height, alignment, u.pixels, level, LevelBytes(ctx.textures[Bound2D(ctx)], level), format);
    }
    FreeDecoded(ctx, source.size);
  }

  /** The decoded image as an upload, charged to the context. */
  method DecodeForUpload(ctx: Context, p: Picture, w: nat, h: nat, alignment: nat, data: seq<byte>, isNull: bool, sizeMax: nat)
    returns (ok: bool, u: Upload, source: Pixels)
    requires TexturesValid(ctx)
    modifies ctx`active, ctx`cached, ctx`blocks, ctx`pendingError, ctx.process
    ensures TexturesValid(ctx) && Others(ctx) == old(Others(ctx)) && 0 <= old(Surplus(ctx))
    ensures Surplus(ctx) == old(Surplus(ctx)) + if ok then source.size else 0
    ensures ok ==> ctx.pendingError == old(ctx.pendingError) && Acceptable(p.codec, data, isNull, w, h)
    ensures !ok ==> Refused(old(ctx.pendingError), ctx.pendingError, Acceptable(p.codec, data, isNull, w, h), NoError)
    ensures ok ==> u == DecodedUpload(p, alignment, u.pixels) && source == Pixels(w == 0 || h == 0, PictureSize(p, w, h))
    ensures ok ==> |u.pixels| == source.size && (0 < w && 0 < h ==> Pictured(p, data, w, h, u.pixels))
  {
    hide Sized, Shaped, LedgerValid, Others, Acceptable, Pictured, Decodable, PictureSize, TextureBytes;
    ChargesCover(ctx);
    u, source := DecodedUpload(p, alignment, []), Pixels(true, 0);
    var result, decoded := DecodePicture(ctx, p, w, h, data, isNull, sizeMax);
    ok := result == 0;
    if !ok {
      ctx.RecordError(if result == -2 then OutOfMemory else InvalidValue);
      return;
    }
    u := DecodedUpload(p, alignment, if decoded == null then [] else decoded[..]);
    source := Pixels(decoded == null, PictureSize(p, w, h));
    DecodedSize(p, data, isNull, w, h, decoded == null, u.pixels);
  }

  method FreeDecoded(ctx: Context, size: nat)
    requires TexturesValid(ctx) && size <= Surplus(ctx)
    modifies ctx`active, ctx.process`globalBytes
    ensures TexturesValid(ctx) && Others(ctx) == old(Others(ctx)) && Surplus(ctx) == old(Surplus(ctx)) - size
  {
    hide Sized, Shaped, LedgerValid, Others, TextureBytes;
    ReleaseShadowBytes(ctx, size);
  }

  lemma ChargesCover(ctx: Context)
    requires TexturesValid(ctx)
    ensures 0 <= Surplus(ctx) && 0 <= Untracked(ctx)
  {
  }

  lemma DecodedSize(p: Picture, data: seq<byte>, isNull: bool, w: nat, h: nat, empty: bool, bytes: seq<byte>)
    requires Acceptable(p.codec, data, isNull, w, h) && (empty <==> w == 0 || h == 0)
    requires if empty then bytes == [] else Pictured(p, data, w, h, bytes)
    ensures |bytes| == PictureSize(p, w, h)
  {
  }

  lemma AcceptedIsStored(t: TextureObject, p: Picture, data: seq<byte>, isNull: bool, w: nat, h: nat, alignment: nat,
                         decoded: seq<byte>, level: nat, bytes: seq<byte>, pending: nat)
    requires |t.mips| == MIP_STORAGES && AlignmentOk(alignment) && 0 < w && 0 < h
    requires Acceptable(p.codec, data, isNull, w, h) && Pictured(p, data, w, h, decoded)
    requires var u, source := DecodedUpload(p, alignment, decoded), Pixels(false, PictureSize(p, w, h));
             && DefineError(t, true, level, OutputFormat(p.codec), w, h, 0, u, source, pending) == NoError
             && UploadFits(Requested(t, OutputFormat(p.codec), u), u, w, h)
             && DefinedContents(Requested(t, OutputFormat(p.codec), u), u, source, bytes, w, h)
    ensures RowsAligned(p, w, h, alignment) && HoldsImage(p, data, w, h, bytes)
  {
    hide HoldsImage, DefinedContents, UploadFits, Requested, SourceBytes, JoinsBase, RowsAligned;
    DecodedSize(p, data, isNull, w, h, false, decoded);
    if !RowsAligned(p, w, h, alignment) {
      UnalignedIsRefused(p, w, h, alignment, decoded);
    }
    DecodedIsStored(t, p, data, w, h, alignment, decoded, bytes);
  }

  /** glCompressedTexImage2D. A level is defined only from well-formed data of the
      exact size, and holds the decoded image; and if the decoded rows are not
      aligned to the unpack alignment the call never succeeds. The temporary memory
      is given back on every path. */
  method CompressedTexImage2D(ctx: Context, sizeMax: nat, level: int, format: nat, width: int, height: int, border: int,
                              alignment: nat, data: seq<byte>, isNull: bool, tones: Tones)
    returns (defined: bool)
    requires TexturesValid(ctx) && AlignmentOk(alignment)
    modifies ctx`active, ctx`cached, ctx`blocks, ctx`textures, ctx`pendingError, ctx.process, ctx.backend
    ensures StorageFrame(ctx)
    ensures Discarded(old(ctx.backend.objects), ctx.backend.objects, old(ctx.textures), ctx.textures, Bound2D(ctx))
    ensures !Known(format) ==> !defined && ctx.pendingError == Context.Pending(old(ctx.pendingError), InvalidEnum)
    ensures Known(format) && !ArgumentsOk(level, width, height, border) ==>
              !defined && ctx.pendingError == Context.Pending(old(ctx.pendingError), InvalidValue)
    ensures !defined ==> ctx.textures == old(ctx.textures)
    ensures defined ==> Known(format) && ArgumentsOk(level, width, height, border)
    ensures defined ==> FlatOnly(old(ctx.textures), ctx.textures, Bound2D(ctx))
    ensures defined ==> Acceptable(CodecOf(format), data, isNull, width, height)
    ensures defined && 0 < width && 0 < height ==>
              && RowsAligned(PictureOf(format, tones), width, height, alignment) && Bound2D(ctx) < OBJECT_SLOT_COUNT
              && HoldsImage(PictureOf(format, tones), data, width, height, LevelBytes(ctx.textures[Bound2D(ctx)], level))
    ensures defined ==> ctx.pendingError == old(ctx.pendingError)
    ensures Known(format) && ArgumentsOk(level, width, height, border) ==>
              var k, p := Bound2D(ctx), PictureOf(format, tones);
              var t := if k < OBJECT_SLOT_COUNT then old(ctx.textures)[k] else ZeroTexture();
              var error := DecodedError(t, k < OBJECT_SLOT_COUNT, level, p, width, height, alignment, format);
              if defined then
                && error == NoError && k < OBJECT_SLOT_COUNT
                && ctx.textures == old(ctx.textures)[k := WithDefinition(t, RequestedImage(t, p, alignment), level,
                                                                         LevelBytes(ctx.textures[k], level), width, height, format)]
              else
                Refused(old(ctx.pendingError), ctx.pendingError, Acceptable(p.codec, data, isNull, width, height), error)
  {
    hide Sized, OwnedBytes, LedgerValid, Others, Acceptable, HoldsImage, Pictured, DefinedContents, UploadFits, SourceBytes, Decodable,
      RowsAligned, Surplus, DecodedError, RequestedImage;
    defined := false;
    if !Known(format) {
      ctx.RecordError(InvalidEnum);
      return;
    }
    if !ArgumentsOk(level, width, height, border) {
      ctx.RecordError(InvalidValue);
      return;
    }
    defined := UploadDecoded(ctx, sizeMax, level, format, PictureOf(format, tones), width, height, alignment, data, isNull);
  }
}
