/** The decoders of whole compressed images in src/objects/texture.c, with the
    temporary memory they use. */
module ImageDecoding {
  import opened Limits
  import opened StagingBlocks
  import opened Arithmetic
  import opened ContextState
  import opened ContextLedger
  import opened Grids
  import opened BlockDecoding

  function OutputSize(codec: Codec, w: nat, h: nat): nat { w * h * OutBytes(codec) }

  /** etc1_required_bytes and dxt_required_bytes. */
  method Required(codec: Codec, w: nat, h: nat) returns (ok: bool, bytes: nat)
    ensures ok <==> RequiredBytes(codec, w, h) <= UINT64_MAX
    ensures ok ==> bytes == RequiredBytes(codec, w, h)
  {
    if w == 0 || h == 0 {
      return true, 0;
    }
    var blocks := Across(w) * Across(h);
    QuotientAtMost(blocks, UINT64_MAX, CodecBytes(codec));
    if blocks > UINT64_MAX / CodecBytes(codec) {
      return false, 0;
    }
    return true, blocks * CodecBytes(codec);
  }

  lemma SomethingRequired(codec: Codec, w: nat, h: nat)
    ensures RequiredBytes(codec, w, h) == 0 <==> w == 0 || h == 0
  {
    if 0 < w && 0 < h {
      MulMonotone(1, Across(w), Across(h));
      MulMonotone(1, Across(w) * Across(h), CodecBytes(codec));
    }
  }

  /** The part etc1_decode_image and dxt_decode_image share: decode into fresh
      temporary memory, or give it back. */
  method DecodeRaw(ctx: Context, codec: Codec, w: nat, h: nat, data: seq<byte>) returns (result: int, decoded: array?<byte>, memory: nat)
    requires LedgerValid(ctx) && 0 < w && 0 < h && |data| == RequiredBytes(codec, w, h)
    modifies ctx`active, ctx`cached, ctx`blocks, ctx.process
    ensures LedgerValid(ctx) && Others(ctx) == old(Others(ctx))
    ensures result == 0 || result == -1 || result == -2
    ensures Untracked(ctx) == old(Untracked(ctx)) + if result == 0 then w * h * RawBytes(codec) else 0
    ensures result == -1 ==> !Decodable(codec, data, w, h)
    ensures result == 0 ==> Decodable(codec, data, w, h) && decoded != null && fresh(decoded) && memory != 0
    ensures result == 0 ==> decoded.Length == w * h * RawBytes(codec)
    ensures result == 0 ==> forall x: nat, y: nat :: x < w && y < h ==>
              Cell(decoded[..], RawBytes(codec), w, h, x, y) == Pixel(codec, data, w, h, x, y)
  {
    hide Decodable, Pixel, Cell;
    decoded := null;
    var size := w * h * RawBytes(codec);
    memory := AllocTemporary(ctx, size);
    if memory == 0 {
      return -2, null, 0;
    }
    decoded := new byte[size];
    var ok, writes := DecodeBlocks(codec, data, w, h, decoded);
    if !ok {
      FreeTemporary(ctx, memory, size);
      return -1, null, 0;
    }
    return 0, decoded, memory;
  }

  /** etc1_decode_image and dxt_decode_image. Success means the data was exactly
      the blocks of the image and every texel of the result is its pixel; the
      caller then owns, and is charged for, exactly the result. */
  method DecodeImage(ctx: Context, codec: Codec, w: nat, h: nat, data: seq<byte>, isNull: bool)
    returns (result: int, decoded: array?<byte>)
    requires LedgerValid(ctx)
    modifies ctx`active, ctx`cached, ctx`blocks, ctx.process
    ensures LedgerValid(ctx) && Others(ctx) == old(Others(ctx))
    ensures result == 0 || result == -1 || result == -2
    ensures Untracked(ctx) == old(Untracked(ctx)) + if result == 0 then OutputSize(codec, w, h) else 0
    ensures result == 0 ==> Acceptable(codec, data, isNull, w, h)
    ensures result == -1 ==> !Acceptable(codec, data, isNull, w, h)
    ensures result == 0 ==> (decoded == null <==> w == 0 || h == 0)
    ensures result == 0 && decoded != null ==> fresh(decoded) && Decoded(codec, data, w, h, decoded[..])
  {
    hide Pixel, Cell, RequiredBytes, CodecBytes, BlockOk, BlockAt;
    decoded := null;
    var fits, bytes := Required(codec, w, h);
    if !fits || |data| != bytes || (bytes != 0 && isNull) {
      return -1, null;
    }
    SomethingRequired(codec, w, h);
    if bytes == 0 {
      assert w * h == 0;
      return 0, null;
    }
    var memory;
    result, decoded, memory := DecodeRaw(ctx, codec, w, h, data);
    if result != 0 {
      return result, null;
    }
    if codec == S3tc(Dxt1Rgb) {
      var rgbSize := w * h * 3;
      var rgbMemory := AllocTemporary(ctx, rgbSize);
      if rgbMemory == 0 {
        FreeTemporary(ctx, memory, w * h * 4);
        return -2, null;
      }
      var rgb := new byte[rgbSize];
      DropAlpha(codec, data, w, h, decoded, rgb);
      FreeTemporary(ctx, memory, w * h * 4);
      return 0, rgb;
    }
    return 0, decoded;
  }
}
