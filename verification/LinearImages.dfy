/** What a compressed format shows in src/objects/texture.c: the decoded bytes, or,
    for an sRGB format, the floats its bytes stand for. */
module LinearImages {
  import opened Limits
  import opened StagingBlocks
  import opened Arithmetic
  import opened ContextState
  import opened ContextLedger
  import opened PackedColor
  import opened ColorConversion
  import opened TextureFormats
  import opened Grids
  import opened BlockDecoding
  import opened ImageDecoding

  /** The floats of the host for a table entry and for v / 255: their bits are
      roundings of reals, so they are parameters. */
  datatype Tones = Tones(linear: byte -> Bits, alpha: byte -> Bits)

  datatype Picture = Picture(codec: Codec, srgb: bool, tones: Tones)

  function PictureTexel(p: Picture): nat { if p.srgb then 4 * OutBytes(p.codec) else OutBytes(p.codec) }

  function PictureSize(p: Picture, w: nat, h: nat): nat { w * h * PictureTexel(p) }

  /** dxt_srgb_decode_image on one texel: colour through the table, alpha as it is. */
  function LinearTexel(tones: Tones, texel: seq<byte>): (r: seq<byte>)
    requires |texel| == 3 || |texel| == 4
    ensures |r| == 4 * |texel|
  {
    BytesOf(tones.linear(texel[0])) + BytesOf(tones.linear(texel[1])) + BytesOf(tones.linear(texel[2]))
    + if |texel| == 4 then BytesOf(tones.alpha(texel[3])) else []
  }

  lemma OutIsThreeOrFour(codec: Codec)
    ensures OutBytes(codec) == 3 || OutBytes(codec) == 4
  {
  }

  function PicturePixel(p: Picture, data: seq<byte>, w: nat, h: nat, x: nat, y: nat): (r: seq<byte>)
    requires Decodable(p.codec, data, w, h) && x < w && y < h
    ensures |r| == PictureTexel(p)
  {
    OutIsThreeOrFour(p.codec);
    var texel := OutPixel(p.codec, data, w, h, x, y);
    if p.srgb then LinearTexel(p.tones, texel) else texel
  }

  ghost predicate Pictured(p: Picture, data: seq<byte>, w: nat, h: nat, bytes: seq<byte>)
    requires Decodable(p.codec, data, w, h)
  {
    && |bytes| == PictureSize(p, w, h)
    && forall x: nat, y: nat :: x < w && y < h ==> Cell(bytes, PictureTexel(p), w, h, x, y) == PicturePixel(p, data, w, h, x, y)
  }

  // --------------------------------------------------------------- linearizing

  /** The first `count` texels are the linear ones of the encoded. */
  ghost predicate LinearUpTo(tones: Tones, n: nat, encoded: seq<byte>, floats: seq<byte>, count: nat)
    requires n == 3 || n == 4
  {
    forall q :: 0 <= q < count ==> LinearAt(tones, n, encoded, floats, q)
  }

  ghost predicate LinearAt(tones: Tones, n: nat, encoded: seq<byte>, floats: seq<byte>, q: nat)
    requires n == 3 || n == 4
  {
    && (q + 1) * n <= |encoded| && (q + 1) * (4 * n) <= |floats|
    && Piece(floats, 4 * n, q) == LinearTexel(tones, Piece(encoded, n, q))
  }

  /** The loop of dxt_srgb_decode_image. */
  method LinearizeTexels(tones: Tones, n: nat, count: nat, encoded: array<byte>, floats: array<byte>)
    requires (n == 3 || n == 4) && encoded.Length == count * n && floats.Length == count * (4 * n) && encoded != floats
    modifies floats
    ensures LinearUpTo(tones, n, encoded[..], floats[..], count)
  {
    hide LinearTexel;
    var pixel := 0;
    while pixel < count
      invariant 0 <= pixel <= count
      invariant LinearUpTo(tones, n, encoded[..], floats[..], pixel)
    {
      MulMonotone(pixel + 1, count, n);
      MulMonotone(pixel + 1, count, 4 * n);
      PieceFits(n, pixel);
      PieceFits(4 * n, pixel);
      ghost var before := floats[..];
      LinearizeTexel(tones, n, encoded, pixel * n, floats, pixel * (4 * n));
      assert Piece(floats[..], 4 * n, pixel) == floats[pixel * (4 * n)..pixel * (4 * n) + 4 * n];
      assert Piece(encoded[..], n, pixel) == encoded[pixel * n..pixel * n + n];
      OneMoreLinear(tones, n, encoded[..], before, floats[..], pixel);
      pixel := pixel + 1;
    }
  }

  lemma OneMoreLinear(tones: Tones, n: nat, encoded: seq<byte>, before: seq<byte>, after: seq<byte>, pixel: nat)
    requires (n == 3 || n == 4) && LinearUpTo(tones, n, encoded, before, pixel) && LinearAt(tones, n, encoded, after, pixel)
    requires |after| == |before| && 0 <= pixel * (4 * n)
    requires forall k :: 0 <= k < |after| && !(pixel * (4 * n) <= k < pixel * (4 * n) + 4 * n) ==> after[k] == before[k]
    ensures LinearUpTo(tones, n, encoded, after, pixel + 1)
  {
    hide LinearTexel;
    forall q | 0 <= q < pixel
      ensures LinearAt(tones, n, encoded, after, q)
    {
      assert LinearAt(tones, n, encoded, before, q);
      MulMonotone(q + 1, pixel, 4 * n);
      PieceFits(4 * n, q);
      assert Piece(after, 4 * n, q) == Piece(before, 4 * n, q);
    }
  }

  method LinearizeTexel(tones: Tones, n: nat, encoded: array<byte>, from: nat, floats: array<byte>, to: nat)
    requires (n == 3 || n == 4) && from + n <= encoded.Length && to + 4 * n <= floats.Length && encoded != floats
    modifies floats
    ensures floats[to..to + 4 * n] == LinearTexel(tones, encoded[from..from + n])
    ensures forall k :: 0 <= k < floats.Length && !(to <= k < to + 4 * n) ==> floats[k] == old(floats[k])
  {
    hide BytesOf;
    ghost var texel := encoded[from..from + n];
    assert forall c :: 0 <= c < n ==> texel[c] == encoded[from + c];
    StoreBits(floats, to, tones.linear(encoded[from]));
    StoreBits(floats, to + 4, tones.linear(encoded[from + 1]));
    StoreBits(floats, to + 8, tones.linear(encoded[from + 2]));
    if n == 4 {
      StoreBits(floats, to + 12, tones.alpha(encoded[from + 3]));
    }
    assert floats[to..to + 4] == BytesOf(tones.linear(texel[0]));
    assert floats[to + 4..to + 8] == BytesOf(tones.linear(texel[1]));
    assert floats[to + 8..to + 12] == BytesOf(tones.linear(texel[2]));
    ChannelsJoin(floats[..], to, n);
    assert floats[..][to..to + 4] == floats[to..to + 4] && floats[..][to + 4..to + 8] == floats[to + 4..to + 8];
    assert floats[..][to + 8..to + 12] == floats[to + 8..to + 12] && floats[..][to + 12..to + 4 * n] == floats[to + 12..to + 4 * n];
  }

  lemma ChannelsJoin(bytes: seq<byte>, at: nat, n: nat)
    requires (n == 3 || n == 4) && at + 4 * n <= |bytes|
    ensures bytes[at..at + 4 * n] == bytes[at..at + 4] + bytes[at + 4..at + 8] + bytes[at + 8..at + 12] + bytes[at + 12..at + 4 * n]
  {
  }

  /** The linear image of a decoded one. */
  lemma LinearizedIsPictured(p: Picture, data: seq<byte>, w: nat, h: nat, encoded: seq<byte>, floats: seq<byte>)
    requires p.srgb && Decodable(p.codec, data, w, h) && Decoded(p.codec, data, w, h, encoded)
    requires |floats| == w * h * (4 * OutBytes(p.codec))
    requires (OutBytes(p.codec) == 3 || OutBytes(p.codec) == 4) && LinearUpTo(p.tones, OutBytes(p.codec), encoded, floats, w * h)
    ensures Pictured(p, data, w, h, floats)
  {
    hide Decodable, OutPixel;
    var n := OutBytes(p.codec);
    forall x: nat, y: nat | x < w && y < h
      ensures Cell(floats, 4 * n, w, h, x, y) == PicturePixel(p, data, w, h, x, y)
    {
      CellFits(w, h, 1, x, y);
      assert LinearAt(p.tones, n, encoded, floats, y * w + x);
      assert Cell(encoded, n, w, h, x, y) == OutPixel(p.codec, data, w, h, x, y);
    }
  }

  /** dxt_srgb_decode_image: the encoded image is given back, the floats are charged. */
  method Linearize(ctx: Context, p: Picture, w: nat, h: nat, data: seq<byte>, encoded: array<byte>, sizeMax: nat)
    returns (ok: bool, floats: array?<byte>)
    requires LedgerValid(ctx) && p.srgb && 0 < w && 0 < h && Decodable(p.codec, data, w, h) && Decoded(p.codec, data, w, h, encoded[..])
    requires OutputSize(p.codec, w, h) <= Untracked(ctx)
    modifies ctx`active, ctx`cached, ctx`blocks, ctx.process
    ensures LedgerValid(ctx) && Others(ctx) == old(Others(ctx))
    ensures Untracked(ctx) == old(Untracked(ctx)) - OutputSize(p.codec, w, h) + if ok then PictureSize(p, w, h) else 0
    ensures ok ==> floats != null && fresh(floats) && Pictured(p, data, w, h, floats[..])
  {
    hide Decodable, OutPixel, Decoded, Pictured;
    OutIsThreeOrFour(p.codec);
    ok, floats := false, null;
    var n := OutBytes(p.codec);
    var size := w * h * (4 * n);
    var memory := 0;
    if size <= sizeMax {
      memory := AllocTemporary(ctx, size);
    }
    if memory != 0 {
      DecodedLength(p.codec, data, w, h, encoded[..]);
      floats := new byte[size];
      LinearizeTexels(p.tones, n, w * h, encoded, floats);
      LinearizedIsPictured(p, data, w, h, encoded[..], floats[..]);
      ok := true;
    }
    ReleaseShadowBytes(ctx, OutputSize(p.codec, w, h));
  }

  lemma DecodedLength(codec: Codec, data: seq<byte>, w: nat, h: nat, bytes: seq<byte>)
    requires Decodable(codec, data, w, h) && Decoded(codec, data, w, h, bytes)
    ensures |bytes| == w * h * OutBytes(codec)
  {
  }

  /** The decoding of a compressed upload: the picture, charged, or nothing charged
      and the reason. */
  method DecodePicture(ctx: Context, p: Picture, w: nat, h: nat, data: seq<byte>, isNull: bool, sizeMax: nat)
    returns (result: int, decoded: array?<byte>)
    requires LedgerValid(ctx)
    modifies ctx`active, ctx`cached, ctx`blocks, ctx.process
    ensures LedgerValid(ctx) && Others(ctx) == old(Others(ctx))
    ensures result == 0 || result == -1 || result == -2
    ensures Untracked(ctx) == old(Untracked(ctx)) + if result == 0 then PictureSize(p, w, h) else 0
    ensures result == 0 ==> Acceptable(p.codec, data, isNull, w, h)
    ensures result == -1 ==> !Acceptable(p.codec, data, isNull, w, h)
    ensures result == 0 ==> (decoded == null <==> w == 0 || h == 0)
    ensures result == 0 && decoded != null ==> fresh(decoded) && Pictured(p, data, w, h, decoded[..])
  {
    hide Decodable, Acceptable, OutPixel, Decoded, Pictured, LedgerValid, Others, Untracked;
    ChargeCovers(ctx);
    result, decoded := DecodeImage(ctx, p.codec, w, h, data, isNull);
    if result != 0 {
      return;
    }
    AcceptedDecodes(p.codec, data, isNull, w, h);
    NoTexels(p, w, h);
    if decoded == null {
      return;
    }
    if !p.srgb {
      DecodedIsPictured(p, data, w, h, decoded[..]);
      return;
    }
    var ok, floats := Linearize(ctx, p, w, h, data, decoded, sizeMax);
    if !ok {
      return -2, null;
    }
    decoded := floats;
  }

  lemma ChargeCovers(ctx: Context)
    requires LedgerValid(ctx)
    ensures 0 <= Untracked(ctx)
  {
  }

  lemma AcceptedDecodes(codec: Codec, data: seq<byte>, isNull: bool, w: nat, h: nat)
    requires Acceptable(codec, data, isNull, w, h)
    ensures Decodable(codec, data, w, h)
  {
  }

  lemma NoTexels(p: Picture, w: nat, h: nat)
    ensures w == 0 || h == 0 ==> PictureSize(p, w, h) == OutputSize(p.codec, w, h) == 0
    ensures !p.srgb ==> PictureSize(p, w, h) == OutputSize(p.codec, w, h)
  {
  }

  lemma DecodedIsPictured(p: Picture, data: seq<byte>, w: nat, h: nat, bytes: seq<byte>)
    requires !p.srgb && Decodable(p.codec, data, w, h) && Decoded(p.codec, data, w, h, bytes)
    ensures Pictured(p, data, w, h, bytes)
  {
  }
}
