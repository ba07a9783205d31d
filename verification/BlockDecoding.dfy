/** ETC1 and DXT block decoding in src/objects/texture.c
    (OES_compressed_ETC1_RGB8_texture, EXT_texture_compression_s3tc), for images
    of any size. RGB DXT1 follows the code, which never uses the three-colour
    palette for it. */
module BlockDecoding {
  import opened Limits
  import opened Arithmetic
  import opened ContextState
  import opened Grids

  /** `n` bits of a word from bit `shift` on. */
  function Bits(word: nat, shift: nat, n: nat): nat { word / Pow2(shift) % Pow2(n) }

  // ------------------------------------------------------------------- ETC1

  function BigEndian(block: seq<byte>, at: nat): nat
    requires at + 4 <= |block|
  {
    var a: nat, b: nat, c: nat, d: nat := block[at], block[at + 1], block[at + 2], block[at + 3];
    ((a * 256 + b) * 256 + c) * 256 + d
  }

  function SignExtend3(v: nat): int { if v / 4 % 2 == 1 then v as int - 8 else v as int }

  function Expand4(v: nat): nat { v * 16 + v }

  /** The shifted value and its top bits. */
  function Expand5(v: nat): nat { v * 8 + v / 4 }

  function Expand6(v: nat): nat { v * 4 + v / 16 }

  function ClampComponent(v: int): byte {
    if v < 0 then 0 else if v > 255 then 255 else v
  }

  const MODIFIERS: seq<seq<int>> := [
    [2, 8, -2, -8], [5, 17, -5, -17], [9, 29, -9, -29], [13, 42, -13, -42],
    [18, 60, -18, -60], [24, 80, -24, -80], [33, 106, -33, -106], [47, 183, -47, -183]]

  predicate Differential(high: nat) { Bits(high, 1, 1) == 1 }

  /** A component of the second base colour of a differential block: red, green
      and blue start at bits 27, 19 and 11, their differences three bits lower. */
  function Second5(high: nat, shift: nat): int
    requires 3 <= shift
  {
    Bits(high, shift, 5) + SignExtend3(Bits(high, shift - 3, 3))
  }

  /** Blocks the decoder accepts. */
  predicate EtcOk(block: seq<byte>)
    requires |block| == 8
  {
    var high := BigEndian(block, 0);
    Differential(high) ==> 0 <= Second5(high, 27) <= 31 && 0 <= Second5(high, 19) <= 31 && 0 <= Second5(high, 11) <= 31
  }

  /** Component `c` of the base colour of a subblock. */
  function EtcBase(high: nat, subblock: nat, c: nat): nat
    requires subblock < 2 && c < 3
    requires Differential(high) ==> 0 <= Second5(high, 27 - 8 * c)
  {
    if Differential(high) then
      if subblock == 0 then Expand5(Bits(high, 27 - 8 * c, 5)) else Expand5(Second5(high, 27 - 8 * c))
    else Expand4(Bits(high, 28 - 8 * c - 4 * subblock, 4))
  }

  lemma BitsBelow(word: nat, shift: nat, n: nat)
    ensures 0 <= Bits(word, shift, n) < Pow2(n)
  {
    DivMod(word, Pow2(shift));
    DivMod(word / Pow2(shift), Pow2(n));
  }

  /** The half of the block a texel lies in: top or bottom when flipped, else left or right. */
  function EtcSubblock(high: nat, x: nat, y: nat): (s: nat)
    ensures s < 2
  {
    if Bits(high, 0, 1) == 1 then (if y >= 2 then 1 else 0) else (if x >= 2 then 1 else 0)
  }

  /** The selector plane is column-major: texel (x, y) is bit 4x + y of each half. */
  function EtcModifier(high: nat, low: nat, x: nat, y: nat): int
    requires x < 4 && y < 4
  {
    var shift := if EtcSubblock(high, x, y) == 0 then 5 else 2;
    var table := Bits(high, shift, 3);
    var selector := Bits(low, 4 * x + y, 1) + 2 * Bits(low, 4 * x + y + 16, 1);
    BitsBelow(high, shift, 3);
    BitsBelow(low, 4 * x + y, 1);
    BitsBelow(low, 4 * x + y + 16, 1);
    assert Pow2(1) == 2 && Pow2(3) == 8;
    MODIFIERS[table][selector]
  }

  /** The RGB texel at (x, y) of a block. */
  function EtcTexel(block: seq<byte>, x: nat, y: nat): (r: seq<byte>)
    requires |block| == 8 && EtcOk(block) && x < 4 && y < 4
    ensures |r| == 3
  {
    var high, low := BigEndian(block, 0), BigEndian(block, 4);
    var s, m := EtcSubblock(high, x, y), EtcModifier(high, low, x, y);
    [ClampComponent(EtcBase(high, s, 0) + m), ClampComponent(EtcBase(high, s, 1) + m), ClampComponent(EtcBase(high, s, 2) + m)]
  }

  // -------------------------------------------------------------------- DXT

  /** Which colour and alpha layout a format has; the sRGB formats share them. */
  datatype Dxt = Dxt1Rgb | Dxt1Rgba | Dxt3 | Dxt5

  function WordAt(block: seq<byte>, at: nat): nat
    requires at + 2 <= |block|
  {
    WordOf(block[at], block[at + 1])
  }

  function BlockBytes(f: Dxt): nat { if f == Dxt1Rgb || f == Dxt1Rgba then 8 else 16 }

  /** Component `c` of an endpoint colour. */
  function Endpoint(color: nat, c: nat): nat
    requires c < 3
  {
    if c == 0 then Expand5(Bits(color, 11, 5)) else if c == 1 then Expand6(Bits(color, 5, 6)) else Expand5(Bits(color, 0, 5))
  }

  /** The palette has four opaque colours, or three and a transparent black. */
  predicate FourColours(f: Dxt, color0: nat, color1: nat) { color0 > color1 || f != Dxt1Rgba }

  /** Component `c` of palette entry `k`. */
  function PaletteEntry(f: Dxt, color0: nat, color1: nat, k: nat, c: nat): nat
    requires k < 4 && c < 3
  {
    var a, b := Endpoint(color0, c), Endpoint(color1, c);
    if k == 0 then a else if k == 1 then b
    else if FourColours(f, color0, color1) then (if k == 2 then (2 * a + b) / 3 else (a + 2 * b) / 3)
    else if k == 2 then (a + b) / 2 else 0
  }

  /** The eight alpha values of a DXT5 block. */
  function AlphaEntry(a0: nat, a1: nat, k: nat): nat
    requires k < 8
  {
    if k == 0 then a0 else if k == 1 then a1
    else if a0 > a1 then ((8 - k) * a0 + (k - 1) * a1) / 7
    else if k < 6 then ((6 - k) * a0 + (k - 1) * a1) / 5
    else if k == 6 then 0 else 255
  }

  function AlphaBits(block: seq<byte>, n: nat): nat
    requires n <= 6 && |block| == 16
  {
    if n == 0 then 0
    else
      var b: nat := block[1 + n];
      AlphaBits(block, n - 1) + b * Pow2(8 * (n - 1))
  }

  /** The alpha of texel `p` in row-major order. */
  function DxtAlpha(f: Dxt, block: seq<byte>, p: nat): nat
    requires |block| == BlockBytes(f) && p < 16
  {
    match f
    case Dxt3 => Bits(WordAt(block, 2 * (p / 4)), 4 * (p % 4), 4) * 17
    case Dxt5 =>
      BitsBelow(AlphaBits(block, 6), 3 * p, 3);
      assert Pow2(3) == 8;
      AlphaEntry(block[0], block[1], Bits(AlphaBits(block, 6), 3 * p, 3))
    case _ => 255
  }

  /** The RGBA texel at (x, y) of a block. */
  function DxtTexel(f: Dxt, block: seq<byte>, x: nat, y: nat): (r: seq<byte>)
    requires |block| == BlockBytes(f) && x < 4 && y < 4
    ensures |r| == 4
  {
    var at := if f == Dxt3 || f == Dxt5 then 8 else 0;
    var color0, color1 := WordAt(block, at), WordAt(block, at + 2);
    var p := 4 * y + x;
    var selectors := WordAt(block, at + 4) + 0x1_0000 * WordAt(block, at + 6);
    var k := Selector(selectors, p);
    PaletteFits(f, color0, color1, k, 0);
    PaletteFits(f, color0, color1, k, 1);
    PaletteFits(f, color0, color1, k, 2);
    AlphaFits(f, block, p);
    [PaletteEntry(f, color0, color1, k, 0), PaletteEntry(f, color0, color1, k, 1), PaletteEntry(f, color0, color1, k, 2),
     if f == Dxt1Rgba && k == 3 && !FourColours(f, color0, color1) then 0 else DxtAlpha(f, block, p)]
  }

  function Selector(selectors: nat, p: nat): (k: nat)
    ensures k < 4
  {
    BitsBelow(selectors, 2 * p, 2);
    assert Pow2(2) == 4;
    Bits(selectors, 2 * p, 2)
  }

  lemma EndpointFits(color: nat, c: nat)
    requires c < 3
    ensures Endpoint(color, c) <= 255
  {
    assert Pow2(5) == 32;
    assert Pow2(6) == 64;
    BitsBelow(color, if c == 0 then 11 else if c == 1 then 5 else 0, if c == 1 then 6 else 5);
  }

  /** A palette entry that is not the transparent black lies between the endpoints. */
  lemma PaletteBetween(f: Dxt, color0: nat, color1: nat, k: nat, c: nat)
    requires k < 4 && c < 3 && (k == 3 ==> FourColours(f, color0, color1))
    ensures var a, b, v := Endpoint(color0, c), Endpoint(color1, c), PaletteEntry(f, color0, color1, k, c);
            (a <= v <= b) || (b <= v <= a)
  {
    hide Endpoint;
  }

  lemma PaletteFits(f: Dxt, color0: nat, color1: nat, k: nat, c: nat)
    requires k < 4 && c < 3
    ensures PaletteEntry(f, color0, color1, k, c) <= 255
  {
    hide Endpoint;
    EndpointFits(color0, c);
    EndpointFits(color1, c);
  }

  lemma AlphaEntryFits(a0: nat, a1: nat, k: nat)
    requires k < 8 && a0 <= 255 && a1 <= 255
    ensures 0 <= AlphaEntry(a0, a1, k) <= 255
  {
    if 1 < k {
      if a0 > a1 {
        MulMonotone(a0, 255, 8 - k);
        MulMonotone(a1, 255, k - 1);
      } else if k < 6 {
        MulMonotone(a0, 255, 6 - k);
        MulMonotone(a1, 255, k - 1);
      }
    }
  }

  lemma AlphaFits(f: Dxt, block: seq<byte>, p: nat)
    requires |block| == BlockBytes(f) && p < 16
    ensures 0 <= DxtAlpha(f, block, p) <= 255
  {
    match f {
      case Dxt3 =>
        BitsBelow(WordAt(block, 2 * (p / 4)), 4 * (p % 4), 4);
        assert Pow2(4) == 16;
      case Dxt5 =>
        hide AlphaEntry;
        BitsBelow(AlphaBits(block, 6), 3 * p, 3);
        assert Pow2(3) == 8;
        AlphaEntryFits(block[0], block[1], Bits(AlphaBits(block, 6), 3 * p, 3));
      case _ =>
    }
  }

  // ------------------------------------------------------------- one block

  datatype Codec = Etc1 | S3tc(f: Dxt)

  function CodecBytes(codec: Codec): (n: nat)
    ensures n == 8 || n == 16
  {
    if codec.Etc1? then 8 else BlockBytes(codec.f)
  }

  /** Bytes of a texel as the block loops write it. */
  function RawBytes(codec: Codec): nat { if codec.Etc1? then 3 else 4 }

  predicate BlockOk(codec: Codec, block: seq<byte>)
    requires |block| == CodecBytes(codec)
  {
    codec.Etc1? ==> EtcOk(block)
  }

  function BlockTexel(codec: Codec, block: seq<byte>, x: nat, y: nat): (r: seq<byte>)
    requires |block| == CodecBytes(codec) && BlockOk(codec, block) && x < 4 && y < 4
    ensures |r| == RawBytes(codec)
  {
    if codec.Etc1? then EtcTexel(block, x, y) else DxtTexel(codec.f, block, x, y)
  }

  /** How often each pixel has been written. */
  type Writes = (nat, nat) -> nat

  predicate InBlock(ox: nat, oy: nat, x: nat, y: nat) { ox <= x < ox + 4 && oy <= y < oy + 4 }

  /** The pixels of a block that come before its texel (i, j). */
  predicate Before(ox: nat, oy: nat, i: nat, j: nat, x: nat, y: nat) {
    InBlock(ox, oy, x, y) && (y < oy + j || (y == oy + j && x < ox + i))
  }

  /** The pixels before texel (i, j) hold the block's texels and have been written
      once more; all others are as they were. */
  ghost predicate BlockProgress(codec: Codec, block: seq<byte>, w: nat, h: nat, ox: nat, oy: nat, i: nat, j: nat,
                                before: seq<byte>, after: seq<byte>, writes: Writes, writes': Writes)
    requires |block| == CodecBytes(codec) && BlockOk(codec, block)
    requires |before| == |after| == w * h * RawBytes(codec)
  {
    forall x: nat, y: nat :: x < w && y < h ==>
      && writes'(x, y) == writes(x, y) + (if Before(ox, oy, i, j, x, y) then 1 else 0)
      && Cell(after, RawBytes(codec), w, h, x, y)
           == if Before(ox, oy, i, j, x, y) then BlockTexel(codec, block, x - ox, y - oy)
              else Cell(before, RawBytes(codec), w, h, x, y)
  }

  /** The loops of etc1_decode_block and dxt_decode_block: texels outside the image
      are skipped, every other pixel of the block is written once. */
  method DecodeBlock(codec: Codec, block: seq<byte>, dst: array<byte>, w: nat, h: nat, ox: nat, oy: nat, ghost writes: Writes)
    returns (ghost writes': Writes)
    requires |block| == CodecBytes(codec) && BlockOk(codec, block) && dst.Length == w * h * RawBytes(codec)
    modifies dst
    ensures BlockProgress(codec, block, w, h, ox, oy, 0, 4, old(dst[..]), dst[..], writes, writes')
  {
    hide BlockTexel, Cell, RawBytes, BlockOk, CodecBytes;
    ghost var was := dst[..];
    writes' := writes;
    var y := 0;
    while y < 4
      invariant 0 <= y <= 4
      invariant BlockProgress(codec, block, w, h, ox, oy, 0, y, was, dst[..], writes, writes')
    {
      var x := 0;
      while x < 4
        invariant 0 <= x <= 4
        invariant BlockProgress(codec, block, w, h, ox, oy, x, y, was, dst[..], writes, writes')
      {
        if ox + x < w && oy + y < h {
          WriteCell(dst, RawBytes(codec), w, h, ox + x, oy + y, BlockTexel(codec, block, x, y));
          ghost var px, py, so := ox + x, oy + y, writes';
          writes' := (a: nat, b: nat) => so(a, b) + if a == px && b == py then 1 else 0;
        }
        x := x + 1;
      }
      y := y + 1;
    }
  }

  // -------------------------------------------------------------- an image

  function Across(d: nat): nat { (d + 3) / 4 }

  /** The bytes an image of a format takes: whole blocks. */
  function RequiredBytes(codec: Codec, w: nat, h: nat): nat {
    if w == 0 || h == 0 then 0 else Across(w) * Across(h) * CodecBytes(codec)
  }

  lemma BlockFits(codec: Codec, w: nat, h: nat, i: nat, j: nat)
    requires i < Across(w) && j < Across(h)
    ensures 0 <= j * Across(w) + i < Across(w) * Across(h)
    ensures (j * Across(w) + i + 1) * CodecBytes(codec) <= RequiredBytes(codec, w, h)
  {
    CellFits(Across(w), Across(h), CodecBytes(codec), i, j);
    MulMonotone(j + 1, Across(h), Across(w));
  }

  /** Block (i, j) of the data, row by row. */
  function BlockAt(codec: Codec, data: seq<byte>, w: nat, h: nat, i: nat, j: nat): (r: seq<byte>)
    requires |data| == RequiredBytes(codec, w, h) && i < Across(w) && j < Across(h)
    ensures |r| == CodecBytes(codec)
  {
    BlockFits(codec, w, h, i, j);
    Piece(data, CodecBytes(codec), j * Across(w) + i)
  }

  ghost predicate Decodable(codec: Codec, data: seq<byte>, w: nat, h: nat) {
    && |data| == RequiredBytes(codec, w, h)
    && forall i: nat, j: nat :: i < Across(w) && j < Across(h) ==> BlockOk(codec, BlockAt(codec, data, w, h, i, j))
  }

  lemma PixelInBlock(w: nat, x: nat)
    requires x < w
    ensures 0 <= x / 4 < Across(w) && 0 <= x % 4 < 4
  {
  }

  /** The pixel at (x, y): a function of its own block and its place in it. */
  function Pixel(codec: Codec, data: seq<byte>, w: nat, h: nat, x: nat, y: nat): (r: seq<byte>)
    requires Decodable(codec, data, w, h) && x < w && y < h
    ensures |r| == RawBytes(codec)
  {
    PixelInBlock(w, x);
    PixelInBlock(h, y);
    BlockTexel(codec, BlockAt(codec, data, w, h, x / 4, y / 4), x % 4, y % 4)
  }

  /** Blocks before (i, j) in row order. */
  predicate Earlier(i: nat, j: nat, x: nat, y: nat) { y / 4 < j || (y / 4 == j && x / 4 < i) }

  ghost predicate ImageProgress(codec: Codec, data: seq<byte>, w: nat, h: nat, i: nat, j: nat, bytes: seq<byte>, writes: Writes)
    requires |data| == RequiredBytes(codec, w, h) && |bytes| == w * h * RawBytes(codec)
  {
    forall x: nat, y: nat :: x < w && y < h ==> PixelProgress(codec, data, w, h, i, j, bytes, writes, x, y)
  }

  ghost predicate PixelProgress(codec: Codec, data: seq<byte>, w: nat, h: nat, i: nat, j: nat, bytes: seq<byte>, writes: Writes, x: nat, y: nat)
    requires |data| == RequiredBytes(codec, w, h) && |bytes| == w * h * RawBytes(codec) && x < w && y < h
  {
    PixelInBlock(w, x);
    PixelInBlock(h, y);
    if Earlier(i, j, x, y) then
      && writes(x, y) == 1
      && var block := BlockAt(codec, data, w, h, x / 4, y / 4);
         BlockOk(codec, block) && Cell(bytes, RawBytes(codec), w, h, x, y) == BlockTexel(codec, block, x % 4, y % 4)
    else writes(x, y) == 0
  }

  lemma BlockDone(codec: Codec, data: seq<byte>, w: nat, h: nat, i: nat, j: nat, before: seq<byte>, after: seq<byte>,
                  writes: Writes, writes': Writes)
    requires |data| == RequiredBytes(codec, w, h) && |before| == |after| == w * h * RawBytes(codec)
    requires i < Across(w) && j < Across(h) && BlockOk(codec, BlockAt(codec, data, w, h, i, j))
    requires ImageProgress(codec, data, w, h, i, j, before, writes)
    requires BlockProgress(codec, BlockAt(codec, data, w, h, i, j), w, h, 4 * i, 4 * j, 0, 4, before, after, writes, writes')
    ensures ImageProgress(codec, data, w, h, i + 1, j, after, writes')
  {
    hide BlockAt, BlockTexel, Cell, RawBytes, BlockOk, CodecBytes, RequiredBytes;
    var next := i + 1;
    forall x: nat, y: nat | x < w && y < h
      ensures PixelProgress(codec, data, w, h, next, j, after, writes', x, y)
    {
      assert PixelProgress(codec, data, w, h, i, j, before, writes, x, y);
      assert Before(4 * i, 4 * j, 0, 4, x, y) <==> x / 4 == i && y / 4 == j;
    }
  }

  /** The block loops of etc1_decode_image and dxt_decode_image. They succeed
      exactly when every block is well formed, and then have written every pixel
      of the image exactly once. */
  method DecodeBlocks(codec: Codec, data: seq<byte>, w: nat, h: nat, dst: array<byte>) returns (ok: bool, ghost writes: Writes)
    requires |data| == RequiredBytes(codec, w, h) && 0 < w && 0 < h && dst.Length == w * h * RawBytes(codec)
    modifies dst
    ensures ok <==> Decodable(codec, data, w, h)
    ensures ok ==> forall x: nat, y: nat :: x < w && y < h ==>
              writes(x, y) == 1 && Cell(dst[..], RawBytes(codec), w, h, x, y) == Pixel(codec, data, w, h, x, y)
  {
    hide BlockAt, BlockTexel, Cell, RawBytes, BlockOk, CodecBytes, RequiredBytes, BlockProgress, PixelProgress, Across;
    writes := (x: nat, y: nat) => 0;
    NothingYet(codec, data, w, h, dst[..], writes);
    var j := 0;
    while j < Across(h)
      invariant 0 <= j <= Across(h)
      invariant ImageProgress(codec, data, w, h, 0, j, dst[..], writes)
      invariant forall i: nat, y: nat :: i < Across(w) && y < j ==> BlockOk(codec, BlockAt(codec, data, w, h, i, y))
    {
      var i := 0;
      while i < Across(w)
        invariant 0 <= i <= Across(w)
        invariant ImageProgress(codec, data, w, h, i, j, dst[..], writes)
        invariant forall b: nat, y: nat :: b < Across(w) && y < j ==> BlockOk(codec, BlockAt(codec, data, w, h, b, y))
        invariant forall b: nat :: b < i ==> BlockOk(codec, BlockAt(codec, data, w, h, b, j))
      {
        var block := BlockAt(codec, data, w, h, i, j);
        if !BlockOk(codec, block) {
          return false, writes;
        }
        ghost var before, so := dst[..], writes;
        writes := DecodeBlock(codec, block, dst, w, h, 4 * i, 4 * j, writes);
        BlockDone(codec, data, w, h, i, j, before, dst[..], so, writes);
        i := i + 1;
      }
      NextRow(codec, data, w, h, j, dst[..], writes);
      j := j + 1;
    }
    AllDone(codec, data, w, h, dst[..], writes);
    ok := true;
  }

  lemma NothingYet(codec: Codec, data: seq<byte>, w: nat, h: nat, bytes: seq<byte>, writes: Writes)
    requires |data| == RequiredBytes(codec, w, h) && |bytes| == w * h * RawBytes(codec)
    requires forall x: nat, y: nat :: writes(x, y) == 0
    ensures ImageProgress(codec, data, w, h, 0, 0, bytes, writes)
  {
    hide BlockAt, BlockTexel, Cell, RawBytes, BlockOk, CodecBytes, RequiredBytes;
  }

  lemma NextRow(codec: Codec, data: seq<byte>, w: nat, h: nat, j: nat, bytes: seq<byte>, writes: Writes)
    requires |data| == RequiredBytes(codec, w, h) && |bytes| == w * h * RawBytes(codec)
    requires ImageProgress(codec, data, w, h, Across(w), j, bytes, writes)
    ensures ImageProgress(codec, data, w, h, 0, j + 1, bytes, writes)
  {
    hide BlockAt, BlockTexel, Cell, RawBytes, BlockOk, CodecBytes, RequiredBytes;
    var next := j + 1;
    forall x: nat, y: nat | x < w && y < h
      ensures PixelProgress(codec, data, w, h, 0, next, bytes, writes, x, y)
    {
      PixelInBlock(w, x);
      assert PixelProgress(codec, data, w, h, Across(w), j, bytes, writes, x, y);
    }
  }

  lemma AllDone(codec: Codec, data: seq<byte>, w: nat, h: nat, bytes: seq<byte>, writes: Writes)
    requires |bytes| == w * h * RawBytes(codec) && Decodable(codec, data, w, h)
    requires ImageProgress(codec, data, w, h, 0, Across(h), bytes, writes)
    ensures forall x: nat, y: nat :: x < w && y < h ==>
              writes(x, y) == 1 && Cell(bytes, RawBytes(codec), w, h, x, y) == Pixel(codec, data, w, h, x, y)
  {
    hide BlockAt, BlockTexel, Cell, RawBytes, BlockOk, CodecBytes, RequiredBytes;
    forall x: nat, y: nat | x < w && y < h
      ensures writes(x, y) == 1 && Cell(bytes, RawBytes(codec), w, h, x, y) == Pixel(codec, data, w, h, x, y)
    {
      PixelInBlock(h, y);
      assert PixelProgress(codec, data, w, h, 0, Across(h), bytes, writes, x, y);
    }
  }

  // ------------------------------------------------------------ sub-rectangles

  /** An extent of a sub-rectangle the compressed sub-image call accepts along one
      axis: it starts on a block, and ends on one or with the image. */
  predicate BlockAligned(size: nat, start: nat, extent: nat) {
    start % 4 == 0 && start + extent <= size && (extent % 4 == 0 || start + extent == size)
  }

  /** `patched` is `whole` with the blocks of the rectangle replaced by `sub`'s. */
  ghost predicate BlocksReplaced(codec: Codec, whole: seq<byte>, patched: seq<byte>, sub: seq<byte>,
                                 w: nat, h: nat, x0: nat, y0: nat, sw: nat, sh: nat)
    requires |whole| == |patched| == RequiredBytes(codec, w, h) && |sub| == RequiredBytes(codec, sw, sh)
  {
    forall i: nat, j: nat :: i < Across(w) && j < Across(h) ==>
      BlockAt(codec, patched, w, h, i, j)
        == if x0 / 4 <= i < x0 / 4 + Across(sw) && y0 / 4 <= j < y0 / 4 + Across(sh)
           then BlockAt(codec, sub, sw, sh, i - x0 / 4, j - y0 / 4)
           else BlockAt(codec, whole, w, h, i, j)
  }

  /** Decoding a block-aligned sub-rectangle gives that rectangle of the decoded
      image with those blocks replaced; the rest of the image is unaffected. */
  lemma SubRectangle(codec: Codec, whole: seq<byte>, patched: seq<byte>, sub: seq<byte>,
                     w: nat, h: nat, x0: nat, y0: nat, sw: nat, sh: nat, x: nat, y: nat)
    requires Decodable(codec, whole, w, h) && Decodable(codec, sub, sw, sh) && |patched| == |whole|
    requires BlockAligned(w, x0, sw) && BlockAligned(h, y0, sh)
    requires BlocksReplaced(codec, whole, patched, sub, w, h, x0, y0, sw, sh)
    requires x < w && y < h
    ensures Decodable(codec, patched, w, h)
    ensures Pixel(codec, patched, w, h, x, y)
         == if x0 <= x < x0 + sw && y0 <= y < y0 + sh then Pixel(codec, sub, sw, sh, x - x0, y - y0)
            else Pixel(codec, whole, w, h, x, y)
  {
    hide BlockAt, BlockTexel, BlockOk, CodecBytes, RequiredBytes;
    forall i: nat, j: nat | i < Across(w) && j < Across(h)
      ensures BlockOk(codec, BlockAt(codec, patched, w, h, i, j))
    {
    }
    AxisBlocks(w, x0, sw, x);
    AxisBlocks(h, y0, sh, y);
    PixelInBlock(w, x);
    PixelInBlock(h, y);
  }

  /** Along one axis, a pixel lies in the rectangle exactly when its block does. */
  lemma AxisBlocks(size: nat, start: nat, extent: nat, x: nat)
    requires BlockAligned(size, start, extent) && x < size
    ensures start <= x < start + extent <==> start / 4 <= x / 4 < start / 4 + Across(extent)
    ensures start <= x ==> (x - start) / 4 == x / 4 - start / 4 && (x - start) % 4 == x % 4
  {
    assert start == 4 * (start / 4);
  }

  // ------------------------------------------------------------- whole images

  /** Bytes of a texel of the decoded image. */
  function OutBytes(codec: Codec): nat { if codec == S3tc(Dxt1Rgb) then 3 else RawBytes(codec) }

  function OutPixel(codec: Codec, data: seq<byte>, w: nat, h: nat, x: nat, y: nat): (r: seq<byte>)
    requires Decodable(codec, data, w, h) && x < w && y < h
    ensures |r| == OutBytes(codec)
  {
    Pixel(codec, data, w, h, x, y)[..OutBytes(codec)]
  }

  ghost predicate Decoded(codec: Codec, data: seq<byte>, w: nat, h: nat, bytes: seq<byte>)
    requires Decodable(codec, data, w, h)
  {
    && |bytes| == w * h * OutBytes(codec)
    && forall x: nat, y: nat :: x < w && y < h ==> Cell(bytes, OutBytes(codec), w, h, x, y) == OutPixel(codec, data, w, h, x, y)
  }

  /** What the decoders take: the exact number of bytes, all blocks well formed. */
  ghost predicate Acceptable(codec: Codec, data: seq<byte>, isNull: bool, w: nat, h: nat) {
    && Decodable(codec, data, w, h) && RequiredBytes(codec, w, h) <= UINT64_MAX
    && (RequiredBytes(codec, w, h) != 0 ==> !isNull)
  }

  lemma StrippedCell(rgb: seq<byte>, source: seq<byte>, w: nat, h: nat, x: nat, y: nat)
    requires |rgb| == w * h * 3 && |source| == w * h * 4 && x < w && y < h && y * w + x < w * h
    requires rgb[3 * (y * w + x)..3 * (y * w + x) + 3] == source[4 * (y * w + x)..4 * (y * w + x) + 3]
    ensures Cell(rgb, 3, w, h, x, y) == Cell(source, 4, w, h, x, y)[..3]
  {
    CellFits(w, h, 3, x, y);
    CellFits(w, h, 4, x, y);
    var p := y * w + x;
    assert Cell(rgb, 3, w, h, x, y) == rgb[3 * p..3 * p + 3];
    assert Cell(source, 4, w, h, x, y) == source[4 * p..4 * p + 4];
  }

  /** Texel `p` has been copied without its alpha. */
  ghost predicate StrippedAt(rgb: seq<byte>, source: seq<byte>, p: nat) {
    3 * p + 3 <= |rgb| && 4 * p + 4 <= |source| && rgb[3 * p..3 * p + 3] == source[4 * p..4 * p + 3]
  }

  ghost predicate StrippedUpTo(rgb: seq<byte>, source: seq<byte>, n: nat) {
    forall p :: 0 <= p < n ==> StrippedAt(rgb, source, p)
  }

  lemma OneMoreStripped(before: seq<byte>, after: seq<byte>, source: seq<byte>, n: nat)
    requires StrippedUpTo(before, source, n) && 3 * n + 3 <= |before| && 4 * n + 4 <= |source|
    requires after == before[3 * n := source[4 * n]][3 * n + 1 := source[4 * n + 1]][3 * n + 2 := source[4 * n + 2]]
    ensures StrippedUpTo(after, source, n + 1)
  {
    forall p | 0 <= p < n + 1
      ensures StrippedAt(after, source, p)
    {
      if p < n {
        assert StrippedAt(before, source, p);
        assert after[3 * p..3 * p + 3] == before[3 * p..3 * p + 3];
      } else {
        assert after[3 * n..3 * n + 3] == source[4 * n..4 * n + 3];
      }
    }
  }

  lemma NoneStripped(rgb: seq<byte>, source: seq<byte>)
    ensures StrippedUpTo(rgb, source, 0)
  {
  }

  lemma StrippedIsDecoded(codec: Codec, data: seq<byte>, w: nat, h: nat, source: seq<byte>, rgb: seq<byte>)
    requires codec == S3tc(Dxt1Rgb) && Decodable(codec, data, w, h) && |source| == w * h * 4 && |rgb| == w * h * 3
    requires forall x: nat, y: nat :: x < w && y < h ==> Cell(source, 4, w, h, x, y) == Pixel(codec, data, w, h, x, y)
    requires StrippedUpTo(rgb, source, w * h)
    ensures Decoded(codec, data, w, h, rgb)
  {
    hide Pixel, Decodable;
    forall x: nat, y: nat | x < w && y < h
      ensures Cell(rgb, 3, w, h, x, y) == OutPixel(codec, data, w, h, x, y)
    {
      CellFits(w, h, 1, x, y);
      assert StrippedAt(rgb, source, y * w + x);
      StrippedCell(rgb, source, w, h, x, y);
    }
  }

  /** The copy that drops the alpha of an RGB image. */
  method DropAlpha(codec: Codec, data: seq<byte>, w: nat, h: nat, decoded: array<byte>, rgb: array<byte>)
    requires codec == S3tc(Dxt1Rgb) && Decodable(codec, data, w, h) && decoded != rgb
    requires decoded.Length == w * h * 4 && rgb.Length == w * h * 3
    requires forall x: nat, y: nat :: x < w && y < h ==> Cell(decoded[..], 4, w, h, x, y) == Pixel(codec, data, w, h, x, y)
    modifies rgb
    ensures Decoded(codec, data, w, h, rgb[..])
  {
    hide Pixel, Decodable, Cell, StrippedUpTo, Decoded;
    NoneStripped(rgb[..], decoded[..]);
    var pixel := 0;
    while pixel < w * h
      invariant 0 <= pixel <= w * h
      invariant decoded[..] == old(decoded[..])
      invariant StrippedUpTo(rgb[..], decoded[..], pixel)
    {
      ghost var before := rgb[..];
      rgb[3 * pixel] := decoded[4 * pixel];
      rgb[3 * pixel + 1] := decoded[4 * pixel + 1];
      rgb[3 * pixel + 2] := decoded[4 * pixel + 2];
      OneMoreStripped(before, rgb[..], decoded[..], pixel);
      pixel := pixel + 1;
    }
    StrippedIsDecoded(codec, data, w, h, decoded[..], rgb[..]);
  }
}
