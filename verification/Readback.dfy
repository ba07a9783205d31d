/** glReadPixels: src/context/sync.c. Rows are staged, clipped, converted,
    spliced and published; the result is one pointwise function of the image. */
module Readback {
  import opened Limits
  import opened StagingBlocks
  import opened Arithmetic
  import opened Rows
  import opened Grids
  import opened ContextState
  import opened ContextLedger
  import opened StagingHolds
  import opened HalfFloat
  import opened PackedColor
  import opened ColorConversion
  import TextureFormats

  // ---------------------------------------------------------------- layout

  datatype Layout = Layout(tightRow: nat, packedRow: nat, tightTotal: nat, required: nat)

  /** Bytes of one pixel as the caller sees it. */
  function PixelBytes(pixelType: nat): (r: nat)
    ensures r == 4 || r == 16
  {
    if pixelType == FLOAT_TYPE then 16 else 4
  }

  predicate TypeOk(pixelType: nat) { pixelType == UNSIGNED_BYTE_TYPE || pixelType == FLOAT_TYPE }

  function TightRow(width: nat, pixelType: nat): nat { width * PixelBytes(pixelType) }

  /** The sizes of a request, in unbounded integers. */
  function LayoutOf(width: nat, height: nat, pixelType: nat, alignment: nat): Layout
    requires 0 < alignment
  {
    if width == 0 || height == 0 then Layout(0, 0, 0, 0)
    else
      var tight, packed := TightRow(width, pixelType), RoundUp(TightRow(width, pixelType), alignment);
      Layout(tight, packed, height * tight, (height - 1) * packed + tight)
  }

  /** Every size, and the sum that rounds a row up, is a 64-bit number. */
  predicate LayoutFits(width: nat, height: nat, pixelType: nat, alignment: nat)
    requires 0 < alignment
  {
    var l := LayoutOf(width, height, pixelType, alignment);
    width == 0 || height == 0
    || (l.tightRow + alignment - 1 <= UINT64_MAX && l.tightTotal <= UINT64_MAX && l.required <= UINT64_MAX)
  }

  /** The code's overflow checks, none of which overflows itself. */
  predicate PassesChecks(width: nat, height: nat, pixelType: nat, alignment: nat)
    requires 0 < width && 0 < height && 0 < alignment
  {
    var bytes := PixelBytes(pixelType);
    width <= UINT64_MAX / bytes
    && var tight := width * bytes;
       RoundUpIsLeast(tight, alignment);
       tight <= UINT64_MAX - (alignment - 1)
       && height <= UINT64_MAX / tight && height - 1 <= (UINT64_MAX - tight) / RoundUp(tight, alignment)
  }

  lemma ChecksAreExact(width: nat, height: nat, pixelType: nat, alignment: nat)
    requires 0 < width && 0 < height && 0 < alignment
    ensures PassesChecks(width, height, pixelType, alignment) <==> LayoutFits(width, height, pixelType, alignment)
  {
    hide RoundUp;
    var bytes := PixelBytes(pixelType);
    var tight := width * bytes;
    RoundUpIsLeast(tight, alignment);
    QuotientAtMost(width, UINT64_MAX, bytes);
    MulMonotone(1, height, tight);
    QuotientAtMost(height, UINT64_MAX, tight);
    if tight <= UINT64_MAX {
      QuotientAtMost(height - 1, UINT64_MAX - tight, RoundUp(tight, alignment));
    }
  }

  /** readback_layout: its overflow checks reject exactly the sizes that 64-bit
      arithmetic would wrap. */
  method ReadbackLayout(width: int, height: int, pixelType: nat, alignment: nat) returns (ok: bool, layout: Layout)
    ensures ok <==> 0 <= width && 0 <= height && TypeOk(pixelType) && AlignmentOk(alignment) && LayoutFits(width, height, pixelType, alignment)
    ensures ok ==> layout == LayoutOf(width, height, pixelType, alignment)
  {
    ok, layout := false, Layout(0, 0, 0, 0);
    if width < 0 || height < 0 || !TypeOk(pixelType) || !AlignmentOk(alignment) {
      return;
    }
    if width == 0 || height == 0 {
      return true, layout;
    }
    ChecksAreExact(width, height, pixelType, alignment);
    hide LayoutFits;
    var bytes := PixelBytes(pixelType);
    hide PixelBytes;
    if width > UINT64_MAX / bytes {
      return;
    }
    var tight := width * bytes;
    if tight > UINT64_MAX - (alignment - 1) {
      return;
    }
    var packed := RoundUp(tight, alignment);
    RoundUpIsLeast(tight, alignment);
    hide RoundUp;
    if height > UINT64_MAX / tight || height - 1 > (UINT64_MAX - tight) / packed {
      return;
    }
    return true, Layout(tight, packed, height * tight, (height - 1) * packed + tight);
  }

  // ------------------------------------------------------- one image region

  const COPY_SOURCE: nat := 1

  /** A resolved colour target: the image, and the state RinGPU has it in. */
  class ColorTarget {
    const surface: Surface
    var state: nat

    constructor (surface: Surface, state: nat)
      ensures this.surface == surface && this.state == state
    {
      this.surface := surface;
      this.state := state;
    }
  }

  /** The finish fence of a context. */
  class FinishFence {
    var value: nat

    constructor ()
      ensures value == 0
    {
      value := 0;
    }

    /** submit_and_wait: every submission waits for a value no earlier one used,
        and the counter never wraps. */
    method SubmitAndWait() returns (result: int)
      modifies this
      ensures result == 0 ==> value == old(value) + 1
      ensures old(value) <= value <= old(value) + 1
      ensures old(value) <= UINT64_MAX ==> value <= UINT64_MAX
    {
      if value >= UINT64_MAX {
        return -1;
      }
      value := value + 1;
      result := *;
    }
  }

  /** The native texel `p` of a region, row by row. */
  function RegionTexel(s: Surface, x: nat, y: nat, w: nat, h: nat, p: nat): (r: seq<byte>)
    requires SurfaceValid(s) && x + w <= s.width && y + h <= s.height && p < w * h
    ensures |r| == NativeBytes(s.format)
  {
    RegionRow(w, h, p);
    s.texels[y + p / w][x + p % w]
  }

  lemma RegionRow(w: nat, h: nat, p: nat)
    requires p < w * h
    ensures 0 < w && 0 <= p / w < h && 0 <= p % w < w
  {
    MulMonotone(w, 0, h);
    QuotientBelow(p, w, h);
    DivMod(p, w);
  }

  ghost predicate RegionIn(s: Surface, x: nat, y: nat, w: nat, h: nat) {
    SurfaceValid(s) && x + w <= s.width && y + h <= s.height
  }

  /** The bytes are the region's native texels. */
  ghost predicate Native(s: Surface, x: nat, y: nat, w: nat, h: nat, bytes: seq<byte>) {
    && RegionIn(s, x, y, w, h)
    && w * h * NativeBytes(s.format) <= |bytes|
    && forall p :: 0 <= p < w * h ==>
         (p + 1) * NativeBytes(s.format) <= |bytes| && Piece(bytes, NativeBytes(s.format), p) == RegionTexel(s, x, y, w, h, p)
  }

  /** The RinGPU readback: it fills a tight buffer, or fails with anything in it. */
  method ReadbackImage(s: Surface, x: nat, y: nat, w: nat, h: nat, dst: array<byte>) returns (result: int)
    requires RegionIn(s, x, y, w, h) && w * h * NativeBytes(s.format) <= dst.Length
    modifies dst
    ensures result == 0 ==> Native(s, x, y, w, h, dst[..])
    ensures forall k :: w * h * NativeBytes(s.format) <= k < dst.Length ==> dst[k] == old(dst[k])
  {
    var n := NativeBytes(s.format);
    result := *;
    var junk: seq<byte> := *;
    var good := result == 0;
    forall k | 0 <= k < w * h * n {
      dst[k] := if good then RegionByte(s, x, y, w, h, k) else if k < |junk| then junk[k] else 0;
    }
    if good {
      forall p | 0 <= p < w * h
        ensures (p + 1) * n <= dst.Length && Piece(dst[..], n, p) == RegionTexel(s, x, y, w, h, p)
      {
        MulMonotone(p + 1, w * h, n);
        PieceFits(n, p);
        forall b | 0 <= b < n
          ensures dst[p * n + b] == RegionTexel(s, x, y, w, h, p)[b]
        {
          RowAndColumn(p, n, b);
        }
      }
    }
  }

  function RegionByte(s: Surface, x: nat, y: nat, w: nat, h: nat, k: nat): byte
    requires RegionIn(s, x, y, w, h) && k < w * h * NativeBytes(s.format)
  {
    var n := NativeBytes(s.format);
    QuotientBelow(k, n, w * h);
    DivMod(k, n);
    RegionTexel(s, x, y, w, h, k / n)[k % n]
  }

  // ------------------------------------------------------------- conversion

  /** Pixel `p` of the caller's bytes shows native texel `p`. */
  ghost predicate PixelShows(s: Surface, pixelType: nat, native: seq<byte>, pixels: seq<byte>, p: nat)
    requires Supported(s, pixelType)
    requires (p + 1) * NativeBytes(s.format) <= |native| && (p + 1) * PixelBytes(pixelType) <= |pixels|
  {
    && Presentable(s, Piece(native, NativeBytes(s.format), p))
    && Piece(pixels, PixelBytes(pixelType), p) == Convert(s, Piece(native, NativeBytes(s.format), p))
  }

  ghost predicate Shows(s: Surface, pixelType: nat, native: seq<byte>, pixels: seq<byte>, count: nat)
    requires Supported(s, pixelType)
  {
    && count * NativeBytes(s.format) <= |native| && count * PixelBytes(pixelType) <= |pixels|
    && forall p :: 0 <= p < count ==>
         && (p + 1) * NativeBytes(s.format) <= |native| && (p + 1) * PixelBytes(pixelType) <= |pixels|
         && PixelShows(s, pixelType, native, pixels, p)
  }

  /** The native formats that need a buffer of their own. */
  predicate Staged(s: Surface) { s.srgb || s.format.Packed? || s.format == Rgba16F }

  /** From the native buffer to the caller's. */
  method ConvertStaged(s: Surface, pixelType: nat, native: array<byte>, pixels: array<byte>, count: nat) returns (ok: bool)
    requires Supported(s, pixelType) && Staged(s) && native != pixels
    requires count * NativeBytes(s.format) <= native.Length && count * PixelBytes(pixelType) <= pixels.Length
    modifies pixels
    ensures ok ==> Shows(s, pixelType, native[..], pixels[..], count)
    ensures forall k :: count * PixelBytes(pixelType) <= k < pixels.Length ==> pixels[k] == old(pixels[k])
  {
    hide HalfPixel, HalfBytes, SrgbPixel, Expand, Finite16, FiniteFloat, Word;
    if s.srgb {
      EncodeSrgb(native, pixels, count, s.hasAlpha);
      assert forall p :: 0 <= p < count ==> Piece(pixels[..], 4, p) == Texel(pixels[..], p) && Piece(native[..], 16, p) == Wide(native[..], p);
    } else if s.format.Packed? {
      ExpandPixels(s.format.packed, native, pixels, count);
      forall p | 0 <= p < count
        ensures Piece(pixels[..], 4, p) == Texel(pixels[..], p) && Word(Piece(native[..], 2, p), 0) == Word(native[..], p)
      {
        WordOfPiece(native[..], p);
      }
    } else {
      ok := UnpackHalves(native, pixels, count);
      if !ok {
        return;
      }
      forall p | 0 <= p < count
        ensures PixelShows(s, pixelType, native[..], pixels[..], p)
      {
        FourHalves(native[..], pixels[..], p);
        HalvesOfPiece(native[..], p);
      }
    }
    ok := true;
    if pixelType == FLOAT_TYPE {
      ok := SnapshotIsFinite(pixels, count);
    }
  }

  lemma WordOfPiece(native: seq<byte>, p: nat)
    requires 2 * p + 2 <= |native|
    ensures Word(Piece(native, 2, p), 0) == Word(native, p)
  {
  }

  lemma HalvesOfPiece(native: seq<byte>, p: nat)
    requires 8 * p + 8 <= |native|
    ensures Piece(native, 8, p) == native[8 * p..8 * p + 8]
    ensures forall c :: 0 <= c < 4 ==> Half(Piece(native, 8, p), c) == Word(native, 4 * p + c)
  {
  }

  /** In the caller's buffer, where the native bytes already are. */
  method ConvertInPlace(s: Surface, pixelType: nat, pixels: array<byte>, count: nat) returns (ok: bool)
    requires Supported(s, pixelType) && !Staged(s)
    requires count * PixelBytes(pixelType) <= pixels.Length
    modifies pixels
    ensures ok ==> Shows(s, pixelType, old(pixels[..]), pixels[..], count)
    ensures forall k :: count * PixelBytes(pixelType) <= k < pixels.Length ==> pixels[k] == old(pixels[k])
  {
    hide FiniteFloat;
    if s.format == Bgra8 {
      SwizzleBgra(pixels, count);
      assert forall p :: 0 <= p < count ==> Piece(pixels[..], 4, p) == Texel(pixels[..], p);
      assert forall p :: 0 <= p < count ==> Piece(old(pixels[..]), 4, p) == Texel(old(pixels[..]), p);
    }
    ok := true;
    if pixelType == FLOAT_TYPE {
      ok := SnapshotIsFinite(pixels, count);
      forall p | ok && 0 <= p < count
        ensures Presentable(s, Piece(pixels[..], 16, p))
      {
        FloatsOfPiece(pixels[..], p);
      }
    }
  }

  lemma FloatsOfPiece(bytes: seq<byte>, p: nat)
    requires 16 * p + 16 <= |bytes|
    ensures forall c :: 0 <= c < 4 ==> FloatBits(Piece(bytes, 16, p), 4 * c) == FloatBits(bytes, 4 * (4 * p + c))
  {
  }

  // --------------------------------------------------------- reading a region

  /** Pixel `p` of the caller's bytes shows texel (x + p % w, y + p / w). */
  ghost predicate ShowsRegion(s: Surface, pixelType: nat, x: nat, y: nat, w: nat, h: nat, pixels: seq<byte>)
    requires Supported(s, pixelType)
  {
    && RegionIn(s, x, y, w, h)
    && w * h * PixelBytes(pixelType) <= |pixels|
    && forall p :: 0 <= p < w * h ==>
         && (p + 1) * PixelBytes(pixelType) <= |pixels|
         && Presentable(s, RegionTexel(s, x, y, w, h, p))
         && Piece(pixels, PixelBytes(pixelType), p) == Convert(s, RegionTexel(s, x, y, w, h, p))
  }

  lemma PixelThenShown(s: Surface, pixelType: nat, x: nat, y: nat, w: nat, h: nat, native: seq<byte>, pixels: seq<byte>, p: nat)
    requires Supported(s, pixelType) && p < w * h
    requires Native(s, x, y, w, h, native) && Shows(s, pixelType, native, pixels, w * h)
    ensures (p + 1) * PixelBytes(pixelType) <= |pixels|
    ensures Presentable(s, RegionTexel(s, x, y, w, h, p))
    ensures Piece(pixels, PixelBytes(pixelType), p) == Convert(s, RegionTexel(s, x, y, w, h, p))
  {
    hide Presentable, Convert, Piece, NativeBytes, PixelBytes, RegionTexel;
    assert (p + 1) * NativeBytes(s.format) <= |native|;
    assert PixelShows(s, pixelType, native, pixels, p);
  }

  lemma NativeRegion(s: Surface, pixelType: nat, x: nat, y: nat, w: nat, h: nat, native: seq<byte>, pixels: seq<byte>)
    requires Supported(s, pixelType) && Native(s, x, y, w, h, native) && Shows(s, pixelType, native, pixels, w * h)
    ensures RegionIn(s, x, y, w, h) && w * h * PixelBytes(pixelType) <= |pixels|
  {
    hide Presentable, Convert, Piece, NativeBytes, PixelBytes, RegionTexel, PixelShows;
  }

  lemma NativeThenShown(s: Surface, pixelType: nat, x: nat, y: nat, w: nat, h: nat, native: seq<byte>, pixels: seq<byte>)
    requires Supported(s, pixelType)
    requires Native(s, x, y, w, h, native) && Shows(s, pixelType, native, pixels, w * h)
    ensures ShowsRegion(s, pixelType, x, y, w, h, pixels)
  {
    hide Presentable, Convert, Piece, NativeBytes, PixelBytes, RegionTexel, Shows;
    NativeRegion(s, pixelType, x, y, w, h, native, pixels);
    forall p | 0 <= p < w * h
      ensures (p + 1) * PixelBytes(pixelType) <= |pixels|
      ensures Presentable(s, RegionTexel(s, x, y, w, h, p))
      ensures Piece(pixels, PixelBytes(pixelType), p) == Convert(s, RegionTexel(s, x, y, w, h, p))
    {
      PixelThenShown(s, pixelType, x, y, w, h, native, pixels, p);
    }
  }

  /** Transition the image and wait for it. */
  method MakeReadable(target: ColorTarget, fence: FinishFence) returns (ok: bool)
    requires fence.value <= UINT64_MAX
    modifies target, fence
    ensures fence.value <= UINT64_MAX && old(fence.value) <= fence.value
    ensures ok ==> old(target.state) != 0 && target.state == COPY_SOURCE && fence.value == old(fence.value) + 1
    ensures !ok ==> target.state == old(target.state)
  {
    ok := false;
    if target.state == 0 {
      return;
    }
    var prepared, transitioned: bool := *, *;
    if !prepared || (target.state != COPY_SOURCE && !transitioned) {
      return;
    }
    var result := fence.SubmitAndWait();
    if result != 0 {
      return;
    }
    target.state := COPY_SOURCE;
    ok := true;
  }

  /** The region's bytes, converted, in the caller's buffer. */
  method ReadDirect(target: ColorTarget, fence: FinishFence, x: nat, y: nat, w: nat, h: nat, pixelType: nat, pixels: array<byte>)
    returns (ok: bool)
    requires fence.value <= UINT64_MAX
    requires var s := target.surface; Supported(s, pixelType) && !Staged(s) && RegionIn(s, x, y, w, h)
    requires w * h * PixelBytes(pixelType) <= pixels.Length
    modifies target, fence, pixels
    ensures fence.value <= UINT64_MAX
    ensures ok ==> ShowsRegion(target.surface, pixelType, x, y, w, h, pixels[..])
    ensures forall k :: w * h * PixelBytes(pixelType) <= k < pixels.Length ==> pixels[k] == old(pixels[k])
  {
    ok := MakeReadable(target, fence);
    if ok {
      var result := ReadbackImage(target.surface, x, y, w, h, pixels);
      ok := result == 0;
    }
    if ok {
      ghost var native := pixels[..];
      ok := ConvertInPlace(target.surface, pixelType, pixels, w * h);
      if ok {
        NativeThenShown(target.surface, pixelType, x, y, w, h, native, pixels[..]);
      }
    }
  }

  /** The same through a native buffer. */
  method ReadStaged(target: ColorTarget, fence: FinishFence, x: nat, y: nat, w: nat, h: nat, pixelType: nat,
                    native: array<byte>, pixels: array<byte>)
    returns (ok: bool)
    requires fence.value <= UINT64_MAX
    requires var s := target.surface; Supported(s, pixelType) && Staged(s) && RegionIn(s, x, y, w, h)
    requires native != pixels && w * h * NativeBytes(target.surface.format) <= native.Length
    requires w * h * PixelBytes(pixelType) <= pixels.Length
    modifies target, fence, native, pixels
    ensures fence.value <= UINT64_MAX
    ensures ok ==> ShowsRegion(target.surface, pixelType, x, y, w, h, pixels[..])
    ensures forall k :: w * h * PixelBytes(pixelType) <= k < pixels.Length ==> pixels[k] == old(pixels[k])
  {
    ok := MakeReadable(target, fence);
    if ok {
      var result := ReadbackImage(target.surface, x, y, w, h, native);
      ok := result == 0;
    }
    if ok {
      ok := ConvertStaged(target.surface, pixelType, native, pixels, w * h);
      if ok {
        NativeThenShown(target.surface, pixelType, x, y, w, h, native[..], pixels[..]);
      }
    }
  }

  /** ringl_read_color_target_to_type. `ready` is the answer of
      ringl_prepare_read_color_target. Whatever happens, the staging memory it
      takes is given back. */
  method ReadColorTarget(ctx: Context, target: ColorTarget, fence: FinishFence, ready: bool,
                         x: int, y: int, width: int, height: int, pixelType: nat, pixels: array<byte>)
    returns (result: int)
    requires LedgerValid(ctx) && SurfaceValid(target.surface) && fence.value <= UINT64_MAX
    requires 0 < width && 0 < height ==> width * height * PixelBytes(pixelType) <= pixels.Length
    modifies ctx`active, ctx`cached, ctx`blocks, ctx.process, target, fence, pixels
    ensures LedgerValid(ctx) && Settled(old(LedgerOf(ctx)), LedgerOf(ctx)) && fence.value <= UINT64_MAX
    ensures result == 0 || result == -1
    ensures result == 0 && 0 < width && 0 < height ==>
              && ready && 0 <= x && 0 <= y && TypeOk(pixelType) && Supported(target.surface, pixelType)
              && ShowsRegion(target.surface, pixelType, x, y, width, height, pixels[..])
    ensures width <= 0 || height <= 0 ==> pixels[..] == old(pixels[..])
    ensures forall k :: 0 <= k < pixels.Length && width * height * PixelBytes(pixelType) <= k ==> pixels[k] == old(pixels[k])
  {
    result := -1;
    if width < 0 || height < 0 {
      return;
    }
    if width == 0 || height == 0 {
      return 0;
    }
    var s := target.surface;
    if !ready || x < 0 || y < 0 || x + width > s.width || y + height > s.height {
      return;
    }
    if !TypeOk(pixelType) || !Supported(s, pixelType) {
      return;
    }
    var ok;
    if !Staged(s) {
      ok := ReadDirect(target, fence, x, y, width, height, pixelType, pixels);
      return if ok then 0 else -1;
    }
    var bytes := width * height * NativeBytes(s.format);
    ghost var start := LedgerOf(ctx);
    var memory := Take(ctx, bytes);
    if memory == 0 {
      return;
    }
    ghost var taken := LedgerOf(ctx);
    var native := new byte[bytes];
    ok := ReadStaged(target, fence, x, y, width, height, pixelType, native, pixels);
    SettledIsReflexive(taken);
    GiveBack(ctx, memory, bytes, start, taken);
    return if ok then 0 else -1;
  }

  // ---------------------------------------------------------------- requests

  /** The rectangle a caller asks for, and the distance between its rows. */
  datatype Request = Request(x: int, y: int, width: nat, height: nat, pixelType: nat, packedRow: nat)

  function TightBytes(r: Request): nat { TightRow(r.width, r.pixelType) }

  ghost predicate Readable(s: Surface, r: Request) {
    && SurfaceValid(s) && Supported(s, r.pixelType)
    && 0 < r.width && 0 < r.height && 0 < TightBytes(r) <= r.packedRow
  }

  /** The pixel at row `row` and byte column `column` of the request exists. */
  predicate OnTarget(s: Surface, r: Request, row: nat, column: nat) {
    0 <= r.x + column / PixelBytes(r.pixelType) < s.width && 0 <= r.y + row < s.height
  }

  /** That byte of the converted image. */
  function ShownByte(s: Surface, r: Request, row: nat, column: nat): byte
    requires Readable(s, r) && OnTarget(s, r, row, column)
  {
    var n := PixelBytes(r.pixelType);
    var texel := s.texels[r.y + row][r.x + column / n];
    Convert(s, texel)[column % n]
  }

  function RowOf(r: Request, k: nat): nat
    requires 0 < r.packedRow
  {
    DivMod(k, r.packedRow);
    k / r.packedRow
  }

  function ColumnOf(r: Request, k: nat): nat
    requires 0 < r.packedRow
  {
    DivMod(k, r.packedRow);
    k % r.packedRow
  }

  /** Byte `k` of the caller's buffer belongs to a pixel inside the target. */
  predicate Inside(s: Surface, r: Request, k: nat)
    requires 0 < r.packedRow
  {
    RowOf(r, k) < r.height && ColumnOf(r, k) < TightBytes(r) && OnTarget(s, r, RowOf(r, k), ColumnOf(r, k))
  }

  /** What a successful readback leaves in the caller's buffer. */
  function ReadInto(s: Surface, r: Request, before: seq<byte>): (after: seq<byte>)
    requires Readable(s, r)
    ensures |after| == |before|
  {
    seq(|before|, k requires 0 <= k < |before| =>
      if Inside(s, r, k) then ShownByte(s, r, RowOf(r, k), ColumnOf(r, k)) else before[k])
  }

  function RequiredBytes(r: Request): nat
    requires 0 < r.height
  {
    (r.height - 1) * r.packedRow + TightBytes(r)
  }

  /** Nothing past the required size is touched. */
  lemma RequiredIsEnough(s: Surface, r: Request, before: seq<byte>)
    requires Readable(s, r)
    ensures forall k :: RequiredBytes(r) <= k < |before| ==> ReadInto(s, r, before)[k] == before[k]
  {
    hide ShownByte, OnTarget, TightRow;
    forall k | RequiredBytes(r) <= k < |before|
      ensures !Inside(s, r, k)
    {
      DivMod(k, r.packedRow);
      MulMonotone(RowOf(r, k), r.height - 1, r.packedRow);
    }
  }

  /** Every byte of the request lies below it. */
  lemma CellBelow(r: Request, row: nat, column: nat)
    requires row < r.height && column < TightBytes(r)
    ensures 0 <= row * r.packedRow + column < RequiredBytes(r)
    ensures 0 <= row * TightBytes(r) + column < r.height * TightBytes(r)
  {
    hide TightRow;
    MulMonotone(row, r.height - 1, r.packedRow);
    MulMonotone(row + 1, r.height, TightBytes(r));
  }

  /** Each pixel of the request, byte by byte: where the target has it, the
      converted texel; elsewhere what the caller had. */
  lemma PixelsRead(s: Surface, r: Request, before: seq<byte>, row: nat, px: nat, b: nat)
    requires Readable(s, r) && RequiredBytes(r) <= |before|
    requires row < r.height && px < r.width && b < PixelBytes(r.pixelType)
    ensures var k := row * r.packedRow + px * PixelBytes(r.pixelType) + b;
            && 0 <= k < |before|
            && ReadInto(s, r, before)[k] ==
                 if 0 <= r.x + px < s.width && 0 <= r.y + row < s.height
                 then Convert(s, s.texels[r.y + row][r.x + px])[b]
                 else before[k]
  {
    hide Convert, Supported;
    var n := PixelBytes(r.pixelType);
    var column := px * n + b;
    MulMonotone(px + 1, r.width, n);
    RowAndColumn(px, n, b);
    RowAndColumn(row, r.packedRow, column);
    CellBelow(r, row, column);
  }

  // ------------------------------------------------------------ the tight copy

  /** A tight buffer holds, at a byte of the request, what the caller is to see. */
  ghost predicate CellFilled(s: Surface, r: Request, before: seq<byte>, tight: seq<byte>, row: nat, column: nat)
    requires Readable(s, r) && RequiredBytes(r) <= |before| && r.height * TightBytes(r) <= |tight|
    requires row < r.height && column < TightBytes(r)
  {
    CellBelow(r, row, column);
    tight[row * TightBytes(r) + column]
      == if OnTarget(s, r, row, column) then ShownByte(s, r, row, column) else before[row * r.packedRow + column]
  }

  ghost predicate Filled(s: Surface, r: Request, before: seq<byte>, tight: seq<byte>)
    requires Readable(s, r) && RequiredBytes(r) <= |before|
  {
    && r.height * TightBytes(r) <= |tight|
    && forall row, column :: 0 <= row < r.height && 0 <= column < TightBytes(r) ==> CellFilled(s, r, before, tight, row, column)
  }

  lemma CellOffset(row: nat, w: nat, n: nat, q: nat)
    ensures (row * w + q) * n == row * (w * n) + q * n
  {
    Distribute(row * w, q, n);
    assert row * w * n == row * (w * n);
  }

  lemma CellOfRegion(s: Surface, pixelType: nat, x: nat, y: nat, w: nat, h: nat, bytes: seq<byte>, row: nat, column: nat)
    requires Supported(s, pixelType) && ShowsRegion(s, pixelType, x, y, w, h, bytes)
    requires row < h && column < TightRow(w, pixelType)
    ensures column / PixelBytes(pixelType) < w && row * TightRow(w, pixelType) + column < |bytes|
    ensures var n := PixelBytes(pixelType);
            bytes[row * TightRow(w, pixelType) + column] == Convert(s, s.texels[y + row][x + column / n])[column % n]
  {
    hide Convert, Presentable, PixelBytes;
    var n := PixelBytes(pixelType);
    QuotientBelow(column, n, w);
    DivMod(column, n);
    var p := row * w + column / n;
    MulMonotone(row + 1, h, w);
    RowAndColumn(row, w, column / n);
    assert p < w * h;
    CellOffset(row, w, n, column / n);
    PieceFits(n, p);
    assert Piece(bytes, n, p)[column % n] == bytes[p * n + column % n];
  }

  /** The whole rectangle lies on the target: the tight buffer is the image region. */
  lemma WholeFills(s: Surface, r: Request, before: seq<byte>, tight: seq<byte>)
    requires Readable(s, r) && RequiredBytes(r) <= |before|
    requires 0 <= r.x && 0 <= r.y && r.x + r.width <= s.width && r.y + r.height <= s.height
    requires ShowsRegion(s, r.pixelType, r.x, r.y, r.width, r.height, tight)
    ensures Filled(s, r, before, tight)
  {
    WholeSize(s, r, tight);
    forall row, column | 0 <= row < r.height && 0 <= column < TightBytes(r)
      ensures CellFilled(s, r, before, tight, row, column)
    {
      WholeCell(s, r, before, tight, row, column);
    }
  }

  lemma WholeCell(s: Surface, r: Request, before: seq<byte>, tight: seq<byte>, row: nat, column: nat)
    requires Readable(s, r) && RequiredBytes(r) <= |before| && r.height * TightBytes(r) <= |tight|
    requires 0 <= r.x && 0 <= r.y && r.x + r.width <= s.width && r.y + r.height <= s.height
    requires ShowsRegion(s, r.pixelType, r.x, r.y, r.width, r.height, tight)
    requires row < r.height && column < TightBytes(r)
    ensures CellFilled(s, r, before, tight, row, column)
  {
    hide Convert, Presentable, ShowsRegion, PixelBytes;
    CellBelow(r, row, column);
    DivMod(column, PixelBytes(r.pixelType));
    CellOfRegion(s, r.pixelType, r.x, r.y, r.width, r.height, tight, row, column);
  }

  lemma WholeSize(s: Surface, r: Request, tight: seq<byte>)
    requires Supported(s, r.pixelType)
    requires 0 <= r.x && 0 <= r.y && ShowsRegion(s, r.pixelType, r.x, r.y, r.width, r.height, tight)
    ensures r.height * TightBytes(r) <= |tight|
  {
    assert r.width * r.height * PixelBytes(r.pixelType) == r.height * (r.width * PixelBytes(r.pixelType));
  }

  // ---------------------------------------------------------------- clipping

  datatype Clip = Clip(x0: nat, y0: nat, x1: nat, y1: nat)

  function Clamp(v: int, limit: nat): nat {
    if v <= 0 then 0 else if v > limit then limit else v
  }

  function ClipOf(s: Surface, r: Request): Clip {
    Clip(Clamp(r.x, s.width), Clamp(r.y, s.height), Clamp(r.x + r.width, s.width), Clamp(r.y + r.height, s.height))
  }

  predicate Nonempty(c: Clip) { c.x0 < c.x1 && c.y0 < c.y1 }

  /** The clip is where the request and the target meet. */
  lemma ClipIsTheMeet(s: Surface, r: Request, px: nat, row: nat)
    requires px < r.width && row < r.height
    ensures var c := ClipOf(s, r);
            (c.x0 <= r.x + px < c.x1 && c.y0 <= r.y + row < c.y1) <==> (0 <= r.x + px < s.width && 0 <= r.y + row < s.height)
  {
  }

  lemma ClipInRequest(s: Surface, r: Request)
    requires Nonempty(ClipOf(s, r))
    ensures var c := ClipOf(s, r);
            && r.x <= c.x0 && r.y <= c.y0
            && c.x1 <= r.x + r.width && c.y1 <= r.y + r.height && c.x1 <= s.width && c.y1 <= s.height
  {
  }

  lemma NothingToRead(s: Surface, r: Request, before: seq<byte>)
    requires Readable(s, r) && RequiredBytes(r) <= |before| && !Nonempty(ClipOf(s, r))
    ensures ReadInto(s, r, before) == before
  {
    hide ShownByte, Clamp;
    forall k | 0 <= k < |before|
      ensures !Inside(s, r, k)
    {
      if RowOf(r, k) < r.height && ColumnOf(r, k) < TightBytes(r) {
        var n := PixelBytes(r.pixelType);
        QuotientBelow(ColumnOf(r, k), n, r.width);
        DivMod(ColumnOf(r, k), n);
        ClipIsTheMeet(s, r, ColumnOf(r, k) / n, RowOf(r, k));
      }
    }
  }

  /** Where the clipped rows go in the tight buffer. */
  function SpliceAt(r: Request, c: Clip): Span
    requires r.x <= c.x0 && r.y <= c.y0
  {
    Span((c.y0 - r.y) * TightBytes(r) + (c.x0 - r.x) * PixelBytes(r.pixelType), TightBytes(r))
  }

  lemma SpliceFits(s: Surface, r: Request)
    requires Readable(s, r) && Nonempty(ClipOf(s, r))
    ensures var c := ClipOf(s, r);
            && r.x <= c.x0 && r.y <= c.y0 && c.x1 <= s.width && c.y1 <= s.height
            && RowsFit(r.height * TightBytes(r), SpliceAt(r, c), c.y1 - c.y0, TightRow(c.x1 - c.x0, r.pixelType))
  {
    var c, n, t := ClipOf(s, r), PixelBytes(r.pixelType), TightBytes(r);
    hide PixelBytes;
    ClipInRequest(s, r);
    var dx, dy, cw, ch := c.x0 - r.x, c.y0 - r.y, c.x1 - c.x0, c.y1 - c.y0;
    WithinRow(dx, cw, r.width, n);
    MulMonotone(dy + ch, r.height, t);
    Distribute(dy, ch - 1, t);
    Distribute(dy + (ch - 1), 1, t);
  }

  /** `cw` pixels from pixel `dx` on fit in a row of `width`. */
  lemma WithinRow(dx: nat, cw: nat, width: nat, n: nat)
    requires 0 < n && 0 < cw && dx + cw <= width
    ensures 0 <= dx * n && 0 < cw * n && dx * n + cw * n <= width * n
  {
    Distribute(dx, cw, n);
    MulMonotone(dx + cw, width, n);
    MulMonotone(1, cw, n);
  }

  /** One byte of the spliced buffer. */
  lemma SplicedCell(s: Surface, r: Request, before: seq<byte>, raw: seq<byte>, clipped: seq<byte>, row: nat, column: nat)
    requires Readable(s, r) && RequiredBytes(r) <= |before| && r.height * TightBytes(r) == |raw|
    requires Nonempty(ClipOf(s, r))
    requires RowsFit(|raw|, Span(0, TightBytes(r)), r.height, TightBytes(r))
    requires RowsFit(|before|, Span(0, r.packedRow), r.height, TightBytes(r))
    requires r.x <= ClipOf(s, r).x0 && r.y <= ClipOf(s, r).y0
    requires var c := ClipOf(s, r); ShowsRegion(s, r.pixelType, c.x0, c.y0, c.x1 - c.x0, c.y1 - c.y0, clipped)
    requires var c := ClipOf(s, r);
             && RowsFit(|raw|, SpliceAt(r, c), c.y1 - c.y0, TightRow(c.x1 - c.x0, r.pixelType))
             && RowsFit(|clipped|, Span(0, TightRow(c.x1 - c.x0, r.pixelType)), c.y1 - c.y0, TightRow(c.x1 - c.x0, r.pixelType))
    requires row < r.height && column < TightBytes(r)
    ensures CellFilled(s, r, before, ClipSpliced(s, r, before, raw, clipped), row, column)
  {
    hide Convert, Presentable, ShowsRegion, PixelBytes, Clamp, RowsFit;
    var c, n, t := ClipOf(s, r), PixelBytes(r.pixelType), TightBytes(r);
    var dx, dy, cw, ch := c.x0 - r.x, c.y0 - r.y, c.x1 - c.x0, c.y1 - c.y0;
    CellBelow(r, row, column);
    RowAndColumn(row, t, column);
    QuotientBelow(column, n, r.width);
    DivMod(column, n);
    ClipIsTheMeet(s, r, column / n, row);
    ClipInRequest(s, r);
    InsideSplice(column, n, dx, cw);
    WithinRow(dx, cw, r.width, n);
    SpliceRow(row, column, t, dy, dx * n, ch, cw * n);
    if OnTarget(s, r, row, column) {
      CellOfRegion(s, r.pixelType, c.x0, c.y0, cw, ch, clipped, row - dy, column - dx * n);
    }
  }

  function ClipSpliced(s: Surface, r: Request, before: seq<byte>, raw: seq<byte>, clipped: seq<byte>): (tight: seq<byte>)
    requires r.x <= ClipOf(s, r).x0 && r.y <= ClipOf(s, r).y0
    requires RowsFit(|raw|, Span(0, TightBytes(r)), r.height, TightBytes(r))
    requires RowsFit(|before|, Span(0, r.packedRow), r.height, TightBytes(r))
    requires var c := ClipOf(s, r);
             && c.x0 <= c.x1 && c.y0 <= c.y1
             && RowsFit(|raw|, SpliceAt(r, c), c.y1 - c.y0, TightRow(c.x1 - c.x0, r.pixelType))
             && RowsFit(|clipped|, Span(0, TightRow(c.x1 - c.x0, r.pixelType)), c.y1 - c.y0, TightRow(c.x1 - c.x0, r.pixelType))
    ensures |tight| == |raw|
  {
    var c := ClipOf(s, r);
    var n := TightRow(c.x1 - c.x0, r.pixelType);
    RowsPut(RowsPut(raw, Span(0, TightBytes(r)), before, Span(0, r.packedRow), r.height, TightBytes(r)),
            SpliceAt(r, c), clipped, Span(0, n), c.y1 - c.y0, n)
  }

  lemma InsideSplice(column: nat, n: nat, dx: nat, cw: nat)
    requires 0 < n
    ensures dx <= column / n < dx + cw <==> dx * n <= column < dx * n + cw * n
    ensures dx * n <= column ==> (column - dx * n) / n == column / n - dx && (column - dx * n) % n == column % n
  {
    QuotientBelow(column, n, dx);
    QuotientBelow(column, n, dx + cw);
    Distribute(dx, cw, n);
    DivMod(column, n);
    if dx * n <= column {
      Distribute(dx, column / n - dx, n);
      QuotientIs(column - dx * n, n, column / n - dx, column % n);
    }
  }

  /** A byte of the tight buffer is spliced exactly when its row and column are. */
  lemma SpliceRow(row: nat, column: nat, t: nat, dy: nat, left: nat, ch: nat, wide: nat)
    requires column < t && 0 < wide && left + wide <= t
    ensures var k, at := row * t + column, Span(dy * t + left, t);
            && 0 <= k
            && (InRow(k, at, ch, wide) <==> dy <= row < dy + ch && left <= column < left + wide)
            && (InRow(k, at, ch, wide) ==> (k - at.base) / t == row - dy && (k - at.base) % t == column - left)
  {
    var k, base := row * t + column, dy * t + left;
    MulMonotone(0, row, t);
    MulMonotone(0, dy, t);
    if dy <= row && left <= column < left + wide {
      SplicedThere(row, column, t, dy, left);
    } else if base <= k && (k - base) % t < wide {
      SplicedOnlyThere(row, column, t, dy, left, wide);
    }
  }

  lemma SplicedThere(row: nat, column: nat, t: nat, dy: nat, left: nat)
    requires column < t && dy <= row && left <= column
    ensures 0 <= dy * t + left <= row * t + column
    ensures (row * t + column - (dy * t + left)) / t == row - dy && (row * t + column - (dy * t + left)) % t == column - left
  {
    Distribute(dy, row - dy, t);
    QuotientIs(row * t + column - (dy * t + left), t, row - dy, column - left);
  }

  lemma SplicedOnlyThere(row: nat, column: nat, t: nat, dy: nat, left: nat, wide: nat)
    requires column < t && left + wide <= t && 0 <= dy * t + left <= row * t + column
    requires (row * t + column - (dy * t + left)) % t < wide
    ensures dy <= row && left <= column < left + wide && (row * t + column - (dy * t + left)) / t == row - dy
  {
    var d := row * t + column - (dy * t + left);
    var q, m := d / t, d % t;
    DivMod(d, t);
    Distribute(dy, q, t);
    RowsDistinct(row, dy + q, t, column, left + m);
  }

  // ------------------------------------------------------------- publication

  lemma RequestRowsFit(r: Request, length: nat)
    requires 0 < r.width && 0 < r.height && 0 < TightBytes(r) <= r.packedRow && RequiredBytes(r) <= length
    ensures RowsFit(length, Span(0, r.packedRow), r.height, TightBytes(r))
    ensures RowsFit(r.height * TightBytes(r), Span(0, TightBytes(r)), r.height, TightBytes(r))
  {
    Distribute(r.height - 1, 1, TightBytes(r));
  }

  /** Publishing a filled tight buffer row by row gives the specified result. */
  lemma PublishedIsRead(s: Surface, r: Request, before: seq<byte>, tight: seq<byte>)
    requires Readable(s, r) && RequiredBytes(r) <= |before| && Filled(s, r, before, tight)
    requires RowsFit(|before|, Span(0, r.packedRow), r.height, TightBytes(r))
    requires RowsFit(|tight|, Span(0, TightBytes(r)), r.height, TightBytes(r))
    ensures RowsPut(before, Span(0, r.packedRow), tight, Span(0, TightBytes(r)), r.height, TightBytes(r)) == ReadInto(s, r, before)
  {
    hide ShownByte, RowsFit, TightRow;
    var after := RowsPut(before, Span(0, r.packedRow), tight, Span(0, TightBytes(r)), r.height, TightBytes(r));
    forall k | 0 <= k < |before|
      ensures after[k] == ReadInto(s, r, before)[k]
    {
      var row, column := RowOf(r, k), ColumnOf(r, k);
      DivMod(k, r.packedRow);
      if row < r.height && column < TightBytes(r) {
        assert CellFilled(s, r, before, tight, row, column);
      }
    }
  }

  /** The partly covered request: what the caller has is staged, the clipped
      region is read beside it and spliced in. */
  method FillClipped(ctx: Context, target: ColorTarget, fence: FinishFence, ready: bool, r: Request,
                     pixels: array<byte>, tight: array<byte>)
    returns (result: int)
    requires LedgerValid(ctx) && fence.value <= UINT64_MAX
    requires Readable(target.surface, r) && Nonempty(ClipOf(target.surface, r))
    requires RequiredBytes(r) <= pixels.Length && tight.Length == r.height * TightBytes(r) && tight != pixels
    modifies ctx`active, ctx`cached, ctx`blocks, ctx.process, target, fence, tight
    ensures LedgerValid(ctx) && Settled(old(LedgerOf(ctx)), LedgerOf(ctx)) && fence.value <= UINT64_MAX
    ensures result == 0 || result == 1 || result == -1
    ensures result == 0 ==> Filled(target.surface, r, pixels[..], tight[..])
  {
    hide RowsFit, RowsPut, ShowsRegion, Convert, CellFilled, PixelBytes, Clamp, Took, Settled, LedgerValid;
    var s, c, n := target.surface, ClipOf(target.surface, r), TightBytes(r);
    ghost var raw, before := tight[..], pixels[..];
    RequestRowsFit(r, pixels.Length);
    ClipInRequest(s, r);
    SpliceFits(s, r);
    CopyRows(tight, Span(0, n), pixels, Span(0, r.packedRow), r.height, n);
    var cw, ch := c.x1 - c.x0, c.y1 - c.y0;
    var row := TightRow(cw, r.pixelType);
    ClippedSize(cw, ch, r.pixelType);
    ghost var start := LedgerOf(ctx);
    var memory := Take(ctx, row * ch);
    if memory == 0 {
      return 1;
    }
    ghost var taken := LedgerOf(ctx);
    var clipped := new byte[row * ch];
    result := ReadColorTarget(ctx, target, fence, ready, c.x0, c.y0, cw, ch, r.pixelType, clipped);
    if result == 0 {
      CopyRows(tight, SpliceAt(r, c), clipped, Span(0, row), ch, row);
      SplicedFills(s, r, before, raw, clipped[..]);
    }
    GiveBack(ctx, memory, row * ch, start, taken);
  }

  lemma ClippedSize(cw: nat, ch: nat, pixelType: nat)
    requires 0 < cw && 0 < ch
    ensures 0 < TightRow(cw, pixelType) * ch && cw * ch * PixelBytes(pixelType) == TightRow(cw, pixelType) * ch
    ensures RowsFit(TightRow(cw, pixelType) * ch, Span(0, TightRow(cw, pixelType)), ch, TightRow(cw, pixelType))
  {
    Distribute(ch - 1, 1, TightRow(cw, pixelType));
  }

  lemma SplicedFills(s: Surface, r: Request, before: seq<byte>, raw: seq<byte>, clipped: seq<byte>)
    requires Readable(s, r) && RequiredBytes(r) <= |before| && r.height * TightBytes(r) == |raw|
    requires Nonempty(ClipOf(s, r))
    requires RowsFit(|raw|, Span(0, TightBytes(r)), r.height, TightBytes(r))
    requires RowsFit(|before|, Span(0, r.packedRow), r.height, TightBytes(r))
    requires r.x <= ClipOf(s, r).x0 && r.y <= ClipOf(s, r).y0
    requires var c := ClipOf(s, r); ShowsRegion(s, r.pixelType, c.x0, c.y0, c.x1 - c.x0, c.y1 - c.y0, clipped)
    requires var c := ClipOf(s, r);
             && RowsFit(|raw|, SpliceAt(r, c), c.y1 - c.y0, TightRow(c.x1 - c.x0, r.pixelType))
             && RowsFit(|clipped|, Span(0, TightRow(c.x1 - c.x0, r.pixelType)), c.y1 - c.y0, TightRow(c.x1 - c.x0, r.pixelType))
    ensures Filled(s, r, before, ClipSpliced(s, r, before, raw, clipped))
  {
    hide CellFilled, ClipSpliced, ShowsRegion, RowsFit, Clamp, TightRow;
    forall row, column | 0 <= row < r.height && 0 <= column < TightBytes(r)
      ensures CellFilled(s, r, before, ClipSpliced(s, r, before, raw, clipped), row, column)
    {
      SplicedCell(s, r, before, raw, clipped, row, column);
    }
  }

  // --------------------------------------------------------------- the calls

  ghost function Contents(a: array?<byte>): seq<byte>
    reads a
  {
    if a == null then [] else a[..]
  }

  /** ringl_read_pixels_packed: 0, 1 when staging memory runs out, -1 when the
      readback itself fails. Only success touches the caller's bytes. */
  method ReadPixelsPacked(ctx: Context, target: ColorTarget, fence: FinishFence, ready: bool, sizeMax: nat, r: Request,
                          tightTotal: nat, pixels: array?<byte>)
    returns (result: int)
    requires LedgerValid(ctx) && SurfaceValid(target.surface) && fence.value <= UINT64_MAX
    requires tightTotal == r.height * TightBytes(r)
    requires 0 < tightTotal ==> TightBytes(r) <= r.packedRow && (pixels == null || RequiredBytes(r) <= pixels.Length)
    modifies ctx`active, ctx`cached, ctx`blocks, ctx.process, target, fence
    modifies if pixels == null then {} else {pixels}
    ensures LedgerValid(ctx) && Settled(old(LedgerOf(ctx)), LedgerOf(ctx)) && fence.value <= UINT64_MAX
    ensures result == 0 || result == 1 || result == -1
    ensures tightTotal == 0 ==> result == 0
    ensures result != 0 || tightTotal == 0 ==> Contents(pixels) == old(Contents(pixels))
    ensures result == 0 && 0 < tightTotal ==>
              && pixels != null && Readable(target.surface, r)
              && pixels[..] == ReadInto(target.surface, r, old(pixels[..]))
  {
    hide RowsFit, RowsPut, ShowsRegion, Convert, PixelBytes, Clamp, Took, Settled, ReadInto, Filled;
    ghost var start := LedgerOf(ctx);
    SettledIsReflexive(start);
    if tightTotal == 0 {
      return 0;
    }
    if tightTotal > sizeMax {
      return 1;
    }
    var s := target.surface;
    if pixels == null || !ready || !Supported(s, r.pixelType) {
      return -1;
    }
    PositiveParts(r.height, TightBytes(r));
    ghost var before := pixels[..];
    var c := ClipOf(s, r);
    if !Nonempty(c) {
      NothingToRead(s, r, before);
      return 0;
    }
    var memory := Take(ctx, tightTotal);
    if memory == 0 {
      return 1;
    }
    ghost var taken := LedgerOf(ctx);
    var n := TightBytes(r);
    RequestRowsFit(r, pixels.Length);
    var tight := new byte[tightTotal];
    if c.x1 - c.x0 == r.width && c.y1 - c.y0 == r.height {
      ClipInRequest(s, r);
      WholeTotal(r);
      result := ReadColorTarget(ctx, target, fence, ready, r.x, r.y, r.width, r.height, r.pixelType, tight);
      if result == 0 {
        WholeFills(s, r, before, tight[..]);
      }
    } else {
      result := FillClipped(ctx, target, fence, ready, r, pixels, tight);
    }
    if result == 0 {
      CopyRows(pixels, Span(0, r.packedRow), tight, Span(0, n), r.height, n);
      PublishedIsRead(s, r, before, tight[..]);
    }
    GiveBack(ctx, memory, tightTotal, start, taken);
  }

  lemma PositiveParts(h: nat, n: nat)
    requires 0 < h * n
    ensures 0 < h && 0 < n
  {
  }

  lemma WholeTotal(r: Request)
    ensures r.width * r.height * PixelBytes(r.pixelType) == r.height * TightBytes(r)
  {
  }

  /** The error ringl_read_pixels_to_bytes finds before it looks at the target. */
  function RequestError(width: int, height: int, format: nat, pixelType: nat, alignment: nat, sizeMax: nat, isNull: bool, size: nat): Error {
    if format != TextureFormats.RGBA || !TypeOk(pixelType) then InvalidEnum
    else if width < 0 || height < 0 || !AlignmentOk(alignment) || !LayoutFits(width, height, pixelType, alignment) then InvalidValue
    else
      var required := LayoutOf(width, height, pixelType, alignment).required;
      if (required != 0 && isNull) || required > sizeMax || size < required then InvalidOperation else NoError
  }

  /** The request, with its rows padded to the pack alignment. */
  function Aligned(x: int, y: int, width: nat, height: nat, pixelType: nat, alignment: nat): Request
    requires AlignmentOk(alignment)
  {
    Request(x, y, width, height, pixelType, LayoutOf(width, height, pixelType, alignment).packedRow)
  }

  /** ringl_framebuffer_operation_error. */
  function OperationError(complete: bool): Error {
    if complete then InvalidOperation else InvalidFramebufferOperation
  }

  /** ringl_read_pixels_to_bytes. Either the caller's bytes become the pointwise
      specification's, or they are untouched and an error is recorded. */
  method ReadPixelsToBytes(ctx: Context, target: ColorTarget, fence: FinishFence, ready: bool, complete: bool, sizeMax: nat,
                           alignment: nat, x: int, y: int, width: int, height: int, format: nat, pixelType: nat,
                           pixels: array?<byte>, pixelsSize: nat)
    requires LedgerValid(ctx) && SurfaceValid(target.surface) && fence.value <= UINT64_MAX
    requires pixels != null ==> pixelsSize <= pixels.Length
    modifies ctx`active, ctx`cached, ctx`blocks, ctx`pendingError, ctx.process, target, fence
    modifies if pixels == null then {} else {pixels}
    ensures LedgerValid(ctx) && Settled(old(LedgerOf(ctx)), LedgerOf(ctx)) && fence.value <= UINT64_MAX
    ensures var error := RequestError(width, height, format, pixelType, alignment, sizeMax, pixels == null, pixelsSize);
            if error != NoError then
              ctx.pendingError == Context.Pending(old(ctx.pendingError), error) && Contents(pixels) == old(Contents(pixels))
            else if width == 0 || height == 0 then
              ctx.pendingError == old(ctx.pendingError) && Contents(pixels) == old(Contents(pixels))
            else
              var r := Aligned(x, y, width, height, pixelType, alignment);
              || (&& ctx.pendingError == old(ctx.pendingError)
                  && pixels != null && Readable(target.surface, r)
                  && pixels[..] == ReadInto(target.surface, r, old(pixels[..])))
              || (&& Contents(pixels) == old(Contents(pixels))
                  && (|| ctx.pendingError == Context.Pending(old(ctx.pendingError), OutOfMemory)
                      || ctx.pendingError == Context.Pending(old(ctx.pendingError), OperationError(complete))))
  {
    hide RowsFit, Convert, Took, Settled, ReadInto, RoundUp, LayoutFits;
    SettledIsReflexive(LedgerOf(ctx));
    if format != TextureFormats.RGBA || !TypeOk(pixelType) {
      ctx.RecordError(InvalidEnum);
      return;
    }
    var ok, layout := ReadbackLayout(width, height, pixelType, alignment);
    if !ok {
      ctx.RecordError(InvalidValue);
      return;
    }
    if (layout.required != 0 && pixels == null) || layout.required > sizeMax || pixelsSize < layout.required {
      ctx.RecordError(InvalidOperation);
      return;
    }
    var r := Request(x, y, width, height, pixelType, layout.packedRow);
    LayoutMeaning(width, height, pixelType, alignment);
    var result := ReadPixelsPacked(ctx, target, fence, ready, sizeMax, r, layout.tightTotal, pixels);
    if result == 1 {
      ctx.RecordError(OutOfMemory);
    } else if result != 0 {
      ctx.RecordError(OperationError(complete));
    }
  }

  lemma LayoutMeaning(width: nat, height: nat, pixelType: nat, alignment: nat)
    requires AlignmentOk(alignment)
    ensures var l := LayoutOf(width, height, pixelType, alignment);
            && l.tightTotal == height * TightRow(width, pixelType)
            && (l.tightTotal == 0 <==> width == 0 || height == 0)
            && (0 < l.tightTotal ==> TightRow(width, pixelType) <= l.packedRow)
  {
    RoundUpIsLeast(TightRow(width, pixelType), alignment);
    if 0 < width && 0 < height {
      MulMonotone(1, width, PixelBytes(pixelType));
      MulMonotone(1, height, TightRow(width, pixelType));
    } else if height == 0 {
      MulMonotone(0, height, TightRow(width, pixelType));
    }
  }
}
