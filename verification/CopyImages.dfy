/** glCopyTexImage2D on the 2D target in src/objects/texture.c: a region of the
    colour target is read back, converted to the texture's storage and installed. */
module CopyImages {
  import opened Limits
  import opened StagingBlocks
  import opened Arithmetic
  import opened Grids
  import opened ContextState
  import opened ContextLedger
  import opened StagingHolds
  import opened PackedColor
  import opened ColorConversion
  import opened Readback
  import opened TextureFormats
  import opened MipFilter
  import opened TextureStorage
  import TexImages

  // ------------------------------------------------------------- conversion

  /** texture_apply_copy_component_rules, on eight-bit channels. */
  function Ruled(format: nat, c: seq<byte>): (r: seq<byte>)
    requires |c| == 4
    ensures |r| == 4
  {
    if format == RGB then [c[0], c[1], c[2], 255]
    else if format == ALPHA then [0, 0, 0, c[3]]
    else if format == LUMINANCE then [c[0], c[0], c[0], 255]
    else if format == LUMINANCE_ALPHA then [c[0], c[0], c[0], c[3]]
    else c
  }

  /** texture_copy_canonical_rgba_to_typed_copy_image_storage on one texel. Eight-bit
      results of eight-bit sources are exact; `rounded` gives the others, whose
      float arithmetic rounds. */
  function CopiedTexel(q: TextureObject, fromFloat: bool, texel: seq<byte>, rounded: seq<byte> -> seq<byte>): (r: seq<byte>)
    requires |texel| == if fromFloat then 16 else 4
    ensures |r| == TexelBytes(q.format, q.componentType)
  {
    if fromFloat || q.srgb || IsFloat(q.componentType) || q.format == DEPTH24_STENCIL8 then
      Fit(rounded(texel), TexelBytes(q.format, q.componentType))
    else if IsPacked(q.format) then
      var word := CopyTexel(PackedOf(q.format), texel);
      [word % 256, word / 256]
    else Ruled(q.format, texel)
  }

  predicate FromFloat(s: Surface) { !s.srgb && (s.format == Rgba32F || s.format == Rgba16F) }

  function SnapshotType(s: Surface): nat { if FromFloat(s) then FLOAT_TYPE else UNSIGNED_BYTE_TYPE }

  /** Texels `0` to `done` of the copy are converted. */
  ghost predicate CopiedUpTo(q: TextureObject, fromFloat: bool, snapshot: seq<byte>, bytes: seq<byte>, count: nat, done: nat,
                             rounded: seq<byte> -> seq<byte>)
  {
    var m, n := if fromFloat then 16 else 4, TexelBytes(q.format, q.componentType);
    && count * m <= |snapshot| && |bytes| == count * 1 * n && done <= count
    && forall p: nat :: p < done ==>
         (p + 1) * m <= |snapshot| && Cell(bytes, n, count, 1, p, 0) == CopiedTexel(q, fromFloat, Piece(snapshot, m, p), rounded)
  }

  /** The texel loop. */
  method CopyTexels(q: TextureObject, fromFloat: bool, snapshot: seq<byte>, blank: seq<byte>, count: nat, rounded: seq<byte> -> seq<byte>)
    returns (bytes: seq<byte>)
    requires count * (if fromFloat then 16 else 4) <= |snapshot|
    requires |blank| == count * 1 * TexelBytes(q.format, q.componentType)
    ensures CopiedUpTo(q, fromFloat, snapshot, bytes, count, count, rounded)
  {
    hide CopiedTexel, Cell, TexelBytes, Piece;
    var m, n := if fromFloat then 16 else 4, TexelBytes(q.format, q.componentType);
    bytes := blank;
    var index := 0;
    while index < count
      invariant 0 <= index <= count
      invariant CopiedUpTo(q, fromFloat, snapshot, bytes, count, index, rounded)
    {
      MulMonotone(index + 1, count, m);
      bytes := PutCell(bytes, n, count, 1, index, 0, CopiedTexel(q, fromFloat, Piece(snapshot, m, index), rounded));
      index := index + 1;
    }
  }

  /** Every texel of the level is the converted pixel of the region. */
  ghost predicate CopiedRegion(q: TextureObject, s: Surface, x: nat, y: nat, w: nat, h: nat, bytes: seq<byte>, rounded: seq<byte> -> seq<byte>) {
    && RegionIn(s, x, y, w, h) && Supported(s, SnapshotType(s))
    && |bytes| == w * h * TexelBytes(q.format, q.componentType)
    && forall i: nat, j: nat :: i < w && j < h ==> CopiedAt(q, s, x, y, w, h, bytes, rounded, i, j)
  }

  ghost predicate CopiedAt(q: TextureObject, s: Surface, x: nat, y: nat, w: nat, h: nat, bytes: seq<byte>, rounded: seq<byte> -> seq<byte>, i: nat, j: nat)
    requires RegionIn(s, x, y, w, h) && Supported(s, SnapshotType(s))
    requires |bytes| == w * h * TexelBytes(q.format, q.componentType) && i < w && j < h
  {
    Cell(bytes, TexelBytes(q.format, q.componentType), w, h, i, j)
      == CopiedTexel(q, FromFloat(s), Convert(s, s.texels[y + j][x + i]), rounded)
  }

  lemma RegionCopied(q: TextureObject, s: Surface, x: nat, y: nat, w: nat, h: nat, snapshot: seq<byte>, bytes: seq<byte>, rounded: seq<byte> -> seq<byte>)
    requires Supported(s, SnapshotType(s)) && ShowsRegion(s, SnapshotType(s), x, y, w, h, snapshot)
    requires CopiedUpTo(q, FromFloat(s), snapshot, bytes, w * h, w * h, rounded)
    ensures CopiedRegion(q, s, x, y, w, h, bytes, rounded)
  {
    hide CopiedTexel, TexelBytes, Convert, Presentable, Supported, Cell, Piece, CopiedAt;
    forall i: nat, j: nat | i < w && j < h
      ensures CopiedAt(q, s, x, y, w, h, bytes, rounded, i, j)
    {
      TexelCopied(q, s, x, y, w, h, snapshot, bytes, rounded, i, j);
    }
  }

  lemma TexelCopied(q: TextureObject, s: Surface, x: nat, y: nat, w: nat, h: nat, snapshot: seq<byte>, bytes: seq<byte>,
                    rounded: seq<byte> -> seq<byte>, i: nat, j: nat)
    requires Supported(s, SnapshotType(s)) && ShowsRegion(s, SnapshotType(s), x, y, w, h, snapshot)
    requires CopiedUpTo(q, FromFloat(s), snapshot, bytes, w * h, w * h, rounded)
    requires i < w && j < h && |bytes| == w * h * TexelBytes(q.format, q.componentType)
    ensures CopiedAt(q, s, x, y, w, h, bytes, rounded, i, j)
  {
    hide CopiedTexel, TexelBytes, Convert, Presentable, Supported, Piece;
    var p := j * w + i;
    CellFits(w, h, 1, i, j);
    RowAndColumn(j, w, i);
    assert Cell(bytes, TexelBytes(q.format, q.componentType), w * h, 1, p, 0) == Piece(bytes, TexelBytes(q.format, q.componentType), p);
  }

  /** One packed texel, read back and copied into its own format. */
  lemma PackedTexelSurvives(q: TextureObject, s: Surface, texel: seq<byte>, rounded: seq<byte> -> seq<byte>)
    requires IsPacked(q.format) && !IsFloat(q.componentType) && !q.srgb && !s.srgb && s.format == Packed(PackedOf(q.format))
    requires Supported(s, SnapshotType(s)) && TexelOk(s, texel)
    ensures CopiedTexel(q, FromFloat(s), Convert(s, texel), rounded) == texel
  {
    hide Expand, CopyTexel, Presentable, Ruled, Fit;
    CopyInvertsExpand(PackedOf(q.format), Word(texel, 0));
    assert Word(texel, 0) == WordOf(texel[0], texel[1]);
  }

  /** Copying a packed target into a texture of the same packed format reproduces
      every 16-bit word of the region. */
  lemma PackedCopyIsExact(q: TextureObject, s: Surface, x: nat, y: nat, w: nat, h: nat, bytes: seq<byte>, rounded: seq<byte> -> seq<byte>, i: nat, j: nat)
    requires CopiedRegion(q, s, x, y, w, h, bytes, rounded) && i < w && j < h
    requires IsPacked(q.format) && !IsFloat(q.componentType) && !q.srgb && !s.srgb && s.format == Packed(PackedOf(q.format))
    ensures Cell(bytes, TexelBytes(q.format, q.componentType), w, h, i, j) == s.texels[y + j][x + i]
  {
    hide CopiedTexel, Convert, Cell, Presentable, Ruled, Fit;
    assert CopiedAt(q, s, x, y, w, h, bytes, rounded, i, j);
    PackedTexelSurvives(q, s, s.texels[y + j][x + i], rounded);
  }

  // ---------------------------------------------------------------- the call

  /** The texture a copy asks for. A level above zero keeps the base's type. */
  function CopyRequest(t: TextureObject, internalFormat: nat, level: nat, s: Surface): TextureObject {
    if internalFormat == SRGB || internalFormat == SRGB_ALPHA then
      t.(format := if internalFormat == SRGB then RGB else RGBA, componentType := FLOAT_TYPE, srgb := true)
    else
      t.(format := internalFormat, srgb := false,
         componentType := if level > 0 then t.componentType else if IsPacked(internalFormat) then PackedType(internalFormat)
                          else SnapshotType(s))
  }

  /** texture_packed_component_type. */
  function PackedType(format: nat): nat {
    if format == RGB565 then UNSIGNED_SHORT_5_6_5 else if format == RGBA4 then UNSIGNED_SHORT_4_4_4_4 else UNSIGNED_SHORT_5_5_5_1
  }

  /** The component types a base may have for a copy to join it. */
  predicate CopyJoins(t: TextureObject, q: TextureObject)
    requires |t.mips| == MIP_STORAGES
  {
    && LevelDefined(t, 0) && t.format == q.format && t.srgb == q.srgb && t.compressedFormat == 0
    && (if q.srgb then t.componentType == FLOAT_TYPE
        else if IsPacked(t.format) then t.componentType == PackedType(t.format)
        else t.componentType == UNSIGNED_BYTE_TYPE || IsFloat(t.componentType))
  }

  /** The state a copy sees besides the context: whether the framebuffer is
      complete and its colour target resolves. */
  datatype Source = Source(complete: bool, resolved: bool)

  /** What ringl_copy_tex_image_2d rejects on the 2D target before it allocates. */
  function CopyError(t: TextureObject, bound: bool, s: Surface, from: Source, level: int, internalFormat: nat,
                     x: int, y: int, width: int, height: int, border: int): Error
    requires |t.mips| == MIP_STORAGES
  {
    if !(internalFormat == SRGB || internalFormat == SRGB_ALPHA || IsColor(internalFormat)) then InvalidEnum
    else if level < 0 || level > MIP_STORAGES || border != 0 || x < 0 || y < 0 || width <= 0 || height <= 0
            || width > MAX_TEXTURE_SIZE || height > MAX_TEXTURE_SIZE then InvalidValue
    else if !bound then InvalidOperation
    else if !from.complete then InvalidFramebufferOperation
    else if !from.resolved then InvalidOperation
    else if x + width > s.width || y + height > s.height then InvalidValue
    else if level != 0 && !CopyJoins(t, CopyRequest(t, internalFormat, level, s)) then InvalidOperation
    else if level != 0 && (level >= LevelCount(t.width, t.height) || width != DimAt(t.width, level) || height != DimAt(t.height, level))
         then InvalidValue
    else NoError
  }

  lemma RequestFits(t: TextureObject, internalFormat: nat, level: nat, s: Surface)
    requires |t.mips| == MIP_STORAGES && (level > 0 ==> CopyJoins(t, CopyRequest(t, internalFormat, level, s)))
    ensures var q := CopyRequest(t, internalFormat, level, s);
            && FormatOk(q.format, q.componentType)
            && (level > 0 ==> q.format == t.format && q.componentType == t.componentType)
  {
  }

  /** The snapshot: a region of the target in temporary memory. */
  method TakeSnapshot(ctx: Context, target: ColorTarget, fence: FinishFence, x: nat, y: nat, w: nat, h: nat)
    returns (result: int, snapshot: array?<byte>, memory: nat)
    requires LedgerValid(ctx) && SurfaceValid(target.surface) && fence.value <= UINT64_MAX && 0 < w && 0 < h
    modifies ctx`active, ctx`cached, ctx`blocks, ctx.process, target, fence
    ensures LedgerValid(ctx) && Others(ctx) == old(Others(ctx)) && fence.value <= UINT64_MAX
    ensures result == 0 || result == 1 || result == -1
    ensures var bytes := w * h * PixelBytes(SnapshotType(target.surface));
            Untracked(ctx) == old(Untracked(ctx)) + if result == 0 then bytes else 0
    ensures result == 0 ==> snapshot != null && fresh(snapshot) && memory != 0 && Supported(target.surface, SnapshotType(target.surface))
    ensures result == 0 ==> ShowsRegion(target.surface, SnapshotType(target.surface), x, y, w, h, snapshot[..])
  {
    hide ShowsRegion, Settled, PixelBytes;
    snapshot, result := null, 1;
    var s := target.surface;
    var bytes := w * h * PixelBytes(SnapshotType(s));
    memory := AllocTemporary(ctx, bytes);
    if memory == 0 {
      return;
    }
    ghost var taken := LedgerOf(ctx);
    snapshot := new byte[bytes];
    result := ReadColorTarget(ctx, target, fence, true, x, y, w, h, SnapshotType(s), snapshot);
    SettledIs(taken, LedgerOf(ctx));
    if result != 0 {
      FreeTemporary(ctx, memory, bytes);
    }
  }

  lemma SettledIs(l: Ledger, l': Ledger)
    requires Settled(l, l')
    ensures l'.active == l.active && l'.untracked == l.untracked && l'.others == l.others
  {
  }

  /** Snapshot, allocate, convert, and give the snapshot back. */
  method MakeCopy(ctx: Context, target: ColorTarget, fence: FinishFence, sizeMax: nat, q: TextureObject, x: nat, y: nat, w: nat, h: nat,
                  rounded: seq<byte> -> seq<byte>)
    returns (result: int, bytes: seq<byte>)
    requires LedgerValid(ctx) && SurfaceValid(target.surface) && fence.value <= UINT64_MAX && 0 < w && 0 < h
    modifies ctx`active, ctx`cached, ctx`blocks, ctx.process, target, fence
    ensures LedgerValid(ctx) && Others(ctx) == old(Others(ctx)) && fence.value <= UINT64_MAX
    ensures result == 0 || result == 1 || result == -1
    ensures Untracked(ctx) == old(Untracked(ctx)) + if result == 0 then |bytes| else 0
    ensures result == 0 ==> CopiedRegion(q, target.surface, x, y, w, h, bytes, rounded)
  {
    hide ShowsRegion, Supported, TexelBytes, CopiedUpTo, CopiedRegion, SurfaceValid, LedgerValid, Others, PixelBytes, SnapshotType,
      FromFloat, Trimmed;
    ChargesCover(ctx);
    bytes := [];
    var s := target.surface;
    var snapshotSize := w * h * PixelBytes(SnapshotType(s));
    var size := w * h * TexelBytes(q.format, q.componentType);
    if snapshotSize > sizeMax || size > sizeMax {
      return 1, [];
    }
    var snapshot, memory;
    result, snapshot, memory := TakeSnapshot(ctx, target, fence, x, y, w, h);
    if result != 0 {
      return;
    }
    var ok;
    ok, bytes := ConvertSnapshot(ctx, s, q, x, y, w, h, snapshot, rounded);
    FreeTemporary(ctx, memory, snapshotSize);
    result := if ok then 0 else 1;
  }

  /** The replacement storage, charged and filled from the snapshot. */
  method ConvertSnapshot(ctx: Context, s: Surface, q: TextureObject, x: nat, y: nat, w: nat, h: nat, snapshot: array<byte>,
                         rounded: seq<byte> -> seq<byte>)
    returns (ok: bool, bytes: seq<byte>)
    requires LedgerValid(ctx) && Supported(s, SnapshotType(s)) && ShowsRegion(s, SnapshotType(s), x, y, w, h, snapshot[..])
    modifies ctx`active, ctx`cached, ctx`blocks, ctx.process
    ensures LedgerValid(ctx) && Others(ctx) == old(Others(ctx))
    ensures Untracked(ctx) == old(Untracked(ctx)) + if ok then |bytes| else 0
    ensures ok ==> CopiedRegion(q, s, x, y, w, h, bytes, rounded)
  {
    hide ShowsRegion, Supported, TexelBytes, CopiedUpTo, CopiedRegion, LedgerValid, Others, PixelBytes, SnapshotType, FromFloat;
    var size := w * h * TexelBytes(q.format, q.componentType);
    SnapshotSize(s, x, y, w, h, snapshot[..]);
    var replacement := AllocTemporary(ctx, size);
    if replacement == 0 {
      return false, [];
    }
    var storage := new byte[size];
    assert w * h * 1 == w * h;
    bytes := CopyTexels(q, FromFloat(s), snapshot[..], storage[..], w * h, rounded);
    RegionCopied(q, s, x, y, w, h, snapshot[..], bytes, rounded);
    CopiedSize(q, s, x, y, w, h, bytes, rounded);
    ok := true;
  }

  lemma ChargesCover(ctx: Context)
    requires LedgerValid(ctx)
    ensures 0 <= Untracked(ctx)
  {
  }

  lemma SnapshotSize(s: Surface, x: nat, y: nat, w: nat, h: nat, snapshot: seq<byte>)
    requires Supported(s, SnapshotType(s)) && ShowsRegion(s, SnapshotType(s), x, y, w, h, snapshot)
    ensures w * h * (if FromFloat(s) then 16 else 4) <= |snapshot|
    ensures PixelBytes(SnapshotType(s)) == if FromFloat(s) then 16 else 4
  {
  }

  lemma CopiedSize(q: TextureObject, s: Surface, x: nat, y: nat, w: nat, h: nat, bytes: seq<byte>, rounded: seq<byte> -> seq<byte>)
    requires CopiedRegion(q, s, x, y, w, h, bytes, rounded)
    ensures |bytes| == w * h * TexelBytes(q.format, q.componentType)
  {
  }

  /** glCopyTexImage2D on the 2D target: the level is defined with the converted
      region, or nothing of the texture or the charge changes. */
  method CopyTexImage2D(ctx: Context, target: ColorTarget, fence: FinishFence, sizeMax: nat, from: Source, level: int, internalFormat: nat,
                        x: int, y: int, width: int, height: int, border: int, rounded: seq<byte> -> seq<byte>)
    requires TexturesValid(ctx) && SurfaceValid(target.surface) && fence.value <= UINT64_MAX
    modifies ctx`active, ctx`cached, ctx`blocks, ctx`textures, ctx`pendingError, ctx.process, ctx.backend, target, fence
    ensures StorageFrame(ctx) && fence.value <= UINT64_MAX
    ensures Discarded(old(ctx.backend.objects), ctx.backend.objects, old(ctx.textures), ctx.textures, Bound2D(ctx))
    ensures var k := Bound2D(ctx);
            var t := if k < OBJECT_SLOT_COUNT then old(ctx.textures)[k] else ZeroTexture();
            var s := target.surface;
            var error := CopyError(t, k < OBJECT_SLOT_COUNT, s, from, level, internalFormat, x, y, width, height, border);
            if error != NoError then
              ctx.textures == old(ctx.textures) && ctx.pendingError == Context.Pending(old(ctx.pendingError), error)
            else
              || (&& ctx.textures == old(ctx.textures) && Untracked(ctx) == old(Untracked(ctx))
                  && (|| ctx.pendingError == Context.Pending(old(ctx.pendingError), OutOfMemory)
                      || ctx.pendingError == Context.Pending(old(ctx.pendingError), InvalidOperation)))
              || (&& ctx.pendingError == old(ctx.pendingError) && k < OBJECT_SLOT_COUNT
                  && var q := CopyRequest(t, internalFormat, level, s);
                     var bytes := TexImages.LevelBytes(ctx.textures[k], level);
                     && CopiedRegion(q, s, x, y, width, height, bytes, rounded)
                     && ctx.textures == old(ctx.textures)[k := TexImages.WithDefinition(t, q, level, bytes, width, height, 0)])
  {
    hide Sized, OwnedBytes, LedgerValid, TexelBytes, Others, FormatOk, CopyRequest, CopyJoins, CopiedRegion, SurfaceValid,
      Surplus, IsColor, LevelCount, DimAt, TexImages.WithDefinition;
    var k := Bound2D(ctx);
    var t := if k < OBJECT_SLOT_COUNT then ctx.textures[k] else ZeroTexture();
    var s := target.surface;
    var error := CopyError(t, k < OBJECT_SLOT_COUNT, s, from, level, internalFormat, x, y, width, height, border);
    if error != NoError {
      ctx.RecordError(error);
      return;
    }
    var q := CopyRequest(t, internalFormat, level, s);
    RequestFits(t, internalFormat, level, s);
    var result := CopyLevel(ctx, target, fence, sizeMax, k, q, level, x, y, width, height, rounded);
    if result != 0 {
      ctx.RecordError(if result == 1 then OutOfMemory else InvalidOperation);
    }
  }

  /** All of a copy after its checks. */
  method CopyLevel(ctx: Context, target: ColorTarget, fence: FinishFence, sizeMax: nat, k: nat, q: TextureObject, level: nat,
                   x: nat, y: nat, w: nat, h: nat, rounded: seq<byte> -> seq<byte>)
    returns (result: int)
    requires IsTexture(ctx, k) && SurfaceValid(target.surface) && fence.value <= UINT64_MAX
    requires level <= MIP_STORAGES && FormatOk(q.format, q.componentType)
    requires 0 < w <= MAX_TEXTURE_SIZE && 0 < h <= MAX_TEXTURE_SIZE
    requires level > 0 ==> q.format == ctx.textures[k].format && q.componentType == ctx.textures[k].componentType
    modifies ctx`active, ctx`cached, ctx`blocks, ctx`textures, ctx.process, ctx.backend, target, fence
    ensures StorageFrame(ctx) && fence.value <= UINT64_MAX
    ensures Discarded(old(ctx.backend.objects), ctx.backend.objects, old(ctx.textures), ctx.textures, k)
    ensures result == 0 || result == 1 || result == -1
    ensures result != 0 ==> ctx.textures == old(ctx.textures) && Untracked(ctx) == old(Untracked(ctx))
    ensures result == 0 ==> CopiedRegion(q, target.surface, x, y, w, h, TexImages.LevelBytes(ctx.textures[k], level), rounded)
    ensures result == 0 ==> ctx.textures == old(ctx.textures)[k :=
                              TexImages.WithDefinition(old(ctx.textures)[k], q, level, TexImages.LevelBytes(ctx.textures[k], level), w, h, 0)]
  {
    hide Sized, OwnedBytes, LedgerValid, TexelBytes, Others, FormatOk, CopiedRegion, SurfaceValid;
    var bytes;
    result, bytes := MakeCopy(ctx, target, fence, sizeMax, q, x, y, w, h, rounded);
    if result == 0 {
      CopiedSize(q, target.surface, x, y, w, h, bytes, rounded);
      TexImages.InstallLevel(ctx, k, q, level, bytes, w, h, 0);
    }
  }
}
