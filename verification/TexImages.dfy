/** Defining and updating texture levels in src/objects/texture.c: glTexImage2D and
    glTexSubImage2D on the 2D target. */
module TexImages {
  import opened Limits
  import opened StagingBlocks
  import opened Arithmetic
  import opened ContextState
  import opened ContextLedger
  import opened Grids
  import opened TextureFormats
  import opened ColorConversion
  import opened TexUpload
  import opened MipFilter
  import opened TextureStorage

  // -------------------------------------------------------------- sub-images

  function LevelBytes(t: TextureObject, level: nat): seq<byte>
    requires |t.mips| == MIP_STORAGES && level <= MIP_STORAGES
  {
    StoredLevel(t.bytes, t.mips, level)
  }

  function LevelWidth(t: TextureObject, level: nat): nat
    requires |t.mips| == MIP_STORAGES && level <= MIP_STORAGES
  {
    if level == 0 then t.width else t.mips[level - 1].width
  }

  function LevelHeight(t: TextureObject, level: nat): nat
    requires |t.mips| == MIP_STORAGES && level <= MIP_STORAGES
  {
    if level == 0 then t.height else t.mips[level - 1].height
  }

  /** The rectangle of a call. */
  datatype Rect = Rect(x: int, y: int, width: int, height: int)

  /** The bytes of a call: NULL, or memory of which the caller vouches for `size`. */
  datatype Pixels = Pixels(isNull: bool, size: nat)

  predicate SourceBad(u: Upload, width: nat, height: nat, p: Pixels)
    requires AlignmentOk(u.alignment)
  {
    var required := SourceBytes(width, height, UploadTexel(u), u.alignment);
    width * UploadTexel(u) + u.alignment - 1 > UINT64_MAX || required > UINT64_MAX || p.size < required
  }

  /** What ringl_tex_sub_image_2d_impl rejects, in its order. `pending` is the
      compressed format of an enclosing compressed upload. */
  function SubImageError(t: TextureObject, bound: bool, level: int, r: Rect, u: Upload, p: Pixels, pending: nat): Error
    requires |t.mips| == MIP_STORAGES && AlignmentOk(u.alignment)
  {
    if level < 0 || level > MIP_STORAGES || r.x < 0 || r.y < 0 || r.width < 0 || r.height < 0 then InvalidValue
    else if !bound || !LevelDefined(t, 0) || t.compressedFormat != pending then InvalidOperation
    else if !LevelDefined(t, level) then InvalidOperation
    else if !(UploadOk(t, u.format, u.componentType) || DepthUploadOk(t.format, u.format, u.componentType)) then InvalidEnum
    else if r.x + r.width > LevelWidth(t, level) || r.y + r.height > LevelHeight(t, level) then InvalidValue
    else if r.width == 0 || r.height == 0 then NoError
    else if p.isNull || SourceBad(u, r.width, r.height, p) then InvalidValue
    else NoError
  }

  /** The texture with new bytes in one level: a base update drops the generated
      levels only, an update of a higher level makes it an uploaded one. */
  function WithLevel(t: TextureObject, level: nat, bytes: seq<byte>): TextureObject
    requires |t.mips| == MIP_STORAGES && level <= MIP_STORAGES
  {
    if level == 0 then t.(image := 0, bytes := bytes, mips := WithoutGenerated(t.mips))
    else t.(image := 0, mips := t.mips[level - 1 := t.mips[level - 1].(bytes := bytes, generated := false)])
  }

  /** The level's texels in the rectangle are the converted source texels; all
      others, and all other levels but generated ones, are what they were. */
  ghost predicate SubImaged(before: TextureObject, after: TextureObject, level: nat, r: Rect, u: Upload)
    requires |before.mips| == |after.mips| == MIP_STORAGES && level <= MIP_STORAGES
    requires 0 <= r.x && 0 <= r.y && 0 < r.width && 0 < r.height && UploadFits(before, u, r.width, r.height)
  {
    && |LevelBytes(before, level)|
         == LevelWidth(before, level) * LevelHeight(before, level) * TexelBytes(before.format, before.componentType)
    && after == WithLevel(before, level, LevelBytes(after, level))
    && Updated(before, u, LevelBytes(before, level), LevelBytes(after, level), LevelWidth(before, level), LevelHeight(before, level),
               r.x, r.y, r.width, r.height, 0, r.height)
  }

  lemma SizedLevel(t: TextureObject, level: nat)
    requires Sized(t) && |t.mips| == MIP_STORAGES && LevelDefined(t, level)
    ensures |LevelBytes(t, level)| == LevelWidth(t, level) * LevelHeight(t, level) * TexelBytes(t.format, t.componentType)
  {
  }

  /** Writing level bytes of the same size keeps sizes and ownership. */
  lemma SameSizeLevel(t: TextureObject, level: nat, bytes: seq<byte>)
    requires |t.mips| == MIP_STORAGES && level <= MIP_STORAGES && Sized(t) && LevelDefined(t, level)
    requires |bytes| == |LevelBytes(t, level)|
    ensures var after := PutLevel(t, level, bytes);
            OwnedBytes(after) == OwnedBytes(t) && Sized(after)
  {
    hide TexelBytes;
    if level > 0 {
      var m := t.mips[level - 1];
      MipBytesUpdate(t.mips, level - 1, m.(bytes := bytes, generated := false));
    }
  }

  /** The stores of the loop, and of `generated`. */
  function PutLevel(t: TextureObject, level: nat, bytes: seq<byte>): TextureObject
    requires |t.mips| == MIP_STORAGES && level <= MIP_STORAGES
  {
    if level == 0 then t.(bytes := bytes)
    else t.(mips := t.mips[level - 1 := t.mips[level - 1].(bytes := bytes, generated := false)])
  }

  /** glTexSubImage2D on the 2D target. */
  method TexSubImage2D(ctx: Context, level: int, r: Rect, u: Upload, p: Pixels, pending: nat)
    requires TexturesValid(ctx) && AlignmentOk(u.alignment) && (!p.isNull ==> p.size <= |u.pixels|)
    modifies ctx`active, ctx`textures, ctx`pendingError, ctx.process`globalBytes, ctx.backend
    ensures StorageFrame(ctx)
    ensures Discarded(old(ctx.backend.objects), ctx.backend.objects, old(ctx.textures), ctx.textures, Bound2D(ctx))
    ensures var k := Bound2D(ctx);
            var t := if k < OBJECT_SLOT_COUNT then old(ctx.textures)[k] else ZeroTexture();
            var error := SubImageError(t, k < OBJECT_SLOT_COUNT, level, r, u, p, pending);
            if error != NoError then
              && ctx.textures == old(ctx.textures) && ctx.active == old(ctx.active)
              && ctx.backend.objects == old(ctx.backend.objects)
              && ctx.pendingError == Context.Pending(old(ctx.pendingError), error)
            else if r.width == 0 || r.height == 0 then
              ctx.textures == old(ctx.textures) && ctx.pendingError == old(ctx.pendingError)
            else
              && ctx.pendingError == old(ctx.pendingError)
              && k < OBJECT_SLOT_COUNT && UploadFits(t, u, r.width, r.height)
              && SubImaged(t, ctx.textures[k], level, r, u)
              && ctx.textures == old(ctx.textures)[k := ctx.textures[k]]
  {
    hide Updated, UploadFits, Sized, OwnedBytes, LedgerValid, UploadOk, DepthUploadOk, TexelBytes, SourceBytes, Others, Surplus, WithoutGenerated;
    var k := Bound2D(ctx);
    var t := if k < OBJECT_SLOT_COUNT then ctx.textures[k] else ZeroTexture();
    var error := SubImageError(t, k < OBJECT_SLOT_COUNT, level, r, u, p, pending);
    if error != NoError {
      ctx.RecordError(error);
      return;
    }
    if r.width == 0 || r.height == 0 {
      return;
    }
    SizedLevel(t, level);
    AcceptedFits(t, u, r.width, r.height, p);
    var after := CopyTexels(t, u, LevelBytes(t, level), LevelWidth(t, level), LevelHeight(t, level), r.x, r.y, r.width, r.height);
    UpdatedKeepsSize(t, u, LevelBytes(t, level), after, LevelWidth(t, level), LevelHeight(t, level), r);
    SameSizeLevel(t, level, after);
    Assign(ctx, k, PutLevel(t, level, after), 0);
    DiscardImage(ctx, k);
    if level == 0 {
      DropGeneratedMips(ctx, k);
    }
  }

  lemma AcceptedFits(t: TextureObject, u: Upload, width: nat, height: nat, p: Pixels)
    requires SourceOk(t, u.format, u.componentType)
    requires AlignmentOk(u.alignment) && !SourceBad(u, width, height, p) && p.size <= |u.pixels|
    ensures UploadFits(t, u, width, height)
  {
  }

  lemma UpdatedKeepsSize(t: TextureObject, u: Upload, before: seq<byte>, after: seq<byte>, w: nat, h: nat, r: Rect)
    requires 0 <= r.x && 0 <= r.y && 0 <= r.width && 0 <= r.height && UploadFits(t, u, r.width, r.height)
    requires |before| == w * h * TexelBytes(t.format, t.componentType)
    requires Updated(t, u, before, after, w, h, r.x, r.y, r.width, r.height, 0, r.height)
    ensures |after| == |before|
  {
  }

  // ------------------------------------------------------------- definitions

  /** texture_storage_format. */
  function StorageFormat(internalFormat: nat, format: nat, componentType: nat): nat {
    if internalFormat == RGB && format == RGB && componentType == UNSIGNED_SHORT_5_6_5 then RGB565
    else if internalFormat == RGBA && format == RGBA && componentType == UNSIGNED_SHORT_4_4_4_4 then RGBA4
    else if internalFormat == RGBA && format == RGBA && componentType == UNSIGNED_SHORT_5_5_5_1 then RGB5_A1
    else if IsColor(internalFormat) && !IsPacked(internalFormat) && internalFormat == format && IsFloat(componentType) then internalFormat
    else if IsColor(internalFormat) && internalFormat == format && componentType == UNSIGNED_BYTE_TYPE then internalFormat
    else 0
  }

  /** texture_depth_storage_format. */
  function DepthStorageFormat(internalFormat: nat, format: nat, componentType: nat): nat {
    if format == DEPTH_COMPONENT && internalFormat == DEPTH_COMPONENT
       && (componentType == UNSIGNED_SHORT_TYPE || componentType == UNSIGNED_INT_TYPE) then DEPTH_COMPONENT32F
    else if format == DEPTH_COMPONENT && internalFormat == DEPTH_COMPONENT32F && componentType == FLOAT_TYPE then DEPTH_COMPONENT32F
    else if format == DEPTH_STENCIL && componentType == UNSIGNED_INT_24_8
            && (internalFormat == DEPTH_STENCIL || internalFormat == DEPTH24_STENCIL8) then DEPTH24_STENCIL8
    else 0
  }

  /** The texture a definition asks for: `t` with the requested format. */
  function Requested(t: TextureObject, internalFormat: nat, u: Upload): TextureObject {
    if internalFormat == SRGB || internalFormat == SRGB_ALPHA then
      t.(format := if internalFormat == SRGB then RGB else RGBA, componentType := FLOAT_TYPE, srgb := true)
    else
      var storage := StorageFormat(internalFormat, u.format, u.componentType);
      if storage != 0 then t.(format := storage, componentType := u.componentType, srgb := false)
      else t.(format := DepthStorageFormat(internalFormat, u.format, u.componentType), componentType := 0, srgb := false)
  }

  predicate RequestOk(internalFormat: nat, u: Upload) {
    if internalFormat == SRGB || internalFormat == SRGB_ALPHA then u.componentType == UNSIGNED_BYTE_TYPE && u.format == internalFormat
    else StorageFormat(internalFormat, u.format, u.componentType) != 0 || DepthStorageFormat(internalFormat, u.format, u.componentType) != 0
  }

  lemma RequestIsSource(t: TextureObject, internalFormat: nat, u: Upload)
    requires RequestOk(internalFormat, u)
    ensures var q := Requested(t, internalFormat, u); SourceOk(q, u.format, u.componentType) && FormatOk(q.format, q.componentType)
  {
  }

  /** Whether a level above zero fits the base it joins. */
  predicate JoinsBase(t: TextureObject, q: TextureObject, pending: nat)
    requires |t.mips| == MIP_STORAGES
  {
    LevelDefined(t, 0) && t.format == q.format && t.componentType == q.componentType && t.srgb == q.srgb && t.compressedFormat == pending
  }

  /** What ringl_tex_image_2d_impl rejects on the 2D target before it allocates. */
  function DefineError(t: TextureObject, bound: bool, level: int, internalFormat: nat, width: int, height: int, border: int,
                       u: Upload, p: Pixels, pending: nat): Error
    requires |t.mips| == MIP_STORAGES && AlignmentOk(u.alignment)
  {
    if !RequestOk(internalFormat, u) then InvalidEnum
    else if level < 0 || level > MIP_STORAGES || border != 0 || width < 0 || height < 0
            || width > MAX_TEXTURE_SIZE || height > MAX_TEXTURE_SIZE then InvalidValue
    else if !bound then InvalidOperation
    else if level != 0 && !JoinsBase(t, Requested(t, internalFormat, u), pending) then InvalidOperation
    else if level != 0 && (level >= LevelCount(t.width, t.height) || width != DimAt(t.width, level) || height != DimAt(t.height, level))
         then InvalidValue
    else if !p.isNull && SourceBad(u, width, height, p) then InvalidValue
    else NoError
  }

  /** A texel of a level defined without pixels: zero, with alpha one where the
      format has none. */
  function DefaultTexel(q: TextureObject): (r: seq<byte>)
    ensures |r| == TexelBytes(q.format, q.componentType)
  {
    var n := TexelBytes(q.format, q.componentType);
    if q.format != RGB && q.format != LUMINANCE then seq(n, _ => 0)
    else if q.componentType == FLOAT_TYPE then seq(12, _ => 0) + BytesOf(ONE_FLOAT)
    else if q.componentType == HALF_FLOAT then [0, 0, 0, 0, 0, 0, 0, 0x3c]
    else [0, 0, 0, 255]
  }

  /** What every texel of the new level is. */
  ghost predicate DefinedContents(q: TextureObject, u: Upload, p: Pixels, bytes: seq<byte>, width: nat, height: nat)
    requires p.isNull || UploadFits(q, u, width, height)
  {
    var n := TexelBytes(q.format, q.componentType);
    && |bytes| == width * height * n
    && forall x: nat, y: nat :: x < width && y < height ==>
         Cell(bytes, n, width, height, x, y) == if p.isNull then DefaultTexel(q) else Uploaded(q, u, width, height, x, y)
  }

  /** The texels before (i, j), row by row, are the default. */
  ghost predicate FilledUpTo(q: TextureObject, bytes: seq<byte>, width: nat, height: nat, i: nat, j: nat) {
    var n := TexelBytes(q.format, q.componentType);
    && |bytes| == width * height * n
    && forall x: nat, y: nat :: x < width && y < height && (y < j || (y == j && x < i)) ==> Cell(bytes, n, width, height, x, y) == DefaultTexel(q)
  }

  lemma OneMoreDefault(q: TextureObject, before: seq<byte>, after: seq<byte>, width: nat, height: nat, i: nat, j: nat)
    requires i < width && j < height && FilledUpTo(q, before, width, height, i, j)
    requires CellPut(before, after, TexelBytes(q.format, q.componentType), width, height, i, j, DefaultTexel(q))
    ensures FilledUpTo(q, after, width, height, i + 1, j)
    ensures i + 1 == width ==> FilledUpTo(q, after, width, height, 0, j + 1)
  {
    hide DefaultTexel, Cell, TexelBytes;
  }

  /** memset and the default alpha loops. */
  method FillDefaults(q: TextureObject, width: nat, height: nat) returns (bytes: seq<byte>)
    ensures |bytes| == width * height * TexelBytes(q.format, q.componentType)
    ensures forall x: nat, y: nat :: x < width && y < height ==>
              Cell(bytes, TexelBytes(q.format, q.componentType), width, height, x, y) == DefaultTexel(q)
  {
    hide DefaultTexel, Cell, TexelBytes, CellPut;
    var n := TexelBytes(q.format, q.componentType);
    bytes := seq(width * height * n, _ => 0);
    if width == 0 {
      return;
    }
    var row := 0;
    while row < height
      invariant 0 <= row <= height && FilledUpTo(q, bytes, width, height, 0, row)
    {
      var column := 0;
      while column < width
        invariant 0 <= column <= width && FilledUpTo(q, bytes, width, height, column, row)
        invariant column == width ==> FilledUpTo(q, bytes, width, height, 0, row + 1)
      {
        ghost var before := bytes;
        bytes := PutCell(bytes, n, width, height, column, row, DefaultTexel(q));
        OneMoreDefault(q, before, bytes, width, height, column, row);
        column := column + 1;
      }
      row := row + 1;
    }
  }

  /** The texture after a definition of one level. */
  function WithDefinition(t: TextureObject, q: TextureObject, level: nat, bytes: seq<byte>, width: nat, height: nat, pending: nat): TextureObject
    requires |t.mips| == MIP_STORAGES && level <= MIP_STORAGES
  {
    if level == 0 then
      t.(image := 0, bytes := bytes, width := width, height := height, format := q.format, componentType := q.componentType,
         compressedFormat := pending, srgb := q.srgb, defined := true, mips := Dropped(t.mips, 1))
    else t.(image := 0, mips := t.mips[level - 1 := MipStorage(bytes, width, height, true, false)])
  }

  lemma DefinitionBalance(t: TextureObject, q: TextureObject, level: nat, bytes: seq<byte>, width: nat, height: nat, pending: nat)
    requires |t.mips| == MIP_STORAGES && level <= MIP_STORAGES && Sized(t) && FormatOk(q.format, q.componentType)
    requires width <= MAX_TEXTURE_SIZE && height <= MAX_TEXTURE_SIZE
    requires level > 0 ==> q.format == t.format && q.componentType == t.componentType
    requires |bytes| == width * height * TexelBytes(q.format, q.componentType)
    ensures var after := WithDefinition(t, q, level, bytes, width, height, pending);
            && Sized(after)
            && OwnedBytes(after) == OwnedBytes(t) + |bytes|
                                    - if level == 0 then FlatBytes(t) else |LevelBytes(t, level)|
  {
    hide TexelBytes;
    if level == 0 {
      NoMipBytes(Dropped(t.mips, 1));
    } else {
      MipBytesUpdate(t.mips, level - 1, MipStorage(bytes, width, height, true, false));
    }
  }

  lemma FlatWithinOwned(t: TextureObject, level: nat)
    requires |t.mips| == MIP_STORAGES && level <= MIP_STORAGES
    ensures FlatBytes(t) <= OwnedBytes(t) && |LevelBytes(t, level)| <= FlatBytes(t)
  {
    if level > 0 {
      MipBytesUpdate(t.mips, level - 1, NO_MIP);
    }
  }

  /** The end of a definition: the level's new storage, already charged, replaces
      what the texture held there. */
  method InstallLevel(ctx: Context, k: nat, q: TextureObject, level: nat, bytes: seq<byte>, width: nat, height: nat, pending: nat)
    requires IsTexture(ctx, k) && level <= MIP_STORAGES && FormatOk(q.format, q.componentType)
    requires width <= MAX_TEXTURE_SIZE && height <= MAX_TEXTURE_SIZE
    requires level > 0 ==> q.format == ctx.textures[k].format && q.componentType == ctx.textures[k].componentType
    requires |bytes| == width * height * TexelBytes(q.format, q.componentType) && |bytes| <= Surplus(ctx)
    modifies ctx`active, ctx`textures, ctx.process`globalBytes, ctx.backend
    ensures TexturesValid(ctx) && Others(ctx) == old(Others(ctx))
    ensures Discarded(old(ctx.backend.objects), ctx.backend.objects, old(ctx.textures), ctx.textures, k)
    ensures Surplus(ctx) == old(Surplus(ctx)) - |bytes|
    ensures ctx.textures == old(ctx.textures)[k := WithDefinition(old(ctx.textures)[k], q, level, bytes, width, height, pending)]
  {
    hide Sized, OwnedBytes, LedgerValid, Surplus, Others, TexelBytes, FormatOk;
    DiscardImage(ctx, k);
    if level == 0 {
      DropMipsFrom(ctx, k, 1);
    }
    var t := ctx.textures[k];
    var freed := |LevelBytes(t, level)|;
    FlatWithinOwned(t, level);
    if level == 0 {
      NoMipBytes(t.mips);
      DroppedTwice(old(ctx.textures)[k].mips);
    }
    DefinitionBalance(t, q, level, bytes, width, height, pending);
    Assign(ctx, k, WithDefinition(t, q, level, bytes, width, height, pending), freed);
  }

  lemma DroppedTwice(mips: seq<MipStorage>)
    ensures Dropped(Dropped(mips, 1), 1) == Dropped(mips, 1)
  {
  }

  /** Reserve, allocate and convert: the bytes of the new level, charged, or nothing. */
  method MakeLevelBytes(ctx: Context, sizeMax: nat, q: TextureObject, u: Upload, p: Pixels, width: nat, height: nat)
    returns (ok: bool, bytes: seq<byte>)
    requires LedgerValid(ctx) && (p.isNull || UploadFits(q, u, width, height))
    modifies ctx`active, ctx`cached, ctx`blocks, ctx.process
    ensures LedgerValid(ctx) && Others(ctx) == old(Others(ctx))
    ensures Untracked(ctx) == old(Untracked(ctx)) + if ok then |bytes| else 0
    ensures ok ==> DefinedContents(q, u, p, bytes, width, height)
  {
    hide UploadFits, Uploaded, DefaultTexel, Cell, TexelBytes;
    var size := width * height * TexelBytes(q.format, q.componentType);
    if size > sizeMax {
      return false, [];
    }
    if size == 0 {
      NoCells(width, height, TexelBytes(q.format, q.componentType));
      return true, [];
    }
    var memory := AllocTemporary(ctx, size);
    if memory == 0 {
      return false, [];
    }
    if p.isNull {
      bytes := FillDefaults(q, width, height);
    } else {
      var replacement := new byte[size];
      bytes := CopyTexels(q, u, replacement[..], width, height, 0, 0, width, height);
      WholeIsDefined(q, u, p, replacement[..], bytes, width, height);
    }
    ok := true;
  }

  lemma NoCells(width: nat, height: nat, n: nat)
    requires width * height * n == 0 && 0 < n
    ensures width == 0 || height == 0
  {
    if 0 < width && 0 < height {
      MulMonotone(1, width, height);
      MulMonotone(1, width * height, n);
    }
  }

  lemma WholeIsDefined(q: TextureObject, u: Upload, p: Pixels, before: seq<byte>, bytes: seq<byte>, width: nat, height: nat)
    requires !p.isNull && UploadFits(q, u, width, height)
    requires |before| == width * height * TexelBytes(q.format, q.componentType)
    requires Updated(q, u, before, bytes, width, height, 0, 0, width, height, 0, height)
    ensures DefinedContents(q, u, p, bytes, width, height)
  {
    hide Uploaded, Cell, TexelBytes, UploadFits;
  }

  /** All of a definition that can fail only for want of memory. */
  method DefineLevel(ctx: Context, sizeMax: nat, k: nat, q: TextureObject, level: nat, u: Upload, p: Pixels, width: nat, height: nat, pending: nat)
    returns (ok: bool)
    requires IsTexture(ctx, k) && level <= MIP_STORAGES && FormatOk(q.format, q.componentType)
    requires width <= MAX_TEXTURE_SIZE && height <= MAX_TEXTURE_SIZE && (p.isNull || UploadFits(q, u, width, height))
    requires level > 0 ==> q.format == ctx.textures[k].format && q.componentType == ctx.textures[k].componentType
    modifies ctx`active, ctx`cached, ctx`blocks, ctx`textures, ctx.process, ctx.backend
    ensures StorageFrame(ctx)
    ensures Discarded(old(ctx.backend.objects), ctx.backend.objects, old(ctx.textures), ctx.textures, k)
    ensures !ok ==> ctx.textures == old(ctx.textures) && Untracked(ctx) == old(Untracked(ctx))
    ensures ok ==> DefinedContents(q, u, p, LevelBytes(ctx.textures[k], level), width, height)
    ensures ok ==> ctx.textures == old(ctx.textures)[k :=
                     WithDefinition(old(ctx.textures)[k], q, level, LevelBytes(ctx.textures[k], level), width, height, pending)]
  {
    hide UploadFits, Sized, OwnedBytes, LedgerValid, TexelBytes, Others, FormatOk, DefinedContents;
    var bytes;
    ok, bytes := MakeLevelBytes(ctx, sizeMax, q, u, p, width, height);
    if ok {
      DefinedSize(q, u, p, bytes, width, height);
      InstallLevel(ctx, k, q, level, bytes, width, height, pending);
    }
  }

  /** glTexImage2D on the 2D target: the level is defined with exactly the
      converted pixels, or nothing of the texture or the charge changes; `defined`
      says which. */
  method TexImage2D(ctx: Context, sizeMax: nat, level: int, internalFormat: nat, width: int, height: int, border: int,
                    u: Upload, p: Pixels, pending: nat)
    returns (defined: bool)
    requires TexturesValid(ctx) && AlignmentOk(u.alignment) && (!p.isNull ==> p.size <= |u.pixels|)
    modifies ctx`active, ctx`cached, ctx`blocks, ctx`textures, ctx`pendingError, ctx.process, ctx.backend
    ensures StorageFrame(ctx)
    ensures Discarded(old(ctx.backend.objects), ctx.backend.objects, old(ctx.textures), ctx.textures, Bound2D(ctx))
    ensures var k := Bound2D(ctx);
            var t := if k < OBJECT_SLOT_COUNT then old(ctx.textures)[k] else ZeroTexture();
            var error := DefineError(t, k < OBJECT_SLOT_COUNT, level, internalFormat, width, height, border, u, p, pending);
            if defined then
              && error == NoError && ctx.pendingError == old(ctx.pendingError) && k < OBJECT_SLOT_COUNT
              && var q := Requested(t, internalFormat, u);
                 var bytes := LevelBytes(ctx.textures[k], level);
                 && (p.isNull || UploadFits(q, u, width, height))
                 && DefinedContents(q, u, p, bytes, width, height)
                 && ctx.textures == old(ctx.textures)[k := WithDefinition(t, q, level, bytes, width, height, pending)]
            else
              && ctx.textures == old(ctx.textures) && Untracked(ctx) == old(Untracked(ctx))
              && (error != NoError ==> ctx.active == old(ctx.active))
              && ctx.pendingError == Context.Pending(old(ctx.pendingError), if error != NoError then error else OutOfMemory)
  {
    hide UploadFits, Sized, OwnedBytes, LedgerValid, TexelBytes, SourceBytes, Others, SourceOk, FormatOk, Requested, RequestOk,
      DefinedContents, JoinsBase, StorageFormat, DepthStorageFormat, WithDefinition, LevelCount, DimAt, SourceBad, LevelDefined, Surplus;
    var k := Bound2D(ctx);
    var t := if k < OBJECT_SLOT_COUNT then ctx.textures[k] else ZeroTexture();
    var error := DefineError(t, k < OBJECT_SLOT_COUNT, level, internalFormat, width, height, border, u, p, pending);
    if error != NoError {
      ctx.RecordError(error);
      return false;
    }
    var q := Requested(t, internalFormat, u);
    RequestIsSource(t, internalFormat, u);
    if !p.isNull {
      AcceptedFits(q, u, width, height, p);
    }
    if level != 0 {
      JoinedFormat(t, q, pending);
    }
    defined := DefineLevel(ctx, sizeMax, k, q, level, u, p, width, height, pending);
    if !defined {
      ctx.RecordError(OutOfMemory);
    }
  }

  lemma JoinedFormat(t: TextureObject, q: TextureObject, pending: nat)
    requires |t.mips| == MIP_STORAGES && JoinsBase(t, q, pending)
    ensures q.format == t.format && q.componentType == t.componentType
  {
  }

  lemma DefinedSize(q: TextureObject, u: Upload, p: Pixels, bytes: seq<byte>, width: nat, height: nat)
    requires (p.isNull || UploadFits(q, u, width, height)) && DefinedContents(q, u, p, bytes, width, height)
    ensures |bytes| == width * height * TexelBytes(q.format, q.componentType)
  {
  }
}
