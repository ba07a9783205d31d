/** Compressed images and framebuffer copies on a cube face in src/objects/texture.c:
    the 2D calls, inside the window that lends the face. */
module CubeImages {
  import opened Limits
  import opened StagingBlocks
  import opened ContextState
  import opened ContextLedger
  import opened Arithmetic
  import opened TextureFormats
  import opened TexUpload
  import opened TextureStorage
  import opened TexImages
  import opened BlockDecoding
  import opened LinearImages
  import opened CompressedImages
  import opened CubeFaces
  import opened CubeMipmaps
  import ColorConversion
  import Readback
  import CopyImages

  // ---------------------------------------------------------- compressed images

  /** What the faces are compared with: the sRGB formats ask for the sRGB flag. */
  function ComparedImage(t: TextureObject, p: Picture): TextureObject {
    t.(format := OutputFormat(p.codec), componentType := OutputType(p), srgb := p.srgb)
  }

  /** What the call rejects before it opens the window. */
  function CubeCompressedError(t: TextureObject, bound: bool, f: nat, level: int, format: nat, width: int, height: int, border: int, tones: Tones): Error {
    if f >= CUBE_FACE_COUNT || !Known(format) then InvalidEnum
    else if !ArgumentsOk(level, width, height, border) then InvalidValue
    else if level == 0 && width != height then InvalidValue
    else if !bound then InvalidOperation
    else if level == 0 && !BaseCompatible(t.faces, f, width, height, ComparedImage(t, PictureOf(format, tones)), format) then InvalidOperation
    else NoError
  }

  /** What the 2D call does in the window. */
  ghost predicate InnerCompressed(lent: TextureObject, inner: TextureObject, level: nat, format: nat, w: nat, h: nat, alignment: nat,
                                  data: seq<byte>, isNull: bool, tones: Tones, pending0: Error, pending1: Error)
    requires |lent.mips| == |inner.mips| == MIP_STORAGES && AlignmentOk(alignment) && Known(format) && level <= MIP_STORAGES
  {
    var p := PictureOf(format, tones);
    var error := DecodedError(lent, true, level, p, w, h, alignment, format);
    || (inner == lent && Refused(pending0, pending1, Acceptable(p.codec, data, isNull, w, h), error))
    || (&& pending1 == pending0 && error == NoError && Acceptable(p.codec, data, isNull, w, h)
        && inner == WithDefinition(lent, RequestedImage(lent, p, alignment), level, LevelBytes(inner, level), w, h, format)
        && (0 < w && 0 < h ==> RowsAligned(p, w, h, alignment) && HoldsImage(p, data, w, h, LevelBytes(inner, level))))
  }

  lemma InnerCompressedIsFlat(lent: TextureObject, inner: TextureObject, level: nat, format: nat, w: nat, h: nat, alignment: nat,
                              data: seq<byte>, isNull: bool, tones: Tones, pending0: Error, pending1: Error)
    requires |lent.mips| == |inner.mips| == MIP_STORAGES && AlignmentOk(alignment) && Known(format) && level <= MIP_STORAGES
    requires InnerCompressed(lent, inner, level, format, w, h, alignment, data, isNull, tones, pending0, pending1)
    ensures FlatEdit(lent, inner) && (lent.image == 0 ==> inner.image == 0)
  {
    hide HoldsImage, Acceptable, DecodedError, RequestedImage, Refused;
  }

  /** glCompressedTexImage2D on a cube face. */
  method CubeCompressedTexImage2D(ctx: Context, sizeMax: nat, target: nat, level: int, format: nat, width: int, height: int, border: int,
                                  alignment: nat, data: seq<byte>, isNull: bool, tones: Tones)
    returns (ghost inner: TextureObject)
    requires CubeReady(ctx) && AlignmentOk(alignment)
    modifies ctx`active, ctx`cached, ctx`blocks, ctx`textures, ctx`boundTexture2D, ctx`pendingError, ctx.process, ctx.backend
    ensures StorageFrame(ctx) && ctx.boundTexture2D == old(ctx.boundTexture2D)
    ensures Discarded(old(ctx.backend.objects), ctx.backend.objects, old(ctx.textures), ctx.textures, BoundCube(ctx))
    ensures var t, f := old(BoundOrZero(ctx)), FaceIndex(target);
            var error := CubeCompressedError(t, old(CubeBound(ctx)), f, level, format, width, height, border, tones);
            if error != NoError then
              ctx.textures == old(ctx.textures) && ctx.pendingError == Context.Pending(old(ctx.pendingError), error)
            else
              && FaceEdited(old(ctx.textures), ctx.textures, BoundCube(ctx), f, inner)
              && |Lent(t.(image := 0), f).mips| == |inner.mips| == MIP_STORAGES
              && InnerCompressed(Lent(t.(image := 0), f), inner, level, format, width, height, alignment, data, isNull, tones,
                                 old(ctx.pendingError), ctx.pendingError)
  {
    hide BaseCompatible, Lent, Edited, FlatEdit, Homed, Sized, LedgerValid, Surplus, Others, OwnedBytes, FaceEdited, FaceIndex,
      DecodedError, RequestedImage, Acceptable, HoldsImage, RowsAligned, Refused, WithDefinition, Known, FlatOnly;
    inner := ZeroTexture();
    var f := FaceIndex(target);
    var error := CubeCompressedError(BoundOrZero(ctx), CubeBound(ctx), f, level, format, width, height, border, tones);
    if error != NoError {
      ctx.RecordError(error);
      return;
    }
    var k, saved, old2D, t := OpenFace(ctx, f);
    ghost var lent := ctx.textures[k];
    var _ := CompressedTexImage2D(ctx, sizeMax, level, format, width, height, border, alignment, data, isNull, tones);
    inner := ctx.textures[k];
    InnerCompressedIsFlat(lent, inner, level, format, width, height, alignment, data, isNull, tones, old(ctx.pendingError), ctx.pendingError);
    CloseFace(ctx, k, f, saved, old2D, t, old(ctx.textures));
  }

  /** What such a definition leaves in its face: no sRGB flag, whatever the format. */
  lemma CompressedFaceIsNotSrgb(lent: TextureObject, inner: TextureObject, format: nat, w: nat, h: nat, alignment: nat,
                                data: seq<byte>, isNull: bool, tones: Tones, pending: Error)
    requires |lent.mips| == |inner.mips| == MIP_STORAGES && AlignmentOk(alignment) && Known(format)
    requires InnerCompressed(lent, inner, 0, format, w, h, alignment, data, isNull, tones, pending, pending) && inner != lent
    ensures FlatFace(inner).defined && FlatFace(inner).compressedFormat == format && !FlatFace(inner).srgb
  {
    hide HoldsImage, Acceptable, DecodedError;
    RequestedFormat(lent, PictureOf(format, tones), alignment, []);
  }

  // ------------------------------------------------- sRGB formats on cube faces

  predicate SrgbFace(face: CubeFace) { face.defined && IsSrgb(face.compressedFormat) }

  /** A defined face of an sRGB compressed format carries no sRGB flag, and no other
      face is defined. Every call keeps this. */
  predicate SrgbAlone(faces: seq<CubeFace>) {
    forall g, h :: 0 <= g < |faces| && 0 <= h < |faces| && SrgbFace(faces[g]) ==> !faces[g].srgb && (h != g ==> !faces[h].defined)
  }

  /** As the code has it, a base level in an sRGB compressed format asks the other
      faces for a flag that no compressed definition sets: it is let through if and
      only if no other face is defined. */
  lemma SrgbFaceStandsAlone(t: TextureObject, f: nat, format: nat, size: nat, tones: Tones)
    requires IsSrgb(format) && f < CUBE_FACE_COUNT == |t.faces| && size <= MAX_TEXTURE_SIZE && SrgbAlone(t.faces)
    ensures CubeCompressedError(t, true, f, 0, format, size, size, 0, tones) == NoError
            <==> forall g :: 0 <= g < CUBE_FACE_COUNT && g != f ==> !t.faces[g].defined
  {
    if CubeCompressedError(t, true, f, 0, format, size, size, 0, tones) == NoError {
      forall g | 0 <= g < CUBE_FACE_COUNT && g != f
        ensures !t.faces[g].defined
      {
        assert t.faces[g].defined ==> SrgbFace(t.faces[g]);
      }
    }
  }

  /** So a cube map with a face in such a format is never complete. */
  lemma SrgbCubeIsIncomplete(faces: seq<CubeFace>, g: nat)
    requires |faces| == CUBE_FACE_COUNT && SrgbAlone(faces) && g < CUBE_FACE_COUNT && SrgbFace(faces[g])
    ensures !BasesComplete(faces)
  {
    var h := if g == 0 then 1 else 0;
    assert !faces[h].defined;
  }

  predicate SameKind(a: CubeFace, b: CubeFace) { a.defined == b.defined && a.compressedFormat == b.compressedFormat && a.srgb == b.srgb }

  lemma SameKindKeepsAlone(faces: seq<CubeFace>, f: nat, face: CubeFace)
    requires SrgbAlone(faces) && f < |faces| && SameKind(faces[f], face)
    ensures SrgbAlone(faces[f := face])
  {
    var now := faces[f := face];
    forall g, h | 0 <= g < |now| && 0 <= h < |now| && SrgbFace(now[g])
      ensures !now[g].srgb && (h != g ==> !now[h].defined)
    {
      assert SrgbFace(faces[g]);
    }
  }

  /** A base face that all other defined faces agree with. */
  lemma BaseKeepsAlone(faces: seq<CubeFace>, f: nat, face: CubeFace, format: nat)
    requires SrgbAlone(faces) && f < |faces| && face.compressedFormat == format
    requires forall g :: 0 <= g < |faces| && g != f && faces[g].defined ==> faces[g].compressedFormat == format
    requires IsSrgb(format) ==> !face.srgb && forall g :: 0 <= g < |faces| && g != f ==> !faces[g].defined
    ensures SrgbAlone(faces[f := face])
  {
    var now := faces[f := face];
    assert !IsSrgb(format) ==> forall g :: 0 <= g < |now| ==> !SrgbFace(now[g]);
  }

  lemma DefinedKeepsAlone(t: TextureObject, f: nat, inner: TextureObject, level: int, internalFormat: nat, width: int, height: int,
                          border: int, u: Upload, p: Pixels, pending0: Error, pending1: Error)
    requires SrgbAlone(t.faces) && f < |t.faces| && AlignmentOk(u.alignment)
    requires CubeDefineError(t, true, f, level, internalFormat, width, height, u, 0) == NoError
    requires |Lent(t.(image := 0), f).mips| == |inner.mips| == MIP_STORAGES
    requires InnerDefined(Lent(t.(image := 0), f), inner, level, internalFormat, width, height, border, u, p, 0, pending0, pending1)
    ensures SrgbAlone(Edited(t.(image := 0), f, inner).faces)
  {
    hide SrgbAlone, UploadFits, DefinedContents, Requested, RequestOk, JoinsBase;
    if level == 0 && inner != Lent(t.(image := 0), f) {
      BaseKeepsAlone(t.faces, f, FlatFace(inner), 0);
    } else {
      SameKindKeepsAlone(t.faces, f, FlatFace(inner));
    }
  }

  lemma UpdatedKeepsAlone(t: TextureObject, f: nat, inner: TextureObject, level: int, r: Rect, u: Upload, p: Pixels,
                          pending0: Error, pending1: Error)
    requires SrgbAlone(t.faces) && f < |t.faces| && AlignmentOk(u.alignment)
    requires |Lent(t.(image := 0), f).mips| == |inner.mips| == MIP_STORAGES
    requires InnerUpdated(Lent(t.(image := 0), f), inner, level, r, u, p, 0, pending0, pending1)
    ensures SrgbAlone(Edited(t.(image := 0), f, inner).faces)
  {
    hide SrgbAlone, UploadFits, Updated;
    SameKindKeepsAlone(t.faces, f, FlatFace(inner));
  }

  lemma CompressedKeepsAlone(t: TextureObject, f: nat, inner: TextureObject, level: nat, format: nat, w: nat, h: nat, border: int,
                             alignment: nat, data: seq<byte>, isNull: bool, tones: Tones, pending0: Error, pending1: Error)
    requires SrgbAlone(t.faces) && f < |t.faces| == CUBE_FACE_COUNT && AlignmentOk(alignment)
    requires CubeCompressedError(t, true, f, level, format, w, h, border, tones) == NoError
    requires |Lent(t.(image := 0), f).mips| == |inner.mips| == MIP_STORAGES
    requires InnerCompressed(Lent(t.(image := 0), f), inner, level, format, w, h, alignment, data, isNull, tones, pending0, pending1)
    ensures SrgbAlone(Edited(t.(image := 0), f, inner).faces)
  {
    hide SrgbAlone, HoldsImage, Acceptable, DecodedError, Refused, RequestedImage;
    if level == 0 && inner != Lent(t.(image := 0), f) {
      RequestedFormat(Lent(t.(image := 0), f), PictureOf(format, tones), alignment, []);
      RequestedIsPlain(Lent(t.(image := 0), f), PictureOf(format, tones), alignment);
      if IsSrgb(format) {
        SrgbFaceStandsAlone(t, f, format, w, tones);
      }
      BaseKeepsAlone(t.faces, f, FlatFace(inner), format);
    } else {
      SameKindKeepsAlone(t.faces, f, FlatFace(inner));
    }
  }

  lemma SrgbIsKnown(format: nat)
    requires IsSrgb(format)
    ensures Known(format)
  {
  }

  lemma RequestedIsPlain(t: TextureObject, p: Picture, alignment: nat)
    requires AlignmentOk(alignment)
    ensures !RequestedImage(t, p, alignment).srgb
  {
    RequestedFormat(t, p, alignment, []);
  }

  /** What an accepted base definition leaves in its face. */
  lemma AcceptedFace(lent: TextureObject, inner: TextureObject, format: nat, size: nat, alignment: nat, data: seq<byte>, isNull: bool, tones: Tones)
    requires |lent.mips| == |inner.mips| == MIP_STORAGES && AlignmentOk(alignment) && Known(format)
    requires InnerCompressed(lent, inner, 0, format, size, size, alignment, data, isNull, tones, NoError, NoError)
    ensures FlatFace(inner).defined && FlatFace(inner).compressedFormat == format && !FlatFace(inner).srgb
  {
    hide HoldsImage, Acceptable, DecodedError, RequestedImage;
    RequestedIsPlain(lent, PictureOf(format, tones), alignment);
  }

  lemma SecondIsRefused(t: TextureObject, f: nat, g: nat, format: nat, size: nat, tones: Tones)
    requires IsSrgb(format) && size <= MAX_TEXTURE_SIZE && |t.faces| == CUBE_FACE_COUNT
    requires f < CUBE_FACE_COUNT && g < CUBE_FACE_COUNT && f != g && SrgbFace(t.faces[f]) && !t.faces[f].srgb
    ensures CubeCompressedError(t, true, g, 0, format, size, size, 0, tones) == InvalidOperation
  {
  }

  lemma FaceAfter(was: seq<TextureObject>, now: seq<TextureObject>, k: nat, f: nat, inner: TextureObject)
    requires FaceEdited(was, now, k, f, inner)
    ensures k < |was| == |now| && f < |was[k].faces| && now[k].faces == was[k].faces[f := FlatFace(inner)]
    ensures now[k].target == was[k].target && Homed(now[k])
  {
    hide Homed, SummaryOf, Lent;
  }

  /** Two faces of a cube map in one sRGB compressed format and size: once the first
      is accepted, the second is refused, whatever its data, and the first stays. */
  method SecondSrgbFace(ctx: Context, sizeMax: nat, f: nat, g: nat, format: nat, size: nat, alignment: nat,
                        data: seq<byte>, data': seq<byte>, tones: Tones)
    returns (first: Error)
    requires CubeReady(ctx) && CubeBound(ctx) && ctx.pendingError == NoError && AlignmentOk(alignment)
    requires IsSrgb(format) && size <= MAX_TEXTURE_SIZE && f < CUBE_FACE_COUNT && g < CUBE_FACE_COUNT && f != g
    modifies ctx`active, ctx`cached, ctx`blocks, ctx`textures, ctx`boundTexture2D, ctx`pendingError, ctx.process, ctx.backend
    ensures StorageFrame(ctx) && CubeReady(ctx) && CubeBound(ctx)
    ensures first == NoError ==>
              && ctx.pendingError == InvalidOperation
              && |BoundOrZero(ctx).faces| == CUBE_FACE_COUNT == |old(BoundOrZero(ctx)).faces|
              && SrgbFace(BoundOrZero(ctx).faces[f]) && BoundOrZero(ctx).faces[g] == old(BoundOrZero(ctx)).faces[g]
  {
    hide Homed, Sized, LedgerValid, Surplus, Others, OwnedBytes, BaseCompatible, Lent, InnerCompressed, IsSrgb, FaceEdited, Edited, FlatEdit,
      Summarized;
    ghost var was, k := ctx.textures, BoundCube(ctx);
    SrgbIsKnown(format);
    ghost var inner := CubeCompressedTexImage2D(ctx, sizeMax, POSITIVE_X + f, 0, format, size, size, 0, alignment, data, false, tones);
    first := ctx.pendingError;
    ghost var t := was[k].(image := 0);
    if CubeCompressedError(old(BoundOrZero(ctx)), true, f, 0, format, size, size, 0, tones) == NoError {
      FaceAfter(was, ctx.textures, k, f, inner);
    }
    if first == NoError {
      AcceptedFace(Lent(t, f), inner, format, size, alignment, data, false, tones);
      SecondIsRefused(ctx.textures[k], f, g, format, size, tones);
    }
    ghost var mid, e := ctx.textures, CubeCompressedError(BoundOrZero(ctx), true, g, 0, format, size, size, 0, tones);
    inner := CubeCompressedTexImage2D(ctx, sizeMax, POSITIVE_X + g, 0, format, size, size, 0, alignment, data', false, tones);
    if e == NoError {
      FaceAfter(mid, ctx.textures, k, g, inner);
    }
  }

  // --------------------------------------------------------------------- copies

  /** What ringl_copy_tex_image_2d rejects on a cube face before it opens the
      window. The faces are compared at every level, with the size of the copy. */
  function CubeCopyError(t: TextureObject, found: bool, f: nat, s: ColorConversion.Surface, from: CopyImages.Source, level: int,
                         internalFormat: nat, x: int, y: int, width: int, height: int, border: int): Error {
    if f >= CUBE_FACE_COUNT || !(internalFormat == SRGB || internalFormat == SRGB_ALPHA || IsColor(internalFormat)) then InvalidEnum
    else if level < 0 || level > MIP_STORAGES || border != 0 || x < 0 || y < 0 || width <= 0 || height <= 0
            || width > MAX_TEXTURE_SIZE || height > MAX_TEXTURE_SIZE then InvalidValue
    else if !found then InvalidOperation
    else if level == 0 && width != height then InvalidValue
    else if !from.complete then InvalidFramebufferOperation
    else if !from.resolved then InvalidOperation
    else if x + width > s.width || y + height > s.height then InvalidValue
    else if t.target != TEXTURE_CUBE_MAP || !BaseCompatible(t.faces, f, width, height, CopyImages.CopyRequest(t, internalFormat, 0, s), 0)
         then InvalidOperation
    else NoError
  }

  ghost predicate InnerCopied(lent: TextureObject, inner: TextureObject, s: ColorConversion.Surface, from: CopyImages.Source, level: nat,
                              internalFormat: nat, x: nat, y: nat, width: nat, height: nat, rounded: seq<byte> -> seq<byte>,
                              pending0: Error, pending1: Error)
    requires |lent.mips| == |inner.mips| == MIP_STORAGES && level <= MIP_STORAGES
  {
    var error := CopyImages.CopyError(lent, true, s, from, level, internalFormat, x, y, width, height, 0);
    if error != NoError then inner == lent && pending1 == Context.Pending(pending0, error)
    else
      || (&& inner == lent
          && (pending1 == Context.Pending(pending0, OutOfMemory) || pending1 == Context.Pending(pending0, InvalidOperation)))
      || (&& pending1 == pending0
          && var q, bytes := CopyImages.CopyRequest(lent, internalFormat, level, s), LevelBytes(inner, level);
             && CopyImages.CopiedRegion(q, s, x, y, width, height, bytes, rounded)
             && inner == WithDefinition(lent, q, level, bytes, width, height, 0))
  }

  lemma InnerCopiedIsFlat(lent: TextureObject, inner: TextureObject, s: ColorConversion.Surface, from: CopyImages.Source, level: nat,
                          internalFormat: nat, x: nat, y: nat, width: nat, height: nat, rounded: seq<byte> -> seq<byte>,
                          pending0: Error, pending1: Error)
    requires |lent.mips| == |inner.mips| == MIP_STORAGES && level <= MIP_STORAGES
    requires InnerCopied(lent, inner, s, from, level, internalFormat, x, y, width, height, rounded, pending0, pending1)
    ensures FlatEdit(lent, inner) && (lent.image == 0 ==> inner.image == 0)
  {
    hide CopyImages.CopiedRegion, CopyImages.CopyError;
  }

  lemma CopiedKeepsAlone(t: TextureObject, f: nat, inner: TextureObject, s: ColorConversion.Surface, from: CopyImages.Source, level: nat,
                         internalFormat: nat, x: nat, y: nat, width: nat, height: nat, border: int, rounded: seq<byte> -> seq<byte>,
                         pending0: Error, pending1: Error)
    requires SrgbAlone(t.faces) && f < |t.faces| == CUBE_FACE_COUNT && level <= MIP_STORAGES
    requires CubeCopyError(t, true, f, s, from, level, internalFormat, x, y, width, height, border) == NoError
    requires |Lent(t.(image := 0), f).mips| == |inner.mips| == MIP_STORAGES
    requires InnerCopied(Lent(t.(image := 0), f), inner, s, from, level, internalFormat, x, y, width, height, rounded, pending0, pending1)
    ensures SrgbAlone(Edited(t.(image := 0), f, inner).faces)
  {
    hide SrgbAlone, CopyImages.CopiedRegion, CopyImages.CopyError, CopyImages.CopyRequest;
    if level == 0 && inner != Lent(t.(image := 0), f) {
      BaseKeepsAlone(t.faces, f, FlatFace(inner), 0);
    } else {
      SameKindKeepsAlone(t.faces, f, FlatFace(inner));
    }
  }

  /** glCopyTexImage2D on a cube face. */
  method CubeCopyTexImage2D(ctx: Context, source: Readback.ColorTarget, fence: Readback.FinishFence, sizeMax: nat, from: CopyImages.Source,
                            target: nat, level: int, internalFormat: nat, x: int, y: int, width: int, height: int, border: int,
                            rounded: seq<byte> -> seq<byte>)
    returns (ghost inner: TextureObject)
    requires CubeReady(ctx) && ColorConversion.SurfaceValid(source.surface) && fence.value <= UINT64_MAX
    modifies ctx`active, ctx`cached, ctx`blocks, ctx`textures, ctx`boundTexture2D, ctx`pendingError, ctx.process, ctx.backend, source, fence
    ensures StorageFrame(ctx) && ctx.boundTexture2D == old(ctx.boundTexture2D) && fence.value <= UINT64_MAX
    ensures Discarded(old(ctx.backend.objects), ctx.backend.objects, old(ctx.textures), ctx.textures, BoundCube(ctx))
    ensures var t, f, s := old(BoundOrZero(ctx)), FaceIndex(target), source.surface;
            var error := CubeCopyError(t, BoundCube(ctx) < OBJECT_SLOT_COUNT, f, s, from, level, internalFormat, x, y, width, height, border);
            if error != NoError then
              ctx.textures == old(ctx.textures) && ctx.pendingError == Context.Pending(old(ctx.pendingError), error)
            else
              && FaceEdited(old(ctx.textures), ctx.textures, BoundCube(ctx), f, inner)
              && |Lent(t.(image := 0), f).mips| == |inner.mips| == MIP_STORAGES
              && InnerCopied(Lent(t.(image := 0), f), inner, s, from, level, internalFormat, x, y, width, height, rounded,
                             old(ctx.pendingError), ctx.pendingError)
  {
    hide BaseCompatible, Lent, Edited, FlatEdit, Homed, Sized, LedgerValid, Surplus, Others, OwnedBytes, FaceEdited, FaceIndex,
      CopyImages.CopyError, CopyImages.CopyRequest, CopyImages.CopiedRegion, WithDefinition, ColorConversion.SurfaceValid, IsColor;
    inner := ZeroTexture();
    var f := FaceIndex(target);
    var error := CubeCopyError(BoundOrZero(ctx), BoundCube(ctx) < OBJECT_SLOT_COUNT, f, source.surface, from, level, internalFormat,
                               x, y, width, height, border);
    if error != NoError {
      ctx.RecordError(error);
      return;
    }
    var k, saved, old2D, t := OpenFace(ctx, f);
    ghost var lent := ctx.textures[k];
    CopyImages.CopyTexImage2D(ctx, source, fence, sizeMax, from, level, internalFormat, x, y, width, height, border, rounded);
    inner := ctx.textures[k];
    InnerCopiedIsFlat(lent, inner, source.surface, from, level, internalFormat, x, y, width, height, rounded, old(ctx.pendingError), ctx.pendingError);
    CloseFace(ctx, k, f, saved, old2D, t, old(ctx.textures));
  }
}
