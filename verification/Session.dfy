/** The invariant of a whole context, and the buffer and texture calls that keep it:
    with any arguments and any failures, the context's charge is what it owns. */
module Session {
  import opened Limits
  import opened StagingBlocks
  import opened Arithmetic
  import opened ContextState
  import opened ContextLedger
  import opened ObjectTable
  import opened VertexArrays
  import opened References
  import opened Framebuffers
  import opened TextureFormats
  import opened TexUpload
  import opened TextureStorage
  import ColorConversion
  import TexImages
  import Mipmaps
  import CubeFaces
  import CubeMipmaps
  import CubeImages
  import CompressedImages
  import LinearImages
  import CopyImages
  import Readback
  import TextureDeletion
  import Buffers
  import opened ContextLifetime

  // -------------------------------------------------------------- invariants

  /** Where a texture keeps its storage: nowhere before its first bind, in the flat
      fields if that was a 2D bind, and in the faces, with a current summary, if it
      was a cube bind; of those a face in an sRGB compressed format stands alone. */
  predicate AtHome(t: TextureObject) {
    if t.target == 0 then t == ZeroTexture().(requiresColorTarget := t.requiresColorTarget)
    else if t.target == TEXTURE_CUBE_MAP then
      CubeFaces.Homed(t) && t == CubeFaces.Summarized(t) && CubeImages.SrgbAlone(t.faces)
    else CubeFaces.Homed(t)
  }

  /** Units refer to textures of their own target. */
  ghost predicate UnitsTyped(slots: seq<Slot>, textures: seq<TextureObject>, units: seq<nat>, target: nat)
    requires |slots| == |textures| == OBJECT_SLOT_COUNT
  {
    forall u :: 0 <= u < |units| && Lookup(slots, units[u], TextureType) < OBJECT_SLOT_COUNT ==>
      textures[Lookup(slots, units[u], TextureType)].target == target
  }

  /** GPU images of textures exist, belong to no buffer, and are not shared. */
  ghost predicate ImagesOwned(foreign: map<nat, seq<byte>>, textures: seq<TextureObject>) {
    && (forall i :: 0 <= i < |textures| && textures[i].image != 0 ==> textures[i].image in foreign)
    && (forall i, j :: 0 <= i < j < |textures| && textures[i].image != 0 ==> textures[i].image != textures[j].image)
  }

  ghost predicate TexturesHome(slots: seq<Slot>, textures: seq<TextureObject>, units2D: seq<nat>, unitsCube: seq<nat>) {
    && |slots| == |textures| == OBJECT_SLOT_COUNT
    && (forall i :: 0 <= i < |textures| ==> AtHome(textures[i]))
    && UnitsTyped(slots, textures, units2D, TEXTURE_2D) && UnitsTyped(slots, textures, unitsCube, TEXTURE_CUBE_MAP)
  }

  ghost predicate SessionValid(ctx: Context)
    reads ctx, ctx.process, ctx.backend
  {
    && RefsValid(ctx) && Buffers.BuffersValid(ctx) && TexturesValid(ctx)
    && ImagesOwned(Buffers.Foreign(ctx), ctx.textures)
    && TexturesHome(ctx.slots, ctx.textures, ctx.boundTexture2D, ctx.boundTextureCube)
  }

  /** What a call of a run keeps. `lost` is the storage it stops tracking. No backend
      object is orphaned, and none that is not the context's is touched. */
  twostate predicate Keeps(ctx: Context, lost: nat)
    reads ctx, ctx.process, ctx.backend
  {
    && SessionValid(ctx) && Others(ctx) == old(Others(ctx)) && Surplus(ctx) == old(Surplus(ctx)) + lost
    && Unowned(ctx) == old(Unowned(ctx))
  }

  /** No texture has become a cube map. */
  ghost predicate NoNewCubes(was: seq<TextureObject>, now: seq<TextureObject>) {
    |was| == |now| && forall i :: 0 <= i < |now| && now[i].target == TEXTURE_CUBE_MAP ==> was[i].target == TEXTURE_CUBE_MAP
  }

  /** Face storage is where it was. */
  ghost predicate FacesStay(was: seq<TextureObject>, now: seq<TextureObject>) {
    |was| == |now| && forall i :: 0 <= i < |now| ==> now[i].faces == was[i].faces
  }

  /** Except perhaps in texture `k`. */
  ghost predicate FacesStayBut(was: seq<TextureObject>, now: seq<TextureObject>, k: nat) {
    |was| == |now| && forall i :: 0 <= i < |now| && i != k ==> now[i].faces == was[i].faces
  }

  // ------------------------------------------------------------ preservation

  /** Destroying a texture's image leaves every buffer's object and every other
      texture's image. */
  lemma DiscardKeeps(before: map<nat, seq<byte>>, after: map<nat, seq<byte>>, buffers: seq<BufferObject>,
                     was: seq<TextureObject>, now: seq<TextureObject>, k: nat)
    requires Buffers.Mirrors(before, buffers) && ImagesOwned(before - Buffers.Handles(buffers), was)
    requires Discarded(before, after, was, now, k)
    requires now == was || (k < |was| == |now| && now == was[k := now[k]] && (now[k].image == 0 || now[k].image == was[k].image))
    ensures Buffers.Mirrors(after, buffers) && ImagesOwned(after - Buffers.Handles(buffers), now)
    ensures after - Buffers.Handles(buffers) - Images(now) == before - Buffers.Handles(buffers) - Images(was)
  {
    DiscardOwns(before, after, Buffers.Handles(buffers), was, now, k);
    if after != before {
      forall i | 0 <= i < |buffers| && buffers[i].handle != 0
        ensures buffers[i].handle in after && after[buffers[i].handle] == buffers[i].bytes
      {
        assert buffers[i].handle in Buffers.Handles(buffers);
      }
    }
  }

  /** The image a call destroys was the texture's own. */
  lemma DiscardOwns(before: map<nat, seq<byte>>, after: map<nat, seq<byte>>, handles: set<nat>,
                    was: seq<TextureObject>, now: seq<TextureObject>, k: nat)
    requires ImagesOwned(before - handles, was) && Discarded(before, after, was, now, k)
    requires now == was || (k < |was| == |now| && now == was[k := now[k]] && (now[k].image == 0 || now[k].image == was[k].image))
    ensures after - handles - Images(now) == before - handles - Images(was)
  {
    if k < |was| {
      forall h
        ensures h in Images(was) <==> h in Images(now) || (h != 0 && h == was[k].image)
      {
        if h in Images(was) {
          var i :| 0 <= i < |was| && was[i].image != 0 && was[i].image == h;
          assert i != k ==> now[i] == was[i];
        }
        if h in Images(now) {
          var i :| 0 <= i < |now| && now[i].image != 0 && now[i].image == h;
          assert i != k ==> now[i] == was[i];
        }
      }
      if after != before {
        assert was[k].image !in Images(now);
      }
    }
  }

  /** A texture changed in place stays at home if its target stays. */
  lemma EditKeepsHome(slots: seq<Slot>, textures: seq<TextureObject>, units2D: seq<nat>, unitsCube: seq<nat>, k: nat, t: TextureObject)
    requires TexturesHome(slots, textures, units2D, unitsCube) && k < |textures|
    requires AtHome(t) && t.target == textures[k].target
    ensures TexturesHome(slots, textures[k := t], units2D, unitsCube)
  {
    hide AtHome;
  }

  lemma FlatEditAtHome(t: TextureObject, t': TextureObject)
    requires AtHome(t) && t.target == TEXTURE_2D && t'.target == t.target && t'.faces == t.faces
    ensures AtHome(t')
  {
  }

  /** A call on the 2D target has kept everything, given what its contract says. */
  lemma FlatCallKeeps(ctx: Context, was: seq<TextureObject>, objects: map<nat, seq<byte>>)
    requires RefsValid(ctx) && TexturesValid(ctx) && |ctx.buffers| == OBJECT_SLOT_COUNT
    requires Buffers.Mirrors(objects, ctx.buffers) && ImagesOwned(objects - Buffers.Handles(ctx.buffers), was)
    requires forall i :: 0 <= i < OBJECT_SLOT_COUNT && ctx.slots[i].kind != BufferType ==> ctx.buffers[i] == ZERO_BUFFER
    requires TexturesHome(ctx.slots, was, ctx.boundTexture2D, ctx.boundTextureCube)
    requires Discarded(objects, ctx.backend.objects, was, ctx.textures, Bound2D(ctx))
    requires ctx.textures == was || FlatOnly(was, ctx.textures, Bound2D(ctx))
    ensures SessionValid(ctx) && NoNewCubes(was, ctx.textures) && FacesStay(was, ctx.textures)
    ensures Unowned(ctx) == objects - Buffers.Handles(ctx.buffers) - Images(was)
  {
    hide AtHome, Sized, Shaped, Surplus, LedgerValid, AllHeld, ArraysValid;
    var k := Bound2D(ctx);
    DiscardKeeps(objects, ctx.backend.objects, ctx.buffers, was, ctx.textures, k);
    if ctx.textures != was {
      assert was[k].target == TEXTURE_2D;
      FlatEditAtHome(was[k], ctx.textures[k]);
      EditKeepsHome(ctx.slots, was, ctx.boundTexture2D, ctx.boundTextureCube, k, ctx.textures[k]);
    }
  }

  // --------------------------------------------------------- calls on the 2D target

  /** The arguments the source's callers vouch for. */
  predicate UploadArgs(u: Upload, p: TexImages.Pixels) { AlignmentOk(u.alignment) && (!p.isNull ==> p.size <= |u.pixels|) }

  method Define2D(ctx: Context, sizeMax: nat, level: int, internalFormat: nat, width: int, height: int, border: int, u: Upload, p: TexImages.Pixels)
    requires SessionValid(ctx) && UploadArgs(u, p)
    modifies ctx`active, ctx`cached, ctx`blocks, ctx`textures, ctx`pendingError, ctx.process, ctx.backend
    ensures Keeps(ctx, 0) && NoNewCubes(old(ctx.textures), ctx.textures) && FacesStay(old(ctx.textures), ctx.textures)
  {
    hide NoNewCubes, FacesStay, FacesStayBut, AllHeld, ArraysValid, Sized, Shaped, LedgerValid, AtHome, TexUpload.UploadFits,
      TexImages.DefinedContents,
      TexImages.DefineError, TexImages.Requested, ImagesOwned, TexturesHome, Buffers.Mirrors, Images, Surplus, Others, Buffers.Handles;
    ghost var was, objects := ctx.textures, ctx.backend.objects;
    var _ := TexImages.TexImage2D(ctx, sizeMax, level, internalFormat, width, height, border, u, p, 0);
    FlatCallKeeps(ctx, was, objects);
  }

  method Update2D(ctx: Context, level: int, r: TexImages.Rect, u: Upload, p: TexImages.Pixels)
    requires SessionValid(ctx) && UploadArgs(u, p)
    modifies ctx`active, ctx`textures, ctx`pendingError, ctx.process`globalBytes, ctx.backend
    ensures Keeps(ctx, 0) && NoNewCubes(old(ctx.textures), ctx.textures) && FacesStay(old(ctx.textures), ctx.textures)
  {
    hide NoNewCubes, FacesStay, FacesStayBut, AllHeld, ArraysValid, Sized, Shaped, LedgerValid, AtHome, TexUpload.UploadFits,
      TexUpload.Updated,
      TexImages.SubImageError, ImagesOwned, TexturesHome, Buffers.Mirrors, Images, Surplus, Others, Buffers.Handles;
    ghost var was, objects := ctx.textures, ctx.backend.objects;
    TexImages.TexSubImage2D(ctx, level, r, u, p, 0);
    FlatCallKeeps(ctx, was, objects);
  }

  method Mipmap2D(ctx: Context, sizeMax: nat, mipOps: bool)
    requires SessionValid(ctx)
    modifies ctx`active, ctx`cached, ctx`blocks, ctx`textures, ctx`pendingError, ctx.process, ctx.backend
    ensures Keeps(ctx, 0) && NoNewCubes(old(ctx.textures), ctx.textures) && FacesStay(old(ctx.textures), ctx.textures)
  {
    hide NoNewCubes, FacesStay, FacesStayBut, AllHeld, ArraysValid, Sized, Shaped, LedgerValid, AtHome, Mipmaps.Generatable, ImagesOwned,
      TexturesHome, Buffers.Mirrors, Images, Surplus, Others, Buffers.Handles;
    ghost var was, objects := ctx.textures, ctx.backend.objects;
    Mipmaps.GenerateMipmap2D(ctx, sizeMax, mipOps);
    FlatCallKeeps(ctx, was, objects);
  }

  method Copy2D(ctx: Context, target: Readback.ColorTarget, fence: Readback.FinishFence, sizeMax: nat, from: CopyImages.Source, level: int,
                internalFormat: nat, x: int, y: int, width: int, height: int, border: int, rounded: seq<byte> -> seq<byte>)
    requires SessionValid(ctx) && ColorConversion.SurfaceValid(target.surface) && fence.value <= UINT64_MAX
    modifies ctx`active, ctx`cached, ctx`blocks, ctx`textures, ctx`pendingError, ctx.process, ctx.backend, target, fence
    ensures Keeps(ctx, 0) && NoNewCubes(old(ctx.textures), ctx.textures) && FacesStay(old(ctx.textures), ctx.textures) && fence.value <= UINT64_MAX
  {
    hide NoNewCubes, FacesStay, FacesStayBut, AllHeld, ArraysValid, Sized, Shaped, LedgerValid, AtHome, CopyImages.CopiedRegion,
      ColorConversion.SurfaceValid,
      ImagesOwned, TexturesHome, Buffers.Mirrors, Images, Surplus, Others, Buffers.Handles;
    ghost var was, objects := ctx.textures, ctx.backend.objects;
    CopyImages.CopyTexImage2D(ctx, target, fence, sizeMax, from, level, internalFormat, x, y, width, height, border, rounded);
    FlatCallKeeps(ctx, was, objects);
  }

  method Compressed2D(ctx: Context, sizeMax: nat, level: int, format: nat, width: int, height: int, border: int,
                      alignment: nat, data: seq<byte>, isNull: bool, tones: LinearImages.Tones)
    requires SessionValid(ctx) && AlignmentOk(alignment)
    modifies ctx`active, ctx`cached, ctx`blocks, ctx`textures, ctx`pendingError, ctx.process, ctx.backend
    ensures Keeps(ctx, 0) && NoNewCubes(old(ctx.textures), ctx.textures) && FacesStay(old(ctx.textures), ctx.textures)
  {
    hide NoNewCubes, FacesStay, FacesStayBut, AllHeld, ArraysValid, Sized, Shaped, LedgerValid, AtHome, CompressedImages.HoldsImage,
      CompressedImages.DecodedError, ImagesOwned, TexturesHome, Buffers.Mirrors, Images, Surplus, Others, Buffers.Handles;
    ghost var was, objects := ctx.textures, ctx.backend.objects;
    var _ := CompressedImages.CompressedTexImage2D(ctx, sizeMax, level, format, width, height, border, alignment, data, isNull, tones);
    FlatCallKeeps(ctx, was, objects);
  }

  // ------------------------------------------------------- calls on cube maps

  lemma SessionIsCubeReady(ctx: Context)
    requires SessionValid(ctx)
    ensures CubeFaces.CubeReady(ctx)
    ensures CubeFaces.CubeBound(ctx) ==> CubeFaces.BoundOrZero(ctx) == CubeFaces.Summarized(CubeFaces.BoundOrZero(ctx))
    ensures CubeFaces.CubeBound(ctx) ==>
              |CubeFaces.BoundOrZero(ctx).faces| == CUBE_FACE_COUNT && CubeImages.SrgbAlone(CubeFaces.BoundOrZero(ctx).faces)
  {
    hide CubeFaces.Homed, CubeFaces.Summarized, Sized, Shaped, LedgerValid, AllHeld, ArraysValid, Surplus;
    if CubeFaces.CubeBound(ctx) {
      assert AtHome(ctx.textures[BoundCube(ctx)]);
      CubeFaces.ShapedFaces(ctx.textures[BoundCube(ctx)]);
    }
  }

  /** No call of a run ever completes a cube map in an sRGB compressed format. */
  lemma SrgbCubesStayIncomplete(ctx: Context, k: nat, g: nat)
    requires SessionValid(ctx) && k < OBJECT_SLOT_COUNT && g < CUBE_FACE_COUNT
    ensures |ctx.textures| == OBJECT_SLOT_COUNT && |ctx.textures[k].faces| == CUBE_FACE_COUNT
    ensures CubeImages.SrgbFace(ctx.textures[k].faces[g]) ==> !CubeMipmaps.BasesComplete(ctx.textures[k].faces)
  {
    hide CubeFaces.Summarized, Sized, Shaped, LedgerValid, AllHeld, ArraysValid, Surplus, CubeMipmaps.BasesComplete, CubeImages.SrgbAlone,
      ZeroTexture;
    var t := ctx.textures[k];
    CubeFaces.ShapedFaces(t);
    if CubeImages.SrgbFace(t.faces[g]) {
      assert AtHome(t);
      ZeroFacesEmpty();
      CubeImages.SrgbCubeIsIncomplete(t.faces, g);
    }
  }

  lemma EditedAtHome(t: TextureObject, f: nat, inner: TextureObject)
    requires f < |t.faces| && t.target == TEXTURE_CUBE_MAP && CubeFaces.Homed(CubeFaces.Edited(t, f, inner))
    requires CubeImages.SrgbAlone(CubeFaces.Edited(t, f, inner).faces)
    ensures AtHome(CubeFaces.Edited(t, f, inner)) && CubeFaces.Edited(t, f, inner).target == t.target
  {
    hide CubeFaces.Homed, CubeFaces.SummaryOf, CubeImages.SrgbAlone;
  }

  /** A call on the bound cube map has kept everything, given what its contract says. */
  lemma CubeCallKeeps(ctx: Context, was: seq<TextureObject>, objects: map<nat, seq<byte>>, k: nat)
    requires ArraysValid(ctx) && AllHeld(ctx.slots, RefsOf(ctx), 0) && TexturesValid(ctx) && |ctx.buffers| == OBJECT_SLOT_COUNT
    requires Buffers.Mirrors(objects, ctx.buffers) && ImagesOwned(objects - Buffers.Handles(ctx.buffers), was)
    requires forall i :: 0 <= i < OBJECT_SLOT_COUNT && ctx.slots[i].kind != BufferType ==> ctx.buffers[i] == ZERO_BUFFER
    requires TexturesHome(ctx.slots, was, ctx.boundTexture2D, ctx.boundTextureCube)
    requires Discarded(objects, ctx.backend.objects, was, ctx.textures, k)
    requires ctx.textures == was
             || (k < OBJECT_SLOT_COUNT && ctx.textures == was[k := ctx.textures[k]] && ctx.textures[k].image == 0
                 && ctx.textures[k].target == was[k].target && AtHome(ctx.textures[k]))
    ensures SessionValid(ctx) && NoNewCubes(was, ctx.textures) && FacesStayBut(was, ctx.textures, k)
    ensures Unowned(ctx) == objects - Buffers.Handles(ctx.buffers) - Images(was)
  {
    hide AtHome, Sized, Shaped, Surplus, LedgerValid, AllHeld, ArraysValid;
    DiscardKeeps(objects, ctx.backend.objects, ctx.buffers, was, ctx.textures, k);
    if ctx.textures != was {
      EditKeepsHome(ctx.slots, was, ctx.boundTexture2D, ctx.boundTextureCube, k, ctx.textures[k]);
    }
  }

  lemma FaceEditAtHome(was: seq<TextureObject>, now: seq<TextureObject>, k: nat, f: nat, inner: TextureObject)
    requires CubeFaces.FaceEdited(was, now, k, f, inner) && was[k].target == TEXTURE_CUBE_MAP
    requires CubeImages.SrgbAlone(CubeFaces.Edited(was[k].(image := 0), f, inner).faces)
    ensures k < |was| == |now| && now == was[k := now[k]] && AtHome(now[k]) && now[k].target == was[k].target
    ensures now[k].image == 0
  {
    hide AtHome, CubeFaces.Homed, CubeFaces.Lent, CubeFaces.SummaryOf, CubeImages.SrgbAlone;
    EditedAtHome(was[k].(image := 0), f, inner);
  }

  method DefineFace(ctx: Context, sizeMax: nat, target: nat, level: int, internalFormat: nat, width: int, height: int, border: int,
                    u: Upload, p: TexImages.Pixels)
    returns (ghost inner: TextureObject)
    requires SessionValid(ctx) && UploadArgs(u, p)
    modifies ctx`active, ctx`cached, ctx`blocks, ctx`textures, ctx`boundTexture2D, ctx`pendingError, ctx.process, ctx.backend
    ensures Keeps(ctx, 0) && NoNewCubes(old(ctx.textures), ctx.textures)
    ensures |ctx.slots| == |old(ctx.textures)| == OBJECT_SLOT_COUNT && |ctx.boundTextureCube| == MAX_TEXTURE_UNITS
    ensures FacesStayBut(old(ctx.textures), ctx.textures, BoundCube(ctx))
    ensures var t, f := old(CubeFaces.BoundOrZero(ctx)), CubeFaces.FaceIndex(target);
            CubeFaces.CubeDefineError(t, old(CubeFaces.CubeBound(ctx)), f, level, internalFormat, width, height, u, 0) == NoError ==>
              && CubeFaces.FaceEdited(old(ctx.textures), ctx.textures, BoundCube(ctx), f, inner)
              && |CubeFaces.Lent(t.(image := 0), f).mips| == |inner.mips| == MIP_STORAGES
              && CubeFaces.InnerDefined(CubeFaces.Lent(t.(image := 0), f), inner, level, internalFormat, width, height, border, u, p, 0,
                                        old(ctx.pendingError), ctx.pendingError)
  {
    hide NoNewCubes, FacesStay, FacesStayBut, AllHeld, ArraysValid, Sized, Shaped, LedgerValid, AtHome, CubeFaces.FaceEdited,
      CubeFaces.InnerDefined, CubeFaces.Lent,
      CubeFaces.FaceIndex, CubeFaces.BaseCompatible, TexImages.RequestOk, TexImages.Requested, ImagesOwned, TexturesHome,
      Buffers.Mirrors, Images, Surplus, Others, Buffers.Handles;
    SessionIsCubeReady(ctx);
    ghost var was, objects, k, refs, bound := ctx.textures, ctx.backend.objects, BoundCube(ctx), RefsOf(ctx), CubeFaces.CubeBound(ctx);
    ghost var t, f, pending := CubeFaces.BoundOrZero(ctx), CubeFaces.FaceIndex(target), ctx.pendingError;
    inner := CubeFaces.CubeTexImage2D(ctx, sizeMax, target, level, internalFormat, width, height, border, u, p, 0);
    assert RefsOf(ctx) == refs;
    if bound && CubeFaces.CubeDefineError(t, true, f, level, internalFormat, width, height, u, 0) == NoError {
      CubeImages.DefinedKeepsAlone(t, f, inner, level, internalFormat, width, height, border, u, p, pending, ctx.pendingError);
      FaceEditAtHome(was, ctx.textures, k, f, inner);
    }
    CubeCallKeeps(ctx, was, objects, k);
  }

  method UpdateFace(ctx: Context, target: nat, level: int, r: TexImages.Rect, u: Upload, p: TexImages.Pixels)
    requires SessionValid(ctx) && UploadArgs(u, p)
    modifies ctx`active, ctx`textures, ctx`boundTexture2D, ctx`pendingError, ctx.process`globalBytes, ctx.backend
    ensures Keeps(ctx, 0) && NoNewCubes(old(ctx.textures), ctx.textures)
    ensures |ctx.slots| == OBJECT_SLOT_COUNT && |ctx.boundTextureCube| == MAX_TEXTURE_UNITS
    ensures FacesStayBut(old(ctx.textures), ctx.textures, BoundCube(ctx))
  {
    hide NoNewCubes, FacesStay, FacesStayBut, AllHeld, ArraysValid, Sized, Shaped, LedgerValid, AtHome, CubeFaces.FaceEdited,
      CubeFaces.InnerUpdated, CubeFaces.Lent,
      CubeFaces.FaceIndex, ImagesOwned, TexturesHome, Buffers.Mirrors, Images, Surplus, Others, Buffers.Handles;
    SessionIsCubeReady(ctx);
    ghost var was, objects, k, refs, bound := ctx.textures, ctx.backend.objects, BoundCube(ctx), RefsOf(ctx), CubeFaces.CubeBound(ctx);
    ghost var t, f, pending := CubeFaces.BoundOrZero(ctx), CubeFaces.FaceIndex(target), ctx.pendingError;
    ghost var inner := CubeFaces.CubeTexSubImage2D(ctx, target, level, r, u, p, 0);
    assert RefsOf(ctx) == refs;
    if bound && f < CUBE_FACE_COUNT {
      CubeImages.UpdatedKeepsAlone(t, f, inner, level, r, u, p, pending, ctx.pendingError);
      FaceEditAtHome(was, ctx.textures, k, f, inner);
    }
    CubeCallKeeps(ctx, was, objects, k);
  }

  method CompressFace(ctx: Context, sizeMax: nat, target: nat, level: int, format: nat, width: int, height: int, border: int,
                      alignment: nat, data: seq<byte>, isNull: bool, tones: LinearImages.Tones)
    requires SessionValid(ctx) && AlignmentOk(alignment)
    modifies ctx`active, ctx`cached, ctx`blocks, ctx`textures, ctx`boundTexture2D, ctx`pendingError, ctx.process, ctx.backend
    ensures Keeps(ctx, 0) && NoNewCubes(old(ctx.textures), ctx.textures)
    ensures |ctx.slots| == OBJECT_SLOT_COUNT && |ctx.boundTextureCube| == MAX_TEXTURE_UNITS
    ensures FacesStayBut(old(ctx.textures), ctx.textures, BoundCube(ctx))
  {
    hide NoNewCubes, FacesStay, FacesStayBut, AllHeld, ArraysValid, Sized, Shaped, LedgerValid, AtHome, CubeFaces.FaceEdited,
      CubeImages.InnerCompressed, CubeFaces.Lent, CubeFaces.FaceIndex, ImagesOwned, TexturesHome, Buffers.Mirrors;
    SessionIsCubeReady(ctx);
    ghost var was, objects, k, refs, bound := ctx.textures, ctx.backend.objects, BoundCube(ctx), RefsOf(ctx), CubeFaces.CubeBound(ctx);
    ghost var t, f, pending := CubeFaces.BoundOrZero(ctx), CubeFaces.FaceIndex(target), ctx.pendingError;
    ghost var inner := CubeImages.CubeCompressedTexImage2D(ctx, sizeMax, target, level, format, width, height, border,
                                                          alignment, data, isNull, tones);
    assert RefsOf(ctx) == refs;
    if CubeImages.CubeCompressedError(t, bound, f, level, format, width, height, border, tones) == NoError {
      CubeImages.CompressedKeepsAlone(t, f, inner, level, format, width, height, border, alignment, data, isNull, tones, pending,
      ctx.pendingError);
      FaceEditAtHome(was, ctx.textures, k, f, inner);
    }
    CubeCallKeeps(ctx, was, objects, k);
  }

  method CopyFace(ctx: Context, source: Readback.ColorTarget, fence: Readback.FinishFence, sizeMax: nat, from: CopyImages.Source,
                  target: nat, level: int, internalFormat: nat, x: int, y: int, width: int, height: int, border: int,
                  rounded: seq<byte> -> seq<byte>)
    requires SessionValid(ctx) && ColorConversion.SurfaceValid(source.surface) && fence.value <= UINT64_MAX
    modifies ctx`active, ctx`cached, ctx`blocks, ctx`textures, ctx`boundTexture2D, ctx`pendingError, ctx.process, ctx.backend, source, fence
    ensures Keeps(ctx, 0) && NoNewCubes(old(ctx.textures), ctx.textures) && fence.value <= UINT64_MAX
    ensures |ctx.slots| == OBJECT_SLOT_COUNT && |ctx.boundTextureCube| == MAX_TEXTURE_UNITS
    ensures FacesStayBut(old(ctx.textures), ctx.textures, BoundCube(ctx))
  {
    hide NoNewCubes, FacesStay, FacesStayBut, AllHeld, ArraysValid, Sized, Shaped, LedgerValid, AtHome, CubeFaces.FaceEdited,
      CubeImages.InnerCopied, CubeFaces.Lent, CubeFaces.FaceIndex, ImagesOwned, TexturesHome, Buffers.Mirrors;
    SessionIsCubeReady(ctx);
    ghost var was, objects, k, refs, bound := ctx.textures, ctx.backend.objects, BoundCube(ctx), RefsOf(ctx), CubeFaces.CubeBound(ctx);
    ghost var t, f, pending := CubeFaces.BoundOrZero(ctx), CubeFaces.FaceIndex(target), ctx.pendingError;
    ghost var inner := CubeImages.CubeCopyTexImage2D(ctx, source, fence, sizeMax, from, target, level, internalFormat,
                                                    x, y, width, height, border, rounded);
    assert RefsOf(ctx) == refs;
    if CubeImages.CubeCopyError(t, k < OBJECT_SLOT_COUNT, f, source.surface, from, level, internalFormat, x, y, width, height, border) == NoError {
      CubeImages.CopiedKeepsAlone(t, f, inner, source.surface, from, level, internalFormat, x, y, width, height, border, rounded,
                                  pending, ctx.pendingError);
      FaceEditAtHome(was, ctx.textures, k, f, inner);
    }
    CubeCallKeeps(ctx, was, objects, k);
  }

  lemma ChainsAtHome(t: TextureObject, t': TextureObject)
    requires |t.faces| == CUBE_FACE_COUNT && CubeMipmaps.ChainsInstalled(t, t') && AtHome(t) && t.target == TEXTURE_CUBE_MAP
    ensures AtHome(t') && t'.target == t.target && t'.image == 0
  {
    hide CubeMipmaps.FaceChain, CubeFaces.SummaryOf;
    CubeMipmaps.SummaryStays(t, t'.faces);
  }

  method MipmapCube(ctx: Context, sizeMax: nat, arrayOps: bool)
    requires SessionValid(ctx)
    modifies ctx`active, ctx`cached, ctx`blocks, ctx`textures, ctx`pendingError, ctx.process, ctx.backend
    ensures Keeps(ctx, 0) && NoNewCubes(old(ctx.textures), ctx.textures)
    ensures |ctx.slots| == OBJECT_SLOT_COUNT && |ctx.boundTextureCube| == MAX_TEXTURE_UNITS
    ensures FacesStayBut(old(ctx.textures), ctx.textures, BoundCube(ctx))
  {
    hide NoNewCubes, FacesStay, FacesStayBut, AllHeld, ArraysValid, Sized, Shaped, LedgerValid, AtHome, CubeMipmaps.ChainsInstalled,
      CubeMipmaps.CubeGeneratable,
      ImagesOwned, Buffers.Mirrors, Images, Surplus, Others, Buffers.Handles;
    SessionIsCubeReady(ctx);
    ghost var was, objects, k, bound := ctx.textures, ctx.backend.objects, BoundCube(ctx), CubeFaces.CubeBound(ctx);
    CubeMipmaps.GenerateMipmapCube(ctx, sizeMax, arrayOps);
    if bound && |was[k].faces| == CUBE_FACE_COUNT && CubeMipmaps.ChainsInstalled(was[k], ctx.textures[k]) {
      ChainsAtHome(was[k], ctx.textures[k]);
    }
    CubeCallKeeps(ctx, was, objects, k);
  }

  // ---------------------------------------------------------------- naming

  /** Names the units hold still select the same slots, or none. */
  lemma UnitsStay(a: seq<Slot>, b: seq<Slot>, textures: seq<TextureObject>, units: seq<nat>, target: nat)
    requires |a| == |b| == |textures| == OBJECT_SLOT_COUNT && UnitsTyped(a, textures, units, target)
    requires forall u :: 0 <= u < |units| ==>
               Lookup(b, units[u], TextureType) == Lookup(a, units[u], TextureType) || !Resolves(b, units[u], TextureType)
    ensures UnitsTyped(b, textures, units, target)
  {
  }

  /** The name table changed; records changed kind only where they are empty. */
  lemma TableChangeKeeps(ctx: Context, a: seq<Slot>)
    requires RefsValid(ctx) && TableValid(ctx.slots) && LedgerValid(ctx) && 0 <= Surplus(ctx)
    requires |a| == |ctx.buffers| == |ctx.textures| == OBJECT_SLOT_COUNT
    requires |ctx.boundTexture2D| == |ctx.boundTextureCube| == MAX_TEXTURE_UNITS
    requires Buffers.Mirrors(ctx.backend.objects, ctx.buffers) && ImagesOwned(Buffers.Foreign(ctx), ctx.textures)
    requires forall i :: 0 <= i < OBJECT_SLOT_COUNT ==> Shaped(ctx.textures[i]) && Sized(ctx.textures[i])
    requires forall i :: 0 <= i < OBJECT_SLOT_COUNT && ctx.slots[i].kind != BufferType ==> ctx.buffers[i] == ZERO_BUFFER
    requires forall i :: 0 <= i < OBJECT_SLOT_COUNT && ctx.slots[i].kind != TextureType ==> ctx.textures[i] == ZeroTexture()
    requires TexturesHome(a, ctx.textures, ctx.boundTexture2D, ctx.boundTextureCube)
    requires forall u :: 0 <= u < MAX_TEXTURE_UNITS ==>
               var n := ctx.boundTexture2D[u];
               Lookup(ctx.slots, n, TextureType) == Lookup(a, n, TextureType) || !Resolves(ctx.slots, n, TextureType)
    requires forall u :: 0 <= u < MAX_TEXTURE_UNITS ==>
               var n := ctx.boundTextureCube[u];
               Lookup(ctx.slots, n, TextureType) == Lookup(a, n, TextureType) || !Resolves(ctx.slots, n, TextureType)
    ensures SessionValid(ctx)
  {
    hide AllHeld, ArraysValid, Sized, Shaped, LedgerValid, AtHome, Surplus;
    UnitsStay(a, ctx.slots, ctx.textures, ctx.boundTexture2D, TEXTURE_2D);
    UnitsStay(a, ctx.slots, ctx.textures, ctx.boundTextureCube, TEXTURE_CUBE_MAP);
  }

  lemma SameKinds(a: seq<Slot>, b: seq<Slot>, i: nat)
    requires SameNames(a, b) && i < OBJECT_SLOT_COUNT
    ensures a[i].kind == b[i].kind
  {
    if a[i].state != Free {
      UsedKind(a, b, i);
    } else if b[i].state != Free {
      UsedKind(b, a, i);
    }
  }

  lemma KindsStay(a: seq<Slot>, b: seq<Slot>)
    requires SameNames(a, b)
    ensures forall i :: 0 <= i < OBJECT_SLOT_COUNT ==> b[i].kind == a[i].kind
  {
    forall i | 0 <= i < OBJECT_SLOT_COUNT
      ensures b[i].kind == a[i].kind
    {
      SameKinds(a, b, i);
    }
  }

  lemma UsedKind(a: seq<Slot>, b: seq<Slot>, i: nat)
    requires SameNames(a, b) && i < OBJECT_SLOT_COUNT && a[i].state != Free
    ensures b[i].kind == a[i].kind
  {
    NamesRoundTrip(i, a[i].generation, 0);
    var name := Encode(i, a[i].generation);
    assert Lookup(a, name, a[i].kind) == i;
    assert Lookup(b, name, a[i].kind) == i;
  }

  method Gen(ctx: Context, kind: ObjectType, count: int, objects: array<nat>)
    requires SessionValid(ctx) && kind != NoType && kind != VertexArrayType && count <= objects.Length
    modifies ctx`slots, ctx`pendingError, objects
    ensures Keeps(ctx, 0)
    ensures 0 <= count ==>
              if forall i :: 0 <= i < count ==> objects[i] != 0
              then Adds(old(ctx.slots), ctx.slots, objects[..count], kind) && ctx.pendingError == old(ctx.pendingError)
              else ctx.pendingError == Context.Pending(old(ctx.pendingError), OutOfMemory)
  {
    hide AllHeld, ArraysValid, Sized, Shaped, LedgerValid, AtHome, Surplus, UnitsTyped;
    ghost var a := ctx.slots;
    RefsUnfold(ctx);
    GenObjects(ctx, kind, count, objects);
    if count >= 0 {
      ghost var names := if forall i :: 0 <= i < count ==> objects[i] != 0 then objects[..count] else [];
      AddsKeepsUnits(a, ctx.slots, names, kind, ctx.boundTexture2D);
      AddsKeepsUnits(a, ctx.slots, names, kind, ctx.boundTextureCube);
      AddsKeepsKinds(a, ctx.slots, names, kind);
    }
    TableChangeKeeps(ctx, a);
  }

  lemma AddsKeepsKinds(a: seq<Slot>, b: seq<Slot>, names: seq<nat>, kind: ObjectType)
    requires Adds(a, b, names, kind)
    ensures forall i :: 0 <= i < OBJECT_SLOT_COUNT && b[i].kind != a[i].kind ==> a[i].kind == NoType
  {
  }

  lemma AddsKeepsUnits(a: seq<Slot>, b: seq<Slot>, names: seq<nat>, kind: ObjectType, units: seq<nat>)
    requires Adds(a, b, names, kind) && UnitsHeld(a, units, 0)
    ensures forall u :: 0 <= u < MAX_TEXTURE_UNITS ==> Lookup(b, units[u], TextureType) == Lookup(a, units[u], TextureType)
  {
    NamesRoundTrip(0, 0, 0);
    forall u | 0 <= u < MAX_TEXTURE_UNITS
      ensures Lookup(b, units[u], TextureType) == Lookup(a, units[u], TextureType)
    {
      assert Held(a, units[u], TextureType, 0);
    }
  }

  method Bind(ctx: Context, target: nat, buffer: nat)
    requires SessionValid(ctx)
    modifies ctx`slots, ctx`arrayBuffer, ctx`elementArrayBuffer, ctx`pendingError
    ensures Keeps(ctx, 0)
  {
    hide AllHeld, ArraysValid, Sized, Shaped, LedgerValid, AtHome, Surplus, UnitsTyped, ViewOf;
    ghost var a := ctx.slots;
    BindBuffer(ctx, target, buffer);
    KindsStay(a, ctx.slots);
    TableChangeKeeps(ctx, a);
  }

  /** A first bind gives an untouched texture its target. */
  lemma TargetedAtHome(t: TextureObject, target: nat)
    requires AtHome(t) && (t.target == 0 || t.target == target) && (target == TEXTURE_2D || target == TEXTURE_CUBE_MAP)
    ensures AtHome(t.(target := target))
    ensures OwnedBytes(t.(target := target)) == OwnedBytes(t)
    ensures Sized(t) ==> Sized(t.(target := target))
    ensures Shaped(t) ==> Shaped(t.(target := target))
  {
    hide ZeroTexture, NoMips, NoFace, FacesBytes, MipBytes, LevelSized, MipsSized;
    if t.target == 0 {
      TextureDeletion.ZeroFields();
      TextureDeletion.EmptyMips();
      ZeroFacesEmpty();
      assert t.(target := target).faces == t.faces && t.(target := target).mips == t.mips;
      FreshCubeSummary(t.(target := target));
      EmptyFacesAlone(t.faces);
    }
  }

  lemma EmptyFacesAlone(faces: seq<CubeFace>)
    requires forall f :: 0 <= f < |faces| ==> faces[f] == NoFace()
    ensures CubeImages.SrgbAlone(faces)
  {
    hide NoMips;
  }

  lemma ZeroFacesEmpty()
    ensures forall f :: 0 <= f < |ZeroTexture().faces| ==> ZeroTexture().faces[f] == NoFace()
    ensures CubeFaces.FlatFace(ZeroTexture()) == NoFace()
  {
    hide NoMips;
  }

  lemma NoneDefined(faces: seq<CubeFace>, g: nat)
    requires g <= |faces| && forall f :: 0 <= f < |faces| ==> faces[f] == NoFace()
    ensures CubeFaces.FirstDefined(faces, g) == |faces|
    decreases |faces| - g
  {
    hide NoMips;
    if g < |faces| {
      NoneDefined(faces, g + 1);
    }
  }

  lemma FreshCubeSummary(t: TextureObject)
    requires CubeFaces.FlatFace(t) == NoFace() && forall f :: 0 <= f < |t.faces| ==> t.faces[f] == NoFace()
    ensures CubeFaces.Summarized(t) == t
  {
    hide NoFace;
    NoneDefined(t.faces, 0);
  }

  /** A bind gives texture `k` the target it has or lacks, and one unit its name. */
  lemma BindKeepsHome(a: seq<Slot>, b: seq<Slot>, textures: seq<TextureObject>, units2D: seq<nat>, unitsCube: seq<nat>,
                      units2D': seq<nat>, unitsCube': seq<nat>, unit: nat, target: nat, texture: nat)
    requires TexturesHome(a, textures, units2D, unitsCube) && SameNames(a, b)
    requires unit < |units2D| == |unitsCube| && (target == TEXTURE_2D || target == TEXTURE_CUBE_MAP)
    requires units2D' == if target == TEXTURE_2D then units2D[unit := texture] else units2D
    requires unitsCube' == if target == TEXTURE_CUBE_MAP then unitsCube[unit := texture] else unitsCube
    requires texture != 0 ==>
               var k := Lookup(b, texture, TextureType);
               k < OBJECT_SLOT_COUNT && (textures[k].target == 0 || textures[k].target == target)
    ensures var k := Lookup(b, texture, TextureType);
            TexturesHome(b, if texture == 0 then textures else textures[k := textures[k].(target := target)], units2D', unitsCube')
  {
    hide AtHome;
    NamesRoundTrip(0, 0, 0);
    if texture != 0 {
      TargetedAtHome(textures[Lookup(b, texture, TextureType)], target);
    }
  }

  lemma SameImages(a: seq<TextureObject>, b: seq<TextureObject>)
    requires |a| == |b| && forall i :: 0 <= i < |a| ==> a[i].image == b[i].image
    ensures Images(a) == Images(b)
  {
    forall h
      ensures h in Images(a) <==> h in Images(b)
    {
      if h in Images(a) {
        var i :| 0 <= i < |a| && a[i].image != 0 && a[i].image == h;
        assert b[i].image == h;
      }
      if h in Images(b) {
        var i :| 0 <= i < |b| && b[i].image != 0 && b[i].image == h;
        assert a[i].image == h;
      }
    }
  }

  lemma TargetingMovesNothing(textures: seq<TextureObject>, k: nat, target: nat, foreign: map<nat, seq<byte>>)
    requires k < |textures| && AtHome(textures[k]) && (textures[k].target == 0 || textures[k].target == target)
    requires target == TEXTURE_2D || target == TEXTURE_CUBE_MAP
    ensures var t := textures[k].(target := target);
            && TextureBytes(textures[k := t]) == TextureBytes(textures)
            && (Sized(textures[k]) ==> Sized(t)) && (Shaped(textures[k]) ==> Shaped(t))
            && (ImagesOwned(foreign, textures) ==> ImagesOwned(foreign, textures[k := t]))
            && Images(textures[k := t]) == Images(textures)
            && FacesStay(textures, textures[k := t]) && (target != TEXTURE_CUBE_MAP ==> NoNewCubes(textures, textures[k := t]))
  {
    hide AtHome, OwnedBytes, Sized, Shaped;
    TargetedAtHome(textures[k], target);
    TextureBytesUpdate(textures, k, textures[k].(target := target));
    SameImages(textures, textures[k := textures[k].(target := target)]);
  }

  lemma HomesStay(a: seq<Slot>, b: seq<Slot>, textures: seq<TextureObject>, units2D: seq<nat>, unitsCube: seq<nat>)
    requires TexturesHome(a, textures, units2D, unitsCube) && SameNames(a, b)
    ensures TexturesHome(b, textures, units2D, unitsCube)
  {
    hide AtHome;
  }

  lemma HomeAt(slots: seq<Slot>, textures: seq<TextureObject>, units2D: seq<nat>, unitsCube: seq<nat>, k: nat)
    requires TexturesHome(slots, textures, units2D, unitsCube) && k < |textures|
    ensures AtHome(textures[k])
  {
  }

  lemma UnchangedTextures(textures: seq<TextureObject>)
    ensures FacesStay(textures, textures) && NoNewCubes(textures, textures)
  {
  }

  method BindTex(ctx: Context, target: nat, texture: nat)
    requires SessionValid(ctx)
    modifies ctx`slots, ctx`textures, ctx`boundTexture2D, ctx`boundTextureCube, ctx`pendingError
    ensures Keeps(ctx, 0)
    ensures target != TEXTURE_CUBE_MAP ==> NoNewCubes(old(ctx.textures), ctx.textures)
    ensures FacesStay(old(ctx.textures), ctx.textures)
    ensures |old(ctx.slots)| == |old(ctx.textures)| == OBJECT_SLOT_COUNT && |old(ctx.boundTextureCube)| == MAX_TEXTURE_UNITS
    ensures SameNames(old(ctx.slots), ctx.slots)
    ensures old(BindTextureError(ctx, target, texture)) == NoError && target == TEXTURE_CUBE_MAP && texture != 0 ==>
              && ctx.pendingError == old(ctx.pendingError)
              && ctx.boundTextureCube == old(ctx.boundTextureCube)[ctx.activeTextureUnit := texture]
              && var k := Lookup(old(ctx.slots), texture, TextureType);
                 ctx.textures == old(ctx.textures)[k := old(ctx.textures)[k].(target := target)]
  {
    hide AllHeld, ArraysValid, Sized, Shaped, LedgerValid, AtHome, UnitsTyped, OwnedBytes, Others, Buffers.Mirrors,
      Buffers.Foreign, Buffers.OtherCharges, TexturesHome, ImagesOwned, Images, NoNewCubes, FacesStay, Buffers.Handles, RefsValid;
    UnchangedTextures(ctx.textures);
    ghost var a, was, units2D, unitsCube := ctx.slots, ctx.textures, ctx.boundTexture2D, ctx.boundTextureCube;
    ghost var error := BindTextureError(ctx, target, texture);
    BindTexture(ctx, target, texture);
    KindsStay(a, ctx.slots);
    if error == NoError {
      BindKeepsHome(a, ctx.slots, was, units2D, unitsCube, ctx.boundTexture2D, ctx.boundTextureCube, ctx.activeTextureUnit, target,
      texture);
      if texture != 0 {
        HomeAt(a, was, units2D, unitsCube, Lookup(ctx.slots, texture, TextureType));
        TargetingMovesNothing(was, Lookup(ctx.slots, texture, TextureType), target, Buffers.Foreign(ctx));
      }
    } else {
      HomesStay(a, ctx.slots, was, units2D, unitsCube);
    }
  }

  // --------------------------------------------------------------- buffers

  method Data(ctx: Context, target: nat, size: int, source: Buffers.Source, known: bool, usage: nat)
    requires SessionValid(ctx) && (!known && source.Bytes? ==> size <= |source.bytes|)
    modifies ctx`active, ctx`cached, ctx`blocks, ctx`buffers, ctx`pendingError, ctx.process, ctx.backend
    ensures Keeps(ctx, 0)
  {
    hide AllHeld, ArraysValid, Sized, Shaped, LedgerValid, AtHome, UnitsTyped, OwnedBytes, Buffers.Foreign, Buffers.OtherCharges,
      Buffers.Mirrors, TexturesHome, ImagesOwned;
    Buffers.BufferData(ctx, target, size, source, known, usage);
  }

  method SubData(ctx: Context, target: nat, offset: int, size: int, source: Buffers.Source, known: bool)
    requires SessionValid(ctx) && (!known && source.Bytes? ==> size <= |source.bytes|)
    modifies ctx`active, ctx`cached, ctx`blocks, ctx`buffers, ctx`pendingError, ctx.process, ctx.backend
    ensures Keeps(ctx, 0)
  {
    hide AllHeld, ArraysValid, Sized, Shaped, LedgerValid, AtHome, UnitsTyped, OwnedBytes, Buffers.Foreign, Buffers.OtherCharges,
      Buffers.Mirrors, TexturesHome, ImagesOwned;
    Buffers.BufferSubData(ctx, target, offset, size, source, known);
  }

  method DropBuffer(ctx: Context, name: nat)
    requires SessionValid(ctx)
    modifies ctx`active, ctx`buffers, ctx`arrayBuffer, ctx`elementArrayBuffer, ctx`attribs, ctx`vertexArrays,
             ctx`defaultVertexArray, ctx`slots, ctx.process`globalBytes, ctx.backend
    ensures Keeps(ctx, 0)
  {
    hide AllHeld, ArraysValid, Sized, Shaped, LedgerValid, AtHome, UnitsTyped, OwnedBytes, Buffers.Foreign, Buffers.OtherCharges,
      ImagesOwned, ViewOf;
    ghost var a := ctx.slots;
    Buffers.DeleteBuffer(ctx, name);
    TableChangeKeeps(ctx, a);
  }

  // -------------------------------------------------------------- deletion

  /** Deleting a texture leaves every other texture, image and unit as it was. */
  lemma DeletionKeepsHome(a: seq<Slot>, b: seq<Slot>, textures: seq<TextureObject>, units2D: seq<nat>, unitsCube: seq<nat>,
                          units2D': seq<nat>, unitsCube': seq<nat>, name: nat, k: nat)
    requires TexturesHome(a, textures, units2D, unitsCube) && k < OBJECT_SLOT_COUNT == |b| && b[k].state == Free
    requires UnitsCleared(units2D, units2D', name) && UnitsCleared(unitsCube, unitsCube', name)
    requires forall n, q :: n != name ==> Lookup(b, n, q) == Lookup(a, n, q)
    ensures TexturesHome(b, textures[k := ZeroTexture()], units2D', unitsCube')
  {
    hide CubeFaces.Homed, CubeFaces.Summarized, ZeroTexture;
    NamesRoundTrip(0, 0, 0);
    ZeroTarget();
  }

  lemma ZeroTarget()
    ensures ZeroTexture().target == 0 && ZeroTexture().image == 0
  {
    hide NoMips, NoFace;
  }

  method DropTexture(ctx: Context, name: nat) returns (ghost lost: nat)
    requires SessionValid(ctx)
    modifies ctx`active, ctx`framebuffers, ctx`textures, ctx`boundTexture2D, ctx`boundTextureCube, ctx`slots,
             ctx.process`globalBytes, ctx.backend
    ensures |old(ctx.slots)| == |old(ctx.textures)| == |ctx.framebuffers| == |old(ctx.framebuffers)| == OBJECT_SLOT_COUNT
    ensures forall i :: 0 <= i < OBJECT_SLOT_COUNT ==> |old(ctx.framebuffers)[i].color| == MAX_COLOR_ATTACHMENTS
    ensures if name == 0 || !old(Resolves(ctx.slots, name, TextureType)) then ctx.framebuffers == old(ctx.framebuffers)
            else forall i :: 0 <= i < OBJECT_SLOT_COUNT ==>
                   ctx.framebuffers[i] == DetachedAll(old(ctx.framebuffers)[i], TextureAttachment, name)
    ensures var k := Lookup(old(ctx.slots), name, TextureType);
            if name == 0 || k == OBJECT_SLOT_COUNT then lost == 0 && ctx.textures == old(ctx.textures)
            else lost == FacesBytes(old(ctx.textures)[k].faces) && ctx.textures == old(ctx.textures)[k := ZeroTexture()]
    ensures lost > 0 ==> exists k :: 0 <= k < |old(ctx.textures)| && old(ctx.textures)[k].target == TEXTURE_CUBE_MAP
    ensures Keeps(ctx, lost) && NoNewCubes(old(ctx.textures), ctx.textures)
  {
    hide AllHeld, ArraysValid, Sized, Shaped, LedgerValid, UnitsTyped, OwnedBytes, ZeroTexture, AtHome,
      DetachedAll, FacesBytes, TexturesHome, ImagesOwned, Buffers.Mirrors, Images, Surplus, Others, Buffers.Handles;
    ghost var a, was, objects, units2D, unitsCube := ctx.slots, ctx.textures, ctx.backend.objects, ctx.boundTexture2D, ctx.boundTextureCube;
    var k := Lookup(ctx.slots, name, TextureType);
    RefsUnfold(ctx);
    TextureDeletion.DeleteTexture(ctx, name);
    RefsUnfold(ctx);
    lost := 0;
    if name != 0 && k != OBJECT_SLOT_COUNT {
      lost := FacesBytes(was[k].faces);
      HomeAt(a, was, units2D, unitsCube, k);
      LossIsCube(was[k]);
      assert lost > 0 ==> old(ctx.textures)[k].target == TEXTURE_CUBE_MAP;
      ZeroTarget();
      DeletionKeepsHome(a, ctx.slots, was, units2D, unitsCube, ctx.boundTexture2D, ctx.boundTextureCube, name, k);
    }
    DiscardKeeps(objects, ctx.backend.objects, ctx.buffers, was, ctx.textures, k);
  }

  /** Only cube maps have face storage. */
  lemma LossIsCube(t: TextureObject)
    requires AtHome(t)
    ensures FacesBytes(t.faces) > 0 ==> t.target == TEXTURE_CUBE_MAP
  {
    hide ZeroTexture, NoMips, NoFace, FacesBytes, FaceBytes, CubeFaces.Summarized;
    TextureDeletion.ZeroParts();
    TextureDeletion.FacesOwnNothing(t.faces);
    if t.target != 0 && t.target != TEXTURE_CUBE_MAP {
      assert forall g :: 0 <= g < |t.faces| ==> FaceBytes(t.faces[g]) == 0;
    }
  }
}
