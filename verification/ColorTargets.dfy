/** Calls that read the colour target of the bound framebuffer: resolving the target
    (src/translate/draw.c, src/objects/texture.c) gives an attached texture its image
    before anything is read, also in a call that fails afterwards. */
module ColorTargets {
  import opened Limits
  import opened StagingBlocks
  import opened Arithmetic
  import opened ContextState
  import opened ContextLedger
  import opened ObjectTable
  import opened VertexArrays
  import opened References
  import opened Framebuffers
  import opened TextureStorage
  import opened ContextLifetime
  import opened Session
  import opened NamingCalls
  import opened Realization
  import ColorConversion
  import CopyImages
  import CubeFaces
  import CubeMipmaps
  import Mipmaps
  import Readback
  import TextureFormats
  import TexImages
  import Buffers

  /** The texture attached to the first colour point of the bound framebuffer: its
      slot, or 1024. */
  function AttachedSlot(ctx: Context): (k: nat)
    requires |ctx.slots| == |ctx.framebuffers| == OBJECT_SLOT_COUNT
    requires forall i :: 0 <= i < OBJECT_SLOT_COUNT ==> |ctx.framebuffers[i].color| == MAX_COLOR_ATTACHMENTS
    reads ctx`slots, ctx`framebuffers, ctx`framebufferBinding
    ensures k <= OBJECT_SLOT_COUNT && (k < OBJECT_SLOT_COUNT ==> ctx.slots[k].kind == TextureType)
  {
    var f := Lookup(ctx.slots, ctx.framebufferBinding, FramebufferType);
    if ctx.framebufferBinding == 0 || f == OBJECT_SLOT_COUNT || ctx.framebuffers[f].color[0].kind != TextureAttachment then OBJECT_SLOT_COUNT
    else Lookup(ctx.slots, ctx.framebuffers[f].color[0].name, TextureType)
  }

  /** The attached level, or level of a face, has storage. */
  predicate AttachedDefined(t: TextureObject, a: Attachment)
    requires Shaped(t)
  {
    if t.target == TEXTURE_CUBE_MAP then
      && a.arrayLayer < CUBE_FACE_COUNT
      && if a.level == 0 then CubeMipmaps.FaceDefined(t.faces[a.arrayLayer])
         else a.level <= MIP_STORAGES
              && var m := t.faces[a.arrayLayer].mips[a.level - 1]; m.defined && m.width != 0 && m.height != 0 && m.bytes != []
    else a.arrayLayer == 0 && LevelDefined(t, a.level)
  }

  /** Nothing but whether textures have images, and which of them must be colour
      targets, has changed. */
  ghost predicate ImagesOnly(was: seq<TextureObject>, now: seq<TextureObject>) {
    |was| == |now| && forall i :: 0 <= i < |now| ==>
      now[i] == was[i].(image := now[i].image, requiresColorTarget := now[i].requiresColorTarget)
  }

  lemma ImagesOnlyKeeps(was: seq<TextureObject>, now: seq<TextureObject>)
    requires ImagesOnly(was, now)
    ensures NoNewCubes(was, now) && FacesStay(was, now)
  {
  }

  /** ringl_texture_require_color_target on a slot, with the invariant of the context. */
  method RequireTarget(ctx: Context, name: nat)
    requires SessionValid(ctx) && |ctx.slots| == |ctx.textures| == OBJECT_SLOT_COUNT && Resolves(ctx.slots, name, TextureType)
    modifies ctx`textures, ctx.backend
    ensures |old(ctx.textures)| == OBJECT_SLOT_COUNT
    ensures var k := Lookup(ctx.slots, name, TextureType); ctx.textures == old(ctx.textures)[k := ColorTarget(old(ctx.textures)[k])]
    ensures Keeps(ctx, 0)
  {
    hide AllHeld, ArraysValid, Sized, Shaped, LedgerValid, AtHome, OwnedBytes, Buffers.Mirrors, ImagesOwned, TexturesHome, Images, ColorTarget;
    ghost var was, objects, k := ctx.textures, ctx.backend.objects, Lookup(ctx.slots, name, TextureType);
    RequireColorTarget(ctx, name);
    ColorTargetKeeps(ctx, was, objects, k);
    ReferencesKeep(ctx);
  }

  lemma DefinedHasTarget(t: TextureObject, a: Attachment)
    requires AtHome(t) && Shaped(t) && AttachedDefined(t, a)
    ensures t.target != 0
  {
    hide NoMips, NoFace, CubeFaces.Homed, CubeFaces.Summarized;
    ZeroTarget();
    if t.target == 0 && a.level > 0 {
      ZeroLevels();
    }
  }

  lemma ZeroLevels()
    ensures forall k :: 0 <= k < |ZeroTexture().mips| ==> ZeroTexture().mips[k].bytes == []
  {
  }

  /** ringl_resolve_color_target: the texture attached to the first colour point gets
      its image if the attached level has storage; `otherwise` says whether the default
      framebuffer, or a renderbuffer, resolves. */
  method ResolveColorTarget(ctx: Context, otherwise: bool, arrayOps: bool, contents: seq<seq<byte>>) returns (resolved: bool)
    requires SessionValid(ctx)
    modifies ctx`textures, ctx.backend
    ensures |ctx.slots| == |ctx.textures| == |old(ctx.textures)| == |ctx.framebuffers| == OBJECT_SLOT_COUNT
    ensures forall i :: 0 <= i < OBJECT_SLOT_COUNT ==> |ctx.framebuffers[i].color| == MAX_COLOR_ATTACHMENTS
    ensures ImagesOnly(old(ctx.textures), ctx.textures)
    ensures forall i :: 0 <= i < OBJECT_SLOT_COUNT && i != AttachedSlot(ctx) ==> ctx.textures[i] == old(ctx.textures)[i]
    ensures resolved && AttachedSlot(ctx) < OBJECT_SLOT_COUNT ==>
              ctx.textures[AttachedSlot(ctx)].image != 0 && ctx.textures[AttachedSlot(ctx)].requiresColorTarget
    ensures Keeps(ctx, 0)
  {
    hide SessionValid, Surplus, Others, Unowned, Shaped, Sized, AtHome, AttachedDefined, Realizable;
    FramebufferShapes(ctx);
    if ctx.framebufferBinding == 0 {
      return otherwise;
    }
    var f := Lookup(ctx.slots, ctx.framebufferBinding, FramebufferType);
    if f == OBJECT_SLOT_COUNT {
      return false;
    }
    var a := ctx.framebuffers[f].color[0];
    if a.kind != TextureAttachment {
      return a.kind == RenderbufferAttachment && otherwise;
    }
    if a.level >= MAX_TEXTURE_MIP_LEVELS || !Resolves(ctx.slots, a.name, TextureType) {
      return false;
    }
    var k := Lookup(ctx.slots, a.name, TextureType);
    RequireTarget(ctx, a.name);
    FramebufferShapes(ctx);
    TextureShape(ctx, k);
    if !AttachedDefined(ctx.textures[k], a) {
      return false;
    }
    TextureHome(ctx, k);
    DefinedHasTarget(ctx.textures[k], a);
    var result := RealizeImage(ctx, k, Mipmaps.Sampling(0, 0, 0, 0, false, false), arrayOps, contents);
    resolved := result == 0;
  }

  lemma TextureHome(ctx: Context, k: nat)
    requires SessionValid(ctx) && k < OBJECT_SLOT_COUNT
    ensures |ctx.textures| == OBJECT_SLOT_COUNT && AtHome(ctx.textures[k])
  {
    hide RefsValid, Sized, Shaped, LedgerValid, AtHome, Buffers.Mirrors, ImagesOwned;
  }

  // ------------------------------------------------------------------ readback

  /** glReadPixels into memory of the caller. The target is resolved once the request
      is accepted and the sync interface (`ready`) and the framebuffer (`complete`)
      are usable. */
  method ReadPixels(ctx: Context, target: Readback.ColorTarget, fence: Readback.FinishFence, ready: bool, complete: bool, otherwise: bool,
                    arrayOps: bool, contents: seq<seq<byte>>, sizeMax: nat,
                    alignment: nat, x: int, y: int, width: int, height: int, format: nat, pixelType: nat, pixels: array<byte>)
    requires SessionValid(ctx) && ColorConversion.SurfaceValid(target.surface) && fence.value <= UINT64_MAX
    modifies ctx`active, ctx`cached, ctx`blocks, ctx`textures, ctx`pendingError, ctx.process, ctx.backend, target, fence, pixels
    ensures ReadOutcome(target.surface, x, y, width, height, format, pixelType, alignment, sizeMax, complete,
                        old(pixels[..]), pixels[..], old(ctx.pendingError), ctx.pendingError)
    ensures ImagesOnly(old(ctx.textures), ctx.textures) && fence.value <= UINT64_MAX
    ensures Keeps(ctx, 0)
  {
    hide SessionValid, Surplus, Others, Unowned, ColorConversion.SurfaceValid, ImagesOnly, ReadOutcome;
    var usable := ready && complete;
    UnchangedImages(ctx.textures);
    if usable && width != 0 && height != 0
       && Readback.RequestError(width, height, format, pixelType, alignment, sizeMax, false, pixels.Length) == NoError {
      usable := ResolveColorTarget(ctx, otherwise, arrayOps, contents);
    }
    ReadResolved(ctx, target, fence, usable, complete, sizeMax, alignment, x, y, width, height, format, pixelType, pixels);
  }

  /** What a readback makes of the caller's bytes and of the pending error. */
  ghost predicate ReadOutcome(s: ColorConversion.Surface, x: int, y: int, width: int, height: int, format: nat, pixelType: nat, alignment: nat,
                              sizeMax: nat, complete: bool, before: seq<byte>, after: seq<byte>, pending0: Error, pending1: Error)
  {
    var error := Readback.RequestError(width, height, format, pixelType, alignment, sizeMax, false, |before|);
    if error != NoError then after == before && pending1 == Context.Pending(pending0, error)
    else if width == 0 || height == 0 then after == before && pending1 == pending0
    else
      var r := Readback.Aligned(x, y, width, height, pixelType, alignment);
      || (pending1 == pending0 && Readback.Readable(s, r) && after == Readback.ReadInto(s, r, before))
      || (after == before
          && (pending1 == Context.Pending(pending0, OutOfMemory) || pending1 == Context.Pending(pending0, Readback.OperationError(complete))))
  }

  /** The readback of a resolved target. */
  method ReadResolved(ctx: Context, target: Readback.ColorTarget, fence: Readback.FinishFence, usable: bool, complete: bool, sizeMax: nat,
                      alignment: nat, x: int, y: int, width: int, height: int, format: nat, pixelType: nat, pixels: array<byte>)
    requires SessionValid(ctx) && ColorConversion.SurfaceValid(target.surface) && fence.value <= UINT64_MAX
    modifies ctx`active, ctx`cached, ctx`blocks, ctx`pendingError, ctx.process, target, fence, pixels
    ensures ReadOutcome(target.surface, x, y, width, height, format, pixelType, alignment, sizeMax, complete,
                        old(pixels[..]), pixels[..], old(ctx.pendingError), ctx.pendingError)
    ensures fence.value <= UINT64_MAX
    ensures Keeps(ctx, 0)
  {
    hide RefsValid, Sized, Shaped, LedgerValid, Buffers.Mirrors, ImagesOwned, TexturesHome, Readback.ReadInto, Readback.Readable, StagingFrame;
    Readback.ReadPixelsToBytes(ctx, target, fence, usable, complete, sizeMax, alignment, x, y, width, height, format, pixelType,
                               pixels, pixels.Length);
    ReferencesKeep(ctx);
  }

  lemma UnchangedImages(textures: seq<TextureObject>)
    ensures ImagesOnly(textures, textures)
  {
  }

  // ---------------------------------------------------------------------- copies

  /** The tests of ringl_copy_tex_image_2d that precede the resolution. */
  predicate CopyReaches(target: nat, bound: bool, complete: bool, level: int, internalFormat: nat,
                        x: int, y: int, width: int, height: int, border: int) {
    && (target == TEXTURE_2D || CubeFaces.FaceIndex(target) < CUBE_FACE_COUNT)
    && (internalFormat == TextureFormats.SRGB || internalFormat == TextureFormats.SRGB_ALPHA || TextureFormats.IsColor(internalFormat))
    && 0 <= level <= MIP_STORAGES && border == 0 && 0 <= x && 0 <= y
    && 0 < width <= MAX_TEXTURE_SIZE && 0 < height <= MAX_TEXTURE_SIZE
    && bound && (target != TEXTURE_2D && level == 0 ==> width == height) && complete
  }

  /** Before the resolution the call's error does not depend on its answer. */
  lemma UnreachedIgnoresResolution(t: TextureObject, bound: bool, s: ColorConversion.Surface, from: CopyImages.Source, resolved: bool,
                                   level: int, internalFormat: nat, x: int, y: int, width: int, height: int, border: int)
    requires |t.mips| == MIP_STORAGES && !CopyReaches(TEXTURE_2D, bound, from.complete, level, internalFormat, x, y, width, height, border)
    ensures CopyImages.CopyError(t, bound, s, from, level, internalFormat, x, y, width, height, border)
         == CopyImages.CopyError(t, bound, s, from.(resolved := resolved), level, internalFormat, x, y, width, height, border)
  {
  }

  /** The resolution of a copy's source, if the call gets there. `from.resolved` is
      the answer for a source that is no texture. */
  method ResolveSource(ctx: Context, from: CopyImages.Source, arrayOps: bool, contents: seq<seq<byte>>, target: nat, level: int,
                       internalFormat: nat, x: int, y: int, width: int, height: int, border: int)
    returns (source: CopyImages.Source)
    requires SessionValid(ctx)
    modifies ctx`textures, ctx.backend
    ensures ImagesOnly(old(ctx.textures), ctx.textures) && source.complete == from.complete
    ensures Keeps(ctx, 0)
  {
    hide SessionValid, Surplus, Others, Unowned, ImagesOnly, CopyReaches;
    UnchangedImages(ctx.textures);
    FramebufferShapes(ctx);
    BoundUnits(ctx);
    source := from;
    var bound := (if target == TEXTURE_2D then Bound2D(ctx) else BoundCube(ctx)) < OBJECT_SLOT_COUNT;
    if CopyReaches(target, bound, from.complete, level, internalFormat, x, y, width, height, border) {
      var resolved := ResolveColorTarget(ctx, from.resolved, arrayOps, contents);
      source := from.(resolved := resolved);
    }
  }

  lemma BoundUnits(ctx: Context)
    requires SessionValid(ctx)
    ensures |ctx.slots| == OBJECT_SLOT_COUNT && |ctx.boundTexture2D| == |ctx.boundTextureCube| == MAX_TEXTURE_UNITS
  {
    hide RefsValid, Sized, Shaped, LedgerValid, AtHome, Buffers.Mirrors, ImagesOwned;
  }

  lemma StayThenStay(a: seq<TextureObject>, b: seq<TextureObject>, c: seq<TextureObject>, k: nat)
    requires ImagesOnly(a, b) && NoNewCubes(b, c)
    ensures NoNewCubes(a, c)
    ensures FacesStay(b, c) ==> FacesStay(a, c)
    ensures FacesStayBut(b, c, k) ==> FacesStayBut(a, c, k)
  {
  }

  /** glCopyTexImage2D on the 2D target. */
  method CopyIn2D(ctx: Context, target: Readback.ColorTarget, fence: Readback.FinishFence, sizeMax: nat, from: CopyImages.Source,
                  arrayOps: bool, contents: seq<seq<byte>>, level: int, internalFormat: nat, x: int, y: int, width: int, height: int,
                  border: int, rounded: seq<byte> -> seq<byte>)
    requires SessionValid(ctx) && ColorConversion.SurfaceValid(target.surface) && fence.value <= UINT64_MAX
    modifies ctx`active, ctx`cached, ctx`blocks, ctx`textures, ctx`pendingError, ctx.process, ctx.backend, target, fence
    ensures NoNewCubes(old(ctx.textures), ctx.textures) && FacesStay(old(ctx.textures), ctx.textures) && fence.value <= UINT64_MAX
    ensures Keeps(ctx, 0)
  {
    hide SessionValid, Surplus, Others, Unowned, ColorConversion.SurfaceValid, ImagesOnly, NoNewCubes, FacesStay, FacesStayBut;
    var source := ResolveSource(ctx, from, arrayOps, contents, TEXTURE_2D, level, internalFormat, x, y, width, height, border);
    ghost var mid := ctx.textures;
    Copy2D(ctx, target, fence, sizeMax, source, level, internalFormat, x, y, width, height, border, rounded);
    StayThenStay(old(ctx.textures), mid, ctx.textures, 0);
  }

  /** And on a cube face. */
  method CopyIntoFace(ctx: Context, source: Readback.ColorTarget, fence: Readback.FinishFence, sizeMax: nat, from: CopyImages.Source,
                      arrayOps: bool, contents: seq<seq<byte>>, target: nat, level: int, internalFormat: nat, x: int, y: int,
                      width: int, height: int, border: int, rounded: seq<byte> -> seq<byte>)
    requires SessionValid(ctx) && ColorConversion.SurfaceValid(source.surface) && fence.value <= UINT64_MAX
    modifies ctx`active, ctx`cached, ctx`blocks, ctx`textures, ctx`boundTexture2D, ctx`pendingError, ctx.process, ctx.backend, source, fence
    ensures |ctx.slots| == OBJECT_SLOT_COUNT && |ctx.boundTextureCube| == MAX_TEXTURE_UNITS
    ensures NoNewCubes(old(ctx.textures), ctx.textures) && FacesStayBut(old(ctx.textures), ctx.textures, BoundCube(ctx))
    ensures fence.value <= UINT64_MAX
    ensures Keeps(ctx, 0)
  {
    hide SessionValid, Surplus, Others, Unowned, ColorConversion.SurfaceValid, ImagesOnly, NoNewCubes, FacesStay, FacesStayBut;
    var resolved := ResolveSource(ctx, from, arrayOps, contents, target, level, internalFormat, x, y, width, height, border);
    ghost var mid := ctx.textures;
    CopyFace(ctx, source, fence, sizeMax, resolved, target, level, internalFormat, x, y, width, height, border, rounded);
    StayThenStay(old(ctx.textures), mid, ctx.textures, BoundCube(ctx));
  }
}
