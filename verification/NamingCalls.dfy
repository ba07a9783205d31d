/** The calls of a run that change names, bindings, vertex arrays and framebuffers,
    and the readback: each keeps the invariant of Session and every charge. */
module NamingCalls {
  import opened Limits
  import opened StagingBlocks
  import opened ContextState
  import opened ContextLedger
  import opened StagingHolds
  import opened ObjectTable
  import opened VertexArrays
  import opened References
  import opened Framebuffers
  import opened TextureStorage
  import opened Session
  import opened ContextLifetime
  import CubeFaces
  import Buffers
  import ColorConversion
  import Readback

  const TEXTURE0: nat := 0x84c0

  /** The references changed and the storage did not. */
  lemma ReferencesKeep(ctx: Context)
    requires RefsValid(ctx) && Buffers.BuffersValid(ctx) && TexturesValid(ctx)
    requires ImagesOwned(Buffers.Foreign(ctx), ctx.textures)
    requires TexturesHome(ctx.slots, ctx.textures, ctx.boundTexture2D, ctx.boundTextureCube)
    ensures SessionValid(ctx)
  {
  }

  lemma FramebufferShapes(ctx: Context)
    requires SessionValid(ctx)
    ensures |ctx.slots| == |ctx.framebuffers| == |ctx.textures| == OBJECT_SLOT_COUNT
    ensures forall i :: 0 <= i < OBJECT_SLOT_COUNT ==> |ctx.framebuffers[i].color| == MAX_COLOR_ATTACHMENTS
  {
    hide Sized, Shaped, LedgerValid, AtHome, Surplus, UnitsTyped, Buffers.Mirrors, ImagesOwned;
    RefsUnfold(ctx);
  }

  method Enable(ctx: Context, index: nat, enabled: bool)
    requires SessionValid(ctx)
    modifies ctx`attribs, ctx`pendingError
    ensures Keeps(ctx, 0)
  {
    hide AllHeld, ArraysValid, TexturesValid, Buffers.BuffersValid, ImagesOwned, TexturesHome, Surplus, ViewOf;
    AttribEnabled(ctx, index, enabled);
    ReferencesKeep(ctx);
  }

  method Pointer(ctx: Context, index: nat, size: int, componentType: nat, normalized: nat, stride: int, offset: nat)
    requires SessionValid(ctx)
    modifies ctx`attribs, ctx`pendingError
    ensures Keeps(ctx, 0)
  {
    hide AllHeld, ArraysValid, TexturesValid, Buffers.BuffersValid, ImagesOwned, TexturesHome, Surplus, ViewOf;
    AttribPointer(ctx, index, size, componentType, normalized, stride, offset);
    ReferencesKeep(ctx);
  }

  method Divisor(ctx: Context, index: nat, divisor: nat)
    requires SessionValid(ctx)
    modifies ctx`attribs, ctx`pendingError
    ensures Keeps(ctx, 0)
  {
    hide AllHeld, ArraysValid, TexturesValid, Buffers.BuffersValid, ImagesOwned, TexturesHome, Surplus, ViewOf;
    AttribDivisor(ctx, index, divisor);
    ReferencesKeep(ctx);
  }

  method Current(ctx: Context, index: nat, value: Vec4)
    requires SessionValid(ctx)
    modifies ctx`attribs, ctx`pendingError
    ensures Keeps(ctx, 0)
  {
    hide AllHeld, ArraysValid, TexturesValid, Buffers.BuffersValid, ImagesOwned, TexturesHome, Surplus, ViewOf;
    AttribCurrent(ctx, index, value);
    ReferencesKeep(ctx);
  }

  /** A texture that becomes a colour target stays at home. */
  lemma ColorTargetAtHome(t: TextureObject)
    ensures var t' := ColorTarget(t);
            && t'.target == t.target && t'.faces == t.faces && OwnedBytes(t') == OwnedBytes(t)
            && (AtHome(t) ==> AtHome(t')) && (Sized(t) ==> Sized(t')) && (Shaped(t) ==> Shaped(t'))
  {
    hide FacesBytes, MipBytes, LevelSized, MipsSized, CubeFaces.SummaryOf, ZeroTexture;
    ZeroTarget();
  }

  method AttachTexture(ctx: Context, target: nat, attachment: nat, textarget: nat, texture: nat, level: int)
    requires SessionValid(ctx)
    modifies ctx`framebuffers, ctx`textures, ctx`pendingError, ctx.backend
    ensures |ctx.slots| == |old(ctx.textures)| == |old(ctx.framebuffers)| == OBJECT_SLOT_COUNT
    ensures forall i :: 0 <= i < OBJECT_SLOT_COUNT ==> |old(ctx.framebuffers)[i].color| == MAX_COLOR_ATTACHMENTS
    ensures var error := old(TextureError(ctx, target, attachment, textarget, texture, level));
            && ctx.pendingError == Context.Pending(old(ctx.pendingError), error)
            && ctx.framebuffers
                 == if error != NoError then old(ctx.framebuffers)
                    else var index := Lookup(ctx.slots, ctx.framebufferBinding, FramebufferType);
                         old(ctx.framebuffers)[index := TextureAttached(old(ctx.framebuffers)[index], attachment, textarget, texture, level)]
    ensures Keeps(ctx, 0) && NoNewCubes(old(ctx.textures), ctx.textures) && FacesStay(old(ctx.textures), ctx.textures)
  {
    hide AllHeld, ArraysValid, Sized, Shaped, LedgerValid, AtHome, OwnedBytes, Buffers.Mirrors, ImagesOwned, TexturesHome, Images, Attached,
      TextureError, ColorTarget, NoNewCubes, FacesStay, Buffers.Handles, RefsOf;
    FramebufferShapes(ctx);
    ghost var was, objects, k := ctx.textures, ctx.backend.objects, Lookup(ctx.slots, texture, TextureType);
    UnchangedTextures(was);
    ghost var wanted := WantsColorTarget(ctx, target, attachment, textarget, texture, level);
    FramebufferTexture2D(ctx, target, attachment, textarget, texture, level);
    if wanted {
      ColorTargetKeeps(ctx, was, objects, k);
    }
    ReferencesKeep(ctx);
  }

  /** Making a texture a colour target has kept everything. */
  lemma {:induction false} ColorTargetKeeps(ctx: Context, was: seq<TextureObject>, objects: map<nat, seq<byte>>, k: nat)
    requires |ctx.slots| == |was| == |ctx.buffers| == OBJECT_SLOT_COUNT && k < OBJECT_SLOT_COUNT && ctx.slots[k].kind == TextureType
    requires ctx.textures == was[k := ColorTarget(was[k])]
    requires ctx.backend.objects == if was[k].requiresColorTarget then objects else Without(objects, was[k].image)
    requires Buffers.Mirrors(objects, ctx.buffers) && ImagesOwned(objects - Buffers.Handles(ctx.buffers), was)
    requires TexturesHome(ctx.slots, was, ctx.boundTexture2D, ctx.boundTextureCube)
    requires forall i :: 0 <= i < OBJECT_SLOT_COUNT ==> Shaped(was[i]) && Sized(was[i])
    ensures TextureBytes(ctx.textures) == TextureBytes(was)
    ensures forall i :: 0 <= i < OBJECT_SLOT_COUNT ==> Shaped(ctx.textures[i]) && Sized(ctx.textures[i])
    ensures Buffers.Mirrors(ctx.backend.objects, ctx.buffers) && ImagesOwned(ctx.backend.objects - Buffers.Handles(ctx.buffers), ctx.textures)
    ensures Unowned(ctx) == objects - Buffers.Handles(ctx.buffers) - Images(was)
    ensures TexturesHome(ctx.slots, ctx.textures, ctx.boundTexture2D, ctx.boundTextureCube)
    ensures NoNewCubes(was, ctx.textures) && FacesStay(was, ctx.textures)
  {
    hide Sized, Shaped, AtHome, OwnedBytes, Buffers.Mirrors, ImagesOwned, TexturesHome, Images;
    HomeAt(ctx.slots, was, ctx.boundTexture2D, ctx.boundTextureCube, k);
    ColorTargetAtHome(was[k]);
    TextureBytesUpdate(was, k, ColorTarget(was[k]));
    EditKeepsHome(ctx.slots, was, ctx.boundTexture2D, ctx.boundTextureCube, k, ColorTarget(was[k]));
    DiscardKeeps(objects, ctx.backend.objects, ctx.buffers, was, ctx.textures, k);
  }

  method AttachRenderbuffer(ctx: Context, target: nat, attachment: nat, renderbufferTarget: nat, renderbuffer: nat)
    requires SessionValid(ctx) && |ctx.renderbuffers| == OBJECT_SLOT_COUNT
    modifies ctx`framebuffers, ctx`pendingError
    ensures |ctx.slots| == |old(ctx.framebuffers)| == OBJECT_SLOT_COUNT
    ensures forall i :: 0 <= i < OBJECT_SLOT_COUNT ==> |old(ctx.framebuffers)[i].color| == MAX_COLOR_ATTACHMENTS
    ensures var error := RenderbufferError(ctx, target, attachment, renderbufferTarget, renderbuffer);
            && ctx.pendingError == Context.Pending(old(ctx.pendingError), error)
            && ctx.framebuffers
                 == if error != NoError then old(ctx.framebuffers)
                    else var index := Lookup(ctx.slots, ctx.framebufferBinding, FramebufferType);
                         old(ctx.framebuffers)[index := RenderbufferAttached(old(ctx.framebuffers)[index], attachment, renderbuffer)]
    ensures Keeps(ctx, 0)
  {
    hide AllHeld, ArraysValid, TexturesValid, Buffers.BuffersValid, ImagesOwned, TexturesHome, Surplus, Attached, RenderbufferError;
    FramebufferShapes(ctx);
    FramebufferRenderbuffer(ctx, target, attachment, renderbufferTarget, renderbuffer);
    ReferencesKeep(ctx);
  }

  /** glActiveTexture. */
  method ActiveTexture(ctx: Context, unit: nat)
    requires SessionValid(ctx)
    modifies ctx`activeTextureUnit, ctx`pendingError
    ensures Keeps(ctx, 0)
    ensures if TEXTURE0 <= unit < TEXTURE0 + MAX_TEXTURE_UNITS
            then ctx.activeTextureUnit == unit - TEXTURE0 && ctx.pendingError == old(ctx.pendingError)
            else && ctx.activeTextureUnit == old(ctx.activeTextureUnit)
                 && ctx.pendingError == Context.Pending(old(ctx.pendingError), InvalidEnum)
  {
    hide RefsValid, TexturesValid, Buffers.BuffersValid, ImagesOwned, TexturesHome, Surplus;
    if unit < TEXTURE0 || unit - TEXTURE0 >= MAX_TEXTURE_UNITS {
      ctx.RecordError(InvalidEnum);
    } else {
      ctx.activeTextureUnit := unit - TEXTURE0;
    }
    ReferencesKeep(ctx);
  }

  method BindVertexArrayTo(ctx: Context, name: nat)
    requires SessionValid(ctx)
    modifies ctx`slots, ctx`vertexArrays, ctx`defaultVertexArray, ctx`elementArrayBuffer, ctx`attribs,
             ctx`vertexArrayBinding, ctx`pendingError
    ensures Keeps(ctx, 0)
  {
    hide AllHeld, ArraysValid, Sized, Shaped, LedgerValid, AtHome, Surplus, UnitsTyped, ViewOf;
    ghost var a := ctx.slots;
    BindArray(ctx, name);
    KindsStay(a, ctx.slots);
    TableChangeKeeps(ctx, a);
  }

  method BindFramebufferTo(ctx: Context, target: nat, name: nat)
    requires SessionValid(ctx)
    modifies ctx`slots, ctx`framebufferBinding, ctx`pendingError
    ensures Keeps(ctx, 0)
  {
    hide AllHeld, ArraysValid, Sized, Shaped, LedgerValid, AtHome, Surplus, UnitsTyped;
    ghost var a := ctx.slots;
    BindFramebuffer(ctx, target, name);
    KindsStay(a, ctx.slots);
    TableChangeKeeps(ctx, a);
  }

  method BindRenderbufferTo(ctx: Context, target: nat, name: nat)
    requires SessionValid(ctx)
    modifies ctx`slots, ctx`renderbufferBinding, ctx`pendingError
    ensures Keeps(ctx, 0)
  {
    hide AllHeld, ArraysValid, Sized, Shaped, LedgerValid, AtHome, Surplus, UnitsTyped;
    ghost var a := ctx.slots;
    BindRenderbuffer(ctx, target, name);
    KindsStay(a, ctx.slots);
    TableChangeKeeps(ctx, a);
  }

  /** A released slot was no buffer and no texture, so nothing is lost with it. */
  lemma ReleasingKeepsKinds(a: seq<Slot>, b: seq<Slot>, name: nat, kind: ObjectType)
    requires TableValid(a) && kind != BufferType && kind != TextureType
    requires var k := Lookup(a, name, kind); b == if name != 0 && k < OBJECT_SLOT_COUNT then Released(a, k) else a
    ensures TableValid(b)
    ensures forall i :: 0 <= i < OBJECT_SLOT_COUNT && b[i].kind != a[i].kind ==> a[i].kind == kind
  {
  }

  method DeleteVertexArrayNamed(ctx: Context, name: nat)
    requires SessionValid(ctx)
    modifies ctx`slots, ctx`vertexArrays, ctx`defaultVertexArray, ctx`elementArrayBuffer, ctx`attribs, ctx`vertexArrayBinding
    ensures Keeps(ctx, 0)
  {
    hide AllHeld, ArraysValid, Sized, Shaped, LedgerValid, AtHome, Surplus, UnitsTyped, ViewOf;
    ghost var a := ctx.slots;
    DeleteArray(ctx, name);
    ReleasingKeepsKinds(a, ctx.slots, name, VertexArrayType);
    DeadOrSame(a, ctx.slots, name, VertexArrayType);
    TableChangeKeeps(ctx, a);
  }

  /** A texture name resolves as before, or no longer. */
  lemma DeadOrSame(a: seq<Slot>, b: seq<Slot>, name: nat, kind: ObjectType)
    requires |a| == |b| == OBJECT_SLOT_COUNT
    requires name == 0 || !Resolves(a, name, kind) ==> b == a
    requires Resolves(a, name, kind) ==> forall k :: !Resolves(b, name, k)
    requires forall n, k :: n != name ==> Lookup(b, n, k) == Lookup(a, n, k)
    ensures forall n :: Lookup(b, n, TextureType) == Lookup(a, n, TextureType) || !Resolves(b, n, TextureType)
  {
  }

  method DeleteFramebufferNamed(ctx: Context, name: nat)
    requires SessionValid(ctx)
    modifies ctx`framebuffers, ctx`framebufferBinding, ctx`slots
    ensures Keeps(ctx, 0)
  {
    hide AllHeld, ArraysValid, Sized, Shaped, LedgerValid, AtHome, Surplus, UnitsTyped;
    ghost var a := ctx.slots;
    DeleteFramebuffer(ctx, name);
    ReleasingKeepsKinds(a, ctx.slots, name, FramebufferType);
    DeadOrSame(a, ctx.slots, name, FramebufferType);
    TableChangeKeeps(ctx, a);
  }

  method DeleteRenderbufferNamed(ctx: Context, name: nat)
    requires SessionValid(ctx) && |ctx.renderbuffers| == OBJECT_SLOT_COUNT
    modifies ctx`framebuffers, ctx`renderbufferBinding, ctx`renderbuffers, ctx`slots
    ensures Keeps(ctx, 0) && |ctx.renderbuffers| == OBJECT_SLOT_COUNT
    ensures |old(ctx.slots)| == |ctx.framebuffers| == |old(ctx.framebuffers)| == OBJECT_SLOT_COUNT
    ensures forall i :: 0 <= i < OBJECT_SLOT_COUNT ==> |old(ctx.framebuffers)[i].color| == MAX_COLOR_ATTACHMENTS
    ensures if name == 0 || !old(Resolves(ctx.slots, name, RenderbufferType)) then ctx.framebuffers == old(ctx.framebuffers)
            else forall i :: 0 <= i < OBJECT_SLOT_COUNT ==>
                   ctx.framebuffers[i] == DetachedAll(old(ctx.framebuffers)[i], RenderbufferAttachment, name)
  {
    hide AllHeld, ArraysValid, Sized, Shaped, LedgerValid, AtHome, Surplus, UnitsTyped, DetachedAll;
    FramebufferShapes(ctx);
    ghost var a := ctx.slots;
    DeleteRenderbuffer(ctx, name);
    ReleasingKeepsKinds(a, ctx.slots, name, RenderbufferType);
    DeadOrSame(a, ctx.slots, name, RenderbufferType);
    TableChangeKeeps(ctx, a);
    FramebufferShapes(ctx);
  }

  method GenVertexArrayNames(ctx: Context, count: int, names: array<nat>)
    requires SessionValid(ctx) && count <= names.Length
    modifies ctx`slots, ctx`vertexArrays, ctx`pendingError, names
    ensures Keeps(ctx, 0)
  {
    hide AllHeld, ArraysValid, Sized, Shaped, LedgerValid, AtHome, Surplus, UnitsTyped, ViewOf;
    ghost var a := ctx.slots;
    RefsUnfold(ctx);
    GenArrays(ctx, count, names);
    if count >= 0 {
      ghost var made := if forall i :: 0 <= i < count ==> names[i] != 0 then names[..count] else [];
      AddsKeepsUnits(a, ctx.slots, made, VertexArrayType, ctx.boundTexture2D);
      AddsKeepsUnits(a, ctx.slots, made, VertexArrayType, ctx.boundTextureCube);
      AddsKeepsKinds(a, ctx.slots, made, VertexArrayType);
    }
    TableChangeKeeps(ctx, a);
  }
}
