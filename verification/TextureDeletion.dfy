/** Deleting textures, and what a context's teardown gives back:
    src/objects/texture.c and ringl_context_destroy in src/context/context.c. The
    code frees the flat storage of a texture but not its cube faces, which
    README.md:44-47 says deletion and teardown release. */
module TextureDeletion {
  import opened Limits
  import opened StagingBlocks
  import opened ContextState
  import opened ContextLedger
  import opened ObjectTable
  import opened VertexArrays
  import opened References
  import opened Framebuffers
  import opened TextureFormats
  import opened TextureStorage
  import Buffers
  import CubeFaces

  // ---------------------------------------------------------------- one texture

  /** The storage part of a deletion: flat storage is released, then the record is
      cleared, and with it the only pointers to any face storage. */
  method DropStorage(ctx: Context, k: nat)
    requires IsTexture(ctx, k)
    modifies ctx`active, ctx`textures, ctx.process`globalBytes, ctx.backend
    ensures TexturesValid(ctx) && Others(ctx) == old(Others(ctx))
    ensures ctx.textures == old(ctx.textures)[k := ZeroTexture()]
    ensures Discarded(old(ctx.backend.objects), ctx.backend.objects, old(ctx.textures), ctx.textures, k)
    ensures Surplus(ctx) == old(Surplus(ctx)) + FacesBytes(old(ctx.textures)[k].faces)
  {
    hide Sized, LedgerValid, Surplus, Others, FacesBytes, ZeroTexture, LevelSized, MipsSized;
    DiscardImage(ctx, k);
    DropMipsFrom(ctx, k, 1);
    var t := ctx.textures[k];
    NoMipBytes(t.mips);
    ZeroIsFine();
    ZeroFields();
    Assign(ctx, k, ZeroTexture(), |t.bytes|);
  }

  /** glDeleteTextures, one name. No framebuffer or unit refers to it any more, the
      name stops resolving, and the charge falls by exactly what the texture owned
      less what its faces owned: deletion conserves the ledger if and only if the
      texture has no face storage. */
  method DeleteTexture(ctx: Context, name: nat)
    requires RefsValid(ctx) && TexturesValid(ctx)
    modifies ctx`active, ctx`framebuffers, ctx`textures, ctx`boundTexture2D, ctx`boundTextureCube, ctx`slots,
             ctx.process`globalBytes, ctx.backend
    ensures RefsValid(ctx) && TexturesValid(ctx) && Others(ctx) == old(Others(ctx))
    ensures var k := Lookup(old(ctx.slots), name, TextureType);
            if name == 0 || k == OBJECT_SLOT_COUNT then
              && ctx.textures == old(ctx.textures) && ctx.slots == old(ctx.slots) && Surplus(ctx) == old(Surplus(ctx))
              && ctx.boundTexture2D == old(ctx.boundTexture2D) && ctx.boundTextureCube == old(ctx.boundTextureCube)
              && ctx.framebuffers == old(ctx.framebuffers)
            else
              && ctx.textures == old(ctx.textures)[k := ZeroTexture()]
              && ctx.slots == Released(old(ctx.slots), k)
              && Surplus(ctx) == old(Surplus(ctx)) + FacesBytes(old(ctx.textures)[k].faces)
              && forall i :: 0 <= i < OBJECT_SLOT_COUNT ==>
                   && |old(ctx.framebuffers)[i].color| == MAX_COLOR_ATTACHMENTS
                   && ctx.framebuffers[i] == DetachedAll(old(ctx.framebuffers)[i], TextureAttachment, name)
    ensures old(Resolves(ctx.slots, name, TextureType)) ==>
              && UnitsCleared(old(ctx.boundTexture2D), ctx.boundTexture2D, name)
              && UnitsCleared(old(ctx.boundTextureCube), ctx.boundTextureCube, name)
    ensures Discarded(old(ctx.backend.objects), ctx.backend.objects, old(ctx.textures), ctx.textures, Lookup(old(ctx.slots), name, TextureType))
    ensures old(Resolves(ctx.slots, name, TextureType)) ==> forall k :: !Resolves(ctx.slots, name, k)
    ensures forall n, k :: n != name ==> Lookup(ctx.slots, n, k) == Lookup(old(ctx.slots), n, k)
  {
    hide AllHeld, Sized, Shaped, LedgerValid, Surplus, Others, FacesBytes, OwnedBytes, DetachedAll, ZeroTexture, UnitsCleared,
      RefsOf;
    NamesRoundTrip(0, 0, 0);
    if name == 0 || !Resolves(ctx.slots, name, TextureType) {
      return;
    }
    UnbindTexture(ctx, name);
    var k := Lookup(ctx.slots, name, TextureType);
    UnitsKept(ctx);
    DropStorage(ctx, k);
    ReleaseUnreferenced(ctx, name, TextureType);
  }

  lemma UnitsKept(ctx: Context)
    requires ArraysValid(ctx) && exists n :: AllHeld(ctx.slots, RefsOf(ctx), n)
    ensures |ctx.boundTexture2D| == |ctx.boundTextureCube| == MAX_TEXTURE_UNITS
  {
    var n :| AllHeld(ctx.slots, RefsOf(ctx), n);
  }

  lemma {:induction false} FacesOwnNothing(faces: seq<CubeFace>)
    ensures FacesBytes(faces) == 0 <==> forall g :: 0 <= g < |faces| ==> FaceBytes(faces[g]) == 0
  {
    if faces != [] {
      var last := |faces| - 1;
      FacesOwnNothing(faces[..last]);
      assert forall g :: 0 <= g < last ==> faces[..last][g] == faces[g];
      if forall g :: 0 <= g < last ==> FaceBytes(faces[..last][g]) == 0 {
        assert FaceBytes(faces[last]) == 0 ==> forall g :: 0 <= g < |faces| ==> FaceBytes(faces[g]) == 0;
      }
    }
  }

  /** All a cube texture owns is face storage, so deleting it loses all of it. */
  lemma DeletionLosesFaces(t: TextureObject)
    requires t.target == TEXTURE_CUBE_MAP && CubeFaces.Homed(t)
    ensures FlatBytes(t) == 0 && OwnedBytes(t) == FacesBytes(t.faces)
  {
    hide FacesBytes;
    NoMipBytes(t.mips);
  }

  lemma ZeroFields()
    ensures var z := ZeroTexture();
            z.image == 0 && z.bytes == [] && z.mips == NoMips() && |z.faces| == CUBE_FACE_COUNT && z.faces[0] == NoFace()
  {
    hide NoMips, NoFace;
  }

  lemma EmptyMips()
    ensures forall k :: 0 <= k < |NoMips()| ==> NoMips()[k].bytes == []
  {
  }

  lemma ZeroParts()
    ensures FacesBytes(ZeroTexture().faces) == 0 && FaceBytes(NoFace()) == 0 && MipBytes(NoMips()) == 0
  {
    hide FacesBytes, MipBytes, ZeroTexture, NoMips, NoFace, FaceBytes, FlatBytes;
    ZeroTextureOwnsNothing();
    EmptyMips();
    NoMipBytes(NoMips());
  }

  // --------------------------------------------------------------- all textures

  /** What the cube faces of all textures own. */
  function FaceTotal(textures: seq<TextureObject>): nat {
    if textures == [] then 0
    else FaceTotal(textures[..|textures| - 1]) + FacesBytes(textures[|textures| - 1].faces)
  }

  lemma {:induction false} OnlyFacesLeft(before: seq<TextureObject>, after: seq<TextureObject>)
    requires |before| == |after|
    requires forall i :: 0 <= i < |after| ==> FlatBytes(after[i]) == 0 && after[i].faces == before[i].faces
    ensures TextureBytes(after) == FaceTotal(before)
  {
    if after != [] {
      OnlyFacesLeft(before[..|before| - 1], after[..|after| - 1]);
    }
  }

  /** Flat storage of one texture is released and its pointers cleared. */
  method EmptyTexture(ctx: Context, k: nat)
    requires IsTexture(ctx, k)
    modifies ctx`active, ctx`textures, ctx.process`globalBytes, ctx.backend
    ensures StorageFrame(ctx) && |old(ctx.textures)| == OBJECT_SLOT_COUNT
    ensures FlatBytes(ctx.textures[k]) == 0 && ctx.textures[k].faces == old(ctx.textures)[k].faces
    ensures ctx.backend.objects == Without(old(ctx.backend.objects), old(ctx.textures)[k].image)
    ensures ctx.textures == old(ctx.textures)[k := ctx.textures[k]]
  {
    hide Sized, LedgerValid, Surplus, Others, FacesBytes, LevelSized, MipsSized;
    DiscardImage(ctx, k);
    DropMipsFrom(ctx, k, 1);
    var t := ctx.textures[k];
    NoMipBytes(t.mips);
    EmptiedIsSized(t);
    Assign(ctx, k, t.(bytes := []), |t.bytes|);
  }

  lemma EmptiedIsSized(t: TextureObject)
    requires Sized(t)
    ensures Sized(t.(bytes := []))
  {
    hide TexelBytes, MipsSized;
  }

  /** The backend has lost `images` and nothing else. */
  ghost predicate ImagesGone(before: map<nat, seq<byte>>, after: map<nat, seq<byte>>, textures: seq<TextureObject>, n: nat)
    requires n <= |textures|
  {
    && after.Keys <= before.Keys
    && (forall h :: h in after ==> after[h] == before[h])
    && (forall i :: 0 <= i < n && textures[i].image != 0 ==> textures[i].image !in after)
    && (forall h :: h in before && h !in after ==> exists i :: 0 <= i < n && textures[i].image == h != 0)
  }

  lemma OneImageGone(before: map<nat, seq<byte>>, after: map<nat, seq<byte>>, textures: seq<TextureObject>, n: nat)
    requires n < |textures| && ImagesGone(before, after, textures, n)
    ensures ImagesGone(before, Without(after, textures[n].image), textures, n + 1)
  {
    var rest := Without(after, textures[n].image);
    forall h | h in before && h !in rest
      ensures exists i :: 0 <= i < n + 1 && textures[i].image == h != 0
    {
      if h !in after {
        var i :| 0 <= i < n && textures[i].image == h != 0;
        assert 0 <= i < n + 1;
      } else {
        assert textures[n].image == h;
      }
    }
  }

  /** ringl_texture_objects_destroy_all: afterwards only cube faces own storage, and
      every GPU image of a texture is destroyed. */
  method DestroyAllTextures(ctx: Context)
    requires TexturesValid(ctx)
    modifies ctx`active, ctx`textures, ctx.process`globalBytes, ctx.backend
    ensures StorageFrame(ctx)
    ensures TextureBytes(ctx.textures) == FaceTotal(old(ctx.textures))
    ensures ImagesGone(old(ctx.backend.objects), ctx.backend.objects, old(ctx.textures), |old(ctx.textures)|)
  {
    hide ImagesGone, Sized, LedgerValid, Surplus, Others, FlatBytes, Shaped;
    ZeroOwnsNothing();
    ZeroFields();
    NoImagesGone(ctx.backend.objects, ctx.textures);
    var index := 0;
    while index < OBJECT_SLOT_COUNT
      invariant 0 <= index <= OBJECT_SLOT_COUNT
      invariant TexturesValid(ctx) && Surplus(ctx) == old(Surplus(ctx)) && Others(ctx) == old(Others(ctx))
      invariant |old(ctx.textures)| == OBJECT_SLOT_COUNT
      invariant forall i :: 0 <= i < index ==> FlatBytes(ctx.textures[i]) == 0
      invariant forall i :: 0 <= i < OBJECT_SLOT_COUNT ==> ctx.textures[i].faces == old(ctx.textures)[i].faces
      invariant forall i :: index <= i < OBJECT_SLOT_COUNT ==> ctx.textures[i] == old(ctx.textures)[i]
      invariant ImagesGone(old(ctx.backend.objects), ctx.backend.objects, old(ctx.textures), index)
    {
      OneImageGone(old(ctx.backend.objects), ctx.backend.objects, old(ctx.textures), index);
      if ctx.slots[index].kind == TextureType && ctx.slots[index].state != Free {
        EmptyTexture(ctx, index);
      }
      index := index + 1;
    }
    OnlyFacesLeft(old(ctx.textures), ctx.textures);
  }

  lemma NoImagesGone(objects: map<nat, seq<byte>>, textures: seq<TextureObject>)
    ensures ImagesGone(objects, objects, textures, 0)
  {
  }

  lemma ZeroOwnsNothing()
    ensures FlatBytes(ZeroTexture()) == 0
  {
    hide ZeroTexture, FlatBytes, FacesBytes;
    ZeroTextureOwnsNothing();
  }
}
