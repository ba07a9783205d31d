/** Giving a texture its GPU image, in src/objects/texture.c: one fresh backend
    object, or none. What the image holds is not modelled. */
module Realization {
  import opened Limits
  import opened StagingBlocks
  import opened ContextState
  import opened ContextLedger
  import opened ObjectTable
  import opened VertexArrays
  import opened References
  import opened Framebuffers
  import opened TextureStorage
  import opened ContextLifetime
  import opened Session
  import Buffers
  import CubeFaces
  import TextureFormats
  import opened Mipmaps
  import opened CubeMipmaps

  /** A backend object with all its uploads, or nothing. `contents` are the images
      to upload, level by level and face by face. */
  method MakeImage(backend: Backend, contents: seq<seq<byte>>) returns (image: nat)
    modifies backend
    ensures image == 0 ==> backend.objects == old(backend.objects)
    ensures image != 0 ==> image !in old(backend.objects) && backend.objects.Keys == old(backend.objects).Keys + {image}
    ensures forall h :: h in old(backend.objects) ==> backend.objects[h] == old(backend.objects)[h]
  {
    var result, made := backend.CreateObject(0);
    if result != 0 || made == 0 {
      backend.DestroyObject(made);
      assert backend.objects == old(backend.objects);
      return 0;
    }
    var next := 0;
    while next < |contents|
      invariant 0 <= next <= |contents|
      invariant made !in old(backend.objects) && backend.objects.Keys == old(backend.objects).Keys + {made}
      invariant forall h :: h in old(backend.objects) ==> backend.objects[h] == old(backend.objects)[h]
    {
      result := backend.UploadObject(made, contents[next]);
      if result != 0 {
        backend.DestroyObject(made);
        assert backend.objects == old(backend.objects);
        return 0;
      }
      next := next + 1;
    }
    return made;
  }

  /** The image is no part of what a texture owns of the ledger, nor of its shape. */
  lemma ImageIsAside(t: TextureObject, image: nat)
    requires t.target != 0
    ensures OwnedBytes(t.(image := image)) == OwnedBytes(t)
    ensures Sized(t) ==> Sized(t.(image := image))
    ensures Shaped(t) ==> Shaped(t.(image := image))
    ensures AtHome(t) ==> AtHome(t.(image := image))
  {
    hide FacesBytes, MipBytes, LevelSized, MipsSized, CubeFaces.SummaryOf;
  }

  /** A fresh object becomes one texture's image: every buffer still has its own
      object, every texture its own image, and nothing new is unowned. */
  lemma FreshImage(before: map<nat, seq<byte>>, after: map<nat, seq<byte>>, buffers: seq<BufferObject>,
                   was: seq<TextureObject>, k: nat, image: nat)
    requires k < |was| && was[k].image == 0 && image != 0 && image !in before
    requires after.Keys == before.Keys + {image} && forall h :: h in before ==> after[h] == before[h]
    requires Buffers.Mirrors(before, buffers) && ImagesOwned(before - Buffers.Handles(buffers), was)
    ensures var now := was[k := was[k].(image := image)];
            && Buffers.Mirrors(after, buffers) && ImagesOwned(after - Buffers.Handles(buffers), now)
            && after - Buffers.Handles(buffers) - Images(now) == before - Buffers.Handles(buffers) - Images(was)
  {
    var now := was[k := was[k].(image := image)];
    assert image !in Buffers.Handles(buffers);
    forall h
      ensures h in Images(now) <==> h in Images(was) || h == image
    {
      if h in Images(was) {
        var i :| 0 <= i < |was| && was[i].image != 0 && was[i].image == h;
        assert now[i] == was[i];
      }
      if h == image {
        assert now[k].image == h;
      }
    }
  }

  // ------------------------------------------------------------- the condition

  predicate HasDepth(t: TextureObject) { t.format == DEPTH_COMPONENT32F || t.format == DEPTH24_STENCIL8 }

  /** What texture_realize_image and texture_realize_cube_image ask of a texture
      without an image: a colour target needs a base, or a face of one; any other
      texture has to be complete for its sampling state. `arrayOps` says whether the
      backend has the operations for image arrays. */
  ghost predicate Realizable(t: TextureObject, s: Sampling, arrayOps: bool)
    requires Shaped(t)
  {
    if t.target == TEXTURE_CUBE_MAP then
      && (if t.requiresColorTarget then exists f :: 0 <= f < CUBE_FACE_COUNT && FaceDefined(t.faces[f]) else CubeSampleable(t, s))
      && TextureFormats.IsColor(t.format) && arrayOps
    else
      && (TextureFormats.IsColor(t.format) || HasDepth(t))
      && if t.requiresColorTarget || HasDepth(t) then LevelDefined(t, 0) else Sampleable(t, s)
  }

  method CanRealize(t: TextureObject, s: Sampling, arrayOps: bool) returns (can: bool)
    requires Shaped(t) && Sized(t)
    ensures can <==> Realizable(t, s, arrayOps)
  {
    hide Sized, CubeSampleable, Sampleable, FaceDefined, LevelDefined;
    if t.target == TEXTURE_CUBE_MAP {
      if t.requiresColorTarget {
        can := AnyFace(t.faces);
      } else {
        can := CubeLevel0Complete(t, s);
      }
      return can && TextureFormats.IsColor(t.format) && arrayOps;
    }
    if !TextureFormats.IsColor(t.format) && !HasDepth(t) {
      return false;
    }
    if t.requiresColorTarget || HasDepth(t) {
      return LevelDefined(t, 0);
    }
    SizedDims(t);
    can := Level0Complete(t, s);
  }

  /** Whether the highest defined level of a cube map is at least the first. */
  method AnyFace(faces: seq<CubeFace>) returns (any: bool)
    requires |faces| == CUBE_FACE_COUNT
    ensures any <==> exists f :: 0 <= f < CUBE_FACE_COUNT && FaceDefined(faces[f])
  {
    var face := 0;
    while face < CUBE_FACE_COUNT
      invariant 0 <= face <= CUBE_FACE_COUNT
      invariant forall f :: 0 <= f < face ==> !FaceDefined(faces[f])
    {
      if FaceDefined(faces[face]) {
        return true;
      }
      face := face + 1;
    }
    return false;
  }

  /** texture_realize_image. */
  method RealizeImage(ctx: Context, k: nat, s: Sampling, arrayOps: bool, contents: seq<seq<byte>>) returns (result: int)
    requires SessionValid(ctx) && k < OBJECT_SLOT_COUNT && ctx.slots[k].kind == TextureType
    requires |ctx.textures| == OBJECT_SLOT_COUNT && ctx.textures[k].target != 0
    modifies ctx`textures, ctx.backend
    ensures Keeps(ctx, 0) && |ctx.textures| == OBJECT_SLOT_COUNT == |old(ctx.textures)|
    ensures result == 0 || result == -1
    ensures ctx.textures == old(ctx.textures)[k := old(ctx.textures)[k].(image := ctx.textures[k].image)]
    ensures result == 0 ==> ctx.textures[k].image != 0 && (old(ctx.textures)[k].image != 0 ==> ctx.textures == old(ctx.textures))
    ensures result != 0 ==> ctx.textures == old(ctx.textures) && ctx.backend.objects == old(ctx.backend.objects)
    ensures old(ctx.textures)[k].image == 0 ==> Shaped(old(ctx.textures)[k])
    ensures old(ctx.textures)[k].image == 0 && !Realizable(old(ctx.textures)[k], s, arrayOps) ==> result != 0
  {
    hide RefsValid, Sized, Shaped, LedgerValid, AtHome, OwnedBytes, Buffers.Mirrors, ImagesOwned, TexturesHome, Images, Realizable;
    if ctx.textures[k].image != 0 {
      return 0;
    }
    var can := CanRealize(ctx.textures[k], s, arrayOps);
    if !can {
      return -1;
    }
    ghost var before := ctx.backend.objects;
    var image := MakeImage(ctx.backend, contents);
    if image == 0 {
      return -1;
    }
    InstallImage(ctx, k, image, before);
    return 0;
  }

  method InstallImage(ctx: Context, k: nat, image: nat, ghost before: map<nat, seq<byte>>)
    requires RefsValid(ctx) && TexturesValid(ctx) && TableValid(ctx.slots) && |ctx.buffers| == OBJECT_SLOT_COUNT
    requires forall i :: 0 <= i < OBJECT_SLOT_COUNT && ctx.slots[i].kind != BufferType ==> ctx.buffers[i] == ZERO_BUFFER
    requires TexturesHome(ctx.slots, ctx.textures, ctx.boundTexture2D, ctx.boundTextureCube)
    requires Buffers.Mirrors(before, ctx.buffers) && ImagesOwned(before - Buffers.Handles(ctx.buffers), ctx.textures)
    requires k < OBJECT_SLOT_COUNT && ctx.slots[k].kind == TextureType
    requires ctx.textures[k].target != 0 && ctx.textures[k].image == 0
    requires image != 0 && image !in before && ctx.backend.objects.Keys == before.Keys + {image}
    requires forall h :: h in before ==> ctx.backend.objects[h] == before[h]
    modifies ctx`textures
    ensures SessionValid(ctx) && Surplus(ctx) == old(Surplus(ctx))
    ensures |old(ctx.textures)| == OBJECT_SLOT_COUNT
    ensures ctx.textures == old(ctx.textures)[k := old(ctx.textures)[k].(image := image)]
    ensures Unowned(ctx) == before - Buffers.Handles(ctx.buffers) - Images(old(ctx.textures))
  {
    hide RefsValid, Sized, Shaped, LedgerValid, AtHome, OwnedBytes, Buffers.Mirrors, ImagesOwned, TexturesHome, Images;
    ghost var was := ctx.textures;
    HomeAt(ctx.slots, was, ctx.boundTexture2D, ctx.boundTextureCube, k);
    ImageIsAside(was[k], image);
    FreshImage(before, ctx.backend.objects, ctx.buffers, was, k, image);
    EditKeepsHome(ctx.slots, was, ctx.boundTexture2D, ctx.boundTextureCube, k, was[k].(image := image));
    TextureBytesUpdate(was, k, was[k].(image := image));
    ctx.textures := ctx.textures[k := ctx.textures[k].(image := image)];
  }

  lemma UnitsAreBound(ctx: Context, unit: nat)
    requires SessionValid(ctx)
    ensures |ctx.slots| == |ctx.textures| == OBJECT_SLOT_COUNT && |ctx.boundTexture2D| == |ctx.boundTextureCube| == MAX_TEXTURE_UNITS
    ensures unit < MAX_TEXTURE_UNITS ==>
              && BoundSlot(ctx.slots, ctx.textures, ctx.boundTexture2D[unit])
              && BoundSlot(ctx.slots, ctx.textures, ctx.boundTextureCube[unit])
  {
    hide RefsValid, Sized, Shaped, LedgerValid, AtHome, Buffers.Mirrors, ImagesOwned;
  }

  /** The name selects no texture, or one that has been bound. */
  predicate BoundSlot(slots: seq<Slot>, textures: seq<TextureObject>, name: nat)
    requires |slots| == |textures| == OBJECT_SLOT_COUNT
  {
    var k := Lookup(slots, name, TextureType);
    k < OBJECT_SLOT_COUNT ==> slots[k].kind == TextureType && textures[k].target != 0
  }

  /** What a unit asks of its texture before it looks for an image. */
  ghost predicate UnitReady(t: TextureObject, s: Sampling)
    requires Shaped(t)
  {
    if t.target == TEXTURE_CUBE_MAP then CubeSampleable(t, s) && TextureFormats.IsColor(t.format)
    else (TextureFormats.IsColor(t.format) || HasDepth(t)) && Sampleable(t, s)
  }

  method IsUnitReady(t: TextureObject, s: Sampling) returns (ready: bool)
    requires Shaped(t) && Sized(t)
    ensures ready <==> UnitReady(t, s)
  {
    hide Sized, CubeSampleable, Sampleable;
    SizedDims(t);
    if t.target == TEXTURE_CUBE_MAP {
      ready := CubeLevel0Complete(t, s);
      ready := ready && TextureFormats.IsColor(t.format);
    } else {
      ready := Level0Complete(t, s);
      ready := ready && (TextureFormats.IsColor(t.format) || HasDepth(t));
    }
  }

  /** The slot of a unit's texture: of its 2D one if one is bound, else of its cube
      map; 1024 if there is none. */
  function UnitSlot(ctx: Context, unit: nat): nat
    requires |ctx.slots| == OBJECT_SLOT_COUNT && |ctx.boundTexture2D| == |ctx.boundTextureCube| == MAX_TEXTURE_UNITS
    reads ctx`slots, ctx`boundTexture2D, ctx`boundTextureCube
  {
    if unit >= MAX_TEXTURE_UNITS then OBJECT_SLOT_COUNT
    else
      var name := if ctx.boundTexture2D[unit] != 0 then ctx.boundTexture2D[unit] else ctx.boundTextureCube[unit];
      if name == 0 then OBJECT_SLOT_COUNT else Lookup(ctx.slots, name, TextureType)
  }

  /** The image of a unit's texture, without its sampler: there is one afterwards only
      if the texture is complete for its sampling state, and a texture that is not
      gets none. */
  method RealizeUnit(ctx: Context, unit: nat, s: Sampling, arrayOps: bool, contents: seq<seq<byte>>) returns (result: int)
    requires SessionValid(ctx)
    modifies ctx`textures, ctx.backend
    ensures Keeps(ctx, 0) && NoNewCubes(old(ctx.textures), ctx.textures) && FacesStay(old(ctx.textures), ctx.textures)
    ensures result == 0 || result == -1
    ensures result != 0 ==> ctx.textures == old(ctx.textures) && ctx.backend.objects == old(ctx.backend.objects)
    ensures |ctx.slots| == |ctx.textures| == |old(ctx.textures)| == OBJECT_SLOT_COUNT
    ensures |ctx.boundTexture2D| == |ctx.boundTextureCube| == MAX_TEXTURE_UNITS
    ensures result == 0 ==>
              var k := UnitSlot(ctx, unit);
              && k < OBJECT_SLOT_COUNT && ctx.textures[k].image != 0
              && Shaped(old(ctx.textures)[k]) && UnitReady(old(ctx.textures)[k], s)
  {
    hide SessionValid, Surplus, Others, Unowned, Shaped, Sized, UnitReady;
    result := -1;
    UnitsAreBound(ctx, unit);
    var k := UnitSlot(ctx, unit);
    if k < OBJECT_SLOT_COUNT {
      TextureShape(ctx, k);
      var ready := IsUnitReady(ctx.textures[k], s);
      if ready {
        result := RealizeImage(ctx, k, s, arrayOps, contents);
      }
    }
  }

  lemma TextureShape(ctx: Context, k: nat)
    requires SessionValid(ctx) && k < OBJECT_SLOT_COUNT
    ensures |ctx.textures| == OBJECT_SLOT_COUNT && Shaped(ctx.textures[k]) && Sized(ctx.textures[k])
  {
    hide RefsValid, Sized, Shaped, LedgerValid, AtHome, Buffers.Mirrors, ImagesOwned, TexturesHome;
  }
}
