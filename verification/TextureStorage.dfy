/** Texture storage in src/objects/texture.c: who owns which bytes, and the
    helpers that free them. Bytes are charged to the context that owns them. */
module TextureStorage {
  import opened Limits
  import opened StagingBlocks
  import opened ContextState
  import opened ContextLedger
  import opened ObjectTable
  import opened TextureFormats
  import Buffers

  const MIP_STORAGES: nat := 12 // levels 1 to 12; level zero is in the flat fields

  // ----------------------------------------------------------------- totals

  function MipBytes(mips: seq<MipStorage>): nat {
    if mips == [] then 0 else MipBytes(mips[..|mips| - 1]) + |mips[|mips| - 1].bytes|
  }

  /** Storage the flat fields of a texture own. */
  function FlatBytes(t: TextureObject): nat { |t.bytes| + MipBytes(t.mips) }

  function FaceBytes(f: CubeFace): nat { |f.bytes| + MipBytes(f.mips) }

  function FacesBytes(faces: seq<CubeFace>): nat {
    if faces == [] then 0 else FacesBytes(faces[..|faces| - 1]) + FaceBytes(faces[|faces| - 1])
  }

  function OwnedBytes(t: TextureObject): nat { FlatBytes(t) + FacesBytes(t.faces) }

  function TextureBytes(textures: seq<TextureObject>): nat {
    if textures == [] then 0 else TextureBytes(textures[..|textures| - 1]) + OwnedBytes(textures[|textures| - 1])
  }

  lemma {:induction false} MipBytesUpdate(mips: seq<MipStorage>, k: nat, m: MipStorage)
    requires k < |mips|
    ensures MipBytes(mips[k := m]) == MipBytes(mips) - |mips[k].bytes| + |m.bytes|
    ensures |mips[k].bytes| <= MipBytes(mips)
  {
    var last := |mips| - 1;
    if k == last {
      assert mips[k := m][..last] == mips[..last];
    } else {
      MipBytesUpdate(mips[..last], k, m);
      assert mips[k := m][..last] == mips[..last][k := m];
    }
  }

  lemma {:induction false} FacesBytesUpdate(faces: seq<CubeFace>, k: nat, f: CubeFace)
    requires k < |faces|
    ensures FacesBytes(faces[k := f]) == FacesBytes(faces) - FaceBytes(faces[k]) + FaceBytes(f)
    ensures FaceBytes(faces[k]) <= FacesBytes(faces)
  {
    var last := |faces| - 1;
    if k == last {
      assert faces[k := f][..last] == faces[..last];
    } else {
      FacesBytesUpdate(faces[..last], k, f);
      assert faces[k := f][..last] == faces[..last][k := f];
    }
  }

  lemma {:induction false} TextureBytesUpdate(textures: seq<TextureObject>, k: nat, t: TextureObject)
    requires k < |textures|
    ensures TextureBytes(textures[k := t]) == TextureBytes(textures) - OwnedBytes(textures[k]) + OwnedBytes(t)
    ensures OwnedBytes(textures[k]) <= TextureBytes(textures)
  {
    var last := |textures| - 1;
    if k == last {
      assert textures[k := t][..last] == textures[..last];
    } else {
      TextureBytesUpdate(textures[..last], k, t);
      assert textures[k := t][..last] == textures[..last][k := t];
    }
  }

  lemma {:induction false} NoMipBytes(mips: seq<MipStorage>)
    requires forall k :: 0 <= k < |mips| ==> mips[k].bytes == []
    ensures MipBytes(mips) == 0
  {
    if mips != [] {
      NoMipBytes(mips[..|mips| - 1]);
    }
  }

  lemma ZeroTextureOwnsNothing()
    ensures OwnedBytes(ZeroTexture()) == 0 && FaceBytes(NoFace()) == 0
  {
    NoMipBytes(NoMips());
    var faces := ZeroTexture().faces;
    assert FacesBytes(faces[..0]) == 0;
    assert faces[..1][..0] == faces[..0] && faces[..2][..1] == faces[..1] && faces[..3][..2] == faces[..2];
    assert faces[..4][..3] == faces[..3] && faces[..5][..4] == faces[..4];
    assert FacesBytes(faces[..2]) == 0;
    assert FacesBytes(faces[..4]) == 0;
    assert FacesBytes(faces[..5]) == 0;
  }

  // ------------------------------------------------------------- invariants

  predicate Shaped(t: TextureObject) {
    && |t.mips| == MIP_STORAGES && |t.faces| == CUBE_FACE_COUNT
    && forall f :: 0 <= f < CUBE_FACE_COUNT ==> |t.faces[f].mips| == MIP_STORAGES
  }

  predicate LevelSized(bytes: seq<byte>, width: nat, height: nat, defined: bool, texelBytes: nat) {
    bytes != [] ==> defined && |bytes| == width * height * texelBytes
  }

  predicate MipsSized(mips: seq<MipStorage>, texelBytes: nat) {
    forall k :: 0 <= k < |mips| ==> LevelSized(mips[k].bytes, mips[k].width, mips[k].height, mips[k].defined, texelBytes)
  }

  /** A packed format never has a float component type. */
  predicate FormatOk(format: nat, componentType: nat) { IsPacked(format) ==> !IsFloat(componentType) }

  predicate FaceSized(f: CubeFace) {
    && FormatOk(f.format, f.componentType) && f.width <= MAX_TEXTURE_SIZE && f.height <= MAX_TEXTURE_SIZE
    && LevelSized(f.bytes, f.width, f.height, f.defined, TexelBytes(f.format, f.componentType))
    && MipsSized(f.mips, TexelBytes(f.format, f.componentType))
  }

  /** The storage of every level has the size its fields say, and no level is larger than 4096 texels. */
  predicate Sized(t: TextureObject) {
    && FormatOk(t.format, t.componentType) && t.width <= MAX_TEXTURE_SIZE && t.height <= MAX_TEXTURE_SIZE
    && LevelSized(t.bytes, t.width, t.height, t.defined, TexelBytes(t.format, t.componentType))
    && MipsSized(t.mips, TexelBytes(t.format, t.componentType))
    && forall f :: 0 <= f < |t.faces| ==> FaceSized(t.faces[f])
  }

  /** The bytes of a level: those of the base, or of the storage above it. */
  function StoredLevel(base: seq<byte>, mips: seq<MipStorage>, level: nat): seq<byte>
    requires level <= |mips|
  {
    if level == 0 then base else mips[level - 1].bytes
  }

  /** texture_level_storage_defined. */
  predicate LevelDefined(t: TextureObject, level: nat)
    requires |t.mips| == MIP_STORAGES
  {
    if level == 0 then t.defined && t.width != 0 && t.height != 0 && t.bytes != []
    else level <= MIP_STORAGES
         && var m := t.mips[level - 1]; m.defined && m.width != 0 && m.height != 0 && m.bytes != []
  }

  lemma EmptyIsSized()
    ensures forall w, h, d, n :: LevelSized([], w, h, d, n)
    ensures forall n :: MipsSized(NoMips(), n)
  {
  }

  lemma NothingIsSized(t: TextureObject)
    requires t.bytes == [] && t.mips == NoMips() && t.format == t.componentType == t.width == t.height == 0
    requires |t.faces| == CUBE_FACE_COUNT && forall f :: 0 <= f < |t.faces| ==> t.faces[f] == NoFace()
    ensures Shaped(t) && Sized(t)
  {
    hide LevelSized, MipsSized, TexelBytes, NoMips;
    EmptyIsSized();
    assert |NoMips()| == MIP_STORAGES by {
      NoMipsLength();
    }
    assert FaceSized(NoFace());
  }

  lemma NoMipsLength()
    ensures |NoMips()| == MIP_STORAGES
  {
  }

  lemma ZeroIsFine()
    ensures Shaped(ZeroTexture()) && Sized(ZeroTexture()) && OwnedBytes(ZeroTexture()) == 0
  {
    hide LevelSized, MipsSized, TexelBytes, Shaped, Sized, OwnedBytes, NoMips, NoFace;
    ZeroTextureOwnsNothing();
    NothingIsSized(ZeroTexture());
  }

  /** What the context is charged for beyond buffers and textures. Every call on
      textures keeps it, so the charge is always the sum of what is owned. */
  ghost function Surplus(ctx: Context): int
    reads ctx`active, ctx`blocks, ctx`buffers, ctx`textures
  {
    Buffers.OtherCharges(ctx) - TextureBytes(ctx.textures)
  }

  ghost predicate TexturesValid(ctx: Context)
    reads ctx`active, ctx`cached, ctx`blocks, ctx`buffers, ctx`slots, ctx`textures, ctx`boundTexture2D, ctx`boundTextureCube, ctx.process
  {
    && LedgerValid(ctx) && TableValid(ctx.slots)
    && |ctx.textures| == OBJECT_SLOT_COUNT && |ctx.boundTexture2D| == |ctx.boundTextureCube| == MAX_TEXTURE_UNITS
    && (forall i :: 0 <= i < OBJECT_SLOT_COUNT && ctx.slots[i].kind != TextureType ==> ctx.textures[i] == ZeroTexture())
    && (forall i :: 0 <= i < OBJECT_SLOT_COUNT ==> Shaped(ctx.textures[i]) && Sized(ctx.textures[i]))
    && 0 <= Surplus(ctx)
  }

  ghost predicate IsTexture(ctx: Context, k: nat)
    reads ctx`active, ctx`cached, ctx`blocks, ctx`buffers, ctx`slots, ctx`textures, ctx`boundTexture2D, ctx`boundTextureCube, ctx.process
  {
    TexturesValid(ctx) && k < OBJECT_SLOT_COUNT && ctx.slots[k].kind == TextureType
  }

  /** bound_texture_2d: the slot, or 1024. */
  function Bound2D(ctx: Context): (k: nat)
    requires |ctx.slots| == OBJECT_SLOT_COUNT && |ctx.boundTexture2D| == MAX_TEXTURE_UNITS
    reads ctx`slots, ctx`boundTexture2D, ctx`activeTextureUnit
    ensures k <= OBJECT_SLOT_COUNT && (k < OBJECT_SLOT_COUNT ==> ctx.slots[k].kind == TextureType)
  {
    if ctx.activeTextureUnit >= MAX_TEXTURE_UNITS then OBJECT_SLOT_COUNT
    else Lookup(ctx.slots, ctx.boundTexture2D[ctx.activeTextureUnit], TextureType)
  }

  /** bound_texture_cube. */
  function BoundCube(ctx: Context): (k: nat)
    requires |ctx.slots| == OBJECT_SLOT_COUNT && |ctx.boundTextureCube| == MAX_TEXTURE_UNITS
    reads ctx`slots, ctx`boundTextureCube, ctx`activeTextureUnit
    ensures k <= OBJECT_SLOT_COUNT && (k < OBJECT_SLOT_COUNT ==> ctx.slots[k].kind == TextureType)
  {
    if ctx.activeTextureUnit >= MAX_TEXTURE_UNITS then OBJECT_SLOT_COUNT
    else Lookup(ctx.slots, ctx.boundTextureCube[ctx.activeTextureUnit], TextureType)
  }

  /** What every call on textures keeps. */
  twostate predicate StorageFrame(ctx: Context)
    reads ctx, ctx.process
  {
    TexturesValid(ctx) && Surplus(ctx) == old(Surplus(ctx)) && Others(ctx) == old(Others(ctx))
  }

  // ---------------------------------------------------------------- release

  /** One assignment to a texture, with `freed` bytes freed and released beside it. */
  method Assign(ctx: Context, k: nat, t: TextureObject, freed: nat)
    requires IsTexture(ctx, k) && Shaped(t) && Sized(t)
    requires freed <= OwnedBytes(ctx.textures[k])
    requires OwnedBytes(t) + freed <= Surplus(ctx) + OwnedBytes(ctx.textures[k])
    modifies ctx`active, ctx`textures, ctx.process`globalBytes
    ensures TexturesValid(ctx) && Others(ctx) == old(Others(ctx))
    ensures ctx.textures == old(ctx.textures)[k := t]
    ensures Surplus(ctx) == old(Surplus(ctx)) + OwnedBytes(old(ctx.textures)[k]) - OwnedBytes(t) - freed
  {
    hide Sized, OwnedBytes;
    TextureBytesUpdate(ctx.textures, k, t);
    ReleaseShadowBytes(ctx, freed);
    ctx.textures := ctx.textures[k := t];
  }

  /** The levels from `first` on are gone. */
  function Dropped(mips: seq<MipStorage>, first: nat): (r: seq<MipStorage>)
    ensures |r| == |mips|
  {
    seq(|mips|, k requires 0 <= k < |mips| => if k + 1 < first then mips[k] else NO_MIP)
  }

  /** The levels some generateMipmap made are gone; uploaded ones stay. */
  function WithoutGenerated(mips: seq<MipStorage>): (r: seq<MipStorage>)
    ensures |r| == |mips|
  {
    seq(|mips|, k requires 0 <= k < |mips| => if mips[k].generated then NO_MIP else mips[k])
  }

  lemma MipReleased(t: TextureObject, k: nat)
    requires k < |t.mips|
    ensures Sized(t) ==> Sized(t.(mips := t.mips[k := NO_MIP]))
    ensures OwnedBytes(t.(mips := t.mips[k := NO_MIP])) + |t.mips[k].bytes| == OwnedBytes(t)
  {
    MipBytesUpdate(t.mips, k, NO_MIP);
  }

  /** Free, release and clear one level. */
  method ReleaseMip(ctx: Context, k: nat, level: nat)
    requires IsTexture(ctx, k) && 0 < level <= MIP_STORAGES
    modifies ctx`active, ctx`textures, ctx.process`globalBytes
    ensures StorageFrame(ctx)
    ensures ctx.textures == old(ctx.textures)[k := old(ctx.textures)[k].(mips := old(ctx.textures)[k].mips[level - 1 := NO_MIP])]
  {
    hide Sized, OwnedBytes;
    var t := ctx.textures[k];
    MipReleased(t, level - 1);
    Assign(ctx, k, t.(mips := t.mips[level - 1 := NO_MIP]), |t.mips[level - 1].bytes|);
  }

  /** texture_drop_mip_storage_from. */
  method DropMipsFrom(ctx: Context, k: nat, first: nat)
    requires IsTexture(ctx, k) && 0 < first
    modifies ctx`active, ctx`textures, ctx.process`globalBytes
    ensures StorageFrame(ctx)
    ensures ctx.textures == old(ctx.textures)[k := old(ctx.textures)[k].(mips := Dropped(old(ctx.textures)[k].mips, first))]
  {
    hide Sized, OwnedBytes, LedgerValid, Surplus, Others;
    ghost var was := ctx.textures[k];
    var level := first;
    while level <= MIP_STORAGES
      invariant first <= level
      invariant TexturesValid(ctx) && Surplus(ctx) == old(Surplus(ctx)) && Others(ctx) == old(Others(ctx))
      invariant |ctx.textures[k].mips| == MIP_STORAGES
      invariant ctx.textures == old(ctx.textures)[k := was.(mips := ctx.textures[k].mips)]
      invariant forall j :: 0 <= j < MIP_STORAGES ==>
                  ctx.textures[k].mips[j] == if first <= j + 1 < level then NO_MIP else was.mips[j]
    {
      ReleaseMip(ctx, k, level);
      level := level + 1;
    }
    assert ctx.textures[k].mips == Dropped(was.mips, first);
  }

  /** texture_drop_generated_mips. */
  method DropGeneratedMips(ctx: Context, k: nat)
    requires IsTexture(ctx, k)
    modifies ctx`active, ctx`textures, ctx.process`globalBytes
    ensures StorageFrame(ctx)
    ensures ctx.textures == old(ctx.textures)[k := old(ctx.textures)[k].(mips := WithoutGenerated(old(ctx.textures)[k].mips))]
  {
    hide Sized, OwnedBytes, LedgerValid, Surplus, Others;
    ghost var was := ctx.textures[k];
    var level := 1;
    while level <= MIP_STORAGES
      invariant 1 <= level <= MIP_STORAGES + 1
      invariant TexturesValid(ctx) && Surplus(ctx) == old(Surplus(ctx)) && Others(ctx) == old(Others(ctx))
      invariant |ctx.textures[k].mips| == MIP_STORAGES
      invariant ctx.textures == old(ctx.textures)[k := was.(mips := ctx.textures[k].mips)]
      invariant forall j :: 0 <= j < MIP_STORAGES ==>
                  ctx.textures[k].mips[j] == if j + 1 < level && was.mips[j].generated then NO_MIP else was.mips[j]
    {
      if ctx.textures[k].mips[level - 1].generated {
        ReleaseMip(ctx, k, level);
      }
      level := level + 1;
    }
    assert ctx.textures[k].mips == WithoutGenerated(was.mips);
  }

  lemma ImageOwnsNothing(t: TextureObject)
    ensures OwnedBytes(t.(image := 0)) == OwnedBytes(t) && (Sized(t) ==> Sized(t.(image := 0)))
  {
  }

  /** An assignment that moves storage around or leaves it alone. */
  method Rearrange(ctx: Context, k: nat, t: TextureObject)
    requires IsTexture(ctx, k) && Shaped(t) && Sized(t) && OwnedBytes(t) == OwnedBytes(ctx.textures[k])
    modifies ctx`textures
    ensures StorageFrame(ctx) && IsTexture(ctx, k)
    ensures ctx.textures == old(ctx.textures)[k := t]
  {
    hide Sized, OwnedBytes, LedgerValid, TableValid;
    TextureBytesUpdate(ctx.textures, k, t);
    ctx.textures := ctx.textures[k := t];
  }

  /** A call on texture `k` destroys at most its realized image, and then clears
      the handle. */
  ghost predicate Discarded(before: map<nat, seq<byte>>, after: map<nat, seq<byte>>, was: seq<TextureObject>, now: seq<TextureObject>, k: nat) {
    || (after == before && (k < |was| && k < |now| ==> now[k].image == was[k].image))
    || (k < |was| && k < |now| && after == Without(before, was[k].image) && now[k].image == 0)
  }

  /** A call on the 2D target changes one texture's flat fields and discards its image. */
  ghost predicate FlatOnly(was: seq<TextureObject>, now: seq<TextureObject>, k: nat) {
    && k < |was| == |now| && now == was[k := now[k]]
    && now[k].image == 0 && now[k].target == was[k].target && now[k].faces == was[k].faces
  }

  /** texture_discard_image: the realized GPU image goes, the storage stays. */
  method DiscardImage(ctx: Context, k: nat)
    requires IsTexture(ctx, k)
    modifies ctx`textures, ctx.backend
    ensures StorageFrame(ctx)
    ensures ctx.textures == old(ctx.textures)[k := old(ctx.textures)[k].(image := 0)]
    ensures ctx.backend.objects == Without(old(ctx.backend.objects), old(ctx.textures)[k].image)
  {
    hide Sized, OwnedBytes, LedgerValid, TableValid;
    ctx.backend.DestroyObject(ctx.textures[k].image);
    ImageOwnsNothing(ctx.textures[k]);
    Rearrange(ctx, k, ctx.textures[k].(image := 0));
  }
}
