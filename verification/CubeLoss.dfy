/** Cube maps whose deletion loses storage: src/objects/texture.c:2085-2137 frees the
    flat fields of a texture and clears the record, faces and all. */
module CubeLoss {
  import opened Limits
  import opened StagingBlocks
  import opened Arithmetic
  import opened ContextState
  import opened ContextLedger
  import opened ObjectTable
  import opened References
  import opened Framebuffers
  import opened TextureFormats
  import opened TexUpload
  import opened TextureStorage
  import opened ContextLifetime
  import opened Session
  import CubeFaces
  import TexImages
  import TextureDeletion
  import Buffers

  /** A face of an untouched cube map has been given `bytes`; it owns nothing else. */
  lemma OneFaceOwned(t: TextureObject, f: nat, inner: TextureObject)
    requires t.faces == ZeroTexture().faces && f < |t.faces| && forall k :: 0 <= k < |inner.mips| ==> inner.mips[k].bytes == []
    ensures FacesBytes(CubeFaces.Edited(t, f, inner).faces) == |inner.bytes|
  {
    hide FacesBytes, MipBytes, CubeFaces.SummaryOf, ZeroTexture, NoFace, NoMips;
    TextureDeletion.ZeroParts();
    ZeroFacesEmpty();
    FacesBytesUpdate(t.faces, f, CubeFaces.FlatFace(inner));
    NoMipBytes(inner.mips);
  }

  /** The smallest texture that loses bytes: one RGBA texel in the first face. It
      meets every invariant of a texture between calls. */
  lemma OneTexelCube() returns (t: TextureObject)
    ensures AtHome(t) && Sized(t) && Shaped(t) && t.target == TEXTURE_CUBE_MAP
    ensures FacesBytes(t.faces) == 4 && t.width == t.height == 1 && t.format == RGBA && t.defined
    ensures t.faces[0].defined && t.faces[0].width == t.faces[0].height == 1 && t.faces[0].format == RGBA
  {
    hide FacesBytes, MipBytes;
    var z := ZeroTexture().(target := TEXTURE_CUBE_MAP);
    var inner := z.(bytes := [0, 0, 0, 0], width := 1, height := 1, format := RGBA, componentType := UNSIGNED_BYTE_TYPE, defined := true);
    t := CubeFaces.Edited(z, 0, inner);
    OneFaceOwned(z, 0, inner);
  }

  /** A new name selects a record nothing has touched. */
  lemma NewRecord(a: seq<Slot>, b: seq<Slot>, name: nat, textures: seq<TextureObject>)
    requires Adds(a, b, [name], TextureType) && |textures| == OBJECT_SLOT_COUNT
    requires forall i :: 0 <= i < OBJECT_SLOT_COUNT && a[i].kind != TextureType ==> textures[i] == ZeroTexture()
    ensures |b| == OBJECT_SLOT_COUNT && name != 0 && Resolves(b, name, TextureType) && textures[Lookup(b, name, TextureType)] == ZeroTexture()
  {
    hide ZeroTexture;
    assert [name][0] == name;
    assert !Resolves(a, name, TextureType);
  }

  /** What a definition without pixels leaves in a face of an untouched cube map. */
  lemma DefinedFace(was: seq<TextureObject>, now: seq<TextureObject>, k: nat, inner: TextureObject, size: nat, u: Upload, after: Error)
    requires CubeFaces.FaceEdited(was, now, k, 0, inner) && size <= MAX_TEXTURE_SIZE
    requires was[k] == ZeroTexture().(target := TEXTURE_CUBE_MAP)
    requires u.format == RGBA && u.componentType == UNSIGNED_BYTE_TYPE && u.alignment == 4
    requires |CubeFaces.Lent(was[k].(image := 0), 0).mips| == |inner.mips| == MIP_STORAGES
    requires CubeFaces.InnerDefined(CubeFaces.Lent(was[k].(image := 0), 0), inner, 0, RGBA, size, size, 0, u, TexImages.Pixels(true, 0), 0, NoError, after)
    ensures FacesBytes(now[k].faces) == if after == NoError then 4 * size * size else 0
    ensures after == NoError || after == OutOfMemory
  {
    hide FacesBytes, CubeFaces.Edited;
    OneFaceOwned(was[k].(image := 0), 0, inner);
  }

  /** Such a definition passes every test that precedes the allocation. */
  lemma DefinitionAllowed(t: TextureObject, size: nat, u: Upload)
    requires t == ZeroTexture().(target := TEXTURE_CUBE_MAP)
    requires u.format == RGBA && u.componentType == UNSIGNED_BYTE_TYPE
    ensures CubeFaces.FaceIndex(POSITIVE_X) == 0
    ensures CubeFaces.CubeDefineError(t, true, 0, 0, RGBA, size, size, u, 0) == NoError
  {
    ZeroFacesEmpty();
  }

  lemma SessionTextures(ctx: Context)
    requires SessionValid(ctx)
    ensures |ctx.slots| == |ctx.textures| == OBJECT_SLOT_COUNT && |ctx.boundTextureCube| == MAX_TEXTURE_UNITS
    ensures forall i :: 0 <= i < OBJECT_SLOT_COUNT && ctx.slots[i].kind != TextureType ==> ctx.textures[i] == ZeroTexture()
  {
    hide RefsValid, Sized, Shaped, LedgerValid, AtHome, Buffers.Mirrors, ImagesOwned, ZeroTexture, Surplus;
  }

  /** Four calls: generate a name, bind it as a cube map, define a square face of
      it, delete it. If none of them reports an error, the context stays charged for
      the four bytes of each of the texels for the rest of its life. */
  method DefineAndDelete(ctx: Context, sizeMax: nat, size: nat, names: array<nat>)
    requires SessionValid(ctx) && ctx.pendingError == NoError && ctx.activeTextureUnit < MAX_TEXTURE_UNITS
    requires size <= MAX_TEXTURE_SIZE && names.Length == 1
    modifies ctx, ctx.process, ctx.backend, names
    ensures ctx.pendingError == NoError || ctx.pendingError == OutOfMemory
    ensures Keeps(ctx, if ctx.pendingError == NoError then 4 * size * size else 0)
  {
    hide SessionValid, Surplus, Others, Unowned, ZeroTexture, CubeFaces.FaceEdited, CubeFaces.InnerDefined, CubeFaces.CubeDefineError,
      NoNewCubes, FacesStay, FacesStayBut, FacesBytes, CubeFaces.Edited, CubeFaces.Lent, CubeFaces.FaceIndex,
      Adds;
    SessionTextures(ctx);
    ZeroTarget();
    ghost var a := ctx.slots;
    Gen(ctx, TextureType, 1, names);
    var name := names[0];
    if name == 0 {
      return;
    }
    assert names[..1] == [name];
    NewRecord(a, ctx.slots, name, ctx.textures);
    ghost var k := Lookup(ctx.slots, name, TextureType);
    BindTex(ctx, TEXTURE_CUBE_MAP, name);
    SessionTextures(ctx);
    ghost var was, t := ctx.textures, ctx.textures[k];
    assert t == ZeroTexture().(target := TEXTURE_CUBE_MAP);
    assert CubeFaces.BoundOrZero(ctx) == t && BoundCube(ctx) == k && CubeFaces.CubeBound(ctx);
    var u := Upload(RGBA, UNSIGNED_BYTE_TYPE, 4, [], _ => []);
    DefinitionAllowed(t, size, u);
    ghost var inner := DefineFace(ctx, sizeMax, POSITIVE_X, 0, RGBA, size, size, 0, u, TexImages.Pixels(true, 0));
    DefinedFace(was, ctx.textures, k, inner, size, u, ctx.pendingError);
    ghost var lost := DropTexture(ctx, name);
  }
}
