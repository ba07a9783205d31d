/** Cube-map faces in src/objects/texture.c: a face is edited by lending its
    storage to the flat fields of the texture, running a 2D call, and taking the
    result back. */
module CubeFaces {
  import opened Limits
  import opened StagingBlocks
  import opened Arithmetic
  import opened ContextState
  import opened ContextLedger
  import opened TextureFormats
  import opened TexUpload
  import opened TextureStorage
  import opened TexImages


  // -------------------------------------------------------------- the window

  /** What the flat fields hold, as a face. */
  function FlatFace(t: TextureObject): CubeFace {
    CubeFace(t.bytes, t.width, t.height, t.format, t.componentType, t.compressedFormat, t.srgb, t.defined, t.mips)
  }

  /** The flat fields set from a face. */
  function SetFlat(t: TextureObject, f: CubeFace): TextureObject {
    t.(bytes := f.bytes, width := f.width, height := f.height, format := f.format, componentType := f.componentType,
       compressedFormat := f.compressedFormat, srgb := f.srgb, defined := f.defined, mips := f.mips)
  }

  /** The first defined face from `g` on, or 6. */
  function FirstDefined(faces: seq<CubeFace>, g: nat): (r: nat)
    requires g <= |faces|
    ensures g <= r <= |faces|
    ensures r < |faces| ==> faces[r].defined
    ensures forall j :: g <= j < r ==> !faces[j].defined
    decreases |faces| - g
  {
    if g == |faces| || faces[g].defined then g else FirstDefined(faces, g + 1)
  }

  /** The summary a cube texture keeps in its flat fields: the description of its
      first defined face, and no storage. */
  function SummaryOf(faces: seq<CubeFace>): CubeFace {
    var g := FirstDefined(faces, 0);
    if g == |faces| then NoFace() else faces[g].(bytes := [], mips := NoMips())
  }

  /** texture_cube_update_summary. */
  function Summarized(t: TextureObject): TextureObject { SetFlat(t, SummaryOf(t.faces)) }

  /** texture_cube_face_enter: the flat fields alias the face, whose own fields
      stay behind. */
  function Enter(t: TextureObject, f: nat): TextureObject
    requires f < |t.faces|
  {
    SetFlat(t, t.faces[f])
  }

  /** texture_cube_face_leave. */
  function Leave(t: TextureObject, f: nat, saved: CubeFace): TextureObject
    requires f < |t.faces|
  {
    Summarized(SetFlat(t.(faces := t.faces[f := FlatFace(t)]), saved))
  }

  /** What the faces show while the window is open and nothing has been stored: what
      they showed before. The only reader then is a copy into a face of the cube map
      it reads from, whose source is resolved and read before the first store. */
  lemma OpenWindowShowsFaces(t: TextureObject, f: nat)
    requires f < |t.faces|
    ensures Enter(t, f).faces == t.faces && FlatFace(Enter(t, f)) == t.faces[f]
  {
  }

  /** Leaving the window does not depend on what the lent face still holds, nor on the
      saved fields: it overwrites the one and summarizes over the other. So the window
      may be modelled as a move, and the storage has one owner at every step of it. */
  lemma StaleFaceIsUnread(t: TextureObject, f: nat, stale: CubeFace, saved: CubeFace, saved': CubeFace)
    requires f < |t.faces|
    ensures Leave(t.(faces := t.faces[f := stale]), f, saved) == Leave(t, f, saved')
  {
    assert t.faces[f := stale][f := FlatFace(t)] == t.faces[f := FlatFace(t)];
  }

  /** The texture inside the window, with the lent face's stale fields cleared. */
  function Lent(t: TextureObject, f: nat): TextureObject
    requires f < |t.faces|
  {
    Enter(t, f).(faces := t.faces[f := NoFace()])
  }

  /** A 2D call changes the flat fields and the realized image, nothing else. */
  predicate FlatEdit(before: TextureObject, after: TextureObject) {
    && after.target == before.target && after.faces == before.faces
    && after.requiresColorTarget == before.requiresColorTarget
  }

  /** The texture a window leaves behind. */
  function Edited(t: TextureObject, f: nat, inner: TextureObject): TextureObject
    requires f < |t.faces|
  {
    Summarized(t.(image := inner.image, faces := t.faces[f := FlatFace(inner)]))
  }

  /** Whatever 2D call runs in the window, including one that frees and replaces
      the storage: exactly the one face takes the result, and the summary is that
      of the faces. */
  lemma WindowEditsOneFace(t: TextureObject, f: nat, inner: TextureObject)
    requires f < |t.faces| && FlatEdit(Lent(t, f), inner)
    ensures Leave(inner, f, FlatFace(t)) == Edited(t, f, inner)
    ensures forall g :: 0 <= g < |t.faces| && g != f ==> Edited(t, f, inner).faces[g] == t.faces[g]
    ensures Edited(t, f, inner).faces[f] == FlatFace(inner) && Edited(t, f, inner).image == inner.image
  {
    assert inner.faces[f := FlatFace(inner)] == t.faces[f := FlatFace(inner)];
  }

  // --------------------------------------------------------------- ownership

  /** The storages of a level list, with multiplicity: each counts as one
      allocation, whatever its bytes. */
  function MipStorages(mips: seq<MipStorage>): multiset<seq<byte>> {
    if mips == [] then multiset{}
    else
      var m := mips[|mips| - 1];
      MipStorages(mips[..|mips| - 1]) + if m.bytes == [] then multiset{} else multiset{m.bytes}
  }

  function FaceStorages(f: CubeFace): multiset<seq<byte>> {
    MipStorages(f.mips) + if f.bytes == [] then multiset{} else multiset{f.bytes}
  }

  function FacesStorages(faces: seq<CubeFace>): multiset<seq<byte>> {
    if faces == [] then multiset{} else FacesStorages(faces[..|faces| - 1]) + FaceStorages(faces[|faces| - 1])
  }

  function Storages(t: TextureObject): multiset<seq<byte>> { FaceStorages(FlatFace(t)) + FacesStorages(t.faces) }

  lemma Shuffle<T>(a: multiset<T>, b: multiset<T>, c: multiset<T>)
    ensures (a + b) + c == (a + c) + b && a + b == b + a && multiset{} + a == a + multiset{} == a
  {
  }

  lemma Cancel<T>(a: multiset<T>, b: multiset<T>, x: multiset<T>)
    requires a + x == b + x
    ensures a == b
  {
    assert (a + x) - x == a;
    assert (b + x) - x == b;
  }

  lemma {:induction false} FacesStoragesUpdate(faces: seq<CubeFace>, k: nat, f: CubeFace)
    requires k < |faces|
    ensures FacesStorages(faces[k := f]) + FaceStorages(faces[k]) == FacesStorages(faces) + FaceStorages(f)
  {
    hide FaceStorages;
    var last := |faces| - 1;
    var rest := FacesStorages(faces[..last]);
    if k == last {
      assert faces[k := f][..last] == faces[..last];
      Shuffle(rest, FaceStorages(f), FaceStorages(faces[k]));
    } else {
      FacesStoragesUpdate(faces[..last], k, f);
      assert faces[k := f][..last] == faces[..last][k := f];
      Shuffle(FacesStorages(faces[..last][k := f]), FaceStorages(faces[last]), FaceStorages(faces[k]));
      Shuffle(rest, FaceStorages(faces[last]), FaceStorages(f));
    }
  }

  lemma {:induction false} NoStorages(mips: seq<MipStorage>)
    requires forall k :: 0 <= k < |mips| ==> mips[k].bytes == []
    ensures MipStorages(mips) == multiset{} && MipBytes(mips) == 0
  {
    if mips != [] {
      NoStorages(mips[..|mips| - 1]);
    }
  }

  /** A cube texture's flat fields own nothing; a 2D texture's faces own nothing. */
  predicate Homed(t: TextureObject) {
    if t.target == TEXTURE_CUBE_MAP then t.bytes == [] && forall k :: 0 <= k < |t.mips| ==> t.mips[k].bytes == []
    else forall g :: 0 <= g < |t.faces| ==> t.faces[g] == NoFace()
  }

  lemma NoFaceOwnsNothing()
    ensures FaceStorages(NoFace()) == multiset{} && FaceBytes(NoFace()) == 0
  {
    NoStorages(NoMips());
  }

  /** Lending moves each allocation to exactly one owner. */
  lemma LendingMoves(t: TextureObject, f: nat)
    requires f < |t.faces| && t.target == TEXTURE_CUBE_MAP && Homed(t)
    ensures Storages(Lent(t, f)) == Storages(t) && OwnedBytes(Lent(t, f)) == OwnedBytes(t) && Lent(t, f).image == t.image
  {
    hide FacesStorages, FacesBytes;
    NoStorages(t.mips);
    NoFaceOwnsNothing();
    FacesStoragesUpdate(t.faces, f, NoFace());
    FacesBytesUpdate(t.faces, f, NoFace());
    assert FlatFace(Lent(t, f)) == t.faces[f];
    Shuffle(FaceStorages(t.faces[f]), FacesStorages(t.faces[f := NoFace()]), multiset{});
    Shuffle(FacesStorages(t.faces), multiset{}, multiset{});
  }

  lemma {:induction false} SummaryOwnsNothing(faces: seq<CubeFace>)
    ensures FaceBytes(SummaryOf(faces)) == 0 && FaceStorages(SummaryOf(faces)) == multiset{}
  {
    NoStorages(NoMips());
  }

  /** After the window the texture owns what the 2D call left in the flat fields
      and what the other faces owned, each once; nothing is lost or doubled. */
  lemma LeavingMoves(t: TextureObject, f: nat, inner: TextureObject)
    requires f < |t.faces| && FlatEdit(Lent(t, f), inner)
    ensures Storages(Edited(t, f, inner)) == Storages(inner)
    ensures Storages(Edited(t, f, inner)) + FaceStorages(t.faces[f]) == FacesStorages(t.faces) + FaceStorages(FlatFace(inner))
  {
    hide SummaryOf, FaceStorages, FacesStorages;
    var after := Edited(t, f, inner);
    SummaryOwnsNothing(after.faces);
    NoFaceOwnsNothing();
    FacesStoragesUpdate(t.faces, f, NoFace());
    FacesStoragesUpdate(t.faces, f, FlatFace(inner));
    assert FlatFace(after) == SummaryOf(after.faces);
    var x, flat := FaceStorages(t.faces[f]), FaceStorages(FlatFace(inner));
    var lent, left := FacesStorages(t.faces[f := NoFace()]), FacesStorages(after.faces);
    Shuffle(left, multiset{}, multiset{});
    Shuffle(FacesStorages(t.faces), multiset{}, multiset{});
    Shuffle(lent, flat, x);
    Shuffle(flat, lent, x);
    Cancel(left, lent + flat, x);
  }

  lemma LeavingKeepsBytes(t: TextureObject, f: nat, inner: TextureObject)
    requires f < |t.faces| && FlatEdit(Lent(t, f), inner)
    ensures OwnedBytes(Edited(t, f, inner)) == OwnedBytes(inner)
  {
    hide SummaryOf, FacesBytes, FaceBytes, FlatBytes;
    var after := Edited(t, f, inner);
    SummaryOwnsNothing(after.faces);
    NoFaceOwnsNothing();
    FacesBytesUpdate(t.faces, f, NoFace());
    FacesBytesUpdate(t.faces, f, FlatFace(inner));
    assert FlatFace(after) == SummaryOf(after.faces);
    FlatIsFace(after);
    FlatIsFace(inner);
  }

  lemma FlatIsFace(t: TextureObject)
    ensures FlatBytes(t) == FaceBytes(FlatFace(t))
  {
  }

  lemma EditedIsHomed(t: TextureObject, f: nat, inner: TextureObject)
    requires f < |t.faces| && t.target == TEXTURE_CUBE_MAP
    ensures Homed(Edited(t, f, inner))
  {
  }

  lemma LentIsSized(t: TextureObject, f: nat)
    requires f < |t.faces| && Sized(t) && Shaped(t)
    ensures Sized(Lent(t, f)) && Shaped(Lent(t, f))
  {
  }

  lemma EditedIsSized(t: TextureObject, f: nat, inner: TextureObject)
    requires f < |t.faces| && FlatEdit(Lent(t, f), inner) && Sized(t) && Shaped(t) && Sized(inner) && Shaped(inner)
    ensures Sized(Edited(t, f, inner)) && Shaped(Edited(t, f, inner))
  {
    hide LevelSized, TexelBytes;
    var faces := t.faces[f := FlatFace(inner)];
    EmptyIsSized();
    assert forall g :: 0 <= g < |faces| ==> FaceSized(faces[g]);
  }

  // ------------------------------------------------------------------ methods

  function FaceIndex(target: nat): (f: nat) {
    if POSITIVE_X <= target < POSITIVE_X + CUBE_FACE_COUNT then target - POSITIVE_X else CUBE_FACE_COUNT
  }

  predicate CubeBound(ctx: Context)
    requires |ctx.slots| == |ctx.textures| == OBJECT_SLOT_COUNT && |ctx.boundTextureCube| == MAX_TEXTURE_UNITS
    reads ctx`slots, ctx`textures, ctx`boundTextureCube, ctx`activeTextureUnit
  {
    var k := BoundCube(ctx);
    k < OBJECT_SLOT_COUNT && ctx.textures[k].target == TEXTURE_CUBE_MAP
  }

  /** texture_cube_prepare_operation: the cube texture becomes the unit's 2D
      texture, with the face lent to its flat fields. */
  method Prepare(ctx: Context, f: nat) returns (k: nat, saved: CubeFace, old2D: nat)
    requires TexturesValid(ctx) && f < CUBE_FACE_COUNT && CubeBound(ctx) && Homed(ctx.textures[BoundCube(ctx)])
    modifies ctx`textures, ctx`boundTexture2D, ctx.backend
    ensures StorageFrame(ctx) && k == BoundCube(ctx) == Bound2D(ctx) && k < OBJECT_SLOT_COUNT
    ensures ctx.activeTextureUnit < MAX_TEXTURE_UNITS && old2D == old(ctx.boundTexture2D)[ctx.activeTextureUnit]
    ensures ctx.boundTexture2D == old(ctx.boundTexture2D)[ctx.activeTextureUnit := ctx.boundTextureCube[ctx.activeTextureUnit]]
    ensures Discarded(old(ctx.backend.objects), ctx.backend.objects, old(ctx.textures), ctx.textures, k)
    ensures saved == FlatFace(old(ctx.textures)[k])
    ensures ctx.textures == old(ctx.textures)[k := Lent(old(ctx.textures)[k].(image := 0), f)]
  {
    hide Sized, OwnedBytes, LedgerValid, Lent, Homed, Shaped;
    k := BoundCube(ctx);
    old2D := ctx.boundTexture2D[ctx.activeTextureUnit];
    ctx.boundTexture2D := ctx.boundTexture2D[ctx.activeTextureUnit := ctx.boundTextureCube[ctx.activeTextureUnit]];
    DiscardImage(ctx, k);
    saved := FlatFace(ctx.textures[k]);
    ImageAside(old(ctx.textures)[k]);
    LendFace(ctx, k, f);
  }

  /** texture_cube_face_enter on the context. */
  method LendFace(ctx: Context, k: nat, f: nat)
    requires IsTexture(ctx, k) && f < CUBE_FACE_COUNT
    requires ctx.textures[k].target == TEXTURE_CUBE_MAP && Homed(ctx.textures[k])
    modifies ctx`textures
    ensures StorageFrame(ctx) && ctx.textures[k].image == old(ctx.textures)[k].image
    ensures |old(ctx.textures)[k].faces| == CUBE_FACE_COUNT
    ensures ctx.textures == old(ctx.textures)[k := Lent(old(ctx.textures)[k], f)]
  {
    hide Sized, OwnedBytes, LedgerValid, Lent, Homed, Shaped;
    var t := ctx.textures[k];
    ShapedFaces(t);
    LendingMoves(t, f);
    LentIsSized(t, f);
    Rearrange(ctx, k, Lent(t, f));
  }

  lemma ShapedFaces(t: TextureObject)
    requires Shaped(t)
    ensures |t.faces| == CUBE_FACE_COUNT && |t.mips| == MIP_STORAGES
  {
  }

  lemma ImageAside(t: TextureObject)
    ensures Homed(t) ==> Homed(t.(image := 0))
    ensures FlatFace(t.(image := 0)) == FlatFace(t)
  {
  }

  /** texture_cube_finish_operation: the face takes what the 2D call left, and the
      2D binding is what it was. */
  method Finish(ctx: Context, k: nat, f: nat, saved: CubeFace, old2D: nat, ghost t: TextureObject)
    requires IsTexture(ctx, k) && f < CUBE_FACE_COUNT && ctx.activeTextureUnit < MAX_TEXTURE_UNITS
    requires Sized(t) && Shaped(t) && t.target == TEXTURE_CUBE_MAP && saved == FlatFace(t)
    requires |t.faces| == CUBE_FACE_COUNT == |ctx.textures[k].faces| && FlatEdit(Lent(t, f), ctx.textures[k])
    modifies ctx`textures, ctx`boundTexture2D
    ensures StorageFrame(ctx)
    ensures ctx.boundTexture2D == old(ctx.boundTexture2D)[ctx.activeTextureUnit := old2D]
    ensures ctx.textures == old(ctx.textures)[k := Edited(t, f, old(ctx.textures)[k])]
    ensures Homed(ctx.textures[k]) && ctx.textures[k].image == old(ctx.textures)[k].image
  {
    hide Sized, OwnedBytes, LedgerValid, Lent, Homed, Shaped, Edited, Leave, FlatEdit;
    var inner := ctx.textures[k];
    WindowEditsOneFace(t, f, inner);
    LeavingKeepsBytes(t, f, inner);
    EditedIsSized(t, f, inner);
    EditedIsHomed(t, f, inner);
    Rearrange(ctx, k, Leave(inner, f, saved));
    ctx.boundTexture2D := ctx.boundTexture2D[ctx.activeTextureUnit := old2D];
  }

  // -------------------------------------------------------------------- calls

  /** texture_cube_base_compatible. */
  predicate BaseCompatible(faces: seq<CubeFace>, f: nat, width: int, height: int, q: TextureObject, pending: nat) {
    forall g :: 0 <= g < |faces| && g != f && faces[g].defined ==>
      && faces[g].width == width && faces[g].height == height && faces[g].format == q.format
      && faces[g].componentType == q.componentType && faces[g].compressedFormat == pending && faces[g].srgb == q.srgb
  }

  /** What texture_cube_tex_image_2d rejects before it opens the window. */
  function CubeDefineError(t: TextureObject, bound: bool, f: nat, level: int, internalFormat: nat, width: int, height: int,
                           u: Upload, pending: nat): Error {
    if f >= CUBE_FACE_COUNT || !RequestOk(internalFormat, u) then InvalidEnum
    else if level == 0 && width != height then InvalidValue
    else if !bound then InvalidOperation
    else if level == 0 && !BaseCompatible(t.faces, f, width, height, Requested(t, internalFormat, u), pending) then InvalidOperation
    else NoError
  }

  /** The texture bound as a cube map, if any. */
  function BoundOrZero(ctx: Context): TextureObject
    requires |ctx.slots| == |ctx.textures| == OBJECT_SLOT_COUNT && |ctx.boundTextureCube| == MAX_TEXTURE_UNITS
    reads ctx`slots, ctx`textures, ctx`boundTextureCube, ctx`activeTextureUnit
  {
    if BoundCube(ctx) < OBJECT_SLOT_COUNT then ctx.textures[BoundCube(ctx)] else ZeroTexture()
  }

  /** The bound cube texture has one face edited by `inner`; everything else of it
      but its summary and GPU image is untouched. */
  ghost predicate FaceEdited(before: seq<TextureObject>, after: seq<TextureObject>, k: nat, f: nat, inner: TextureObject) {
    k < |before| && f < |before[k].faces| && inner.image == 0
    && var t := before[k].(image := 0);
       && FlatEdit(Lent(t, f), inner)
       && after == before[k := Edited(t, f, inner)]
       && Homed(Edited(t, f, inner))
  }

  /** The cube texture is found whole where the unit's binding says. */
  ghost predicate CubeReady(ctx: Context)
    reads ctx`active, ctx`cached, ctx`blocks, ctx`buffers, ctx`slots, ctx`textures, ctx`boundTexture2D, ctx`boundTextureCube,
          ctx`activeTextureUnit, ctx.process
  {
    TexturesValid(ctx) && (CubeBound(ctx) ==> Homed(ctx.textures[BoundCube(ctx)]))
  }

  /** What the 2D definition does in the window. */
  ghost predicate InnerDefined(lent: TextureObject, inner: TextureObject, level: int, internalFormat: nat, width: int, height: int,
                               border: int, u: Upload, p: Pixels, pending: nat, pending0: Error, pending1: Error)
    requires |lent.mips| == |inner.mips| == MIP_STORAGES && AlignmentOk(u.alignment)
  {
    var q := Requested(lent, internalFormat, u);
    var error := DefineError(lent, true, level, internalFormat, width, height, border, u, p, pending);
    if error != NoError then inner == lent && pending1 == Context.Pending(pending0, error)
    else
      || (inner == lent && pending1 == Context.Pending(pending0, OutOfMemory))
      || (&& pending1 == pending0
          && (p.isNull || UploadFits(q, u, width, height))
          && DefinedContents(q, u, p, LevelBytes(inner, level), width, height)
          && inner == WithDefinition(lent, q, level, LevelBytes(inner, level), width, height, pending))
  }

  lemma InnerDefinedIsFlat(lent: TextureObject, inner: TextureObject, level: int, internalFormat: nat, width: int, height: int,
                           border: int, u: Upload, p: Pixels, pending: nat, pending0: Error, pending1: Error)
    requires |lent.mips| == |inner.mips| == MIP_STORAGES && AlignmentOk(u.alignment)
    requires InnerDefined(lent, inner, level, internalFormat, width, height, border, u, p, pending, pending0, pending1)
    ensures FlatEdit(lent, inner) && (lent.image == 0 ==> inner.image == 0)
  {
  }

  /** The window around one 2D call: before it. */
  method OpenFace(ctx: Context, f: nat) returns (k: nat, saved: CubeFace, old2D: nat, ghost t: TextureObject)
    requires CubeReady(ctx) && CubeBound(ctx) && f < CUBE_FACE_COUNT
    modifies ctx`textures, ctx`boundTexture2D, ctx.backend
    ensures StorageFrame(ctx) && k == BoundCube(ctx) == Bound2D(ctx) && k < OBJECT_SLOT_COUNT
    ensures ctx.activeTextureUnit < MAX_TEXTURE_UNITS && old2D == old(ctx.boundTexture2D)[ctx.activeTextureUnit]
    ensures ctx.boundTexture2D == old(ctx.boundTexture2D)[ctx.activeTextureUnit := ctx.boundTextureCube[ctx.activeTextureUnit]]
    ensures t == old(ctx.textures)[k].(image := 0) && saved == FlatFace(t)
    ensures Sized(t) && Shaped(t) && t.target == TEXTURE_CUBE_MAP && |t.faces| == CUBE_FACE_COUNT
    ensures ctx.textures == old(ctx.textures)[k := Lent(t, f)]
    ensures Discarded(old(ctx.backend.objects), ctx.backend.objects, old(ctx.textures), ctx.textures, BoundCube(ctx))
    ensures |Lent(t, f).mips| == MIP_STORAGES && Lent(t, f).image == 0
  {
    hide Sized, OwnedBytes, LedgerValid, Homed;
    k, saved, old2D := Prepare(ctx, f);
    t := old(ctx.textures)[k].(image := 0);
    ImageOwnsNothing(old(ctx.textures)[k]);
  }

  /** And after it. */
  method CloseFace(ctx: Context, k: nat, f: nat, saved: CubeFace, old2D: nat, ghost t: TextureObject, ghost before: seq<TextureObject>)
    requires IsTexture(ctx, k) && f < CUBE_FACE_COUNT && ctx.activeTextureUnit < MAX_TEXTURE_UNITS
    requires |before| == OBJECT_SLOT_COUNT && t == before[k].(image := 0) && saved == FlatFace(t)
    requires Sized(t) && Shaped(t) && t.target == TEXTURE_CUBE_MAP && |t.faces| == CUBE_FACE_COUNT
    requires FlatEdit(Lent(t, f), ctx.textures[k]) && ctx.textures == before[k := ctx.textures[k]] && ctx.textures[k].image == 0
    modifies ctx`textures, ctx`boundTexture2D
    ensures StorageFrame(ctx)
    ensures ctx.boundTexture2D == old(ctx.boundTexture2D)[ctx.activeTextureUnit := old2D]
    ensures FaceEdited(before, ctx.textures, k, f, old(ctx.textures)[k])
    ensures ctx.textures[k].image == old(ctx.textures)[k].image
  {
    hide Sized, OwnedBytes, LedgerValid, Homed, Edited;
    Finish(ctx, k, f, saved, old2D, t);
  }

  /** glTexImage2D on a cube face. `inner` is what the 2D call leaves of the texture. */
  method CubeTexImage2D(ctx: Context, sizeMax: nat, target: nat, level: int, internalFormat: nat, width: int, height: int, border: int,
                        u: Upload, p: Pixels, pending: nat)
    returns (ghost inner: TextureObject)
    requires CubeReady(ctx) && AlignmentOk(u.alignment) && (!p.isNull ==> p.size <= |u.pixels|)
    modifies ctx`active, ctx`cached, ctx`blocks, ctx`textures, ctx`boundTexture2D, ctx`pendingError, ctx.process, ctx.backend
    ensures StorageFrame(ctx) && ctx.boundTexture2D == old(ctx.boundTexture2D)
    ensures Discarded(old(ctx.backend.objects), ctx.backend.objects, old(ctx.textures), ctx.textures, BoundCube(ctx))
    ensures var t, f := old(BoundOrZero(ctx)), FaceIndex(target);
            var error := CubeDefineError(t, old(CubeBound(ctx)), f, level, internalFormat, width, height, u, pending);
            if error != NoError then
              ctx.textures == old(ctx.textures) && ctx.pendingError == Context.Pending(old(ctx.pendingError), error)
            else
              && FaceEdited(old(ctx.textures), ctx.textures, BoundCube(ctx), f, inner)
              && |Lent(t.(image := 0), f).mips| == |inner.mips| == MIP_STORAGES
              && InnerDefined(Lent(t.(image := 0), f), inner, level, internalFormat, width, height, border, u, p, pending,
                              old(ctx.pendingError), ctx.pendingError)
  {
    hide BaseCompatible, RequestOk, Lent, Edited, FlatEdit, Homed, Sized, DefineError, LedgerValid, Surplus, Others,
      DefinedContents, UploadFits, WithDefinition, OwnedBytes, FaceEdited, Requested, FaceIndex;
    inner := ZeroTexture();
    var f := FaceIndex(target);
    var error := CubeDefineError(BoundOrZero(ctx), CubeBound(ctx), f, level, internalFormat, width, height, u, pending);
    if error != NoError {
      ctx.RecordError(error);
      return;
    }
    var k, saved, old2D, t := OpenFace(ctx, f);
    ghost var lent := ctx.textures[k];
    var _ := TexImage2D(ctx, sizeMax, level, internalFormat, width, height, border, u, p, pending);
    inner := ctx.textures[k];
    InnerDefinedIsFlat(lent, inner, level, internalFormat, width, height, border, u, p, pending, old(ctx.pendingError), ctx.pendingError);
    CloseFace(ctx, k, f, saved, old2D, t, old(ctx.textures));
  }

  // -------------------------------------------------------------- sub-images

  /** What the 2D update does in the window. */
  ghost predicate InnerUpdated(lent: TextureObject, inner: TextureObject, level: int, r: Rect, u: Upload, p: Pixels, pending: nat,
                               pending0: Error, pending1: Error)
    requires |lent.mips| == |inner.mips| == MIP_STORAGES && AlignmentOk(u.alignment)
  {
    var error := SubImageError(lent, true, level, r, u, p, pending);
    if error != NoError then inner == lent && pending1 == Context.Pending(pending0, error)
    else if r.width == 0 || r.height == 0 then inner == lent && pending1 == pending0
    else pending1 == pending0 && UploadFits(lent, u, r.width, r.height) && SubImaged(lent, inner, level, r, u)
  }

  lemma InnerUpdatedIsFlat(lent: TextureObject, inner: TextureObject, level: int, r: Rect, u: Upload, p: Pixels, pending: nat,
                           pending0: Error, pending1: Error)
    requires |lent.mips| == |inner.mips| == MIP_STORAGES && AlignmentOk(u.alignment)
    requires InnerUpdated(lent, inner, level, r, u, p, pending, pending0, pending1)
    ensures FlatEdit(lent, inner) && (lent.image == 0 ==> inner.image == 0)
  {
    hide Updated, UploadFits;
  }

  /** glTexSubImage2D on a cube face. */
  method CubeTexSubImage2D(ctx: Context, target: nat, level: int, r: Rect, u: Upload, p: Pixels, pending: nat)
    returns (ghost inner: TextureObject)
    requires CubeReady(ctx) && AlignmentOk(u.alignment) && (!p.isNull ==> p.size <= |u.pixels|)
    modifies ctx`active, ctx`textures, ctx`boundTexture2D, ctx`pendingError, ctx.process`globalBytes, ctx.backend
    ensures StorageFrame(ctx) && ctx.boundTexture2D == old(ctx.boundTexture2D)
    ensures Discarded(old(ctx.backend.objects), ctx.backend.objects, old(ctx.textures), ctx.textures, BoundCube(ctx))
    ensures var t, f := old(BoundOrZero(ctx)), FaceIndex(target);
            if f >= CUBE_FACE_COUNT then
              ctx.textures == old(ctx.textures) && ctx.pendingError == Context.Pending(old(ctx.pendingError), InvalidEnum)
            else if !old(CubeBound(ctx)) then
              ctx.textures == old(ctx.textures) && ctx.pendingError == Context.Pending(old(ctx.pendingError), InvalidOperation)
            else
              && FaceEdited(old(ctx.textures), ctx.textures, BoundCube(ctx), f, inner)
              && |Lent(t.(image := 0), f).mips| == |inner.mips| == MIP_STORAGES
              && InnerUpdated(Lent(t.(image := 0), f), inner, level, r, u, p, pending, old(ctx.pendingError), ctx.pendingError)
  {
    hide Lent, Edited, FlatEdit, Homed, Sized, SubImageError, LedgerValid, Surplus, Others, Updated, UploadFits, OwnedBytes,
      FaceEdited, FaceIndex, SubImaged;
    inner := ZeroTexture();
    var f := FaceIndex(target);
    if f >= CUBE_FACE_COUNT {
      ctx.RecordError(InvalidEnum);
      return;
    }
    if !CubeBound(ctx) {
      ctx.RecordError(InvalidOperation);
      return;
    }
    var k, saved, old2D, t := OpenFace(ctx, f);
    ghost var lent := ctx.textures[k];
    TexSubImage2D(ctx, level, r, u, p, pending);
    inner := ctx.textures[k];
    InnerUpdatedIsFlat(lent, inner, level, r, u, p, pending, old(ctx.pendingError), ctx.pendingError);
    CloseFace(ctx, k, f, saved, old2D, t, old(ctx.textures));
  }
}
