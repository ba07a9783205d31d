/** glGenerateMipmap on a cube map in src/objects/texture.c: six chains, installed
    together or not at all. */
module CubeMipmaps {
  import opened Limits
  import opened StagingBlocks
  import opened ContextState
  import opened ContextLedger
  import opened TextureFormats
  import opened MipFilter
  import opened TextureStorage
  import opened Mipmaps
  import opened CubeFaces

  /** texture_cube_level_storage_defined at level zero. */
  predicate FaceDefined(f: CubeFace) { f.defined && f.width != 0 && f.height != 0 && f.bytes != [] }

  predicate SameShape(f: CubeFace, g: CubeFace) {
    && f.width == g.width && f.height == g.height && f.format == g.format && f.componentType == g.componentType
    && f.compressedFormat == g.compressedFormat && f.srgb == g.srgb
  }

  /** Six defined square faces of one size and format. */
  ghost predicate BasesComplete(faces: seq<CubeFace>)
    requires |faces| == CUBE_FACE_COUNT
  {
    && FaceDefined(faces[0]) && faces[0].width == faces[0].height
    && forall g :: 0 < g < CUBE_FACE_COUNT ==> FaceDefined(faces[g]) && SameShape(faces[g], faces[0])
  }

  /** texture_cube_base_images_complete. */
  method BaseImagesComplete(faces: seq<CubeFace>) returns (complete: bool)
    requires |faces| == CUBE_FACE_COUNT
    ensures complete <==> BasesComplete(faces)
  {
    if !FaceDefined(faces[0]) || faces[0].width != faces[0].height {
      return false;
    }
    var index := 1;
    while index < CUBE_FACE_COUNT
      invariant 1 <= index <= CUBE_FACE_COUNT
      invariant forall g :: 0 < g < index ==> FaceDefined(faces[g]) && SameShape(faces[g], faces[0])
    {
      if !FaceDefined(faces[index]) || !SameShape(faces[index], faces[0]) {
        return false;
      }
      index := index + 1;
    }
    return true;
  }

  /** Bytes of chains that are made but not yet installed. */
  function ChainsBytes(chains: seq<seq<MipStorage>>): nat {
    if chains == [] then 0 else ChainsBytes(chains[..|chains| - 1]) + MipBytes(chains[|chains| - 1])
  }

  lemma ChainsAppend(chains: seq<seq<MipStorage>>, c: seq<MipStorage>)
    ensures ChainsBytes(chains + [c]) == ChainsBytes(chains) + MipBytes(c)
  {
    assert (chains + [c])[..|chains|] == chains;
  }

  method FreeChains(ctx: Context, chains: seq<seq<MipStorage>>)
    requires LedgerValid(ctx) && ChainsBytes(chains) <= Untracked(ctx)
    modifies ctx`active, ctx.process`globalBytes
    ensures LedgerValid(ctx) && Others(ctx) == old(Others(ctx))
    ensures Untracked(ctx) == old(Untracked(ctx)) - ChainsBytes(chains)
  {
    var left := chains;
    while left != []
      invariant LedgerValid(ctx) && Others(ctx) == old(Others(ctx)) && ChainsBytes(left) <= Untracked(ctx)
      invariant Untracked(ctx) - ChainsBytes(left) == old(Untracked(ctx)) - ChainsBytes(chains)
      decreases |left|
    {
      FreeGenerated(ctx, left[|left| - 1]);
      left := left[..|left| - 1];
    }
  }

  ghost predicate FaceChain(f: CubeFace, chain: seq<MipStorage>) {
    |chain| == MIP_STORAGES
    && Chain(KindOf(f.format, f.componentType), f.bytes, f.width, f.height, chain, LevelCount(f.width, f.height))
  }

  lemma FaceIsSized(t: TextureObject, f: nat)
    requires Sized(t) && f < |t.faces| && FaceDefined(t.faces[f])
    ensures var g := t.faces[f];
            && 0 < g.width <= MAX_TEXTURE_SIZE && 0 < g.height <= MAX_TEXTURE_SIZE && FormatOk(g.format, g.componentType)
            && |g.bytes| == g.width * g.height * TexelBytes(g.format, g.componentType)
  {
  }

  /** One chain per face, or nothing. */
  method MakeChains(ctx: Context, sizeMax: nat, t: TextureObject) returns (ok: bool, chains: seq<seq<MipStorage>>)
    requires LedgerValid(ctx) && Sized(t) && |t.faces| == CUBE_FACE_COUNT && BasesComplete(t.faces)
    requires forall f :: 0 <= f < CUBE_FACE_COUNT ==> IsColor(t.faces[f].format)
    modifies ctx`active, ctx`cached, ctx`blocks, ctx.process
    ensures LedgerValid(ctx) && Others(ctx) == old(Others(ctx))
    ensures Untracked(ctx) == old(Untracked(ctx)) + if ok then ChainsBytes(chains) else 0
    ensures ok ==> |chains| == CUBE_FACE_COUNT && forall f :: 0 <= f < CUBE_FACE_COUNT ==> FaceChain(t.faces[f], chains[f])
  {
    hide Sized, Chain, LedgerValid, Others, FaceDefined, IsColor, FormatOk, TexelBytes;
    Positive(ctx);
    chains := [];
    var face := 0;
    while face < CUBE_FACE_COUNT
      invariant 0 <= face <= CUBE_FACE_COUNT && |chains| == face
      invariant LedgerValid(ctx) && Others(ctx) == old(Others(ctx)) && 0 <= old(Untracked(ctx))
      invariant Untracked(ctx) == old(Untracked(ctx)) + ChainsBytes(chains)
      invariant forall f :: 0 <= f < face ==> FaceChain(t.faces[f], chains[f])
    {
      var view := t.faces[face];
      FaceIsSized(t, face);
      var chain;
      ok, chain := GenerateColorMips(ctx, sizeMax, view.bytes, view.width, view.height, view.format, view.componentType);
      if !ok {
        FreeChains(ctx, chains);
        return false, [];
      }
      ChainsAppend(chains, chain);
      chains := chains + [chain];
      face := face + 1;
    }
    return true, chains;
  }

  lemma Positive(ctx: Context)
    requires LedgerValid(ctx)
    ensures 0 <= Untracked(ctx)
  {
  }

  // ------------------------------------------------------------ installation

  function WithChain(t: TextureObject, f: nat, chain: seq<MipStorage>): TextureObject
    requires f < |t.faces|
  {
    t.(faces := t.faces[f := t.faces[f].(mips := chain)])
  }

  lemma ChainBalance(t: TextureObject, f: nat, chain: seq<MipStorage>)
    requires f < |t.faces|
    ensures OwnedBytes(WithChain(t, f, chain)) == OwnedBytes(t) - MipBytes(t.faces[f].mips) + MipBytes(chain)
    ensures MipBytes(t.faces[f].mips) <= OwnedBytes(t)
  {
    FacesBytesUpdate(t.faces, f, t.faces[f].(mips := chain));
  }

  lemma ChainSized(t: TextureObject, f: nat, chain: seq<MipStorage>)
    requires f < |t.faces| && Sized(t) && Shaped(t) && IsColor(t.faces[f].format) && FaceChain(t.faces[f], chain)
    ensures Sized(WithChain(t, f, chain)) && Shaped(WithChain(t, f, chain))
  {
    hide LevelSized, KindOf, TexelBytes, IsColor, Chain;
    var g := t.faces[f];
    assert FaceSized(g);
    TexelBytesOfKind(g.format, g.componentType);
    ChainMipsSized(g, chain);
  }

  lemma ChainMipsSized(g: CubeFace, chain: seq<MipStorage>)
    requires FaceChain(g, chain) && KindBytes(KindOf(g.format, g.componentType)) == TexelBytes(g.format, g.componentType)
    ensures MipsSized(chain, TexelBytes(g.format, g.componentType))
  {
    hide LevelFiltered, KindBytes, DimAt, TexelBytes, KindOf;
    var kind, count := KindOf(g.format, g.componentType), LevelCount(g.width, g.height);
    forall k | 0 <= k < |chain|
      ensures LevelSized(chain[k].bytes, chain[k].width, chain[k].height, chain[k].defined, TexelBytes(g.format, g.componentType))
    {
      if k + 1 < count {
        assert Generated(kind, g.bytes, g.width, g.height, chain, k + 1);
        ChainSizes(kind, g.bytes, g.width, g.height, chain, count, k + 1);
      }
    }
  }

  /** One face gives up its old levels and takes its charged chain. */
  method InstallChain(ctx: Context, k: nat, f: nat, chain: seq<MipStorage>)
    requires IsTexture(ctx, k) && f < CUBE_FACE_COUNT == |ctx.textures[k].faces| && MipBytes(chain) <= Surplus(ctx)
    requires IsColor(ctx.textures[k].faces[f].format) && FaceChain(ctx.textures[k].faces[f], chain)
    modifies ctx`active, ctx`textures, ctx.process`globalBytes
    ensures TexturesValid(ctx) && Others(ctx) == old(Others(ctx))
    ensures Surplus(ctx) == old(Surplus(ctx)) - MipBytes(chain)
    ensures ctx.textures == old(ctx.textures)[k := WithChain(old(ctx.textures)[k], f, chain)]
  {
    hide Sized, Shaped, LedgerValid, Surplus, Others, OwnedBytes, FaceChain, IsColor;
    var t := ctx.textures[k];
    ChainBalance(t, f, chain);
    ChainSized(t, f, chain);
    Assign(ctx, k, WithChain(t, f, chain), MipBytes(t.faces[f].mips));
  }

  // ------------------------------------------------------------------ the call

  /** What the call checks before it allocates; the description it reads is the
      summary. `arrayOps` says whether the backend has the array operations. */
  ghost predicate CubeGeneratable(t: TextureObject, arrayOps: bool)
    requires |t.faces| == CUBE_FACE_COUNT
  {
    && BasesComplete(t.faces) && IsColor(t.format) && t.compressedFormat == 0 && !t.srgb && PowerOfTwo(t.width) && arrayOps
  }

  /** The six faces keep their bases and have their chains; nothing else of the
      texture but its GPU image changes. */
  ghost predicate ChainsInstalled(before: TextureObject, after: TextureObject)
    requires |before.faces| == CUBE_FACE_COUNT
  {
    && |after.faces| == CUBE_FACE_COUNT && after == before.(image := 0, faces := after.faces)
    && forall f :: 0 <= f < CUBE_FACE_COUNT ==>
         && after.faces[f] == before.faces[f].(mips := after.faces[f].mips)
         && FaceChain(before.faces[f], after.faces[f].mips)
  }

  lemma {:induction false} PrefixBelow(chains: seq<seq<MipStorage>>, n: nat)
    requires n <= |chains|
    ensures ChainsBytes(chains[..n]) <= ChainsBytes(chains)
  {
    if n < |chains| {
      PrefixBelow(chains[..|chains| - 1], n);
      assert chains[..|chains| - 1][..n] == chains[..n];
    } else {
      assert chains[..n] == chains;
    }
  }

  lemma NextChain(chains: seq<seq<MipStorage>>, n: nat)
    requires n < |chains|
    ensures ChainsBytes(chains[..n + 1]) == ChainsBytes(chains[..n]) + MipBytes(chains[n])
    ensures ChainsBytes(chains[..n + 1]) <= ChainsBytes(chains)
  {
    hide MipBytes, ChainsBytes;
    assert chains[..n + 1] == chains[..n] + [chains[n]];
    ChainsAppend(chains[..n], chains[n]);
    PrefixBelow(chains, n + 1);
  }

  lemma NoChains(chains: seq<seq<MipStorage>>)
    ensures ChainsBytes(chains[..0]) == 0
  {
  }

  method InstallChains(ctx: Context, k: nat, chains: seq<seq<MipStorage>>)
    requires IsTexture(ctx, k) && |ctx.textures[k].faces| == CUBE_FACE_COUNT == |chains| && ChainsBytes(chains) <= Surplus(ctx)
    requires forall f :: 0 <= f < CUBE_FACE_COUNT ==>
               IsColor(ctx.textures[k].faces[f].format) && FaceChain(ctx.textures[k].faces[f], chains[f])
    modifies ctx`active, ctx`textures, ctx.process`globalBytes
    ensures TexturesValid(ctx) && Others(ctx) == old(Others(ctx))
    ensures Surplus(ctx) == old(Surplus(ctx)) - ChainsBytes(chains)
    ensures |ctx.textures[k].faces| == CUBE_FACE_COUNT
    ensures ctx.textures == old(ctx.textures)[k := old(ctx.textures)[k].(faces := ctx.textures[k].faces)]
    ensures forall f :: 0 <= f < CUBE_FACE_COUNT ==> ctx.textures[k].faces[f] == old(ctx.textures)[k].faces[f].(mips := chains[f])
  {
    hide Sized, Shaped, LedgerValid, Surplus, Others, Chain, IsColor, FaceChain, ChainsBytes;
    NoChains(chains);
    var face := 0;
    ghost var was := ctx.textures[k];
    while face < CUBE_FACE_COUNT
      invariant 0 <= face <= CUBE_FACE_COUNT
      invariant TexturesValid(ctx) && Others(ctx) == old(Others(ctx)) && |ctx.textures[k].faces| == CUBE_FACE_COUNT
      invariant Surplus(ctx) == old(Surplus(ctx)) - ChainsBytes(chains[..face])
      invariant ctx.textures == old(ctx.textures)[k := was.(faces := ctx.textures[k].faces)]
      invariant forall f :: 0 <= f < CUBE_FACE_COUNT ==>
                  ctx.textures[k].faces[f] == if f < face then was.faces[f].(mips := chains[f]) else was.faces[f]
    {
      NextChain(chains, face);
      InstallChain(ctx, k, face, chains[face]);
      face := face + 1;
    }
    assert chains[..CUBE_FACE_COUNT] == chains;
  }

  lemma SameFormats(t: TextureObject)
    requires |t.faces| == CUBE_FACE_COUNT && BasesComplete(t.faces) && t == Summarized(t) && IsColor(t.format)
    ensures forall f :: 0 <= f < CUBE_FACE_COUNT ==> IsColor(t.faces[f].format)
  {
  }

  /** Levels do not enter the summary. */
  lemma {:induction false} SummaryIgnoresMips(a: seq<CubeFace>, b: seq<CubeFace>, g: nat)
    requires |a| == |b| && g <= |a| && forall f :: 0 <= f < |a| ==> b[f] == a[f].(mips := b[f].mips)
    ensures FirstDefined(a, g) == FirstDefined(b, g)
    decreases |a| - g
  {
    if g < |a| && !a[g].defined {
      SummaryIgnoresMips(a, b, g + 1);
    }
  }

  lemma SummaryStays(t: TextureObject, faces: seq<CubeFace>)
    requires t == Summarized(t) && |faces| == |t.faces|
    requires forall f :: 0 <= f < |faces| ==> faces[f] == t.faces[f].(mips := faces[f].mips)
    ensures Summarized(t.(image := 0, faces := faces)) == t.(image := 0, faces := faces)
  {
    hide NoMips;
    SummaryIgnoresMips(t.faces, faces, 0);
  }

  /** glGenerateMipmap(GL_TEXTURE_CUBE_MAP): six complete chains filtered from the
      six bases, or no change of the texture or the charge. */
  method GenerateMipmapCube(ctx: Context, sizeMax: nat, arrayOps: bool)
    requires CubeReady(ctx) && (CubeBound(ctx) ==> BoundOrZero(ctx) == Summarized(BoundOrZero(ctx)))
    modifies ctx`active, ctx`cached, ctx`blocks, ctx`textures, ctx`pendingError, ctx.process, ctx.backend
    ensures StorageFrame(ctx)
    ensures Discarded(old(ctx.backend.objects), ctx.backend.objects, old(ctx.textures), ctx.textures, BoundCube(ctx))
    ensures var k, t := BoundCube(ctx), old(BoundOrZero(ctx));
            if !old(CubeBound(ctx)) || (|t.faces| == CUBE_FACE_COUNT && !CubeGeneratable(t, arrayOps)) then
              ctx.textures == old(ctx.textures) && ctx.pendingError == Context.Pending(old(ctx.pendingError), InvalidOperation)
            else
              || (&& ctx.textures == old(ctx.textures) && Untracked(ctx) == old(Untracked(ctx))
                  && ctx.pendingError == Context.Pending(old(ctx.pendingError), OutOfMemory))
              || (&& ctx.pendingError == old(ctx.pendingError) && k < OBJECT_SLOT_COUNT && |t.faces| == CUBE_FACE_COUNT
                  && ChainsInstalled(t, ctx.textures[k])
                  && ctx.textures == old(ctx.textures)[k := ctx.textures[k]])
  {
    hide Sized, LedgerValid, Others, FaceDefined, IsColor, FaceChain, PowerOfTwo, Homed, OwnedBytes, Summarized, BasesComplete, ChainsInstalled, Shaped;
    if !CubeBound(ctx) {
      ctx.RecordError(InvalidOperation);
      return;
    }
    var k := BoundCube(ctx);
    var t := ctx.textures[k];
    ShapedFaces(t);
    var complete := BaseImagesComplete(t.faces);
    if !complete || !IsColor(t.format) || t.compressedFormat != 0 || t.srgb || !PowerOfTwo(t.width) || !arrayOps {
      ctx.RecordError(InvalidOperation);
      return;
    }
    SameFormats(t);
    var ok := ReplaceChains(ctx, sizeMax, k);
    if !ok {
      ctx.RecordError(OutOfMemory);
    }
  }

  /** Make six chains and install them, or change nothing. */
  method ReplaceChains(ctx: Context, sizeMax: nat, k: nat) returns (ok: bool)
    requires IsTexture(ctx, k) && |ctx.textures[k].faces| == CUBE_FACE_COUNT && BasesComplete(ctx.textures[k].faces)
    requires ctx.textures[k] == Summarized(ctx.textures[k])
    requires forall f :: 0 <= f < CUBE_FACE_COUNT ==> IsColor(ctx.textures[k].faces[f].format)
    modifies ctx`active, ctx`cached, ctx`blocks, ctx`textures, ctx.process, ctx.backend
    ensures StorageFrame(ctx)
    ensures Discarded(old(ctx.backend.objects), ctx.backend.objects, old(ctx.textures), ctx.textures, k)
    ensures !ok ==> ctx.textures == old(ctx.textures) && Untracked(ctx) == old(Untracked(ctx))
    ensures ok ==> ChainsInstalled(old(ctx.textures)[k], ctx.textures[k])
    ensures ok ==> ctx.textures == old(ctx.textures)[k := ctx.textures[k]]
  {
    hide Sized, Shaped, LedgerValid, Others, IsColor, FaceChain, OwnedBytes, Summarized, ChainsInstalled, BasesComplete;
    var chains;
    ok, chains := MakeChains(ctx, sizeMax, ctx.textures[k]);
    if ok {
      InstallAll(ctx, k, chains);
    }
  }

  method InstallAll(ctx: Context, k: nat, chains: seq<seq<MipStorage>>)
    requires IsTexture(ctx, k) && |ctx.textures[k].faces| == CUBE_FACE_COUNT == |chains| && ChainsBytes(chains) <= Surplus(ctx)
    requires ctx.textures[k] == Summarized(ctx.textures[k])
    requires forall f :: 0 <= f < CUBE_FACE_COUNT ==>
               IsColor(ctx.textures[k].faces[f].format) && FaceChain(ctx.textures[k].faces[f], chains[f])
    modifies ctx`active, ctx`textures, ctx.process`globalBytes, ctx.backend
    ensures TexturesValid(ctx) && Others(ctx) == old(Others(ctx))
    ensures Discarded(old(ctx.backend.objects), ctx.backend.objects, old(ctx.textures), ctx.textures, k)
    ensures Surplus(ctx) == old(Surplus(ctx)) - ChainsBytes(chains)
    ensures ChainsInstalled(old(ctx.textures)[k], ctx.textures[k])
    ensures ctx.textures == old(ctx.textures)[k := ctx.textures[k]]
  {
    hide Sized, Shaped, LedgerValid, Others, Surplus, IsColor, FaceChain, OwnedBytes, Summarized, ChainsBytes;
    var t := ctx.textures[k];
    DiscardImage(ctx, k);
    InstallChains(ctx, k, chains);
    SummaryStays(t, ctx.textures[k].faces);
    var after := ctx.textures[k];
    assert Summarized(after) == after; // the update of the summary changes nothing
  }

  // ---------------------------------------------------------- completeness

  /** Level `level` of the face is there and has the size of its place in the chain. */
  predicate FaceLevelSampled(f: CubeFace, level: nat)
    requires |f.mips| == MIP_STORAGES && 0 < level <= MIP_STORAGES
  {
    var m := f.mips[level - 1];
    m.defined && m.width != 0 && m.height != 0 && m.bytes != [] && m.width == DimAt(f.width, level) && m.height == DimAt(f.height, level)
  }

  /** All six faces have it. */
  ghost predicate LevelOnAllFaces(t: TextureObject, level: nat)
    requires Shaped(t) && 0 < level <= MIP_STORAGES
  {
    forall f :: 0 <= f < CUBE_FACE_COUNT ==> FaceLevelSampled(t.faces[f], level)
  }

  method ScanFaces(t: TextureObject, level: nat) returns (all: bool)
    requires Shaped(t) && Sized(t) && 0 < level <= MIP_STORAGES
    ensures all <==> LevelOnAllFaces(t, level)
  {
    hide Sized;
    var face := 0;
    while face < CUBE_FACE_COUNT
      invariant 0 <= face <= CUBE_FACE_COUNT
      invariant forall f :: 0 <= f < face ==> FaceLevelSampled(t.faces[f], level)
    {
      if !FaceLevelSampled(t.faces[face], level) {
        return false;
      }
      face := face + 1;
    }
    return true;
  }

  /** ringl_texture_sampled_mip_count: for a cube map, the levels that all six faces
      have, up to the first that one of them lacks. */
  method SampledMipCount(t: TextureObject) returns (count: nat)
    requires Shaped(t) && Sized(t)
    ensures var whole := if t.target == TEXTURE_CUBE_MAP then LevelCount(t.faces[0].width, t.faces[0].height) else LevelCount(t.width, t.height);
            && (0 < count ==> count <= whole <= MIP_STORAGES + 1)
            && if t.target == TEXTURE_CUBE_MAP then
                 && (count == 0 <==> !BasesComplete(t.faces))
                 && (forall level :: 0 < level < count ==> LevelOnAllFaces(t, level))
                 && (0 < count < whole ==> !LevelOnAllFaces(t, count))
                 && (BasesComplete(t.faces) && AllLevelsOnAllFaces(t) ==> count == whole)
               else
                 && (count == 0 <==> !LevelDefined(t, 0))
                 && (forall level :: 0 < level < count ==> LevelSampled(t, level))
                 && (0 < count < whole ==> !LevelSampled(t, count))
                 && (LevelDefined(t, 0) && AllLevelsSampled(t) ==> count == whole)
  {
    hide Sized, LevelOnAllFaces, LevelSampled, LevelDefined;
    SizedDims(t);
    if t.target != TEXTURE_CUBE_MAP {
      count := FlatMipCount(t);
      return;
    }
    var complete := BaseImagesComplete(t.faces);
    if !complete {
      return 0;
    }
    CountIsExact(t.faces[0].width, t.faces[0].height, 0);
    DimAtZero(t.faces[0].width);
    DimAtZero(t.faces[0].height);
    var levelCount := MipLevelCount(t.faces[0].width, t.faces[0].height);
    count := 1;
    while count < levelCount
      invariant 0 < count <= levelCount
      invariant forall level :: 0 < level < count ==> LevelOnAllFaces(t, level)
    {
      var all := ScanFaces(t, count);
      if !all {
        return;
      }
      count := count + 1;
    }
  }

  lemma SizedDims(t: TextureObject)
    requires Shaped(t) && Sized(t)
    ensures t.width <= MAX_TEXTURE_SIZE && t.height <= MAX_TEXTURE_SIZE
    ensures t.faces[0].width <= MAX_TEXTURE_SIZE && t.faces[0].height <= MAX_TEXTURE_SIZE
  {
    assert FaceSized(t.faces[0]);
  }

  /** A chain that generateMipmap made is sampled in full. */
  lemma FaceChainIsSampled(f: CubeFace, level: nat)
    requires FaceChain(f, f.mips) && 0 < level < LevelCount(f.width, f.height) <= MIP_STORAGES + 1
    ensures FaceLevelSampled(f, level)
  {
    hide Chain;
    GeneratedIsComplete(KindOf(f.format, f.componentType), SetFlat(ZeroTexture(), f), level);
  }

  /** So the six chains of glGenerateMipmap make every level of the cube map count. */
  lemma GeneratedCubeIsComplete(before: TextureObject, after: TextureObject, level: nat)
    requires Shaped(before) && Shaped(after) && BasesComplete(before.faces) && ChainsInstalled(before, after)
    requires 0 < level < LevelCount(after.faces[0].width, after.faces[0].height) <= MIP_STORAGES + 1
    ensures LevelOnAllFaces(after, level)
  {
    hide FaceChain, FaceLevelSampled;
    forall f | 0 <= f < CUBE_FACE_COUNT
      ensures FaceLevelSampled(after.faces[f], level)
    {
      assert after.faces[f].width == after.faces[0].width && after.faces[f].height == after.faces[0].height;
      assert FaceChain(after.faces[f], after.faces[f].mips) by {
        ChainIgnoresMips(before.faces[f], after.faces[f]);
      }
      FaceChainIsSampled(after.faces[f], level);
    }
  }

  lemma ChainIgnoresMips(f: CubeFace, g: CubeFace)
    requires g == f.(mips := g.mips) && FaceChain(f, g.mips)
    ensures FaceChain(g, g.mips)
  {
  }

  // ------------------------------------------------------------------- sampling

  ghost predicate AllLevelsOnAllFaces(t: TextureObject)
    requires Shaped(t)
  {
    LevelCount(t.faces[0].width, t.faces[0].height) <= MIP_STORAGES + 1
    && forall level :: 0 < level < LevelCount(t.faces[0].width, t.faces[0].height) ==> LevelOnAllFaces(t, level)
  }

  /** When a cube map can be sampled: it is clamped and has six base images that
      match; float components are filtered by nearest unless script has the extension;
      and if mipmaps are used its side is a power of two and every level is on every
      face. */
  ghost predicate CubeSampleable(t: TextureObject, s: Sampling)
    requires Shaped(t)
  {
    && s.wrapS == CLAMP_TO_EDGE && s.wrapT == CLAMP_TO_EDGE && BasesComplete(t.faces)
    && (NearestOnly(t.faces[0].componentType, t.faces[0].compressedFormat, t.faces[0].srgb, s) ==> FiltersNearest(s))
    && (UsesMips(s) ==> PowerOfTwo(t.faces[0].width) && AllLevelsOnAllFaces(t))
  }

  /** texture_cube_level0_complete. */
  method CubeLevel0Complete(t: TextureObject, s: Sampling) returns (complete: bool)
    requires Shaped(t) && Sized(t)
    ensures complete <==> CubeSampleable(t, s)
  {
    hide Sized, PowerOfTwo, BasesComplete, LevelCount;
    SizedDims(t);
    if s.wrapS != CLAMP_TO_EDGE || s.wrapT != CLAMP_TO_EDGE {
      return false;
    }
    complete := BaseImagesComplete(t.faces);
    if !complete {
      return;
    }
    var first := t.faces[0];
    if NearestOnly(first.componentType, first.compressedFormat, first.srgb, s) && !FiltersNearest(s) {
      return false;
    }
    if !UsesMips(s) {
      return true;
    }
    if !PowerOfTwo(first.width) {
      return false;
    }
    complete := LevelsOnFaces(t);
  }

  /** The two loops at its end. */
  method LevelsOnFaces(t: TextureObject) returns (all: bool)
    requires Shaped(t) && Sized(t) && BasesComplete(t.faces)
    ensures all <==> AllLevelsOnAllFaces(t)
  {
    hide Sized, FaceLevelSampled;
    SizedDims(t);
    CountIsExact(t.faces[0].width, t.faces[0].height, 0);
    DimAtZero(t.faces[0].width);
    DimAtZero(t.faces[0].height);
    var levelCount := MipLevelCount(t.faces[0].width, t.faces[0].height);
    var face := 0;
    while face < CUBE_FACE_COUNT
      invariant 0 <= face <= CUBE_FACE_COUNT
      invariant forall f, level :: 0 <= f < face && 0 < level < levelCount ==> FaceLevelSampled(t.faces[f], level)
    {
      var level := 1;
      while level < levelCount
        invariant 0 < level && (level <= levelCount || levelCount == 0)
        invariant forall l :: 0 < l < level && l < levelCount ==> FaceLevelSampled(t.faces[face], l)
      {
        if !FaceLevelSampled(t.faces[face], level) {
          assert !LevelOnAllFaces(t, level);
          return false;
        }
        level := level + 1;
      }
      face := face + 1;
    }
    return true;
  }

  /** What glGenerateMipmap leaves of a cube map can be sampled in full, clamped and
      with any filter the components allow. */
  lemma GeneratedCubeIsSampleable(before: TextureObject, after: TextureObject, arrayOps: bool, s: Sampling)
    requires Shaped(before) && Sized(before) && CubeGeneratable(before, arrayOps) && before == Summarized(before)
    requires Shaped(after) && ChainsInstalled(before, after)
    ensures BasesComplete(after.faces) && AllLevelsOnAllFaces(after)
    ensures CubeSampleable(after, s)
            <==> && s.wrapS == CLAMP_TO_EDGE && s.wrapT == CLAMP_TO_EDGE
                 && (NearestOnly(after.faces[0].componentType, after.faces[0].compressedFormat, after.faces[0].srgb, s)
                     ==> FiltersNearest(s))
  {
    hide Sized, FaceChain, LevelOnAllFaces, PowerOfTwo, NearestOnly, FiltersNearest;
    SizedDims(before);
    CountIsExact(before.faces[0].width, before.faces[0].height, 0);
    DimAtZero(before.faces[0].width);
    DimAtZero(before.faces[0].height);
    forall level | 0 < level < LevelCount(after.faces[0].width, after.faces[0].height)
      ensures LevelOnAllFaces(after, level)
    {
      GeneratedCubeIsComplete(before, after, level);
    }
  }
}
