/** ringl_context_create and ringl_context_destroy in src/context/context.c: a
    context's whole effect on the shared budget. */
module ContextLifetime {
  import opened Limits
  import opened StagingBlocks
  import opened ContextState
  import opened ContextLedger
  import opened ObjectTable
  import opened VertexArrays
  import opened References
  import opened Buffers
  import opened TextureStorage
  import opened TextureDeletion

  /** No GPU image of a texture is a buffer's object. */
  ghost predicate ImagesApart(ctx: Context)
    reads ctx`buffers, ctx`textures
  {
    forall i :: 0 <= i < |ctx.textures| && ctx.textures[i].image != 0 ==> ctx.textures[i].image !in Handles(ctx.buffers)
  }

  ghost function Images(textures: seq<TextureObject>): set<nat> {
    set i | 0 <= i < |textures| && textures[i].image != 0 :: textures[i].image
  }

  /** Backend objects that are neither a buffer's nor a texture's. */
  ghost function Unowned(ctx: Context): map<nat, seq<byte>>
    reads ctx`buffers, ctx`textures, ctx.backend
  {
    Foreign(ctx) - Images(ctx.textures)
  }

  lemma OnlyImagesGone(before: map<nat, seq<byte>>, after: map<nat, seq<byte>>, textures: seq<TextureObject>, handles: set<nat>)
    requires ImagesGone(before, after, textures, |textures|)
    ensures after - handles == before - handles - Images(textures)
  {
    forall h
      ensures h in after - handles <==> h in before - handles - Images(textures)
    {
      if h in before && h !in after {
        var i :| 0 <= i < |textures| && textures[i].image == h != 0;
      }
    }
  }

  lemma MirrorsSurviveImages(before: map<nat, seq<byte>>, after: map<nat, seq<byte>>, textures: seq<TextureObject>, buffers: seq<BufferObject>)
    requires Mirrors(before, buffers) && ImagesGone(before, after, textures, |textures|)
    requires forall i :: 0 <= i < |textures| && textures[i].image != 0 ==> textures[i].image !in Handles(buffers)
    ensures Mirrors(after, buffers)
  {
    forall i | 0 <= i < |buffers| && buffers[i].handle != 0
      ensures buffers[i].handle in after && after[buffers[i].handle] == buffers[i].bytes
    {
      assert buffers[i].handle in Handles(buffers);
    }
  }

  /** The end of ringl_context_destroy: idle blocks leave the cache, blocks still in
      use are released. */
  method ReleaseBlocks(ctx: Context)
    requires LedgerValid(ctx)
    modifies ctx`active, ctx`cached, ctx`blocks, ctx.process`globalBytes
    ensures LedgerValid(ctx) && Others(ctx) == old(Others(ctx))
    ensures ctx.cached == 0 && ctx.active == old(Untracked(ctx))
  {
    ghost var was := ctx.blocks;
    var k := 0;
    while k < STAGING_CACHE_BLOCK_COUNT
      invariant 0 <= k <= STAGING_CACHE_BLOCK_COUNT
      invariant LedgerValid(ctx) && Others(ctx) == old(Others(ctx)) && Untracked(ctx) == old(Untracked(ctx))
      invariant forall j :: 0 <= j < k ==> ctx.blocks[j] == NO_BLOCK
    {
      if ctx.blocks[k].memory != 0 {
        ReleaseBlock(ctx, k);
      }
      k := k + 1;
    }
    BlockBytesEmpty(ctx.blocks, |ctx.blocks|, true);
    BlockBytesEmpty(ctx.blocks, |ctx.blocks|, false);
  }

  method ReleaseBlock(ctx: Context, k: nat)
    requires LedgerValid(ctx) && k < STAGING_CACHE_BLOCK_COUNT
    modifies ctx`active, ctx`cached, ctx`blocks, ctx.process`globalBytes
    ensures LedgerValid(ctx) && Others(ctx) == old(Others(ctx)) && Untracked(ctx) == old(Untracked(ctx))
    ensures ctx.blocks == old(ctx.blocks)[k := NO_BLOCK]
  {
    var block := ctx.blocks[k];
    BlockBytesBound(ctx.blocks, |ctx.blocks|, true);
    BlockBytesBound(ctx.blocks, |ctx.blocks|, false);
    BlockBytesUpdate(ctx.blocks, k, NO_BLOCK, |ctx.blocks|, true);
    BlockBytesUpdate(ctx.blocks, k, NO_BLOCK, |ctx.blocks|, false);
    if !block.inUse {
      var released := Min(block.capacity, ctx.cached);
      ctx.cached := ctx.cached - released;
      GlobalRelease(ctx.process, released);
    } else {
      var released := ReleaseShadowBytesLocal(ctx, block.capacity);
      GlobalRelease(ctx.process, released);
    }
    ctx.blocks := ctx.blocks[k := NO_BLOCK];
  }

  /** ringl_context_destroy. The shared counter falls to what the other contexts
      hold, plus what this context was still charged for and did not own, plus
      what its cube faces own. */
  method Destroy(ctx: Context)
    requires TexturesValid(ctx) && BuffersValid(ctx) && ImagesApart(ctx)
    modifies ctx`active, ctx`cached, ctx`blocks, ctx`buffers, ctx`textures, ctx.process`globalBytes, ctx.backend
    ensures ctx.process.globalBytes == old(Others(ctx)) - ctx.recordBytes + old(Surplus(ctx)) + FaceTotal(old(ctx.textures))
    ensures ctx.backend.objects == old(Unowned(ctx))
  {
    hide LedgerValid, Mirrors, TextureBytes, BufferBytes, ImagesGone, Sized, Shaped;
    DestroyAllTextures(ctx);
    OnlyImagesGone(old(ctx.backend.objects), ctx.backend.objects, old(ctx.textures), Handles(ctx.buffers));
    MirrorsSurviveImages(old(ctx.backend.objects), ctx.backend.objects, old(ctx.textures), ctx.buffers);
    Buffers.DestroyAll(ctx);
    ReleaseBlocks(ctx);
    RecordRemains(ctx);
    GlobalRelease(ctx.process, ctx.recordBytes);
  }

  lemma RecordRemains(ctx: Context)
    requires LedgerValid(ctx)
    ensures ctx.recordBytes <= ctx.process.globalBytes
  {
  }

  lemma {:induction false} UniformTextures(n: nat)
    ensures TextureBytes(seq(n, _ => ZeroTexture())) == 0
  {
    hide ZeroTexture, OwnedBytes;
    if n > 0 {
      UniformTextures(n - 1);
      ZeroIsFine();
      assert seq(n, _ => ZeroTexture())[..n - 1] == seq(n - 1, _ => ZeroTexture());
    }
  }

  lemma {:induction false} UniformBuffers(n: nat)
    ensures BufferBytes(seq(n, _ => ZERO_BUFFER)) == 0
  {
    if n > 0 {
      UniformBuffers(n - 1);
      assert seq(n, _ => ZERO_BUFFER)[..n - 1] == seq(n - 1, _ => ZERO_BUFFER);
    }
  }

  /** A fresh record satisfies every invariant and owns nothing. */
  lemma FreshIsValid(ctx: Context)
    requires ctx.active == 0 && ctx.cached == 0 && ctx.blocks == [NO_BLOCK, NO_BLOCK, NO_BLOCK, NO_BLOCK]
    requires ctx.recordBytes <= ctx.process.globalBytes <= MAX_GLOBAL_CPU_ALLOCATION_BYTES && 0 < ctx.process.nextAddress
    requires ctx.slots == seq(OBJECT_SLOT_COUNT, _ => Slot(0, NoType, Free))
    requires ctx.buffers == seq(OBJECT_SLOT_COUNT, _ => ZERO_BUFFER)
    requires ctx.textures == seq(OBJECT_SLOT_COUNT, _ => ZeroTexture())
    requires ctx.boundTexture2D == ctx.boundTextureCube == seq(MAX_TEXTURE_UNITS, _ => 0)
    ensures LedgerValid(ctx) && TexturesValid(ctx) && BuffersValid(ctx) && ImagesApart(ctx)
    ensures Surplus(ctx) == 0 && Others(ctx) == ctx.process.globalBytes && FaceTotal(ctx.textures) == 0
    ensures Unowned(ctx) == ctx.backend.objects
  {
    hide ZeroTexture, Sized, Shaped, TextureBytes, BufferBytes, FaceTotal;
    BlockBytesEmpty(ctx.blocks, 4, true);
    BlockBytesEmpty(ctx.blocks, 4, false);
    UniformTextures(OBJECT_SLOT_COUNT);
    UniformBuffers(OBJECT_SLOT_COUNT);
    UniformFaces(OBJECT_SLOT_COUNT);
    ZeroIsFine();
    ZeroFields();
  }

  /** And no reference of it names anything. */
  lemma FreshHoldsNothing(ctx: Context)
    requires ctx.slots == seq(OBJECT_SLOT_COUNT, _ => Slot(0, NoType, Free))
    requires ctx.vertexArrays == seq(OBJECT_SLOT_COUNT, _ => ZERO_ARRAY)
    requires ctx.framebuffers == seq(OBJECT_SLOT_COUNT, _ => ZERO_FRAMEBUFFER)
    requires ctx.arrayBuffer == ctx.elementArrayBuffer == ctx.vertexArrayBinding == 0
    requires ctx.framebufferBinding == ctx.renderbufferBinding == 0
    requires ctx.boundTexture2D == ctx.boundTextureCube == seq(MAX_TEXTURE_UNITS, _ => 0)
    requires ctx.attribs == seq(MAX_VERTEX_ATTRIBS, _ => VertexAttrib(DEFAULT_DESCRIPTOR, Vec4(0.0, 0.0, 0.0, 1.0)))
    requires ctx.defaultVertexArray == DEFAULT_ARRAY
    ensures RefsValid(ctx)
  {
    var refs := RefsOf(ctx);
    assert RecordHeld(ctx.slots, refs.working, 0);
    assert RecordHeld(ctx.slots, refs.defaultArray, 0);
    assert FramebufferHeld(ctx.slots, ZERO_FRAMEBUFFER, 0);
  }

  lemma {:induction false} UniformFaces(n: nat)
    ensures FaceTotal(seq(n, _ => ZeroTexture())) == 0
  {
    hide ZeroTexture, FacesBytes;
    if n > 0 {
      UniformFaces(n - 1);
      ZeroParts();
      assert seq(n, _ => ZeroTexture())[..n - 1] == seq(n - 1, _ => ZeroTexture());
    }
  }

  /** ringl_context_create: the record is charged before it is allocated, and a
      failed allocation is given back. `described` says that the descriptor, if there
      is one, passes its tests; nothing is charged before them. */
  method Create(process: Process, backend: Backend, recordBytes: nat, described: bool) returns (result: int, ctx: Context?)
    requires process.globalBytes <= MAX_GLOBAL_CPU_ALLOCATION_BYTES && 0 < process.nextAddress
    modifies process`globalBytes
    ensures result == 0 <==> ctx != null
    ensures !described ==> result == -1
    ensures described && (recordBytes == 0 || old(process.globalBytes) + recordBytes > MAX_GLOBAL_CPU_ALLOCATION_BYTES) ==> result == -2
    ensures ctx == null ==> process.globalBytes == old(process.globalBytes) && (result == -1 <==> !described)
    ensures ctx != null ==>
              && fresh(ctx) && ctx.process == process && ctx.backend == backend && ctx.recordBytes == recordBytes
              && process.globalBytes == old(process.globalBytes) + recordBytes <= MAX_GLOBAL_CPU_ALLOCATION_BYTES
              && TexturesValid(ctx) && BuffersValid(ctx) && ImagesApart(ctx) && RefsValid(ctx)
              && Surplus(ctx) == 0 && Others(ctx) == process.globalBytes && FaceTotal(ctx.textures) == 0
              && Unowned(ctx) == backend.objects && |ctx.renderbuffers| == OBJECT_SLOT_COUNT
              && ctx.textures == seq(OBJECT_SLOT_COUNT, _ => ZeroTexture())
              && ctx.slots == seq(OBJECT_SLOT_COUNT, _ => Slot(0, NoType, Free))
  {
    if !described {
      return -1, null;
    }
    var admitted := GlobalReserve(process, recordBytes);
    if !admitted {
      return -2, null;
    }
    var available: bool := *;
    if !available {
      GlobalRelease(process, recordBytes);
      return -2, null;
    }
    var record := new Context(process, backend, recordBytes);
    FreshIsValid(record);
    FreshHoldsNothing(record);
    result, ctx := 0, record;
  }
}
