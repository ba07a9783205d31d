/** Whole runs of one context: whatever calls are made, in any order, with any
    arguments and any failures, every reference resolves, every buffer's GPU copy is
    its shadow, and the context's charge is what it owns; its teardown gives the
    shared budget and the backend back. */
module Runs {
  import opened Limits
  import opened StagingBlocks
  import opened Arithmetic
  import opened ContextState
  import opened ContextLedger
  import opened ObjectTable
  import opened VertexArrays
  import opened References
  import opened Framebuffers
  import opened TexUpload
  import opened TextureStorage
  import opened ContextLifetime
  import opened Session
  import opened NamingCalls
  import opened Realization
  import opened ColorTargets
  import ColorConversion
  import TexImages
  import CopyImages
  import LinearImages
  import Readback
  import TextureDeletion
  import Buffers
  import Mipmaps

  /** Calls that own no storage: names, bindings, vertex arrays, framebuffers, readback. */
  datatype NamingCall =
    | ActiveTextureUnit(unit: nat)
    | GenVertexArrays(count: int)
    | BindVertexArray(name: nat)
    | DeleteVertexArray(name: nat)
    | EnableAttrib(index: nat, enabled: bool)
    | AttribPointer(index: nat, components: int, componentType: nat, normalized: nat, stride: int, start: nat)
    | AttribDivisor(index: nat, divisor: nat)
    | AttribCurrent(index: nat, value: Vec4)
    | BindFramebuffer(target: nat, name: nat)
    | BindRenderbuffer(target: nat, name: nat)
    | FramebufferTexture(target: nat, attachment: nat, textarget: nat, texture: nat, level: int)
    | FramebufferRenderbuffer(target: nat, attachment: nat, renderbufferTarget: nat, renderbuffer: nat)
    | DeleteFramebuffer(name: nat)
    | DeleteRenderbuffer(name: nat)
    | ReadPixelBytes(ready: bool, complete: bool, otherwise: bool, arrayOps: bool, contents: seq<seq<byte>>, alignment: nat,
                     x: int, y: int, width: int, height: int, format: nat, pixelType: nat, room: nat)

  datatype Call =
    | GenNames(kind: ObjectType, count: int)
    | BindBufferTo(target: nat, buffer: nat)
    | BufferData(target: nat, size: int, source: Buffers.Source, known: bool, usage: nat)
    | BufferSubData(target: nat, offset: int, size: int, source: Buffers.Source, known: bool)
    | DeleteBuffer(name: nat)
    | BindTextureTo(target: nat, texture: nat)
    | TexImage(target: nat, level: int, internalFormat: nat, width: int, height: int, border: int, u: Upload, p: TexImages.Pixels)
    | TexSubImage(target: nat, level: int, r: TexImages.Rect, u: Upload, p: TexImages.Pixels)
    | CompressedTexImage(target: nat, level: int, format: nat, width: int, height: int, border: int, alignment: nat, data: seq<byte>, isNull: bool,
                         tones: LinearImages.Tones)
    | CopyTexImage(from: CopyImages.Source, arrayOps: bool, contents: seq<seq<byte>>, target: nat, level: int, internalFormat: nat,
                   x: int, y: int, width: int, height: int, border: int, rounded: seq<byte> -> seq<byte>)
    | GenerateMipmap(target: nat, backendOps: bool)
    | DeleteTexture(name: nat)
    | RealizeTexture(unit: nat, sampling: Mipmaps.Sampling, arrayOps: bool, contents: seq<seq<byte>>)
    | Naming(call: NamingCall)

  /** What the source demands of the caller. */
  predicate CallOk(c: Call) {
    match c
    case GenNames(kind, _) => kind != NoType && kind != VertexArrayType
    case BufferData(_, size, source, known, _) => !known && source.Bytes? ==> size <= |source.bytes|
    case BufferSubData(_, _, size, source, known) => !known && source.Bytes? ==> size <= |source.bytes|
    case TexImage(_, _, _, _, _, _, u, p) => UploadArgs(u, p)
    case TexSubImage(_, _, _, u, p) => UploadArgs(u, p)
    case CompressedTexImage(_, _, _, _, _, _, alignment, _, _, _) => AlignmentOk(alignment)
    case _ => true
  }

  /** Calls on a cube map's faces. */
  predicate FaceCall(c: Call) {
    match c
    case TexImage(target, _, _, _, _, _, _, _) => target != TEXTURE_2D
    case TexSubImage(target, _, _, _, _) => target != TEXTURE_2D
    case CompressedTexImage(target, _, _, _, _, _, _, _, _, _) => target != TEXTURE_2D
    case CopyTexImage(_, _, _, target, _, _, _, _, _, _, _, _) => target != TEXTURE_2D
    case GenerateMipmap(target, _) => target == TEXTURE_CUBE_MAP
    case _ => false
  }

  predicate BindsCube(c: Call) { c.BindTextureTo? && c.target == TEXTURE_CUBE_MAP }

  method Reject(ctx: Context)
    requires SessionValid(ctx)
    modifies ctx`pendingError
    ensures Keeps(ctx, 0)
  {
    hide AllHeld, ArraysValid, Sized, Shaped, LedgerValid, AtHome, UnitsTyped;
    ctx.RecordError(InvalidEnum);
  }

  method PerformNaming(ctx: Context, target: Readback.ColorTarget, fence: Readback.FinishFence, sizeMax: nat, c: NamingCall)
    requires SessionValid(ctx) && |ctx.renderbuffers| == OBJECT_SLOT_COUNT
    requires ColorConversion.SurfaceValid(target.surface) && fence.value <= UINT64_MAX
    modifies ctx, ctx.process, ctx.backend, target, fence
    ensures Keeps(ctx, 0) && NoNewCubes(old(ctx.textures), ctx.textures) && FacesStay(old(ctx.textures), ctx.textures)
    ensures |ctx.renderbuffers| == OBJECT_SLOT_COUNT && fence.value <= UINT64_MAX
  {
    hide SessionValid, Surplus, Others, Unowned, ColorConversion.SurfaceValid;
    match c {
      case ActiveTextureUnit(unit) =>
        ActiveTexture(ctx, unit);
      case GenVertexArrays(count) =>
        var names := new nat[if count < 0 then 0 else count];
        GenVertexArrayNames(ctx, count, names);
      case BindVertexArray(name) =>
        BindVertexArrayTo(ctx, name);
      case DeleteVertexArray(name) =>
        DeleteVertexArrayNamed(ctx, name);
      case EnableAttrib(index, enabled) =>
        Enable(ctx, index, enabled);
      case AttribPointer(index, components, componentType, normalized, stride, start) =>
        Pointer(ctx, index, components, componentType, normalized, stride, start);
      case AttribDivisor(index, divisor) =>
        Divisor(ctx, index, divisor);
      case AttribCurrent(index, value) =>
        Current(ctx, index, value);
      case BindFramebuffer(t, name) =>
        BindFramebufferTo(ctx, t, name);
      case BindRenderbuffer(t, name) =>
        BindRenderbufferTo(ctx, t, name);
      case FramebufferTexture(t, attachment, textarget, texture, level) =>
        AttachTexture(ctx, t, attachment, textarget, texture, level);
      case FramebufferRenderbuffer(t, attachment, renderbufferTarget, renderbuffer) =>
        AttachRenderbuffer(ctx, t, attachment, renderbufferTarget, renderbuffer);
      case DeleteFramebuffer(name) =>
        DeleteFramebufferNamed(ctx, name);
      case DeleteRenderbuffer(name) =>
        DeleteRenderbufferNamed(ctx, name);
      case ReadPixelBytes(ready, complete, otherwise, arrayOps, contents, alignment, x, y, width, height, format, pixelType, room) =>
        var pixels := new byte[room];
        ghost var was := ctx.textures;
        ReadPixels(ctx, target, fence, ready, complete, otherwise, arrayOps, contents, sizeMax, alignment, x, y, width, height,
                   format, pixelType, pixels);
        ImagesOnlyKeeps(was, ctx.textures);
    }
  }

  // ------------------------------------------------------------- what is lost

  /** What decides a loss: the names, the textures, and the texture bound as a cube
      map. */
  datatype Shot = Shot(slots: seq<Slot>, textures: seq<TextureObject>, cube: nat)

  ghost predicate ShotValid(s: Shot) { |s.slots| == |s.textures| == OBJECT_SLOT_COUNT }

  ghost function ShotOf(ctx: Context): Shot
    requires SessionValid(ctx)
    reads ctx, ctx.process, ctx.backend
  {
    BoundCubeDefined(ctx);
    Shot(ctx.slots, ctx.textures, BoundCube(ctx))
  }

  lemma BoundCubeDefined(ctx: Context)
    requires SessionValid(ctx)
    ensures |ctx.slots| == |ctx.textures| == OBJECT_SLOT_COUNT && |ctx.boundTextureCube| == MAX_TEXTURE_UNITS
  {
    hide RefsValid, Sized, Shaped, LedgerValid, AtHome, Buffers.Mirrors, ImagesOwned;
  }

  /** The slot of the texture a call deletes, or 1024. */
  function Deleted(s: Shot, c: Call): nat
    requires |s.slots| == OBJECT_SLOT_COUNT
  {
    if c.DeleteTexture? && c.name != 0 then Lookup(s.slots, c.name, TextureType) else OBJECT_SLOT_COUNT
  }

  /** The bytes a call loses: the face storage of the texture it deletes. */
  function Loss(s: Shot, c: Call): nat
    requires |s.slots| == |s.textures| == OBJECT_SLOT_COUNT
  {
    var k := Deleted(s, c);
    if k < OBJECT_SLOT_COUNT then FacesBytes(s.textures[k].faces) else 0
  }

  /** What a call may do to face storage: deletion clears one texture, a call on a
      face edits the bound cube map, any other call leaves it alone. */
  ghost predicate FaceStep(s: Shot, s': Shot, c: Call)
  {
    && ShotValid(s) && ShotValid(s')
    && if c.DeleteTexture? then
         var k := Deleted(s, c);
         s'.textures == if k < OBJECT_SLOT_COUNT then s.textures[k := ZeroTexture()] else s.textures
       else if FaceCall(c) then FacesStayBut(s.textures, s'.textures, s.cube)
       else FacesStay(s.textures, s'.textures)
  }

  // ------------------------------------------------------------------ one call

  /** A call that defines, updates, names or deletes storage, but no texture. */
  method PerformStorage(ctx: Context, target: Readback.ColorTarget, fence: Readback.FinishFence, sizeMax: nat, c: Call)
    requires SessionValid(ctx) && |ctx.renderbuffers| == OBJECT_SLOT_COUNT && CallOk(c) && !c.DeleteTexture? && !c.Naming?
    requires ColorConversion.SurfaceValid(target.surface) && fence.value <= UINT64_MAX
    modifies ctx, ctx.process, ctx.backend, target, fence
    ensures Keeps(ctx, 0) && |ctx.renderbuffers| == OBJECT_SLOT_COUNT && fence.value <= UINT64_MAX
    ensures FaceStep(old(ShotOf(ctx)), ShotOf(ctx), c)
    ensures !BindsCube(c) ==> NoNewCubes(old(ctx.textures), ctx.textures)
  {
    hide SessionValid, Surplus, Others, Unowned, ColorConversion.SurfaceValid, NoNewCubes, FacesStay, FacesStayBut, Deleted;
    BoundCubeDefined(ctx);
    UnchangedTextures(ctx.textures);
    match c {
      case GenNames(kind, count) =>
        var names := new nat[if count < 0 then 0 else count];
        Gen(ctx, kind, count, names);
      case BindBufferTo(t, buffer) =>
        Bind(ctx, t, buffer);
      case BufferData(t, size, source, known, usage) =>
        Data(ctx, t, size, source, known, usage);
      case BufferSubData(t, offset, size, source, known) =>
        SubData(ctx, t, offset, size, source, known);
      case DeleteBuffer(name) =>
        DropBuffer(ctx, name);
      case BindTextureTo(t, texture) =>
        BindTex(ctx, t, texture);
      case TexImage(t, level, internalFormat, width, height, border, u, p) =>
        if t == TEXTURE_2D {
          Define2D(ctx, sizeMax, level, internalFormat, width, height, border, u, p);
        } else {
          ghost var _ := DefineFace(ctx, sizeMax, t, level, internalFormat, width, height, border, u, p);
        }
      case TexSubImage(t, level, r, u, p) =>
        if t == TEXTURE_2D {
          Update2D(ctx, level, r, u, p);
        } else {
          UpdateFace(ctx, t, level, r, u, p);
        }
      case CompressedTexImage(t, level, format, width, height, border, alignment, data, isNull, tones) =>
        if t == TEXTURE_2D {
          Compressed2D(ctx, sizeMax, level, format, width, height, border, alignment, data, isNull, tones);
        } else {
          CompressFace(ctx, sizeMax, t, level, format, width, height, border, alignment, data, isNull, tones);
        }
      case CopyTexImage(from, arrayOps, contents, t, level, internalFormat, x, y, width, height, border, rounded) =>
        if t == TEXTURE_2D {
          CopyIn2D(ctx, target, fence, sizeMax, from, arrayOps, contents, level, internalFormat, x, y, width, height, border, rounded);
        } else {
          CopyIntoFace(ctx, target, fence, sizeMax, from, arrayOps, contents, t, level, internalFormat, x, y, width, height, border, rounded);
        }
      case GenerateMipmap(t, backendOps) =>
        if t == TEXTURE_2D {
          Mipmap2D(ctx, sizeMax, backendOps);
        } else if t == TEXTURE_CUBE_MAP {
          MipmapCube(ctx, sizeMax, backendOps);
        } else {
          Reject(ctx);
        }
      case RealizeTexture(unit, sampling, arrayOps, contents) =>
        var _ := RealizeUnit(ctx, unit, sampling, arrayOps, contents);
    }
    BoundCubeDefined(ctx);
  }

  /** One call; every allocation and every backend call in it may fail. The charge
      nobody owns grows by exactly the face storage of the texture it deletes. */
  method Perform(ctx: Context, target: Readback.ColorTarget, fence: Readback.FinishFence, sizeMax: nat, c: Call)
    requires SessionValid(ctx) && |ctx.renderbuffers| == OBJECT_SLOT_COUNT && CallOk(c)
    requires ColorConversion.SurfaceValid(target.surface) && fence.value <= UINT64_MAX
    modifies ctx, ctx.process, ctx.backend, target, fence
    ensures ShotValid(old(ShotOf(ctx))) && Keeps(ctx, Loss(old(ShotOf(ctx)), c))
    ensures |ctx.renderbuffers| == OBJECT_SLOT_COUNT && fence.value <= UINT64_MAX
    ensures FaceStep(old(ShotOf(ctx)), ShotOf(ctx), c)
    ensures !BindsCube(c) ==> NoNewCubes(old(ctx.textures), ctx.textures)
  {
    hide SessionValid, Surplus, Others, Unowned, ColorConversion.SurfaceValid, NoNewCubes, FacesStay, FacesStayBut, FacesBytes;
    BoundCubeDefined(ctx);
    if c.DeleteTexture? {
      ghost var lost := DropTexture(ctx, c.name);
      BoundCubeDefined(ctx);
    } else if c.Naming? {
      PerformNaming(ctx, target, fence, sizeMax, c.call);
      BoundCubeDefined(ctx);
    } else {
      PerformStorage(ctx, target, fence, sizeMax, c);
    }
  }

  // ------------------------------------------------------------------- runs

  /** The states of a run, one before each call and one after the last. */
  ghost predicate Trail(trail: seq<Shot>, calls: seq<Call>) {
    && |trail| == |calls| + 1 && (forall i :: 0 <= i < |trail| ==> ShotValid(trail[i]))
    && forall i :: 0 <= i < |calls| ==> StepAt(trail, calls, i)
  }

  ghost predicate StepAt(trail: seq<Shot>, calls: seq<Call>, i: nat)
    requires i < |calls| < |trail|
  {
    FaceStep(trail[i], trail[i + 1], calls[i])
  }

  /** What the first `n` calls lose. */
  ghost function Lost(trail: seq<Shot>, calls: seq<Call>, n: nat): nat
    requires n <= |calls| < |trail| && forall i :: 0 <= i < |trail| ==> ShotValid(trail[i])
  {
    if n == 0 then 0 else Lost(trail, calls, n - 1) + Loss(trail[n - 1], calls[n - 1])
  }

  lemma {:induction false} LostStays(trail: seq<Shot>, more: seq<Shot>, calls: seq<Call>, c: Call, n: nat)
    requires n <= |calls| < |trail| && (forall i :: 0 <= i < |trail| ==> ShotValid(trail[i]))
    requires |more| == |trail| + 1 && more[..|trail|] == trail && ShotValid(more[|trail|])
    ensures Lost(more, calls + [c], n) == Lost(trail, calls, n)
  {
    hide Loss;
    assert forall i :: 0 <= i < |trail| ==> more[i] == more[..|trail|][i];
    if n > 0 {
      LostStays(trail, more, calls, c, n - 1);
    }
  }

  lemma OneMoreCall(trail: seq<Shot>, calls: seq<Call>, c: Call, after: Shot)
    requires Trail(trail, calls) && FaceStep(trail[|calls|], after, c)
    ensures Trail(trail + [after], calls + [c])
    ensures Lost(trail + [after], calls + [c], |calls| + 1) == Lost(trail, calls, |calls|) + Loss(trail[|calls|], c)
  {
    hide FaceStep, Loss;
    var more, cs := trail + [after], calls + [c];
    assert ShotValid(after) by {
      StepEnds(trail[|calls|], after, c);
    }
    forall i | 0 <= i < |cs|
      ensures StepAt(more, cs, i)
    {
      if i < |calls| {
        assert StepAt(trail, calls, i);
      }
    }
    LostStays(trail, more, calls, c, |calls|);
  }

  lemma StepEnds(s: Shot, s': Shot, c: Call)
    requires FaceStep(s, s', c)
    ensures ShotValid(s) && ShotValid(s')
  {
  }

  ghost predicate NoCubes(textures: seq<TextureObject>) {
    forall i :: 0 <= i < |textures| ==> textures[i].target != TEXTURE_CUBE_MAP
  }

  ghost predicate BindsNoCube(calls: seq<Call>) {
    forall i :: 0 <= i < |calls| ==> !BindsCube(calls[i])
  }

  /** Without cube maps no face holds a byte. */
  lemma NoCubeNoFaces(textures: seq<TextureObject>)
    requires NoCubes(textures) && forall i :: 0 <= i < |textures| ==> AtHome(textures[i])
    ensures forall i :: 0 <= i < |textures| ==> FacesBytes(textures[i].faces) == 0
  {
    hide AtHome, FacesBytes;
    forall i | 0 <= i < |textures|
      ensures FacesBytes(textures[i].faces) == 0
    {
      LossIsCube(textures[i]);
    }
  }

  lemma NoCubeNoLoss(ctx: Context)
    requires SessionValid(ctx) && NoCubes(ctx.textures)
    ensures forall c :: Loss(ShotOf(ctx), c) == 0
  {
    hide AtHome, FacesBytes, Sized, Shaped, LedgerValid, AllHeld, ArraysValid, Surplus;
    NoCubeNoFaces(ctx.textures);
  }

  /** Any sequence of calls: the charge nobody owns grows by the face storage of the
      deleted textures, byte for byte. */
  method Run(ctx: Context, target: Readback.ColorTarget, fence: Readback.FinishFence, sizeMax: nat, calls: seq<Call>)
    returns (ghost trail: seq<Shot>)
    requires SessionValid(ctx) && |ctx.renderbuffers| == OBJECT_SLOT_COUNT
    requires ColorConversion.SurfaceValid(target.surface) && fence.value <= UINT64_MAX
    requires forall i :: 0 <= i < |calls| ==> CallOk(calls[i])
    modifies ctx, ctx.process, ctx.backend, target, fence
    ensures SessionValid(ctx) && Trail(trail, calls) && trail[0] == old(ShotOf(ctx)) && trail[|calls|] == ShotOf(ctx)
    ensures Keeps(ctx, Lost(trail, calls, |calls|))
    ensures NoCubes(old(ctx.textures)) && BindsNoCube(calls) ==> NoCubes(ctx.textures) && Lost(trail, calls, |calls|) == 0
  {
    hide SessionValid, Surplus, Others, Unowned, ColorConversion.SurfaceValid, CallOk, FaceStep, Loss;
    BoundCubeDefined(ctx);
    trail := [ShotOf(ctx)];
    var next := 0;
    while next < |calls|
      invariant 0 <= next <= |calls| && |ctx.renderbuffers| == OBJECT_SLOT_COUNT && fence.value <= UINT64_MAX
      invariant SessionValid(ctx) && Trail(trail, calls[..next]) && trail[0] == old(ShotOf(ctx)) && trail[next] == ShotOf(ctx)
      invariant Keeps(ctx, Lost(trail, calls[..next], next))
      invariant NoCubes(old(ctx.textures)) && BindsNoCube(calls) ==> NoCubes(ctx.textures) && Lost(trail, calls[..next], next) == 0
    {
      if NoCubes(ctx.textures) {
        NoCubeNoLoss(ctx);
      }
      Perform(ctx, target, fence, sizeMax, calls[next]);
      OneMoreCall(trail, calls[..next], calls[next], ShotOf(ctx));
      assert calls[..next + 1] == calls[..next] + [calls[next]];
      trail := trail + [ShotOf(ctx)];
      next := next + 1;
    }
    assert calls[..next] == calls;
  }

  // ------------------------------------------------------------------ lifetimes

  /** Neither a deletion nor the teardown meets a face with bytes. */
  ghost predicate NothingLost(trail: seq<Shot>, calls: seq<Call>)
    requires Trail(trail, calls)
  {
    && (forall i :: 0 <= i < |calls| ==> DeletesNothing(trail[i], calls[i]))
    && forall i :: 0 <= i < OBJECT_SLOT_COUNT ==> FacesEmpty(trail[|calls|].textures[i])
  }

  ghost predicate DeletesNothing(s: Shot, c: Call)
    requires ShotValid(s)
  {
    Deleted(s, c) < OBJECT_SLOT_COUNT ==> FacesEmpty(s.textures[Deleted(s, c)])
  }

  predicate FacesEmpty(t: TextureObject) {
    forall g :: 0 <= g < |t.faces| ==> FaceBytes(t.faces[g]) == 0
  }

  lemma {:induction false} LostNothingExactly(trail: seq<Shot>, calls: seq<Call>, n: nat)
    requires n <= |calls| < |trail| && forall i :: 0 <= i < |trail| ==> ShotValid(trail[i])
    ensures Lost(trail, calls, n) == 0 <==> forall i :: 0 <= i < n ==> DeletesNothing(trail[i], calls[i])
  {
    hide FacesBytes, FaceBytes;
    if n > 0 {
      LostNothingExactly(trail, calls, n - 1);
      var s, c := trail[n - 1], calls[n - 1];
      if Deleted(s, c) < OBJECT_SLOT_COUNT {
        TextureDeletion.FacesOwnNothing(s.textures[Deleted(s, c)].faces);
      }
    }
  }

  lemma {:induction false} NoFacesExactly(textures: seq<TextureObject>)
    ensures TextureDeletion.FaceTotal(textures) == 0 <==> forall i :: 0 <= i < |textures| ==> FacesEmpty(textures[i])
    ensures TextureDeletion.FaceTotal(textures) == 0 <==> forall i :: 0 <= i < |textures| ==> FacesBytes(textures[i].faces) == 0
  {
    hide FacesBytes, FacesEmpty;
    if textures != [] {
      var last := |textures| - 1;
      NoFacesExactly(textures[..last]);
      assert forall i :: 0 <= i < last ==> textures[..last][i] == textures[i];
      EmptyOwnsNothing(textures[last]);
    }
  }

  lemma EmptyOwnsNothing(t: TextureObject)
    ensures FacesBytes(t.faces) == 0 <==> FacesEmpty(t)
  {
    hide FacesBytes;
    TextureDeletion.FacesOwnNothing(t.faces);
  }

  lemma SessionIsDestroyable(ctx: Context)
    requires SessionValid(ctx)
    ensures TexturesValid(ctx) && Buffers.BuffersValid(ctx) && ImagesApart(ctx)
    ensures forall i :: 0 <= i < |ctx.textures| ==> AtHome(ctx.textures[i])
  {
    hide AtHome, AllHeld, ArraysValid, Sized, Shaped, LedgerValid, Surplus;
  }

  lemma FreshIsSession(ctx: Context)
    requires RefsValid(ctx) && TexturesValid(ctx) && Buffers.BuffersValid(ctx)
    requires ctx.textures == seq(OBJECT_SLOT_COUNT, _ => ZeroTexture())
    requires ctx.slots == seq(OBJECT_SLOT_COUNT, _ => Slot(0, NoType, Free))
    ensures SessionValid(ctx) && NoCubes(ctx.textures)
  {
    hide ZeroTexture, AllHeld, ArraysValid, Sized, Shaped, LedgerValid, Surplus, CubeFaces.Homed, CubeFaces.Summarized;
    ZeroTarget();
  }

  /** What a whole life leaves charged: the faces of the cube maps it deleted, and of
      those it still had at the end. */
  ghost function Remainder(trail: seq<Shot>, calls: seq<Call>): nat
    requires Trail(trail, calls)
  {
    Lost(trail, calls, |calls|) + TextureDeletion.FaceTotal(trail[|calls|].textures)
  }

  /** A life gives everything back exactly if no cube map is deleted, or left at the
      end, while a face of it holds a byte. */
  lemma NothingRemainsExactly(trail: seq<Shot>, calls: seq<Call>)
    requires Trail(trail, calls)
    ensures Remainder(trail, calls) == 0 <==> NothingLost(trail, calls)
  {
    hide StepAt, FacesEmpty, DeletesNothing;
    LostNothingExactly(trail, calls, |calls|);
    NoFacesExactly(trail[|calls|].textures);
  }

  /** A whole life of a context beside others that stand still: create, any calls,
      destroy. The backend is left exactly as it was found. The shared counter comes
      back to where it was plus the face storage of the cube maps that were deleted or
      were left at the end, so it comes back exactly if none of them held a byte. An
      empty trail stands for a refused creation. */
  method Life(process: Process, backend: Backend, recordBytes: nat, described: bool, target: Readback.ColorTarget,
              fence: Readback.FinishFence, sizeMax: nat, calls: seq<Call>)
    returns (ghost trail: seq<Shot>)
    requires process.globalBytes <= MAX_GLOBAL_CPU_ALLOCATION_BYTES && 0 < process.nextAddress
    requires ColorConversion.SurfaceValid(target.surface) && fence.value <= UINT64_MAX
    requires forall i :: 0 <= i < |calls| ==> CallOk(calls[i])
    modifies process, backend, target, fence
    ensures backend.objects == old(backend.objects)
    ensures trail == [] ==> process.globalBytes == old(process.globalBytes)
    ensures trail != [] ==>
              && Trail(trail, calls)
              && trail[0].textures == seq(OBJECT_SLOT_COUNT, _ => ZeroTexture())
              && trail[0].slots == seq(OBJECT_SLOT_COUNT, _ => Slot(0, NoType, Free))
              && process.globalBytes == old(process.globalBytes) + Remainder(trail, calls)
              && (process.globalBytes == old(process.globalBytes) <==> NothingLost(trail, calls))
    ensures BindsNoCube(calls) ==> process.globalBytes == old(process.globalBytes)
  {
    hide SessionValid, TexturesValid, Buffers.BuffersValid, RefsValid, Surplus, Unowned, CallOk, ColorConversion.SurfaceValid, ImagesApart,
      AtHome, StepAt, FacesEmpty, DeletesNothing, ZeroTexture, BindsCube, Loss;
    var _, ctx := ContextLifetime.Create(process, backend, recordBytes, described);
    if ctx == null {
      return [];
    }
    FreshIsSession(ctx);
    trail := Run(ctx, target, fence, sizeMax, calls);
    SessionIsDestroyable(ctx);
    NothingRemainsExactly(trail, calls);
    if BindsNoCube(calls) {
      NoCubeNoFaces(ctx.textures);
      NoFacesExactly(ctx.textures);
    }
    ContextLifetime.Destroy(ctx);
  }
}
